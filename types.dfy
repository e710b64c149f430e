/**
 * generator/types.go: browser and OS names, and the Version value with its
 * ordering (Compare) and its rendering (String).
 */
module Types {
  import opened GoLib

  type BrowserName = string
  type OSName = string

  const Chrome: BrowserName := "chrome"
  const Firefox: BrowserName := "firefox"
  const Safari: BrowserName := "safari"
  const Edge: BrowserName := "edge"

  const Windows: OSName := "windows"
  const Linux: OSName := "linux"
  const MacOS: OSName := "macos"
  const Android: OSName := "android"
  const IOS: OSName := "ios"

  /** A version with any number of components; the empty version has none. */
  datatype Version = Version(components: seq<int>)

  // ---------------------------------------------------------------------
  // Ordering
  // ---------------------------------------------------------------------

  /** Component i of the version padded with zeros forever. */
  function At(v: Version, i: nat): int
  {
    if i < |v.components| then v.components[i] else 0
  }

  function Width(a: Version, b: Version): nat
  {
    if |a.components| >= |b.components| then |a.components| else |b.components|
  }

  /** The first n components of the zero-padded version. */
  function Padded(v: Version, n: nat): (p: seq<int>)
    ensures |p| == n
    ensures forall i :: 0 <= i < n ==> p[i] == At(v, i)
  {
    seq(n, i requires 0 <= i < n => At(v, i))
  }

  /** Lexicographic three-way comparison of two sequences of the same length. */
  function Lex(x: seq<int>, y: seq<int>): int
    requires |x| == |y|
    decreases |x|
  {
    if |x| == 0 then 0
    else if x[0] < y[0] then -1
    else if x[0] > y[0] then 1
    else Lex(x[1..], y[1..])
  }

  /** The order Compare decides: lexicographic on the components padded to a common width. */
  function Cmp(a: Version, b: Version): int
  {
    var n := Width(a, b);
    Lex(Padded(a, n), Padded(b, n))
  }

  /** Version.Compare: -1, 0 or 1 as v is below, level with or above other. */
  method Compare(v: Version, other: Version) returns (r: int)
    ensures r == Cmp(v, other)
  {
    var len1 := |v.components|;
    var len2 := |other.components|;
    var maxLen := len1;
    if len2 > maxLen {
      maxLen := len2;
    }
    ghost var p1, p2 := Padded(v, maxLen), Padded(other, maxLen);
    var i := 0;
    while i < maxLen
      invariant 0 <= i <= maxLen
      invariant Lex(p1[i..], p2[i..]) == Cmp(v, other)
    {
      var v1 := 0;
      if i < len1 {
        v1 := v.components[i];
      }
      var v2 := 0;
      if i < len2 {
        v2 := other.components[i];
      }
      assert p1[i..][0] == v1 && p2[i..][0] == v2;
      if v1 < v2 {
        return -1;
      }
      if v1 > v2 {
        return 1;
      }
      assert p1[i..][1..] == p1[i + 1..] && p2[i..][1..] == p2[i + 1..];
      i := i + 1;
    }
    return 0;
  }

  // --- Lex facts ---

  lemma {:induction false} LexRange(x: seq<int>, y: seq<int>)
    requires |x| == |y|
    ensures Lex(x, y) in {-1, 0, 1}
    decreases |x|
  {
    if |x| > 0 && x[0] == y[0] {
      LexRange(x[1..], y[1..]);
    }
  }

  lemma {:induction false} LexAntisymmetric(x: seq<int>, y: seq<int>)
    requires |x| == |y|
    ensures Lex(x, y) == -Lex(y, x)
    decreases |x|
  {
    if |x| > 0 && x[0] == y[0] {
      LexAntisymmetric(x[1..], y[1..]);
    }
  }

  lemma {:induction false} LexZero(x: seq<int>, y: seq<int>)
    requires |x| == |y|
    ensures Lex(x, y) == 0 <==> x == y
    decreases |x|
  {
    if |x| > 0 {
      LexZero(x[1..], y[1..]);
      assert x == [x[0]] + x[1..] && y == [y[0]] + y[1..];
    }
  }

  lemma {:induction false} LexTransitive(x: seq<int>, y: seq<int>, z: seq<int>)
    requires |x| == |y| == |z|
    requires Lex(x, y) <= 0 && Lex(y, z) <= 0
    ensures Lex(x, z) <= 0
    ensures Lex(x, z) == 0 ==> Lex(x, y) == 0 && Lex(y, z) == 0
    decreases |x|
  {
    if |x| > 0 && x[0] == y[0] == z[0] {
      LexTransitive(x[1..], y[1..], z[1..]);
    }
  }

  lemma {:induction false} LexAppend(x: seq<int>, y: seq<int>, u: seq<int>, w: seq<int>)
    requires |x| == |y| && |u| == |w|
    ensures Lex(x + u, y + w) == if Lex(x, y) != 0 then Lex(x, y) else Lex(u, w)
    decreases |x|
  {
    if |x| == 0 {
      assert x + u == u && y + w == w;
    } else {
      assert (x + u)[0] == x[0] && (y + w)[0] == y[0];
      assert (x + u)[1..] == x[1..] + u && (y + w)[1..] == y[1..] + w;
      LexAppend(x[1..], y[1..], u, w);
    }
  }

  /** Padding both operands further does not change the comparison. */
  lemma CmpAtWidth(a: Version, b: Version, n: nat)
    requires n >= Width(a, b)
    ensures Cmp(a, b) == Lex(Padded(a, n), Padded(b, n))
  {
    var w := Width(a, b);
    var zeros := seq(n - w, i => 0);
    assert Padded(a, n) == Padded(a, w) + zeros;
    assert Padded(b, n) == Padded(b, w) + zeros;
    LexAppend(Padded(a, w), Padded(b, w), zeros, zeros);
    LexZero(zeros, zeros);
  }

  // --- Properties of the order ---

  /** Compare returns only -1, 0 or 1. */
  lemma CompareRange(a: Version, b: Version)
    ensures Cmp(a, b) in {-1, 0, 1}
  {
    LexRange(Padded(a, Width(a, b)), Padded(b, Width(a, b)));
  }

  /** Swapping the operands negates the result; every version is level with itself. */
  lemma CompareAntisymmetric(a: Version, b: Version)
    ensures Cmp(a, b) == -Cmp(b, a)
    ensures Cmp(a, a) == 0
  {
    assert Width(a, b) == Width(b, a);
    LexAntisymmetric(Padded(a, Width(a, b)), Padded(b, Width(a, b)));
    LexZero(Padded(a, Width(a, a)), Padded(a, Width(a, a)));
  }

  /** Two versions are level exactly when they agree at every zero-padded position. */
  lemma CompareZeroIff(a: Version, b: Version)
    ensures Cmp(a, b) == 0 <==> Padded(a, Width(a, b)) == Padded(b, Width(a, b))
    ensures Cmp(a, b) == 0 <==> forall i: nat :: At(a, i) == At(b, i)
  {
    var n := Width(a, b);
    LexZero(Padded(a, n), Padded(b, n));
    if Padded(a, n) == Padded(b, n) {
      forall i: nat ensures At(a, i) == At(b, i) {
        if i < n { assert Padded(a, n)[i] == Padded(b, n)[i]; }
      }
    }
  }

  /** a and b agree, zero-padded, below position k, and a is smaller at k. */
  predicate BelowAt(a: Version, b: Version, k: nat)
  {
    (forall i: nat :: i < k ==> At(a, i) == At(b, i)) && At(a, k) < At(b, k)
  }

  /** A version is below another exactly when they agree up to some position k and it is smaller at k. */
  lemma CompareFirstDifference(a: Version, b: Version)
    ensures Cmp(a, b) == -1 <==> exists k: nat :: BelowAt(a, b, k)
  {
    if Cmp(a, b) == -1 {
      var k := BelowAtOfCmp(a, b);
    }
    if exists k: nat :: BelowAt(a, b, k) {
      var k: nat :| BelowAt(a, b, k);
      CmpOfBelowAt(a, b, k);
    }
  }

  /** Where Compare says below, the first differing position. */
  lemma BelowAtOfCmp(a: Version, b: Version) returns (k: nat)
    requires Cmp(a, b) == -1
    ensures BelowAt(a, b, k)
  {
    var n := Width(a, b);
    var pa, pb := Padded(a, n), Padded(b, n);
    k := FirstDifference(pa, pb);
    forall i: nat | i < k ensures At(a, i) == At(b, i) {
      assert pa[i] == pb[i];
    }
    assert pa[k] < pb[k];
  }

  /** A first difference in a's disfavour makes Compare say below. */
  lemma CmpOfBelowAt(a: Version, b: Version, k: nat)
    requires BelowAt(a, b, k)
    ensures Cmp(a, b) == -1
  {
    var n := Width(a, b);
    var pa, pb := Padded(a, n), Padded(b, n);
    assert k < n;
    assert pa[..k] == pb[..k] by {
      forall i | 0 <= i < k ensures pa[i] == pb[i] { }
    }
    LexAppend(pa[..k], pb[..k], pa[k..], pb[k..]);
    assert pa[..k] + pa[k..] == pa && pb[..k] + pb[k..] == pb;
    LexZero(pa[..k], pb[..k]);
    assert pa[k..][0] == pa[k] && pb[k..][0] == pb[k];
  }

  /** Where Lex finds x below y, the first position where they differ. */
  lemma {:induction false} FirstDifference(x: seq<int>, y: seq<int>) returns (k: nat)
    requires |x| == |y| && Lex(x, y) == -1
    ensures k < |x| && x[..k] == y[..k] && x[k] < y[k]
    decreases |x|
  {
    if x[0] < y[0] {
      k := 0;
    } else {
      var k' := FirstDifference(x[1..], y[1..]);
      k := k' + 1;
      assert x[..k] == [x[0]] + x[1..][..k'] && y[..k] == [y[0]] + y[1..][..k'];
    }
  }

  /** The order is transitive, and strictly so when either step is strict. */
  lemma CompareTransitive(a: Version, b: Version, c: Version)
    requires Cmp(a, b) <= 0 && Cmp(b, c) <= 0
    ensures Cmp(a, c) <= 0
    ensures Cmp(a, c) == 0 ==> Cmp(a, b) == 0 && Cmp(b, c) == 0
  {
    var n := Width(a, b);
    if Width(b, c) > n { n := Width(b, c); }
    CmpAtWidth(a, b, n);
    CmpAtWidth(b, c, n);
    CmpAtWidth(a, c, n);
    LexTransitive(Padded(a, n), Padded(b, n), Padded(c, n));
  }

  /** Missing components count as zero; components are compared position by position. */
  lemma CompareExamples()
    ensures Cmp(Version([145, 2]), Version([145, 2, 0, 0])) == 0
    ensures Cmp(Version([133, 0]), Version([133, 1])) == -1
  {
    CompareZeroIff(Version([145, 2]), Version([145, 2, 0, 0]));
    assert Padded(Version([145, 2]), 4) == [145, 2, 0, 0];
    assert Padded(Version([133, 0]), 2) == [133, 0];
    assert Padded(Version([133, 1]), 2) == [133, 1];
  }

  // ---------------------------------------------------------------------
  // Rendering
  // ---------------------------------------------------------------------

  /** Each component in "%d" form. */
  function FormatAll(cs: seq<int>): (parts: seq<string>)
    ensures |parts| == |cs|
    ensures forall i :: 0 <= i < |cs| ==> parts[i] == FormatInt(cs[i])
  {
    seq(|cs|, i requires 0 <= i < |cs| => FormatInt(cs[i]))
  }

  /** The text Version.String produces. */
  function Render(v: Version): string
  {
    Join(FormatAll(v.components), '.')
  }

  /** Version.String: the components in decimal, joined with '.'. */
  method String(v: Version) returns (s: string)
    ensures s == Render(v)
  {
    var parts := new string[|v.components|];
    ghost var all := FormatAll(v.components);
    for i := 0 to |v.components|
      invariant parts[..i] == all[..i]
    {
      parts[i] := FormatInt(v.components[i]);
    }
    assert parts[..] == all[..|all|] == all;
    s := Join(parts[..], '.');
  }

  /**
   * The rendering splits at '.' back into the components' decimal forms,
   * so there is no leading, trailing or doubled separator.
   */
  lemma RenderSplits(v: Version)
    requires |v.components| > 0
    ensures Split(Render(v), '.') == FormatAll(v.components)
    ensures var s := Render(v); |s| > 0 && s[0] != '.' && s[|s| - 1] != '.'
  {
    var parts := FormatAll(v.components);
    forall i | 0 <= i < |parts| ensures '.' !in parts[i] {
      FormatIntHasNoChar(v.components[i], '.');
    }
    SplitJoin(parts, '.');
    JoinEnds(parts, '.');
  }

  /** A join of non-empty parts starts with the first part's first character and ends with the last part's last. */
  lemma {:induction false} JoinEnds(parts: seq<string>, sep: char)
    requires |parts| > 0
    requires forall i :: 0 <= i < |parts| ==> |parts[i]| > 0 && sep !in parts[i]
    ensures var s := Join(parts, sep); |s| > 0 && s[0] != sep && s[|s| - 1] != sep
    decreases |parts|
  {
    if |parts| > 1 {
      JoinEnds(parts[1..], sep);
      assert parts[0][0] in parts[0];
      var rest := Join(parts[1..], sep);
      assert (parts[0] + [sep] + rest)[0] == parts[0][0];
    } else {
      assert parts[0][0] in parts[0] && parts[0][|parts[0]| - 1] in parts[0];
    }
  }

  /** The empty version renders as the empty string. */
  lemma RenderEmpty()
    ensures Render(Version([])) == ""
  {
  }

  lemma RenderOne()
    ensures Render(Version([133])) == "133"
  {
    assert FormatInt(133) == "133";
    assert FormatAll([133]) == ["133"];
  }

  /** [145, 2] renders as "145.2". */
  lemma RenderTwo()
    ensures Render(Version([145, 2])) == "145.2"
  {
    assert FormatInt(145) == "145";
    assert FormatInt(2) == "2";
    assert FormatAll([145, 2]) == ["145", "2"];
  }

  lemma FormatAllFour()
    ensures FormatAll([133, 0, 6943, 98]) == ["133", "0", "6943", "98"]
  {
    assert FormatInt(133) == "133";
    assert FormatInt(0) == "0";
    assert FormatInt(6943) == "6943";
    assert FormatInt(98) == "98";
  }

  /** [133, 0, 6943, 98] renders as "133.0.6943.98". */
  lemma RenderFour()
    ensures Render(Version([133, 0, 6943, 98])) == "133.0.6943.98"
  {
    FormatAllFour();
  }
}
