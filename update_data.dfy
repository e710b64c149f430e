/**
 * The data-update tool's version handling: picking the recent versions out
 * of a fetched list, cutting a version string into its numbers, and merging
 * those numbers into the nested version tree of the data file.
 */
module UpdateData {
  import opened GoLib
  import opened Dynamic
  import opened Types
  import Data

  /** Versions whose major number is below this one are dropped. */
  const MinMajorVersion: int := 133

  // ---------------------------------------------------------------------
  // filterVersions
  // ---------------------------------------------------------------------

  /** The text before the first '.' reads as a decimal of at least MinMajorVersion. */
  predicate IsRecent(v: string)
  {
    var major := Atoi(Split(v, '.')[0]);
    major.ok && major.value >= MinMajorVersion
  }

  /** The elements of vs that keep accepts, in their order, duplicates kept. */
  function Kept(vs: seq<string>, keep: string -> bool): seq<string>
    decreases |vs|
  {
    if |vs| == 0 then []
    else Kept(vs[..|vs| - 1], keep) + (if keep(vs[|vs| - 1]) then [vs[|vs| - 1]] else [])
  }

  /** The recent versions of vs, in their order, duplicates kept. */
  function Recent(vs: seq<string>): seq<string>
  {
    Kept(vs, IsRecent)
  }

  /** filterVersions: one pass that keeps each version whose major number parses and is recent enough. */
  method FilterVersions(versions: seq<string>) returns (res: seq<string>)
    ensures res == Recent(versions)
  {
    res := [];
    for i := 0 to |versions|
      invariant res == Recent(versions[..i])
    {
      var v := versions[i];
      assert versions[..i + 1] == versions[..i] + [v];
      var parts := Split(v, '.');
      if |parts| > 0 {
        var major := Atoi(parts[0]);
        if major.ok && major.value >= MinMajorVersion {
          res := res + [v];
        }
      }
    }
    assert versions[..|versions|] == versions;
  }

  /** An element is kept as often as it occurs when keep accepts it, and never otherwise. */
  lemma {:induction false} KeptCount(vs: seq<string>, keep: string -> bool, v: string)
    ensures multiset(Kept(vs, keep))[v] == if keep(v) then multiset(vs)[v] else 0
    decreases |vs|
  {
    if |vs| > 0 {
      var init := vs[..|vs| - 1];
      KeptCount(init, keep, v);
      assert vs == init + [vs[|vs| - 1]];
    }
  }

  /** Filtering works element by element. */
  lemma {:induction false} KeptAppend(a: seq<string>, b: seq<string>, keep: string -> bool)
    ensures Kept(a + b, keep) == Kept(a, keep) + Kept(b, keep)
    decreases |b|
  {
    if |b| > 0 {
      var init := b[..|b| - 1];
      KeptAppend(a, init, keep);
      assert a + b == (a + init) + [b[|b| - 1]];
      assert (a + b)[..|a + b| - 1] == a + init;
    } else {
      assert a + b == a;
    }
  }

  /** A version is kept as often as it occurs when it is recent, and never otherwise. */
  lemma RecentCount(vs: seq<string>, v: string)
    ensures multiset(Recent(vs))[v] == if IsRecent(v) then multiset(vs)[v] else 0
  {
    KeptCount(vs, IsRecent, v);
  }

  /** What is kept is exactly the recent versions of the input. */
  lemma RecentMembers(vs: seq<string>, v: string)
    ensures v in Recent(vs) <==> v in vs && IsRecent(v)
  {
    RecentCount(vs, v);
    assert v in Recent(vs) <==> multiset(Recent(vs))[v] > 0;
    assert v in vs <==> multiset(vs)[v] > 0;
  }

  /** Filtering works element by element, so the input order is kept. */
  lemma RecentAppend(a: seq<string>, b: seq<string>)
    ensures Recent(a + b) == Recent(a) + Recent(b)
  {
    KeptAppend(a, b, IsRecent);
  }

  /** A version written as a 64-bit major number, a '.' and anything is recent exactly when the number is at least 133. */
  lemma RecentByMajor(major: int, rest: string)
    requires IsInt64(major)
    ensures IsRecent(FormatInt(major) + "." + rest) <==> major >= MinMajorVersion
  {
    FormatIntHasNoChar(major, '.');
    SplitAfterSeparator(FormatInt(major), '.', rest);
    assert FormatInt(major) + "." + rest == FormatInt(major) + ['.'] + rest;
    AtoiFormatInt(major);
  }

  /** A version with no '.' is judged by the whole text. */
  lemma RecentWithoutDot(v: string)
    requires '.' !in v
    ensures IsRecent(v) <==> Atoi(v).ok && Atoi(v).value >= MinMajorVersion
  {
    SplitNoSeparator(v, '.');
  }

  // ---------------------------------------------------------------------
  // parseVersion
  // ---------------------------------------------------------------------

  /** parseVersion: every '.'-separated part read with Atoi, its error ignored. */
  method ParseVersion(v: string) returns (res: seq<int>)
    ensures res == ParsedParts(v)
    ensures |res| == |Split(v, '.')| >= 1
    ensures forall i :: 0 <= i < |res| ==> res[i] == Atoi(Split(v, '.')[i]).value
    ensures forall i :: 0 <= i < |res| ==> IsInt64(res[i])
    ensures forall i :: 0 <= i < |res| ==> var p := Split(v, '.')[i];
      (RunOverflows(p) ==> res[i] == if Negative(p) then MinInt64 else MaxInt64)
      && (DecimalValue(p).NotDecimal? && !RunOverflows(p) ==> res[i] == 0)
  {
    var parts := Split(v, '.');
    res := [];
    for i := 0 to |parts|
      invariant |res| == i
      invariant forall j :: 0 <= j < i ==> res[j] == Atoi(parts[j]).value
    {
      var n := Atoi(parts[i]);
      res := res + [n.value];
    }
  }

  /** The numbers of a parsed version, as a function. */
  function ParsedParts(v: string): (cs: seq<int>)
  {
    var parts := Split(v, '.');
    seq(|parts|, i requires 0 <= i < |parts| => Atoi(parts[i]).value)
  }

  /** Parsing a rendered version whose components fit in 64 bits gives the components back. */
  lemma ParsedPartsRender(v: Version)
    requires |v.components| > 0
    requires forall i :: 0 <= i < |v.components| ==> IsInt64(v.components[i])
    ensures ParsedParts(Render(v)) == v.components
  {
    RenderSplits(v);
    var parts := FormatAll(v.components);
    forall i | 0 <= i < |parts| ensures Atoi(parts[i]).value == v.components[i] {
      AtoiFormatInt(v.components[i]);
    }
  }

  /** The text "x" with no '.' parses to the single number Atoi gives it: never an empty list. */
  lemma ParsedPartsNoDot(v: string)
    requires '.' !in v
    ensures ParsedParts(v) == [Atoi(v).value]
  {
    SplitNoSeparator(v, '.');
  }

  /** A part whose digits overflow before its first bad character keeps Atoi's clamped bound. */
  lemma ParsedPartsOverflow()
    ensures ParsedParts(Nines(20) + "x") == [MaxInt64]
  {
    var p := Nines(20) + "x";
    assert '.' !in p by {
      assert forall i :: 0 <= i < 20 ==> p[i] == '9';
      assert p[20] == 'x';
    }
    ParsedPartsNoDot(p);
    AtoiOverflowBeforeSyntax();
  }

  // ---------------------------------------------------------------------
  // addToMap
  // ---------------------------------------------------------------------

  /** The int items of a decoded list, in order; items of any other type are dropped. */
  function IntItems(items: seq<Node>): (ints: seq<int>)
    decreases |items|
  {
    if |items| == 0 then []
    else
      IntItems(items[..|items| - 1]) +
      (match items[|items| - 1] case Atom(GoInt(n)) => [n] case _ => [])
  }

  /** n is among the int items exactly when the list holds the int n. */
  lemma {:induction false} IntItemsMembers(items: seq<Node>, n: int)
    ensures n in IntItems(items) <==> Atom(GoInt(n)) in items
    decreases |items|
  {
    if |items| > 0 {
      var init := items[..|items| - 1];
      IntItemsMembers(init, n);
      assert items == init + [items[|items| - 1]];
    }
  }

  /** A map with dynamically typed keys with its int keys kept and every other key dropped. */
  function IntKeyed(pairs: map<Scalar, Node>): (m: map<int, Node>)
    ensures forall k :: k in m <==> GoInt(k) in pairs
    ensures forall k :: k in m ==> m[k] == pairs[GoInt(k)]
  {
    map s | s in pairs && s.GoInt? :: s.n := pairs[s]
  }

  /**
   * addToMap on values: the tree after merging components into m. The first
   * component selects the entry; with one component left below it that
   * component is a leaf number, otherwise the entry must be a map to go
   * deeper into. Only the entry under the first component is replaced.
   */
  function Added(m: map<int, Node>, components: seq<int>): map<int, Node>
    decreases |components|, 2
  {
    if |components| < 2 then m
    else if |components| == 2 then AddedLeaf(m, components[0], components[1])
    else AddedBranch(m, components)
  }

  /** Adding the leaf number x below head; a missing entry starts as an empty list. */
  function AddedLeaf(m: map<int, Node>, head: int, x: int): map<int, Node>
    decreases 2, 1
  {
    m[head := LeafEntry(if head in m then m[head] else IntList([]), x)]
  }

  /**
   * The entry under head after adding the leaf number x: a list gains x
   * unless it holds it, a map is descended into with x alone, nil becomes
   * [x], and any other value is left alone.
   */
  function LeafEntry(cur: Node, x: int): Node
    decreases 2, 0
  {
    match cur
    case IntList(v) => if x in v then cur else IntList(SortInts(v + [x]))
    case AnyList(items) =>
      var ints := IntItems(items);
      if x in ints then cur else IntList(SortInts(ints + [x]))
    case IntMap(entries) => IntMap(Added(entries, [x]))
    case AnyMap(pairs) => IntMap(Added(IntKeyed(pairs), [x]))
    case Nil => IntList([x])
    case Atom(_) => cur
  }

  /** Going deeper below the first component; a missing entry starts as an empty map. */
  function AddedBranch(m: map<int, Node>, components: seq<int>): map<int, Node>
    requires |components| >= 3
    decreases |components|, 1
  {
    var head := components[0];
    m[head := BranchEntry(if head in m then m[head] else IntMap(map[]), components[1..])]
  }

  /**
   * The entry under the first component after merging the remaining ones
   * (at least two) into it: nil becomes an empty map, a map with other key
   * types is narrowed to its int keys, and a list or any other value stops
   * the descent.
   */
  function BranchEntry(cur: Node, tail: seq<int>): Node
    requires |tail| >= 2
    decreases |tail| + 1, 0
  {
    match cur
    case IntMap(entries) => IntMap(Added(entries, tail))
    case AnyMap(pairs) => IntMap(Added(IntKeyed(pairs), tail))
    case Nil => IntMap(Added(map[], tail))
    case _ => cur
  }

  /** The scan for x in a list of numbers that both leaf cases of addToMap make. */
  method Contains(v: seq<int>, x: int) returns (found: bool)
    ensures found <==> x in v
  {
    found := false;
    var i := 0;
    while i < |v|
      invariant 0 <= i <= |v|
      invariant !found && x !in v[..i]
    {
      if v[i] == x {
        found := true;
        break;
      }
      i := i + 1;
      assert v[..i] == v[..i - 1] + [v[i - 1]];
    }
    assert !found ==> v[..|v|] == v;
  }

  /** The int items of a list, collected in one pass as the []interface{} case does. */
  method CollectInts(items: seq<Node>) returns (ints: seq<int>)
    ensures ints == IntItems(items)
  {
    ints := [];
    for j := 0 to |items|
      invariant ints == IntItems(items[..j])
    {
      assert items[..j + 1] == items[..j] + [items[j]];
      match items[j] {
        case Atom(GoInt(n)) => ints := ints + [n];
        case _ =>
      }
    }
    assert items[..|items|] == items;
  }

  /**
   * addToMap, with the tree passed and returned by value: an inner map the
   * source updates in place is rebuilt and stored back under its key.
   */
  method AddToMap(m: map<int, Node>, components: seq<int>) returns (r: map<int, Node>)
    ensures r == Added(m, components)
    decreases |components|, 2
  {
    r := m;
    if |components| == 0 {
      return;
    }
    var head := components[0];
    var tail := components[1..];
    if |tail| == 0 {
      return;
    }
    if |tail| == 1 {
      r := AddLeaf(m, head, tail[0]);
      return;
    }
    r := AddBranch(m, components);
  }

  /** The case of addToMap where one component is left below head: x is a leaf number. */
  method AddLeaf(m: map<int, Node>, head: int, x: int) returns (r: map<int, Node>)
    ensures r == AddedLeaf(m, head, x)
    decreases 2, 1
  {
    r := m;
    if head !in r {
      r := r[head := IntList([])];
    }
    var entry := NewLeafEntry(r[head], x);
    r := r[head := entry];
  }

  /**
   * The type switch of the leaf case: the value stored back under head. Where
   * the source leaves m[head] alone, the entry is the one it found.
   */
  method NewLeafEntry(cur: Node, x: int) returns (entry: Node)
    ensures entry == LeafEntry(cur, x)
    decreases 2, 0
  {
    entry := cur;
    match cur {
      case IntList(v) =>
        var found := Contains(v, x);
        if !found {
          entry := IntList(SortInts(v + [x]));
        }
      case AnyList(items) =>
        var ints := CollectInts(items);
        var found := Contains(ints, x);
        if !found {
          entry := IntList(SortInts(ints + [x]));
        }
      case IntMap(entries) =>
        var sub := AddToMap(entries, [x]);
        entry := IntMap(sub);
      case AnyMap(pairs) =>
        var newMap := IntKeyed(pairs);
        var sub := AddToMap(newMap, [x]);
        entry := IntMap(sub);
      case Nil =>
        entry := IntList([x]);
      case Atom(_) =>
    }
  }

  /** The case of addToMap where more components follow: the entry under the first must be a map. */
  method AddBranch(m: map<int, Node>, components: seq<int>) returns (r: map<int, Node>)
    requires |components| >= 3
    ensures r == AddedBranch(m, components)
    decreases |components|, 1
  {
    var head := components[0];
    r := m;
    if head !in r {
      r := r[head := IntMap(map[])];
    }
    var entry := NewBranchEntry(r[head], components[1..]);
    r := r[head := entry];
  }

  /**
   * The type switch on the way down: a map (converted first if its keys are
   * untyped) or nil is filled from the remaining components; a leaf list or
   * any other value is left as it is.
   */
  method NewBranchEntry(cur: Node, tail: seq<int>) returns (entry: Node)
    requires |tail| >= 2
    ensures entry == BranchEntry(cur, tail)
    decreases |tail| + 1, 0
  {
    match cur {
      case IntMap(entries) =>
        var sub := AddToMap(entries, tail);
        entry := IntMap(sub);
      case AnyMap(pairs) =>
        var newMap := IntKeyed(pairs);
        var sub := AddToMap(newMap, tail);
        entry := IntMap(sub);
      case IntList(_) =>
        entry := cur;
      case Nil =>
        var newMap: map<int, Node> := map[];
        var sub := AddToMap(newMap, tail);
        entry := IntMap(sub);
      case AnyList(_) =>
        entry := cur;
      case Atom(_) =>
        entry := cur;
    }
  }

  /** Fewer than two components leave the tree as it is. */
  lemma AddedShort(m: map<int, Node>, components: seq<int>)
    requires |components| < 2
    ensures Added(m, components) == m
  {
  }

  /** Two components are one leaf addition. */
  lemma AddedTwo(m: map<int, Node>, head: int, x: int)
    ensures Added(m, [head, x]) == AddedLeaf(m, head, x)
  {
  }

  /** A leaf number under a missing or nil entry becomes a one-element list. */
  lemma AddedFreshLeaf(m: map<int, Node>, head: int, x: int)
    requires head !in m || m[head] == Nil
    ensures Added(m, [head, x]) == m[head := IntList([x])]
  {
    AddedTwo(m, head, x);
  }

  /** A leaf number already in the list changes nothing. */
  lemma AddedLeafPresent(m: map<int, Node>, head: int, x: int)
    requires head in m && m[head].IntList? && x in m[head].ints
    ensures Added(m, [head, x]) == m
  {
    AddedTwo(m, head, x);
    assert LeafEntry(m[head], x) == m[head];
  }

  /** A new leaf number is inserted: the list stays ascending and gains exactly x; nothing else changes. */
  lemma AddedLeafInsert(m: map<int, Node>, head: int, x: int)
    requires head in m && m[head].IntList? && x !in m[head].ints
    ensures var r := Added(m, [head, x]);
      head in r && r[head].IntList? && Ascending(r[head].ints) &&
      multiset(r[head].ints) == multiset(m[head].ints) + multiset{x} &&
      r == m[head := r[head]]
  {
    AddedTwo(m, head, x);
  }

  /** A leaf number where the entry is a map of numbers changes nothing: it is never added. */
  lemma AddedLeafOverMap(m: map<int, Node>, head: int, x: int)
    requires head in m && m[head].IntMap?
    ensures Added(m, [head, x]) == m
  {
    AddedTwo(m, head, x);
    assert Added(m[head].entries, [x]) == m[head].entries;
    assert LeafEntry(m[head], x) == m[head];
  }

  /** A missing or nil entry on the way down becomes a fresh map filled from the remaining components. */
  lemma AddedFreshBranch(m: map<int, Node>, components: seq<int>)
    requires |components| >= 3
    requires components[0] !in m || m[components[0]] == Nil
    ensures Added(m, components) == m[components[0] := IntMap(Added(map[], components[1..]))]
  {
    assert Added(m, components) == AddedBranch(m, components);
    var cur := if components[0] in m then m[components[0]] else IntMap(map[]);
    assert BranchEntry(cur, components[1..]) == IntMap(Added(map[], components[1..]));
  }

  /** A list where the path needs a map stops the descent and changes nothing. */
  lemma AddedBranchOverList(m: map<int, Node>, components: seq<int>)
    requires |components| >= 3
    requires components[0] in m && m[components[0]].IntList?
    ensures Added(m, components) == m
  {
    assert Added(m, components) == AddedBranch(m, components);
    assert BranchEntry(m[components[0]], components[1..]) == m[components[0]];
  }

  /**
   * Only the entry under the first component changes; every other key keeps
   * its entry, and the first component's key is present afterwards.
   */
  lemma AddedFrame(m: map<int, Node>, components: seq<int>)
    requires |components| >= 2
    ensures Added(m, components).Keys == m.Keys + {components[0]}
    ensures forall k :: k in m && k != components[0] ==> Added(m, components)[k] == m[k]
  {
    var head := components[0];
    if |components| == 2 {
      assert Added(m, components) == AddedLeaf(m, head, components[1]);
    } else {
      assert Added(m, components) == AddedBranch(m, components);
    }
  }

  /** The entry a leaf addition leaves behind is a list holding the number, or an untouched entry of another type. */
  lemma AddedLeafHolds(m: map<int, Node>, head: int, x: int)
    requires head !in m || m[head].IntList? || m[head].Nil? || m[head].AnyList?
    ensures var r := Added(m, [head, x]);
      head in r && (r[head].IntList? || r[head].AnyList?) &&
      (r[head].IntList? ==> x in r[head].ints) &&
      (r[head].AnyList? ==> head in m && r[head] == m[head] && Atom(GoInt(x)) in m[head].items)
  {
    AddedTwo(m, head, x);
    if head in m && m[head].IntList? && x !in m[head].ints {
      var w := SortInts(m[head].ints + [x]);
      assert x in multiset(w);
    } else if head in m && m[head].AnyList? {
      var ints := IntItems(m[head].items);
      IntItemsMembers(m[head].items, x);
      if x !in ints {
        var w := SortInts(ints + [x]);
        assert x in multiset(w);
      }
    }
  }

  /** The leaf entry holds x after one addition, so a second addition keeps it. */
  lemma LeafEntryIdempotent(cur: Node, x: int)
    ensures LeafEntry(LeafEntry(cur, x), x) == LeafEntry(cur, x)
  {
    match cur {
      case IntList(v) =>
        if x !in v {
          assert x in multiset(SortInts(v + [x]));
        }
      case AnyList(items) =>
        var ints := IntItems(items);
        if x !in ints {
          assert x in multiset(SortInts(ints + [x]));
        }
      case IntMap(entries) =>
        assert Added(entries, [x]) == entries;
      case AnyMap(pairs) =>
        assert Added(IntKeyed(pairs), [x]) == IntKeyed(pairs);
        assert Added(Added(IntKeyed(pairs), [x]), [x]) == IntKeyed(pairs);
      case Nil =>
        assert x in [x];
      case Atom(_) =>
    }
  }

  /** Adding the same leaf number twice is the same as adding it once. */
  lemma AddedLeafIdempotent(m: map<int, Node>, head: int, x: int)
    ensures AddedLeaf(AddedLeaf(m, head, x), head, x) == AddedLeaf(m, head, x)
  {
    var cur := if head in m then m[head] else IntList([]);
    LeafEntryIdempotent(cur, x);
    var r := AddedLeaf(m, head, x);
    assert r[head] == LeafEntry(cur, x);
    assert AddedLeaf(r, head, x) == r[head := LeafEntry(r[head], x)];
  }

  /** Merging the same version twice is the same as merging it once. */
  lemma {:induction false} AddedIdempotent(m: map<int, Node>, components: seq<int>)
    ensures Added(Added(m, components), components) == Added(m, components)
    decreases |components|
  {
    if |components| == 2 {
      AddedLeafIdempotent(m, components[0], components[1]);
    } else if |components| > 2 {
      var head := components[0];
      var tail := components[1..];
      var r := Added(m, components);
      assert r == AddedBranch(m, components);
      assert Added(r, components) == AddedBranch(r, components);
      if head in m && m[head].IntMap? {
        AddedIdempotent(m[head].entries, tail);
        assert BranchEntry(r[head], tail) == r[head];
      } else if head in m && m[head].AnyMap? {
        AddedIdempotent(IntKeyed(m[head].pairs), tail);
        assert BranchEntry(r[head], tail) == r[head];
      } else if head !in m || m[head].Nil? {
        AddedIdempotent(map[], tail);
        assert BranchEntry(r[head], tail) == r[head];
      }
    }
  }

  /**
   * The path of components meets entries addToMap can extend: missing or nil
   * entries, maps on the way down, and a list at the leaf.
   */
  predicate Fits(m: map<int, Node>, components: seq<int>)
    decreases |components|
  {
    |components| >= 2 &&
    var head := components[0];
    if head !in m || m[head].Nil? then true
    else if |components| == 2 then m[head].IntList? || m[head].AnyList?
    else
      (m[head].IntMap? && Fits(m[head].entries, components[1..])) ||
      (m[head].AnyMap? && Fits(IntKeyed(m[head].pairs), components[1..]))
  }

  /** An empty tree fits every version of at least two components. */
  lemma FitsEmpty(components: seq<int>)
    requires |components| >= 2
    ensures Fits(map[], components)
  {
  }

  /** The leaf case: the list left under head yields the version ending in x. */
  lemma AddedLeafIsLoaded(below: seq<int>, m: map<int, Node>, head: int, x: int)
    requires head !in m || m[head].Nil? || m[head].IntList? || m[head].AnyList?
    ensures var r := Added(m, [head, x]);
      head in r && Version(below + [x]) in Data.Decoded(below, r[head])
  {
    var r := Added(m, [head, x]);
    AddedLeafHolds(m, head, x);
    var leaves: seq<int>;
    if r[head].IntList? {
      leaves := r[head].ints;
    } else {
      assert r[head].AnyList?;
      var items := m[head].items;
      var j :| 0 <= j < |items| && items[j] == Atom(GoInt(x));
      Data.AcceptedIntsMembers(items, x);
      assert Data.ToInt(items[j]) == Data.Converted(x, true);
      leaves := Data.AcceptedInts(items);
    }
    assert x in leaves;
    var i :| 0 <= i < |leaves| && leaves[i] == x;
    assert Data.Extend(below, leaves)[i] == Version(below + [x]);
  }

  /**
   * A version merged into a tree it fits is read back by the generator's
   * data loader: parseVersions over the new tree yields it.
   */
  lemma {:induction false} AddedIsLoaded(prefix: seq<int>, m: map<int, Node>, components: seq<int>)
    requires Fits(m, components)
    ensures Version(prefix + components) in Data.Decoded(prefix, IntMap(Added(m, components)))
    decreases |components|
  {
    var head := components[0];
    var tail := components[1..];
    var r := Added(m, components);
    AddedFrame(m, components);
    Data.DecodedIntKeysPick(prefix, r, r.Keys, head);
    assert Data.Decoded(prefix, IntMap(r)) == Data.DecodedIntKeys(prefix, r, r.Keys);
    var below := prefix + [head];
    if |components| == 2 {
      assert components == [head, components[1]];
      AddedLeafIsLoaded(below, m, head, components[1]);
      assert prefix + components == below + [components[1]];
    } else {
      assert r == AddedBranch(m, components);
      assert prefix + components == below + tail;
      var sub: map<int, Node>;
      if head !in m || m[head].Nil? {
        sub := map[];
        FitsEmpty(tail);
      } else if m[head].IntMap? {
        sub := m[head].entries;
      } else {
        sub := IntKeyed(m[head].pairs);
      }
      var cur := if head in m then m[head] else IntMap(map[]);
      assert BranchEntry(cur, tail) == IntMap(Added(sub, tail));
      AddedIsLoaded(below, sub, tail);
    }
  }
}
