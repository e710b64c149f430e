/**
 * generator/generator.go: Generate (options, lookup, filtering, selection,
 * User-Agent template and headers), filterVersions and selectVersion. The
 * generator's random number source is replaced by the draws it would make,
 * passed in as bounded parameters.
 */
module Generator {
  import opened GoLib
  import opened Types
  import Options
  import opened OptionRecord
  import opened Data
  import opened Headers

  /** The placeholder a User-Agent template carries for the version. */
  const VersionMarker: string := "{{version}}"

  /** The three ways Generate fails. */
  datatype GenError =
    | BrowserNotFound(browser: BrowserName)
    | OSNotFound(os: OSName, browser: BrowserName)
    | NoMatch

  /** Result: the User-Agent string and the header map. */
  datatype GenResult = GenResult(userAgent: string, headers: map<string, string>)

  datatype Outcome = Ok(result: GenResult) | Err(error: GenError)

  // ---------------------------------------------------------------------
  // filterVersions
  // ---------------------------------------------------------------------

  /** The bounds check of filterVersions: an empty bound admits everything. */
  predicate InRange(v: Version, min: Version, max: Version)
  {
    (|min.components| == 0 || Cmp(v, min) >= 0) && (|max.components| == 0 || Cmp(v, max) <= 0)
  }

  /** The versions within the bounds, in their original order. */
  function Filtered(vs: seq<Version>, min: Version, max: Version): seq<Version>
    decreases |vs|
  {
    if |vs| == 0 then []
    else
      var rest := Filtered(vs[..|vs| - 1], min, max);
      if InRange(vs[|vs| - 1], min, max) then rest + [vs[|vs| - 1]] else rest
  }

  /** filterVersions: append each version that passes both bound checks. */
  method FilterVersions(versions: seq<Version>, opts: GenerateOptions) returns (filtered: seq<Version>)
    ensures filtered == Filtered(versions, opts.minVersion, opts.maxVersion)
  {
    filtered := [];
    for i := 0 to |versions|
      invariant filtered == Filtered(versions[..i], opts.minVersion, opts.maxVersion)
    {
      var v := versions[i];
      assert versions[..i + 1] == versions[..i] + [v];
      if |opts.minVersion.components| > 0 {
        var c := Compare(v, opts.minVersion);
        if c < 0 {
          continue;
        }
      }
      if |opts.maxVersion.components| > 0 {
        var c := Compare(v, opts.maxVersion);
        if c > 0 {
          continue;
        }
      }
      filtered := filtered + [v];
    }
    assert versions[..|versions|] == versions;
  }

  /** Every version is kept as often as it occurs when it is within the bounds, and dropped otherwise. */
  lemma {:induction false} FilteredCount(vs: seq<Version>, min: Version, max: Version, v: Version)
    ensures multiset(Filtered(vs, min, max))[v] == if InRange(v, min, max) then multiset(vs)[v] else 0
    decreases |vs|
  {
    if |vs| > 0 {
      FilteredCount(vs[..|vs| - 1], min, max, v);
      assert vs == vs[..|vs| - 1] + [vs[|vs| - 1]];
    }
  }

  /** Hence membership: a version survives exactly when it is in the input and within the bounds. */
  lemma FilteredMembers(vs: seq<Version>, min: Version, max: Version, v: Version)
    ensures v in Filtered(vs, min, max) <==> v in vs && InRange(v, min, max)
  {
    FilteredCount(vs, min, max, v);
  }

  /** A newest-first list stays newest first when filtered. */
  lemma {:induction false} FilteredDescending(vs: seq<Version>, min: Version, max: Version)
    requires Descending(vs)
    ensures Descending(Filtered(vs, min, max))
    decreases |vs|
  {
    if |vs| > 0 {
      var init, last := vs[..|vs| - 1], vs[|vs| - 1];
      FilteredDescending(init, min, max);
      var rest := Filtered(init, min, max);
      if InRange(last, min, max) {
        var r := rest + [last];
        forall i, j | 0 <= i < j < |r| ensures Cmp(r[i], r[j]) >= 0 {
          if j == |rest| {
            FilteredMembers(init, min, max, rest[i]);
            var p :| 0 <= p < |init| && init[p] == rest[i];
            assert vs[p] == r[i] && vs[|vs| - 1] == r[j];
          } else {
            assert r[i] == rest[i] && r[j] == rest[j];
          }
        }
      }
    }
  }

  /** The filter keeps the input order: filtering a concatenation filters each part in turn. */
  lemma {:induction false} FilteredAppend(a: seq<Version>, b: seq<Version>, min: Version, max: Version)
    ensures Filtered(a + b, min, max) == Filtered(a, min, max) + Filtered(b, min, max)
    decreases |b|
  {
    if |b| > 0 {
      var b' := b[..|b| - 1];
      FilteredAppend(a, b', min, max);
      assert (a + b)[..|a + b| - 1] == a + b';
      assert (a + b)[|a + b| - 1] == b[|b| - 1];
    } else {
      assert a + b == a;
    }
  }

  /** With no minimum and no maximum the filter returns its input. */
  lemma {:induction false} FilteredUnbounded(vs: seq<Version>, min: Version, max: Version)
    requires |min.components| == 0 && |max.components| == 0
    ensures Filtered(vs, min, max) == vs
    decreases |vs|
  {
    if |vs| > 0 {
      FilteredUnbounded(vs[..|vs| - 1], min, max);
    }
  }

  // ---------------------------------------------------------------------
  // selectVersion
  // ---------------------------------------------------------------------

  /** Sum of the first i weights n, n - 1, ...: where index i's share of the draws begins. */
  function Cum(n: nat, i: nat): int
    decreases i
  {
    if i == 0 then 0 else Cum(n, i - 1) + (n - (i - 1))
  }

  /** totalWeight in the source: n(n + 1)/2. */
  function TotalWeight(n: nat): nat
  {
    n * (n + 1) / 2
  }

  /** The partial sums in closed form; all n weights sum to n(n + 1)/2. */
  lemma {:induction false} CumClosed(n: nat, i: nat)
    ensures 2 * Cum(n, i) == i * (2 * n - i + 1)
    decreases i
  {
    if i > 0 {
      CumClosed(n, i - 1);
      calc {
        2 * Cum(n, i);
        2 * Cum(n, i - 1) + 2 * (n - (i - 1));
        (i - 1) * (2 * n - i + 2) + 2 * (n - i + 1);
        { assert (i - 1) * (2 * n - i + 2) == i * (2 * n - i + 2) - (2 * n - i + 2); }
        i * (2 * n - i + 2) - (2 * n - i + 2) + 2 * n - 2 * i + 2;
        i * (2 * n - i + 2) - i;
        { assert i * (2 * n - i + 2) == i * (2 * n - i + 1) + i; }
        i * (2 * n - i + 1);
      }
    }
  }

  lemma CumTotal(n: nat)
    ensures Cum(n, n) == TotalWeight(n)
  {
    CumClosed(n, n);
    assert n * (2 * n - n + 1) == n * (n + 1);
  }

  /** Up to n, the partial sums strictly increase. */
  lemma {:induction false} CumIncreasing(n: nat, i: nat, j: nat)
    requires i < j <= n
    ensures Cum(n, i) < Cum(n, j)
    decreases j
  {
    if i < j - 1 {
      CumIncreasing(n, i, j - 1);
    }
  }

  /** The index the weighted loop stops at, searching from i. */
  function WeightedIndexFrom(n: nat, r: int, i: nat): (k: nat)
    requires i < n && Cum(n, i) <= r < Cum(n, n)
    ensures i <= k < n && Cum(n, k) <= r < Cum(n, k + 1)
    decreases n - i
  {
    if r < Cum(n, i + 1) then i
    else if i + 1 == n then assert false; i
    else WeightedIndexFrom(n, r, i + 1)
  }

  /** The index weighted selection picks for draw r: the first whose partial sum exceeds r. */
  function WeightedIndex(n: nat, r: nat): (k: nat)
    requires 0 < n && r < TotalWeight(n)
    ensures k < n && Cum(n, k) <= r < Cum(n, k + 1)
  {
    CumTotal(n);
    WeightedIndexFrom(n, r, 0)
  }

  /** The draws that pick index k are exactly those in [Cum(n, k), Cum(n, k + 1)). */
  lemma WeightedIndexIff(n: nat, r: nat, k: nat)
    requires 0 < n && r < TotalWeight(n) && k < n
    ensures WeightedIndex(n, r) == k <==> Cum(n, k) <= r < Cum(n, k + 1)
  {
    var w := WeightedIndex(n, r);
    if w != k && Cum(n, k) <= r < Cum(n, k + 1) {
      if w < k {
        if w + 1 < k { CumIncreasing(n, w + 1, k); }
      } else {
        if k + 1 < w { CumIncreasing(n, k + 1, w); }
      }
    }
  }

  /** The draws below t that pick index k. */
  function PicksBelow(n: nat, k: nat, t: nat): set<nat>
    requires 0 < n && t <= TotalWeight(n)
  {
    set r: nat | r < t && WeightedIndex(n, r) == k
  }

  /** Raising the bound by one adds the draw t - 1 exactly when it picks k. */
  lemma PicksBelowStep(n: nat, k: nat, t: nat)
    requires 0 < n && 0 < t <= TotalWeight(n)
    ensures PicksBelow(n, k, t) ==
      PicksBelow(n, k, t - 1) + (if WeightedIndex(n, t - 1) == k then {t - 1} else {})
  {
  }

  /** How many of the draws [0, t) fall in the band [lo, hi). */
  function Overlap(t: int, lo: int, hi: int): int
  {
    if t <= lo then 0 else if t <= hi then t - lo else hi - lo
  }

  /** One more draw adds one to the overlap exactly when it lies in the band. */
  lemma OverlapStep(t: int, lo: int, hi: int)
    requires 0 < t && lo < hi
    ensures Overlap(t, lo, hi) == Overlap(t - 1, lo, hi) + (if lo <= t - 1 < hi then 1 else 0)
  {
  }

  /** Counting the draws below t that pick k: the overlap of [0, t) with k's band. */
  lemma {:induction false} PicksBelowSize(n: nat, k: nat, t: nat)
    requires k < n && t <= TotalWeight(n)
    ensures |PicksBelow(n, k, t)| == Overlap(t, Cum(n, k), Cum(n, k + 1))
    decreases t
  {
    CumIncreasing(n, k, k + 1);
    if t == 0 {
      if k > 0 { CumIncreasing(n, 0, k); }
      assert PicksBelow(n, k, t) == {};
    } else {
      PicksBelowSize(n, k, t - 1);
      WeightedIndexIff(n, t - 1, k);
      PicksBelowStep(n, k, t);
      OverlapStep(t, Cum(n, k), Cum(n, k + 1));
      assert t - 1 !in PicksBelow(n, k, t - 1);
    }
  }

  /** The weighted draws that pick index k. */
  function Draws(n: nat, k: nat): set<nat>
  {
    set r: nat | r < TotalWeight(n) && WeightedIndex(n, r) == k
  }

  /** Weighted selection: of the n(n + 1)/2 draws, exactly n - k pick index k. */
  lemma WeightedIndexCount(n: nat, k: nat)
    requires k < n
    ensures |Draws(n, k)| == n - k
  {
    CumTotal(n);
    CumIncreasing(n, k, k + 1);
    if k + 1 < n { CumIncreasing(n, k + 1, n); }
    PicksBelowSize(n, k, TotalWeight(n));
    assert PicksBelow(n, k, TotalWeight(n)) == Draws(n, k);
  }

  /** The draws selectVersion makes fit their bounds: idx for uniform, r for weighted. */
  predicate DrawsFit(n: nat, idx: nat, r: nat)
  {
    (n > 0 ==> idx < n) && (n > 1 ==> r < TotalWeight(n))
  }

  /** The version selectVersion returns for the given draws. */
  function Selected(versions: seq<Version>, weighted: bool, idx: nat, r: nat): Version
    requires DrawsFit(|versions|, idx, r)
  {
    if |versions| == 0 then Version([])
    else if !weighted || |versions| == 1 then versions[idx]
    else versions[WeightedIndex(|versions|, r)]
  }

  /**
   * selectVersion: on a non-empty list, uniformly the drawn index, or (weighted,
   * more than one version) the first index whose running weight n, n - 1, ...
   * exceeds the draw r. The loop always returns: the fallback after it cannot
   * be reached.
   */
  method SelectVersion(versions: seq<Version>, weighted: bool, idx: nat, r: nat) returns (v: Version)
    requires DrawsFit(|versions|, idx, r)
    ensures v == Selected(versions, weighted, idx, r)
  {
    if |versions| == 0 {
      return Version([]);
    }
    if !weighted || |versions| == 1 {
      return versions[idx];
    }
    var n := |versions|;
    var totalWeight := n * (n + 1) / 2;
    var currentWeight := 0;
    for i := 0 to n
      invariant currentWeight == Cum(n, i) <= r
    {
      var weight := n - i;
      currentWeight := currentWeight + weight;
      if r < currentWeight {
        WeightedIndexIff(n, r, i);
        return versions[i];
      }
    }
    CumTotal(n);
    assert false;
  }

  /** The selected version is one of the candidates. */
  lemma SelectedIsCandidate(versions: seq<Version>, weighted: bool, idx: nat, r: nat)
    requires |versions| > 0 && DrawsFit(|versions|, idx, r)
    ensures Selected(versions, weighted, idx, r) in versions
  {
  }

  // ---------------------------------------------------------------------
  // Generate
  // ---------------------------------------------------------------------

  /** The draws one Generate call makes fit their bounds, given the candidates it will see. */
  predicate GenerateDrawsFit(store: Store, opts: seq<Options.Option>, idx: nat, r: nat, grease1: nat, grease2: nat)
  {
    grease1 < |GreaseBrands| && grease2 < |GreaseBrands|
    && var s := Options.ApplyAll(opts, Options.DefaultOptions());
    (s.browser in store && s.os in store[s.browser] ==>
      DrawsFit(|Filtered(store[s.browser][s.os].versions, s.minVersion, s.maxVersion)|, idx, r))
  }

  /** The User-Agent for a template and the chosen version. */
  function UserAgentFor(template: string, v: Version): string
  {
    ReplaceAll(template, VersionMarker, Render(v))
  }

  /** What Generate returns: the error it reports, or the User-Agent and headers. */
  function Generated(store: Store, opts: seq<Options.Option>, idx: nat, r: nat, grease1: nat, grease2: nat): Outcome
    requires GenerateDrawsFit(store, opts, idx, r, grease1, grease2)
  {
    var s := Options.ApplyAll(opts, Options.DefaultOptions());
    if s.browser !in store then Err(BrowserNotFound(s.browser))
    else if s.os !in store[s.browser] then Err(OSNotFound(s.os, s.browser))
    else
      var bd := store[s.browser][s.os];
      var candidates := Filtered(bd.versions, s.minVersion, s.maxVersion);
      if |candidates| == 0 then Err(NoMatch)
      else
        var v := Selected(candidates, s.withWeight, idx, r);
        var ua := UserAgentFor(bd.uaTemplate, v);
        var hints := ClientHints(s, FormatSecCHUA(v, grease1), FormatSecCHUAFullVersion(v, grease2));
        Ok(GenResult(ua, hints["User-Agent" := ua]))
  }

  /**
   * Generate: apply the options to the defaults in order, look up the
   * browser and then the OS, filter, select, fill in the template and add
   * it to the Client-Hint headers under "User-Agent".
   */
  method Generate(store: Store, opts: seq<Options.Option>, idx: nat, r: nat, grease1: nat, grease2: nat)
    returns (out: Outcome)
    requires GenerateDrawsFit(store, opts, idx, r, grease1, grease2)
    ensures out == Generated(store, opts, idx, r, grease1, grease2)
  {
    var options := new GenerateOptions();
    for i := 0 to |opts|
      invariant options.Snapshot() == Options.ApplyAll(opts[..i], Options.DefaultOptions())
    {
      options.Apply(opts[i]);
      assert opts[..i + 1][..i] == opts[..i];
    }
    assert opts[..|opts|] == opts;
    if options.browser !in store {
      return Err(BrowserNotFound(options.browser));
    }
    var platforms := store[options.browser];
    if options.os !in platforms {
      return Err(OSNotFound(options.os, options.browser));
    }
    var bd := platforms[options.os];
    var candidates := FilterVersions(bd.versions, options);
    if |candidates| == 0 {
      return Err(NoMatch);
    }
    var selectedVer := SelectVersion(candidates, options.withWeight, idx, r);
    var fullVer := String(selectedVer);
    var ua := ReplaceAll(bd.uaTemplate, VersionMarker, fullVer);
    var headers := GenerateHeaders(selectedVer, options, grease1, grease2);
    headers := headers["User-Agent" := ua];
    return Ok(GenResult(ua, headers));
  }

  // ---------------------------------------------------------------------
  // Properties of Generate
  // ---------------------------------------------------------------------

  /** Generate fails exactly as the lookups and the filter dictate, in that order. */
  lemma GeneratedErrors(store: Store, opts: seq<Options.Option>, idx: nat, r: nat, grease1: nat, grease2: nat)
    requires GenerateDrawsFit(store, opts, idx, r, grease1, grease2)
    ensures var s := Options.ApplyAll(opts, Options.DefaultOptions());
      var out := Generated(store, opts, idx, r, grease1, grease2);
      && (out == Err(BrowserNotFound(s.browser)) <==> s.browser !in store)
      && (out == Err(OSNotFound(s.os, s.browser)) <==> s.browser in store && s.os !in store[s.browser])
      && (out == Err(NoMatch) <==>
           (s.browser in store && s.os in store[s.browser]
            && forall v :: v in store[s.browser][s.os].versions ==> !InRange(v, s.minVersion, s.maxVersion)))
  {
    var s := Options.ApplyAll(opts, Options.DefaultOptions());
    if s.browser in store && s.os in store[s.browser] {
      var vs := store[s.browser][s.os].versions;
      var c := Filtered(vs, s.minVersion, s.maxVersion);
      if |c| > 0 {
        FilteredMembers(vs, s.minVersion, s.maxVersion, c[0]);
      } else {
        forall v | v in vs ensures !InRange(v, s.minVersion, s.maxVersion) {
          FilteredMembers(vs, s.minVersion, s.maxVersion, v);
        }
      }
    }
  }

  /**
   * On success, the version used is an entry of the store within the
   * bounds, the User-Agent is the template filled in with it, and the
   * header map carries it under "User-Agent" beside the Client Hints.
   */
  lemma GeneratedSuccess(store: Store, opts: seq<Options.Option>, idx: nat, r: nat, grease1: nat, grease2: nat)
    requires GenerateDrawsFit(store, opts, idx, r, grease1, grease2)
    requires Generated(store, opts, idx, r, grease1, grease2).Ok?
    ensures var s := Options.ApplyAll(opts, Options.DefaultOptions());
      var res := Generated(store, opts, idx, r, grease1, grease2).result;
      && s.browser in store && s.os in store[s.browser]
      && exists v :: v in store[s.browser][s.os].versions && InRange(v, s.minVersion, s.maxVersion)
          && res.userAgent == UserAgentFor(store[s.browser][s.os].uaTemplate, v)
          && res.headers == ClientHints(s, FormatSecCHUA(v, grease1), FormatSecCHUAFullVersion(v, grease2))["User-Agent" := res.userAgent]
  {
    var s := Options.ApplyAll(opts, Options.DefaultOptions());
    var bd := store[s.browser][s.os];
    var c := Filtered(bd.versions, s.minVersion, s.maxVersion);
    var v := Selected(c, s.withWeight, idx, r);
    SelectedIsCandidate(c, s.withWeight, idx, r);
    FilteredMembers(bd.versions, s.minVersion, s.maxVersion, v);
  }

  /**
   * With a store that loadData built, the candidates Generate picks from are
   * newest first, so weighted selection favours newer versions: among n
   * candidates the k-th newest is picked by n - k of the draws.
   */
  lemma GeneratedNewestWeighted(config: Config, store: Store, opts: seq<Options.Option>)
    requires StoreOf(config, store)
    ensures var s := Options.ApplyAll(opts, Options.DefaultOptions());
      s.browser in store && s.os in store[s.browser] ==>
        var c := Filtered(store[s.browser][s.os].versions, s.minVersion, s.maxVersion);
        && Descending(c)
        && forall k: nat :: k < |c| ==> |Draws(|c|, k)| == |c| - k
  {
    var s := Options.ApplyAll(opts, Options.DefaultOptions());
    if s.browser in store && s.os in store[s.browser] {
      var vs := store[s.browser][s.os].versions;
      assert Loaded(config.browsers[s.browser][s.os], store[s.browser][s.os]);
      FilteredDescending(vs, s.minVersion, s.maxVersion);
      var c := Filtered(vs, s.minVersion, s.maxVersion);
      forall k: nat | k < |c| ensures |Draws(|c|, k)| == |c| - k {
        WeightedIndexCount(|c|, k);
      }
    }
  }

  /** The "User-Agent" header is the User-Agent, and a Client-Hint header is present exactly when its flag is set. */
  lemma GeneratedHeaders(store: Store, opts: seq<Options.Option>, idx: nat, r: nat, grease1: nat, grease2: nat)
    requires GenerateDrawsFit(store, opts, idx, r, grease1, grease2)
    requires Generated(store, opts, idx, r, grease1, grease2).Ok?
    ensures var s := Options.ApplyAll(opts, Options.DefaultOptions());
      var res := Generated(store, opts, idx, r, grease1, grease2).result;
      && "User-Agent" in res.headers && res.headers["User-Agent"] == res.userAgent
      && forall h: Hint :: HintName(h) in res.headers <==> HintEnabled(h, s)
  {
    var s := Options.ApplyAll(opts, Options.DefaultOptions());
    var bd := store[s.browser][s.os];
    var c := Filtered(bd.versions, s.minVersion, s.maxVersion);
    var v := Selected(c, s.withWeight, idx, r);
    ClientHintsExact(s, FormatSecCHUA(v, grease1), FormatSecCHUAFullVersion(v, grease2));
    forall h: Hint { UserAgentNotAHint(h); }
  }

  /** With no options, Generate looks up Chrome on Windows, and the headers hold only "User-Agent". */
  lemma GeneratedDefaults(store: Store, idx: nat, r: nat, grease1: nat, grease2: nat)
    requires GenerateDrawsFit(store, [], idx, r, grease1, grease2)
    ensures Chrome !in store ==> Generated(store, [], idx, r, grease1, grease2) == Err(BrowserNotFound(Chrome))
    ensures Generated(store, [], idx, r, grease1, grease2).Ok? ==>
      Generated(store, [], idx, r, grease1, grease2).result.headers.Keys == {"User-Agent"}
  {
    var s := Options.DefaultOptions();
    assert Options.ApplyAll([], s) == s;
    if Generated(store, [], idx, r, grease1, grease2).Ok? {
      var bd := store[s.browser][s.os];
      var c := Filtered(bd.versions, s.minVersion, s.maxVersion);
      var v := Selected(c, s.withWeight, idx, r);
      ClientHintsNone(s, FormatSecCHUA(v, grease1), FormatSecCHUAFullVersion(v, grease2));
    }
  }

  /** A minimum above every version of the entry leaves no candidate: Generate reports NoMatch. */
  lemma GeneratedNoMatchAboveAll(store: Store, opts: seq<Options.Option>, idx: nat, r: nat, grease1: nat, grease2: nat)
    requires GenerateDrawsFit(store, opts, idx, r, grease1, grease2)
    requires var s := Options.ApplyAll(opts, Options.DefaultOptions());
      && s.browser in store && s.os in store[s.browser]
      && |s.minVersion.components| > 0
      && forall v :: v in store[s.browser][s.os].versions ==> Cmp(v, s.minVersion) < 0
    ensures Generated(store, opts, idx, r, grease1, grease2) == Err(NoMatch)
  {
    GeneratedErrors(store, opts, idx, r, grease1, grease2);
  }

  /** For instance, the catalog's 133.0.6943 builds all lie below 133.0.6943.10000. */
  lemma BelowHighMinimum()
    ensures Filtered([Version([133, 0, 6943, 141]), Version([133, 0, 6943, 98])],
                     Version([133, 0, 6943, 10000]), Version([])) == []
  {
    assert Padded(Version([133, 0, 6943, 141]), 4) == [133, 0, 6943, 141];
    assert Padded(Version([133, 0, 6943, 98]), 4) == [133, 0, 6943, 98];
    assert Padded(Version([133, 0, 6943, 10000]), 4) == [133, 0, 6943, 10000];
  }
}
