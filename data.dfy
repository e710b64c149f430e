/**
 * generator/data.go: decoding the nested version tree of the catalog into
 * flat versions (parseVersions, toInt) and building the per-browser, per-OS
 * store with each version list sorted newest first (loadData).
 */
module Data {
  import opened Types
  import opened Dynamic

  /** The flattened data kept for one browser on one OS. */
  datatype BrowserData = BrowserData(versions: seq<Version>, uaTemplate: string)

  /** dataStore.data: browser name to OS name to data. */
  type Store = map<BrowserName, map<OSName, BrowserData>>

  /** One platform entry of the decoded catalog: the template and the version tree. */
  datatype PlatformConfig = PlatformConfig(uaTemplate: string, versions: map<int, Node>)

  /** The decoded catalog: browser name to OS name to platform entry. */
  datatype Config = Config(browsers: map<string, map<string, PlatformConfig>>)

  // ---------------------------------------------------------------------
  // toInt
  // ---------------------------------------------------------------------

  /** Both results of toInt: the number and whether the value was numeric. */
  datatype Converted = Converted(value: int, ok: bool)

  predicate IsNumber(x: Node)
  {
    x.Atom? && (x.value.GoInt? || x.value.GoInt64? || x.value.GoFloat64?)
  }

  /** toInt: ints, int64s and (already truncated) float64s convert; every other value gives (0, false). */
  function ToInt(x: Node): (r: Converted)
    ensures r.ok <==> IsNumber(x)
    ensures r.ok ==> r.value == x.value.n
    ensures !r.ok ==> r.value == 0
  {
    match x
    case Atom(GoInt(n)) => Converted(n, true)
    case Atom(GoInt64(n)) => Converted(n, true)
    case Atom(GoFloat64(n)) => Converted(n, true)
    case _ => Converted(0, false)
  }

  // ---------------------------------------------------------------------
  // parseVersions: the specification
  // ---------------------------------------------------------------------

  /** One version prefix + [x] per leaf x, in order. */
  function Extend(prefix: seq<int>, leaves: seq<int>): (r: seq<Version>)
    ensures |r| == |leaves|
    ensures forall i :: 0 <= i < |leaves| ==> r[i] == Version(prefix + [leaves[i]])
  {
    seq(|leaves|, i requires 0 <= i < |leaves| => Version(prefix + [leaves[i]]))
  }

  /** The numbers in a []interface{} leaf list that toInt accepts, in order. */
  function AcceptedInts(items: seq<Node>): seq<int>
    decreases |items|
  {
    if |items| == 0 then []
    else
      var last := ToInt(items[|items| - 1]);
      AcceptedInts(items[..|items| - 1]) + (if last.ok then [last.value] else [])
  }

  /**
   * The versions parseVersions(prefix, node) returns, as a multiset: Go
   * visits map entries in no fixed order, so only the multiset is determined.
   */
  ghost function Decoded(prefix: seq<int>, node: Node): multiset<Version>
    decreases node, 1
  {
    match node
    case IntMap(m) => DecodedIntKeys(prefix, m, m.Keys)
    case AnyMap(m) => DecodedAnyKeys(prefix, m, m.Keys)
    case AnyList(items) => multiset(Extend(prefix, AcceptedInts(items)))
    case IntList(ints) => multiset(Extend(prefix, ints))
    case Nil => if |prefix| > 0 then multiset{Version(prefix)} else multiset{}
    case Atom(_) => multiset{}
  }

  /** The children of a map[int]interface{} under the given keys, each under prefix + [key]. */
  ghost function DecodedIntKeys(prefix: seq<int>, m: map<int, Node>, keys: set<int>): multiset<Version>
    requires keys <= m.Keys
    decreases IntMap(m), 0, keys
  {
    if keys == {} then multiset{}
    else
      NonEmptyInts(keys);
      var k :| k in keys;
      Decoded(prefix + [k], m[k]) + DecodedIntKeys(prefix, m, keys - {k})
  }

  /** The children of a map[interface{}]interface{} whose keys toInt accepts. */
  ghost function DecodedAnyKeys(prefix: seq<int>, m: map<Scalar, Node>, keys: set<Scalar>): multiset<Version>
    requires keys <= m.Keys
    decreases AnyMap(m), 0, keys
  {
    if keys == {} then multiset{}
    else
      NonEmptyScalars(keys);
      var k :| k in keys;
      var c := ToInt(Atom(k));
      (if c.ok then Decoded(prefix + [c.value], m[k]) else multiset{}) + DecodedAnyKeys(prefix, m, keys - {k})
  }

  /** A map's result splits into any one key's subtree and the rest, whichever key is taken first. */
  lemma {:induction false} DecodedIntKeysPick(prefix: seq<int>, m: map<int, Node>, keys: set<int>, k: int)
    requires keys <= m.Keys && k in keys
    ensures DecodedIntKeys(prefix, m, keys) == Decoded(prefix + [k], m[k]) + DecodedIntKeys(prefix, m, keys - {k})
    decreases |keys|
  {
    NonEmptyInts(keys);
    var j :| j in keys && DecodedIntKeys(prefix, m, keys) == Decoded(prefix + [j], m[j]) + DecodedIntKeys(prefix, m, keys - {j});
    if j != k {
      DecodedIntKeysPick(prefix, m, keys - {j}, k);
      DecodedIntKeysPick(prefix, m, keys - {k}, j);
      assert keys - {j} - {k} == keys - {k} - {j};
    }
  }

  lemma {:induction false} DecodedAnyKeysPick(prefix: seq<int>, m: map<Scalar, Node>, keys: set<Scalar>, k: Scalar)
    requires keys <= m.Keys && k in keys
    ensures DecodedAnyKeys(prefix, m, keys) ==
      (if ToInt(Atom(k)).ok then Decoded(prefix + [ToInt(Atom(k)).value], m[k]) else multiset{})
      + DecodedAnyKeys(prefix, m, keys - {k})
    decreases |keys|
  {
    NonEmptyScalars(keys);
    var j :| j in keys && DecodedAnyKeys(prefix, m, keys) ==
      (if ToInt(Atom(j)).ok then Decoded(prefix + [ToInt(Atom(j)).value], m[j]) else multiset{})
      + DecodedAnyKeys(prefix, m, keys - {j});
    if j != k {
      DecodedAnyKeysPick(prefix, m, keys - {j}, k);
      DecodedAnyKeysPick(prefix, m, keys - {k}, j);
      assert keys - {j} - {k} == keys - {k} - {j};
    }
  }

  // ---------------------------------------------------------------------
  // parseVersions: the method
  // ---------------------------------------------------------------------

  /** parseVersions: walk the tree depth first, extending the prefix by one component per level. */
  method ParseVersions(prefix: seq<int>, current: Node) returns (results: seq<Version>)
    ensures multiset(results) == Decoded(prefix, current)
    decreases current
  {
    results := [];
    match current {
      case IntMap(m) =>
        var keys := m.Keys;
        while keys != {}
          invariant keys <= m.Keys
          invariant multiset(results) + DecodedIntKeys(prefix, m, keys) == Decoded(prefix, current)
          decreases keys
        {
          NonEmptyInts(keys);
          var key :| key in keys;
          var sub := ParseVersions(prefix + [key], m[key]);
          DecodedIntKeysPick(prefix, m, keys, key);
          results := results + sub;
          keys := keys - {key};
        }
      case AnyMap(m) =>
        var keys := m.Keys;
        while keys != {}
          invariant keys <= m.Keys
          invariant multiset(results) + DecodedAnyKeys(prefix, m, keys) == Decoded(prefix, current)
          decreases keys
        {
          NonEmptyScalars(keys);
          var key :| key in keys;
          DecodedAnyKeysPick(prefix, m, keys, key);
          var c := ToInt(Atom(key));
          if c.ok {
            var sub := ParseVersions(prefix + [c.value], m[key]);
            results := results + sub;
          }
          keys := keys - {key};
        }
      case AnyList(items) =>
        for i := 0 to |items|
          invariant results == Extend(prefix, AcceptedInts(items[..i]))
        {
          assert items[..i + 1][..i] == items[..i];
          var c := ToInt(items[i]);
          if c.ok {
            results := results + [Version(prefix + [c.value])];
          }
        }
        assert items[..|items|] == items;
      case IntList(ints) =>
        for i := 0 to |ints|
          invariant results == Extend(prefix, ints[..i])
        {
          results := results + [Version(prefix + [ints[i]])];
        }
        assert ints[..|ints|] == ints;
      case Nil =>
        if |prefix| > 0 {
          results := [Version(prefix)];
        }
      case Atom(_) =>
    }
  }

  // ---------------------------------------------------------------------
  // parseVersions: properties
  // ---------------------------------------------------------------------

  /** A leaf list yields one version per accepted number: x is emitted exactly when some item converts to x. */
  lemma {:induction false} AcceptedIntsMembers(items: seq<Node>, x: int)
    ensures x in AcceptedInts(items) <==> exists j :: 0 <= j < |items| && ToInt(items[j]) == Converted(x, true)
    decreases |items|
  {
    if |items| > 0 {
      var init := items[..|items| - 1];
      AcceptedIntsMembers(init, x);
      if exists j :: 0 <= j < |init| && ToInt(init[j]) == Converted(x, true) {
        var j :| 0 <= j < |init| && ToInt(init[j]) == Converted(x, true);
        assert items[j] == init[j];
      }
      if exists j :: 0 <= j < |items| && ToInt(items[j]) == Converted(x, true) {
        var j :| 0 <= j < |items| && ToInt(items[j]) == Converted(x, true);
        if j < |init| {
          assert init[j] == items[j];
        }
      }
    }
  }

  /** Every version parseVersions emits extends the prefix and has at least one component. */
  lemma {:induction false} DecodedShape(prefix: seq<int>, node: Node)
    ensures forall v :: v in Decoded(prefix, node) ==> prefix <= v.components && |v.components| > 0
    decreases node, 1
  {
    match node
    case IntMap(m) => DecodedIntKeysShape(prefix, m, m.Keys);
    case AnyMap(m) => DecodedAnyKeysShape(prefix, m, m.Keys);
    case AnyList(items) =>
      var e := Extend(prefix, AcceptedInts(items));
      forall v: Version | v in multiset(e) ensures prefix <= v.components && |v.components| > 0 {
        var i :| 0 <= i < |e| && e[i] == v;
      }
    case IntList(ints) =>
      var e := Extend(prefix, ints);
      forall v: Version | v in multiset(e) ensures prefix <= v.components && |v.components| > 0 {
        var i :| 0 <= i < |e| && e[i] == v;
      }
    case Nil =>
    case Atom(_) =>
  }

  lemma {:induction false} DecodedIntKeysShape(prefix: seq<int>, m: map<int, Node>, keys: set<int>)
    requires keys <= m.Keys
    ensures forall v :: v in DecodedIntKeys(prefix, m, keys) ==> prefix <= v.components && |v.components| > 0
    decreases IntMap(m), 0, keys
  {
    if keys != {} {
      NonEmptyInts(keys);
      var k :| k in keys;
      DecodedIntKeysPick(prefix, m, keys, k);
      DecodedShape(prefix + [k], m[k]);
      DecodedIntKeysShape(prefix, m, keys - {k});
    }
  }

  lemma {:induction false} DecodedAnyKeysShape(prefix: seq<int>, m: map<Scalar, Node>, keys: set<Scalar>)
    requires keys <= m.Keys
    ensures forall v :: v in DecodedAnyKeys(prefix, m, keys) ==> prefix <= v.components && |v.components| > 0
    decreases AnyMap(m), 0, keys
  {
    if keys != {} {
      NonEmptyScalars(keys);
      var k :| k in keys;
      DecodedAnyKeysPick(prefix, m, keys, k);
      var c := ToInt(Atom(k));
      if c.ok {
        DecodedShape(prefix + [c.value], m[k]);
      }
      DecodedAnyKeysShape(prefix, m, keys - {k});
    }
  }

  /**
   * The catalog layout 133 -> 0 -> 6943 -> [53, 98]: below the key 133, the
   * tree decodes to 133.0.6943.53 and 133.0.6943.98.
   */
  lemma DecodedCatalogExample()
    ensures Decoded([133], IntMap(map[0 := IntMap(map[6943 := IntList([53, 98])])]))
      == multiset{Version([133, 0, 6943, 53]), Version([133, 0, 6943, 98])}
  {
    var m2 := map[0 := IntMap(map[6943 := IntList([53, 98])])];
    CatalogLevel3();
    DecodedIntKeysPick([133], m2, m2.Keys, 0);
    assert m2.Keys - {0} == {};
    assert DecodedIntKeys([133], m2, {}) == multiset{};
    assert [133] + [0] == [133, 0];
  }

  lemma CatalogLevel3()
    ensures Decoded([133, 0], IntMap(map[6943 := IntList([53, 98])]))
      == multiset{Version([133, 0, 6943, 53]), Version([133, 0, 6943, 98])}
  {
    var m3 := map[6943 := IntList([53, 98])];
    DecodedIntKeysPick([133, 0], m3, m3.Keys, 6943);
    assert m3.Keys - {6943} == {};
    assert DecodedIntKeys([133, 0], m3, {}) == multiset{};
    var prefix := [133, 0] + [6943];
    assert prefix == [133, 0, 6943];
    assert prefix + [53] == [133, 0, 6943, 53] && prefix + [98] == [133, 0, 6943, 98];
    var e := Extend(prefix, [53, 98]);
    assert e == [Version([133, 0, 6943, 53]), Version([133, 0, 6943, 98])];
    assert Decoded(prefix, IntList([53, 98])) == multiset(e);
  }

  /** A nil leaf ends the chain: 145 -> 2 -> nil decodes to the single version 145.2. */
  lemma DecodedNilExample()
    ensures Decoded([], IntMap(map[145 := IntMap(map[2 := Nil])])) == multiset{Version([145, 2])}
  {
    var m2 := map[2 := Nil];
    var m1 := map[145 := IntMap(m2)];
    DecodedIntKeysPick([145], m2, m2.Keys, 2);
    assert m2.Keys - {2} == {};
    assert DecodedIntKeys([145], m2, {}) == multiset{};
    assert [145] + [2] == [145, 2];
    DecodedIntKeysPick([], m1, m1.Keys, 145);
    assert m1.Keys - {145} == {};
    assert DecodedIntKeys([], m1, {}) == multiset{};
    assert [] + [145] == [145];
  }

  /**
   * Nothing is deduplicated: an int key and a float key for the same number
   * each contribute their subtree, so the same version comes out twice.
   */
  lemma DecodedKeepsDuplicates()
    ensures Decoded([], AnyMap(map[GoInt(7) := Nil, GoFloat64(7) := Nil]))[Version([7])] == 2
  {
    var m := map[GoInt(7) := Nil, GoFloat64(7) := Nil];
    DecodedAnyKeysPick([], m, m.Keys, GoInt(7));
    DecodedAnyKeysPick([], m, m.Keys - {GoInt(7)}, GoFloat64(7));
    assert m.Keys - {GoInt(7)} - {GoFloat64(7)} == {};
    assert DecodedAnyKeys([], m, {}) == multiset{};
    assert [] + [7] == [7];
    assert Decoded([7], Nil) == multiset{Version([7])};
  }

  // ---------------------------------------------------------------------
  // Sorting newest first
  // ---------------------------------------------------------------------

  predicate Descending(s: seq<Version>)
  {
    forall i, j :: 0 <= i < j < |s| ==> Cmp(s[i], s[j]) >= 0
  }

  lemma DescendingCons(x: Version, t: seq<Version>)
    requires Descending(t)
    requires forall j :: 0 <= j < |t| ==> Cmp(x, t[j]) >= 0
    ensures Descending([x] + t)
  {
    var r := [x] + t;
    forall i, j | 0 <= i < j < |r| ensures Cmp(r[i], r[j]) >= 0 {
      assert r[j] == t[j - 1];
      if i > 0 { assert r[i] == t[i - 1]; }
    }
  }

  function InsertDescending(x: Version, s: seq<Version>): (r: seq<Version>)
    requires Descending(s)
    ensures Descending(r)
    ensures multiset(r) == multiset(s) + multiset{x}
    decreases |s|
  {
    if |s| == 0 then [x]
    else if Cmp(x, s[0]) >= 0 then
      forall j | 0 <= j < |s| ensures Cmp(x, s[j]) >= 0 {
        if j > 0 {
          CompareAntisymmetric(x, s[0]);
          CompareAntisymmetric(s[0], s[j]);
          CompareAntisymmetric(x, s[j]);
          CompareTransitive(s[j], s[0], x);
        }
      }
      DescendingCons(x, s);
      [x] + s
    else
      var tail := InsertDescending(x, s[1..]);
      assert s == [s[0]] + s[1..];
      forall j | 0 <= j < |tail| ensures Cmp(s[0], tail[j]) >= 0 {
        assert tail[j] in multiset(tail);
        if tail[j] == x {
          CompareAntisymmetric(x, s[0]);
        } else {
          assert tail[j] in s[1..];
          var k :| 0 <= k < |s[1..]| && s[1..][k] == tail[j];
          assert s[k + 1] == tail[j];
        }
      }
      DescendingCons(s[0], tail);
      [s[0]] + tail
  }

  /**
   * The sort.Slice call of loadData with "Compare > 0" as its less function:
   * the same versions, newest first. (Which of several versions that compare
   * equal comes first is the library's choice; this one is insertion order.)
   */
  function SortDescending(s: seq<Version>): (r: seq<Version>)
    ensures Descending(r)
    ensures multiset(r) == multiset(s)
    decreases |s|
  {
    if |s| == 0 then []
    else
      assert s == s[..|s| - 1] + [s[|s| - 1]];
      InsertDescending(s[|s| - 1], SortDescending(s[..|s| - 1]))
  }

  // ---------------------------------------------------------------------
  // loadData
  // ---------------------------------------------------------------------

  /** An entry of the store holds its platform's template and its decoded versions, newest first. */
  ghost predicate Loaded(pc: PlatformConfig, bd: BrowserData)
  {
    bd.uaTemplate == pc.uaTemplate
    && Descending(bd.versions)
    && multiset(bd.versions) == Decoded([], IntMap(pc.versions))
  }

  ghost predicate PlatformsLoaded(platforms: map<string, PlatformConfig>, entry: map<OSName, BrowserData>)
  {
    entry.Keys == platforms.Keys
    && forall os :: os in entry ==> Loaded(platforms[os], entry[os])
  }

  /** The store built from a decoded catalog, as loadData builds it after the YAML step. */
  ghost predicate StoreOf(config: Config, store: Store)
  {
    store.Keys == config.browsers.Keys
    && forall b :: b in store ==> PlatformsLoaded(config.browsers[b], store[b])
  }

  /** loadData, after unmarshalling: one entry per browser and OS, each decoded and sorted. */
  method LoadData(config: Config) returns (store: Store)
    ensures StoreOf(config, store)
  {
    store := map[];
    var browsers := config.browsers.Keys;
    while browsers != {}
      invariant browsers <= config.browsers.Keys
      invariant store.Keys == config.browsers.Keys - browsers
      invariant forall b :: b in store ==> PlatformsLoaded(config.browsers[b], store[b])
      decreases browsers
    {
      NonEmptyStrings(browsers);
      var browser :| browser in browsers;
      var platforms := config.browsers[browser];
      var entry: map<OSName, BrowserData> := map[];
      var oses := platforms.Keys;
      while oses != {}
        invariant oses <= platforms.Keys
        invariant entry.Keys == platforms.Keys - oses
        invariant forall os :: os in entry ==> Loaded(platforms[os], entry[os])
        decreases oses
      {
        NonEmptyStrings(oses);
        var osName :| osName in oses;
        var pConfig := platforms[osName];
        var versions := ParseVersions([], IntMap(pConfig.versions));
        versions := SortDescending(versions);
        entry := entry[osName := BrowserData(versions, pConfig.uaTemplate)];
        oses := oses - {osName};
      }
      store := store[browser := entry];
      browsers := browsers - {browser};
    }
  }
}
