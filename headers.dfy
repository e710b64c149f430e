/**
 * generator/headers.go: the Client-Hint request headers that accompany a
 * generated User-Agent, and the two brand lists they carry.
 */
module Headers {
  import opened GoLib
  import opened Types
  import Options
  import opened OptionRecord

  // ---------------------------------------------------------------------
  // Brand lists
  // ---------------------------------------------------------------------

  /** The three GREASE brand spellings the generator chooses among. */
  const GreaseBrands: seq<string> := ["Not(A:Brand", "Not?A_Brand", "Not A;Brand"]

  /** getGreaseBrand, with the random index drawn by the caller. */
  function GreaseBrand(draw: nat): (brand: string)
    requires draw < |GreaseBrands|
    ensures brand in GreaseBrands
    ensures brand == "Not(A:Brand" || brand == "Not?A_Brand" || brand == "Not A;Brand"
  {
    GreaseBrands[draw]
  }

  /** One entry of a brand list: "brand";v="version". */
  function BrandEntry(brand: string, version: string): string
  {
    "\"" + brand + "\";v=\"" + version + "\""
  }

  /** A brand list: the entries separated by ", ". */
  function BrandList(entries: seq<(string, string)>): string
    decreases |entries|
  {
    if |entries| == 0 then ""
    else if |entries| == 1 then BrandEntry(entries[0].0, entries[0].1)
    else BrandEntry(entries[0].0, entries[0].1) + ", " + BrandList(entries[1..])
  }

  /** The major version: the first component, or 0 for the empty version. */
  function Major(v: Version): (major: int)
    ensures |v.components| > 0 ==> major == v.components[0]
    ensures |v.components| == 0 ==> major == 0
  {
    At(v, 0)
  }

  /**
   * The brand list both Client-Hint brand headers share: the grease brand and
   * "Not(A:Brand" with a placeholder version, then "Google Chrome" and
   * "Chromium" with the real one.
   */
  function ChromeBrandList(grease: string, placeholder: string, version: string): string
  {
    BrandList([(grease, placeholder), ("Not(A:Brand", placeholder), ("Google Chrome", version), ("Chromium", version)])
  }

  /**
   * The shared template entry by entry: the grease brand and "Not(A:Brand"
   * with the placeholder, then "Google Chrome" and "Chromium" with the
   * version, each in the "brand";v="version" form and joined by ", ".
   */
  lemma ChromeBrandListTemplate(grease: string, placeholder: string, version: string)
    ensures ChromeBrandList(grease, placeholder, version)
      == BrandEntry(grease, placeholder) + ", " + BrandEntry("Not(A:Brand", placeholder) + ", "
         + BrandEntry("Google Chrome", version) + ", " + BrandEntry("Chromium", version)
  {
    var e := [(grease, placeholder), ("Not(A:Brand", placeholder), ("Google Chrome", version), ("Chromium", version)];
    var e1, e2, e3 := e[1..], e[2..], e[3..];
    assert e1[1..] == e2 && e2[1..] == e3;
    assert e1[0] == ("Not(A:Brand", placeholder) && e2[0] == ("Google Chrome", version);
    assert e3 == [("Chromium", version)];
    var l3 := BrandEntry("Chromium", version);
    var l2 := BrandEntry("Google Chrome", version) + ", " + l3;
    var l1 := BrandEntry("Not(A:Brand", placeholder) + ", " + l2;
    assert BrandList(e3) == l3;
    assert BrandList(e2) == l2;
    assert BrandList(e1) == l1;
    assert BrandList(e) == BrandEntry(grease, placeholder) + ", " + l1;
    assert ChromeBrandList(grease, placeholder, version) == BrandList(e);
  }

  /** formatSecCHUA: placeholder "99" and the major version for the real brands. */
  function FormatSecCHUA(v: Version, draw: nat): string
    requires draw < |GreaseBrands|
  {
    ChromeBrandList(GreaseBrand(draw), "99", FormatInt(Major(v)))
  }

  /** formatSecCHUAFullVersion: placeholder "99.0.0.0" and the whole rendered version. */
  function FormatSecCHUAFullVersion(v: Version, draw: nat): string
    requires draw < |GreaseBrands|
  {
    ChromeBrandList(GreaseBrand(draw), "99.0.0.0", Render(v))
  }

  /** Sec-CH-UA: the grease and "Not(A:Brand" entries carry "99", both real brands the major version. */
  lemma SecCHUAEntries(v: Version, draw: nat)
    requires draw < |GreaseBrands|
    ensures FormatSecCHUA(v, draw)
      == BrandEntry(GreaseBrand(draw), "99") + ", " + BrandEntry("Not(A:Brand", "99") + ", "
         + BrandEntry("Google Chrome", FormatInt(Major(v))) + ", " + BrandEntry("Chromium", FormatInt(Major(v)))
  {
    ChromeBrandListTemplate(GreaseBrand(draw), "99", FormatInt(Major(v)));
  }

  /** Sec-CH-UA-Full-Version-List: "99.0.0.0" for the first two entries, the rendered version for both real brands. */
  lemma FullVersionEntries(v: Version, draw: nat)
    requires draw < |GreaseBrands|
    ensures FormatSecCHUAFullVersion(v, draw)
      == BrandEntry(GreaseBrand(draw), "99.0.0.0") + ", " + BrandEntry("Not(A:Brand", "99.0.0.0") + ", "
         + BrandEntry("Google Chrome", Render(v)) + ", " + BrandEntry("Chromium", Render(v))
  {
    ChromeBrandListTemplate(GreaseBrand(draw), "99.0.0.0", Render(v));
  }

  // ---------------------------------------------------------------------
  // The Client-Hint headers
  // ---------------------------------------------------------------------

  /** The ten Client-Hint headers the generator can add. */
  datatype Hint =
    | SecCHUA | Mobile | Platform | FullVersionList | PlatformVersion
    | Bitness | Arch | Model | Wow64 | FormFactors

  function HintName(h: Hint): string
  {
    match h
    case SecCHUA => "Sec-CH-UA"
    case Mobile => "Sec-CH-UA-Mobile"
    case Platform => "Sec-CH-UA-Platform"
    case FullVersionList => "Sec-CH-UA-Full-Version-List"
    case PlatformVersion => "Sec-CH-UA-Platform-Version"
    case Bitness => "Sec-CH-UA-Bitness"
    case Arch => "Sec-CH-UA-Arch"
    case Model => "Sec-CH-UA-Model"
    case Wow64 => "Sec-CH-UA-Wow64"
    case FormFactors => "Sec-CH-UA-Form-Factors"
  }

  /** The option flag that turns each header on. */
  function HintEnabled(h: Hint, s: Options.Settings): bool
  {
    match h
    case SecCHUA => s.withSecCHUA
    case Mobile => s.withSecCHUAMobile
    case Platform => s.withSecCHUAPlatform
    case FullVersionList => s.withSecCHUAFullVersion
    case PlatformVersion => s.withSecCHUAPlatformVer
    case Bitness => s.withSecCHUABitness
    case Arch => s.withSecCHUAArch
    case Model => s.withSecCHUAModel
    case Wow64 => s.withSecCHUAWow64
    case FormFactors => s.withSecCHUAFormFactors
  }

  /**
   * Each header's value: the two brand lists (brands for Sec-CH-UA,
   * fullBrands for the full version list), and fixed strings for a 64-bit
   * x86 Windows desktop.
   */
  function HintValue(h: Hint, brands: string, fullBrands: string): string
  {
    match h
    case SecCHUA => brands
    case Mobile => "?0"
    case Platform => "\"Windows\""
    case FullVersionList => fullBrands
    case PlatformVersion => "\"10.0.0\""
    case Bitness => "\"64\""
    case Arch => "\"x86\""
    case Model => "\"\""
    case Wow64 => "?0"
    case FormFactors => "\"Desktop\""
  }

  lemma HintNameInjective(h1: Hint, h2: Hint)
    ensures HintName(h1) == HintName(h2) ==> h1 == h2
  {
    if HintName(h1) == HintName(h2) {
      // No two names agree in both their length and their last character.
      var n1, n2 := HintName(h1), HintName(h2);
      assert |n1| == |n2| && n1[|n1| - 1] == n2[|n2| - 1];
    }
  }

  /** The headers in the order generateHeaders considers them. */
  const HintOrder: seq<Hint> :=
    [SecCHUA, Mobile, Platform, FullVersionList, PlatformVersion, Bitness, Arch, Model, Wow64, FormFactors]

  /** The enabled headers among hs, each under its name with its value. */
  function Collected(hs: seq<Hint>, s: Options.Settings, brands: string, fullBrands: string): map<string, string>
    decreases |hs|
  {
    if |hs| == 0 then map[]
    else
      var m := Collected(hs[..|hs| - 1], s, brands, fullBrands);
      var h := hs[|hs| - 1];
      if HintEnabled(h, s) then m[HintName(h) := HintValue(h, brands, fullBrands)] else m
  }

  /**
   * The headers generateHeaders returns for settings s, given the two brand
   * lists it formats: brands for Sec-CH-UA and fullBrands for the full
   * version list.
   */
  function ClientHints(s: Options.Settings, brands: string, fullBrands: string): map<string, string>
  {
    Collected(HintOrder, s, brands, fullBrands)
  }

  /**
   * generateHeaders: test the ten flags in source order and add the header
   * of each one that is set to an initially empty map. The ten if
   * statements are walked as one loop over HintOrder, and the two brand
   * lists are formatted from the draws before it.
   */
  method GenerateHeaders(v: Version, opts: GenerateOptions, grease1: nat, grease2: nat)
    returns (headers: map<string, string>)
    requires grease1 < |GreaseBrands| && grease2 < |GreaseBrands|
    ensures headers == ClientHints(opts.Snapshot(), FormatSecCHUA(v, grease1), FormatSecCHUAFullVersion(v, grease2))
  {
    var brands := FormatSecCHUA(v, grease1);
    var fullBrands := FormatSecCHUAFullVersion(v, grease2);
    headers := AddEnabled(HintOrder, opts.Snapshot(), brands, fullBrands);
  }

  /** The loop of generateHeaders over the headers hs, starting from an empty map. */
  method AddEnabled(hs: seq<Hint>, s: Options.Settings, brands: string, fullBrands: string)
    returns (headers: map<string, string>)
    ensures headers == Collected(hs, s, brands, fullBrands)
  {
    headers := map[];
    for i := 0 to |hs|
      invariant headers == Collected(hs[..i], s, brands, fullBrands)
    {
      var h := hs[i];
      CollectedAppend(hs[..i], h, s, brands, fullBrands);
      if HintEnabled(h, s) {
        headers := headers[HintName(h) := HintValue(h, brands, fullBrands)];
      }
      assert hs[..i + 1] == hs[..i] + [h];
    }
    assert hs[..|hs|] == hs;
  }

  /** Considering one more header. */
  lemma CollectedAppend(hs: seq<Hint>, h: Hint, s: Options.Settings, brands: string, fullBrands: string)
    ensures Collected(hs + [h], s, brands, fullBrands) ==
      var m := Collected(hs, s, brands, fullBrands);
      if HintEnabled(h, s) then m[HintName(h) := HintValue(h, brands, fullBrands)] else m
  {
    assert (hs + [h])[..|hs|] == hs;
  }

  /** Over any list holding h, h's name is present exactly when its flag is set. */
  lemma {:induction false} CollectedDomain(hs: seq<Hint>, h: Hint, s: Options.Settings, brands: string, fullBrands: string)
    requires h in hs
    ensures HintName(h) in Collected(hs, s, brands, fullBrands) <==> HintEnabled(h, s)
    decreases |hs|
  {
    var init := hs[..|hs| - 1];
    var last := hs[|hs| - 1];
    assert hs == init + [last];
    HintNameInjective(h, last);
    if h != last {
      CollectedDomain(init, h, s, brands, fullBrands);
    } else if !HintEnabled(h, s) {
      CollectedNames(init, s, brands, fullBrands);
      if HintName(h) in Collected(init, s, brands, fullBrands) {
        var g :| g in init && HintName(g) == HintName(h) && HintEnabled(g, s);
        HintNameInjective(g, h);
      }
    }
  }

  /** An enabled header of the list carries its own value. */
  lemma {:induction false} CollectedValue(hs: seq<Hint>, h: Hint, s: Options.Settings, brands: string, fullBrands: string)
    requires h in hs && HintEnabled(h, s)
    ensures HintName(h) in Collected(hs, s, brands, fullBrands)
    ensures Collected(hs, s, brands, fullBrands)[HintName(h)] == HintValue(h, brands, fullBrands)
    decreases |hs|
  {
    var init := hs[..|hs| - 1];
    var last := hs[|hs| - 1];
    assert hs == init + [last];
    HintNameInjective(h, last);
    if h != last {
      CollectedValue(init, h, s, brands, fullBrands);
    }
  }

  /** Every name present belongs to an enabled header of the list. */
  lemma {:induction false} CollectedNames(hs: seq<Hint>, s: Options.Settings, brands: string, fullBrands: string)
    ensures forall name :: name in Collected(hs, s, brands, fullBrands) ==>
      exists h :: h in hs && HintName(h) == name && HintEnabled(h, s)
    decreases |hs|
  {
    if |hs| > 0 {
      var init := hs[..|hs| - 1];
      var last := hs[|hs| - 1];
      CollectedNames(init, s, brands, fullBrands);
      forall name | name in Collected(hs, s, brands, fullBrands)
        ensures exists h :: h in hs && HintName(h) == name && HintEnabled(h, s)
      {
        if name in Collected(init, s, brands, fullBrands) {
          var h :| h in init && HintName(h) == name && HintEnabled(h, s);
          assert h in hs;
        } else {
          assert HintName(last) == name && HintEnabled(last, s);
        }
      }
    }
  }

  /** Every Client-Hint header is present exactly when its flag is set, and carries its value. */
  lemma ClientHintsExact(s: Options.Settings, brands: string, fullBrands: string)
    ensures forall h: Hint :: HintName(h) in ClientHints(s, brands, fullBrands) <==> HintEnabled(h, s)
    ensures forall h: Hint :: HintEnabled(h, s) ==>
      ClientHints(s, brands, fullBrands)[HintName(h)] == HintValue(h, brands, fullBrands)
    ensures forall name :: name in ClientHints(s, brands, fullBrands) ==>
      exists h: Hint :: HintName(h) == name
  {
    CollectedNames(HintOrder, s, brands, fullBrands);
    forall h: Hint ensures h in HintOrder {
      match h
      case SecCHUA => assert HintOrder[0] == h;
      case Mobile => assert HintOrder[1] == h;
      case Platform => assert HintOrder[2] == h;
      case FullVersionList => assert HintOrder[3] == h;
      case PlatformVersion => assert HintOrder[4] == h;
      case Bitness => assert HintOrder[5] == h;
      case Arch => assert HintOrder[6] == h;
      case Model => assert HintOrder[7] == h;
      case Wow64 => assert HintOrder[8] == h;
      case FormFactors => assert HintOrder[9] == h;
    }
    forall h: Hint ensures HintName(h) in ClientHints(s, brands, fullBrands) <==> HintEnabled(h, s) {
      CollectedDomain(HintOrder, h, s, brands, fullBrands);
    }
    forall h: Hint | HintEnabled(h, s)
      ensures ClientHints(s, brands, fullBrands)[HintName(h)] == HintValue(h, brands, fullBrands)
    {
      CollectedValue(HintOrder, h, s, brands, fullBrands);
    }
  }

  /** With no Client-Hint flag set, there are no headers. */
  lemma ClientHintsNone(s: Options.Settings, brands: string, fullBrands: string)
    requires !Options.AnyHint(s)
    ensures ClientHints(s, brands, fullBrands) == map[]
  {
    ClientHintsExact(s, brands, fullBrands);
  }

  /** The fixed values: a 64-bit x86 Windows 10 desktop that is not mobile and not WoW64. */
  lemma ClientHintsFixedValues(s: Options.Settings, brands: string, fullBrands: string)
    ensures var m := ClientHints(s, brands, fullBrands);
      && (s.withSecCHUAMobile ==> "Sec-CH-UA-Mobile" in m && m["Sec-CH-UA-Mobile"] == "?0")
      && (s.withSecCHUAPlatform ==> "Sec-CH-UA-Platform" in m && m["Sec-CH-UA-Platform"] == "\"Windows\"")
      && (s.withSecCHUAPlatformVer ==> "Sec-CH-UA-Platform-Version" in m && m["Sec-CH-UA-Platform-Version"] == "\"10.0.0\"")
      && (s.withSecCHUABitness ==> "Sec-CH-UA-Bitness" in m && m["Sec-CH-UA-Bitness"] == "\"64\"")
      && (s.withSecCHUAArch ==> "Sec-CH-UA-Arch" in m && m["Sec-CH-UA-Arch"] == "\"x86\"")
      && (s.withSecCHUAModel ==> "Sec-CH-UA-Model" in m && m["Sec-CH-UA-Model"] == "\"\"")
      && (s.withSecCHUAWow64 ==> "Sec-CH-UA-Wow64" in m && m["Sec-CH-UA-Wow64"] == "?0")
      && (s.withSecCHUAFormFactors ==> "Sec-CH-UA-Form-Factors" in m && m["Sec-CH-UA-Form-Factors"] == "\"Desktop\"")
      && (s.withSecCHUA ==> "Sec-CH-UA" in m && m["Sec-CH-UA"] == brands)
      && (s.withSecCHUAFullVersion ==> "Sec-CH-UA-Full-Version-List" in m && m["Sec-CH-UA-Full-Version-List"] == fullBrands)
  {
    ClientHintsExact(s, brands, fullBrands);
    assert HintName(Mobile) == "Sec-CH-UA-Mobile";
    assert HintName(Platform) == "Sec-CH-UA-Platform";
    assert HintName(PlatformVersion) == "Sec-CH-UA-Platform-Version";
    assert HintName(Bitness) == "Sec-CH-UA-Bitness";
    assert HintName(Arch) == "Sec-CH-UA-Arch";
    assert HintName(Model) == "Sec-CH-UA-Model";
    assert HintName(Wow64) == "Sec-CH-UA-Wow64";
    assert HintName(FormFactors) == "Sec-CH-UA-Form-Factors";
    assert HintName(SecCHUA) == "Sec-CH-UA";
    assert HintName(FullVersionList) == "Sec-CH-UA-Full-Version-List";
  }

  /** "User-Agent" is not a Client-Hint name, so adding it never overwrites a hint. */
  lemma UserAgentNotAHint(h: Hint)
    ensures HintName(h) != "User-Agent"
  {
    assert HintName(h)[0..3] == "Sec";
  }
}
