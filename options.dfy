/**
 * generator/options.go: the generation settings, their defaults, the option
 * constructors (each a closure over *generateOptions in Go, here a datatype
 * value that an Apply method interprets) and parseVersionString.
 */
module Options {
  import opened GoLib
  import opened Types

  /** The value of every field of generateOptions, as one record. */
  datatype Settings = Settings(
    browser: BrowserName,
    os: OSName,
    minVersion: Version,
    maxVersion: Version,
    withWeight: bool,
    withSecCHUA: bool,
    withSecCHUAFullVersion: bool,
    withSecCHUAPlatform: bool,
    withSecCHUAPlatformVer: bool,
    withSecCHUAMobile: bool,
    withSecCHUABitness: bool,
    withSecCHUAArch: bool,
    withSecCHUAFormFactors: bool,
    withSecCHUAModel: bool,
    withSecCHUAWow64: bool)

  /** Whether any Client-Hint flag is set. */
  predicate AnyHint(s: Settings)
  {
    s.withSecCHUA || s.withSecCHUAFullVersion || s.withSecCHUAPlatform || s.withSecCHUAPlatformVer
    || s.withSecCHUAMobile || s.withSecCHUABitness || s.withSecCHUAArch || s.withSecCHUAFormFactors
    || s.withSecCHUAModel || s.withSecCHUAWow64
  }

  /** defaultOptions: Chrome on Windows, weighted selection, no bounds, no Client Hints. */
  function DefaultOptions(): (s: Settings)
    ensures s.browser == Chrome && s.os == Windows && s.withWeight
    ensures s.minVersion.components == [] && s.maxVersion.components == []
    ensures !AnyHint(s)
  {
    Settings(Chrome, Windows, Version([]), Version([]), true,
             false, false, false, false, false, false, false, false, false, false)
  }

  // ---------------------------------------------------------------------
  // parseVersionString
  // ---------------------------------------------------------------------

  /** The values of the longest run of leading parts that strconv.Atoi accepts. */
  function LeadingInts(parts: seq<string>): (r: seq<int>)
    ensures |r| <= |parts|
    decreases |parts|
  {
    if |parts| == 0 || !Atoi(parts[0]).ok then []
    else [Atoi(parts[0]).value] + LeadingInts(parts[1..])
  }

  /**
   * LeadingInts is the maximal run: every part it covers converts, to the
   * value it holds, and the part just after the run, if any, does not.
   */
  lemma {:induction false} LeadingIntsMaximal(parts: seq<string>)
    ensures var r := LeadingInts(parts);
      (forall i :: 0 <= i < |r| ==> Atoi(parts[i]).ok && r[i] == Atoi(parts[i]).value)
      && (|r| < |parts| ==> !Atoi(parts[|r|]).ok)
    decreases |parts|
  {
    if |parts| > 0 && Atoi(parts[0]).ok {
      LeadingIntsMaximal(parts[1..]);
      var r := LeadingInts(parts);
      assert r[1..] == LeadingInts(parts[1..]);
      forall i | 0 < i < |r| ensures Atoi(parts[i]).ok && r[i] == Atoi(parts[i]).value {
        assert parts[i] == parts[1..][i - 1];
      }
      if |r| < |parts| {
        assert parts[|r|] == parts[1..][|r| - 1];
      }
    }
  }

  /** What parseVersionString returns for s. */
  function ParsedVersion(s: string): Version
  {
    Version(LeadingInts(Split(s, '.')))
  }

  /** parseVersionString: split at '.', keep converting parts until the first that is not an integer. */
  method ParseVersionString(s: string) returns (v: Version)
    ensures v == ParsedVersion(s)
  {
    var parts := Split(s, '.');
    var components: seq<int> := [];
    var k := 0;
    while k < |parts|
      invariant 0 <= k <= |parts|
      invariant LeadingInts(parts) == components + LeadingInts(parts[k..])
    {
      var r := Atoi(parts[k]);
      assert parts[k..][0] == parts[k];
      if !r.ok {
        assert LeadingInts(parts[k..]) == [];
        break;
      }
      assert parts[k..][1..] == parts[k + 1..];
      assert LeadingInts(parts[k..]) == [r.value] + LeadingInts(parts[k + 1..]);
      components := components + [r.value];
      k := k + 1;
    }
    v := Version(components);
  }

  /** Whole version strings are read in full. */
  lemma ParsedVersionFour()
    ensures ParsedVersion("133.0.6943.98") == Version([133, 0, 6943, 98])
  {
    var v := Version([133, 0, 6943, 98]);
    forall i | 0 <= i < |v.components| ensures IsInt64(v.components[i]) {
      assert 0 <= v.components[i] <= 6943;
    }
    ParseRenderRoundTrip(v);
    RenderFour();
  }

  lemma ParsedVersionTwo()
    ensures ParsedVersion("145.2") == Version([145, 2])
  {
    RenderTwo();
    ParseRenderRoundTrip(Version([145, 2]));
  }

  lemma ParsedVersionOne()
    ensures ParsedVersion("133") == Version([133])
  {
    RenderOne();
    ParseRenderRoundTrip(Version([133]));
  }

  /** Text that does not start with an integer gives the empty version. */
  lemma ParsedVersionEmpty()
    ensures ParsedVersion("abc") == Version([])
    ensures ParsedVersion("") == Version([])
  {
  }

  /** strconv.Atoi accepts a sign, so signed parts are kept. */
  lemma ParsedVersionSigned()
    ensures ParsedVersion("+7.-1") == Version([7, -1])
  {
    SplitNoSeparator("-1", '.');
    SplitAfterSeparator("+7", '.', "-1");
    assert "+7" + "." + "-1" == "+7.-1";
    SignedParts();
    assert ["+7", "-1"][1..] == ["-1"];
  }

  /** Atoi takes '+' and '-' as signs. */
  lemma SignedParts()
    ensures Atoi("+7") == AtoiResult(7, true)
    ensures Atoi("-1") == AtoiResult(-1, true)
  {
    assert "+7"[1..] == "7" && "-1"[1..] == "1";
  }

  /** Parsing stops at the first part that is not an integer, even when later parts are. */
  lemma ParsedVersionStops()
    ensures ParsedVersion("133.x.5") == Version([133])
  {
    SplitStops();
    LeadingIntsStops();
  }

  lemma SplitStops()
    ensures Split("133.x.5", '.') == ["133", "x", "5"]
  {
    SplitNoSeparator("5", '.');
    SplitAfterSeparator("x", '.', "5");
    assert "x" + "." + "5" == "x.5";
    SplitAfterSeparator("133", '.', "x.5");
    assert "133" + "." + "x.5" == "133.x.5";
  }

  lemma LeadingIntsStops()
    ensures LeadingInts(["133", "x", "5"]) == [133]
  {
    assert FormatInt(133) == "133";
    AtoiFormatInt(133);
    assert !AllDigits("x") by { assert !IsDigit("x"[0]); }
    assert ["133", "x", "5"][1..] == ["x", "5"];
  }

  /** Parts of a rendering of 64-bit components are read back one by one. */
  lemma {:induction false} LeadingIntsFormatAll(cs: seq<int>)
    requires forall i :: 0 <= i < |cs| ==> IsInt64(cs[i])
    ensures LeadingInts(FormatAll(cs)) == cs
    decreases |cs|
  {
    if |cs| > 0 {
      AtoiFormatInt(cs[0]);
      LeadingIntsFormatAll(cs[1..]);
      assert FormatAll(cs)[1..] == FormatAll(cs[1..]);
    }
  }

  /** parseVersionString reads back what Version.String writes, when every component fits in 64 bits. */
  lemma ParseRenderRoundTrip(v: Version)
    requires forall i :: 0 <= i < |v.components| ==> IsInt64(v.components[i])
    ensures ParsedVersion(Render(v)) == v
  {
    if |v.components| == 0 {
      assert Render(v) == "";
      assert Split("", '.') == [""];
      assert !Atoi("").ok;
    } else {
      RenderSplits(v);
      LeadingIntsFormatAll(v.components);
    }
  }

  // ---------------------------------------------------------------------
  // Options
  // ---------------------------------------------------------------------

  /** The option constructors of the package, one variant each. */
  datatype Option =
    | WithBrowser(b: BrowserName)
    | WithOS(name: OSName)
    | WithMinVersion(text: string)
    | WithMaxVersion(text: string)
    | WithMinVersionStruct(v: Version)
    | WithMaxVersionStruct(v: Version)
    | WithWeightedSelection(enable: bool)
    | WithClientHints
    | WithAllClientHints

  /** The settings after running option o's closure on s. */
  function Applied(o: Option, s: Settings): Settings
  {
    match o
    case WithBrowser(b) => s.(browser := b)
    case WithOS(name) => s.(os := name)
    case WithMinVersion(text) => s.(minVersion := ParsedVersion(text))
    case WithMaxVersion(text) => s.(maxVersion := ParsedVersion(text))
    case WithMinVersionStruct(v) => s.(minVersion := v)
    case WithMaxVersionStruct(v) => s.(maxVersion := v)
    case WithWeightedSelection(enable) => s.(withWeight := enable)
    case WithClientHints => s.(withSecCHUA := true, withSecCHUAMobile := true, withSecCHUAPlatform := true)
    case WithAllClientHints =>
      s.(withSecCHUA := true, withSecCHUAFullVersion := true, withSecCHUAPlatform := true,
         withSecCHUAPlatformVer := true, withSecCHUAMobile := true, withSecCHUABitness := true,
         withSecCHUAArch := true, withSecCHUAFormFactors := true, withSecCHUAModel := true,
         withSecCHUAWow64 := true)
  }

  /** The options applied left to right, as Generate does before anything else. */
  function ApplyAll(opts: seq<Option>, s: Settings): Settings
    decreases |opts|
  {
    if |opts| == 0 then s else Applied(opts[|opts| - 1], ApplyAll(opts[..|opts| - 1], s))
  }

  /** The fields of generateOptions, to state which ones an option writes. */
  datatype Field =
    | Browser | OS | MinVersion | MaxVersion | Weight
    | SecCHUA | FullVersion | Platform | PlatformVer | Mobile
    | Bitness | Arch | FormFactors | Model | Wow64

  datatype FieldValue = Name(text: string) | Ver(v: Version) | Flag(b: bool)

  function Get(s: Settings, f: Field): FieldValue
  {
    match f
    case Browser => Name(s.browser)
    case OS => Name(s.os)
    case MinVersion => Ver(s.minVersion)
    case MaxVersion => Ver(s.maxVersion)
    case Weight => Flag(s.withWeight)
    case SecCHUA => Flag(s.withSecCHUA)
    case FullVersion => Flag(s.withSecCHUAFullVersion)
    case Platform => Flag(s.withSecCHUAPlatform)
    case PlatformVer => Flag(s.withSecCHUAPlatformVer)
    case Mobile => Flag(s.withSecCHUAMobile)
    case Bitness => Flag(s.withSecCHUABitness)
    case Arch => Flag(s.withSecCHUAArch)
    case FormFactors => Flag(s.withSecCHUAFormFactors)
    case Model => Flag(s.withSecCHUAModel)
    case Wow64 => Flag(s.withSecCHUAWow64)
  }

  const HintFields: set<Field> :=
    {SecCHUA, FullVersion, Platform, PlatformVer, Mobile, Bitness, Arch, FormFactors, Model, Wow64}

  /** The fields each option writes, as the options' documentation lists them. */
  function Touches(o: Option): set<Field>
  {
    match o
    case WithBrowser(_) => {Browser}
    case WithOS(_) => {OS}
    case WithMinVersion(_) => {MinVersion}
    case WithMaxVersion(_) => {MaxVersion}
    case WithMinVersionStruct(_) => {MinVersion}
    case WithMaxVersionStruct(_) => {MaxVersion}
    case WithWeightedSelection(_) => {Weight}
    case WithClientHints => {SecCHUA, Mobile, Platform}
    case WithAllClientHints => HintFields
  }

  /** The value an option stores into a field it writes. */
  function Written(o: Option, f: Field): FieldValue
    requires f in Touches(o)
  {
    match o
    case WithBrowser(b) => Name(b)
    case WithOS(name) => Name(name)
    case WithMinVersion(text) => Ver(ParsedVersion(text))
    case WithMaxVersion(text) => Ver(ParsedVersion(text))
    case WithMinVersionStruct(v) => Ver(v)
    case WithMaxVersionStruct(v) => Ver(v)
    case WithWeightedSelection(enable) => Flag(enable)
    case WithClientHints => Flag(true)
    case WithAllClientHints => Flag(true)
  }

  /**
   * Each option writes exactly the fields Touches lists, with the value
   * Written gives, and leaves every other field as it was.
   */
  lemma ApplyFrame(o: Option, s: Settings, f: Field)
    ensures f in Touches(o) ==> Get(Applied(o, s), f) == Written(o, f)
    ensures f !in Touches(o) ==> Get(Applied(o, s), f) == Get(s, f)
  {
  }

  /** The last option that writes a field decides its value. */
  lemma {:induction false} LastWins(opts: seq<Option>, s: Settings, f: Field, i: nat)
    requires i < |opts| && f in Touches(opts[i])
    requires forall j :: i < j < |opts| ==> f !in Touches(opts[j])
    ensures Get(ApplyAll(opts, s), f) == Written(opts[i], f)
    decreases |opts|
  {
    var last := |opts| - 1;
    var prefix := opts[..last];
    ApplyFrame(opts[last], ApplyAll(prefix, s), f);
    if i < last {
      LastWins(prefix, s, f, i);
    }
  }

  /** A field no option writes keeps its value from the starting settings. */
  lemma {:induction false} Untouched(opts: seq<Option>, s: Settings, f: Field)
    requires forall j :: 0 <= j < |opts| ==> f !in Touches(opts[j])
    ensures Get(ApplyAll(opts, s), f) == Get(s, f)
    decreases |opts|
  {
    if |opts| > 0 {
      var last := |opts| - 1;
      ApplyFrame(opts[last], ApplyAll(opts[..last], s), f);
      Untouched(opts[..last], s, f);
    }
  }
}

/**
 * The generateOptions record itself: the struct the option closures update
 * in place, with each closure as a method.
 */
module OptionRecord {
  import opened Types
  import opened Options

  /** The mutable generateOptions record that Generate builds and the options update. */
  class GenerateOptions {
    var browser: BrowserName
    var os: OSName
    var minVersion: Version
    var maxVersion: Version
    var withWeight: bool
    var withSecCHUA: bool
    var withSecCHUAFullVersion: bool
    var withSecCHUAPlatform: bool
    var withSecCHUAPlatformVer: bool
    var withSecCHUAMobile: bool
    var withSecCHUABitness: bool
    var withSecCHUAArch: bool
    var withSecCHUAFormFactors: bool
    var withSecCHUAModel: bool
    var withSecCHUAWow64: bool

    function Snapshot(): Settings
      reads this
    {
      Settings(browser, os, minVersion, maxVersion, withWeight,
               withSecCHUA, withSecCHUAFullVersion, withSecCHUAPlatform, withSecCHUAPlatformVer,
               withSecCHUAMobile, withSecCHUABitness, withSecCHUAArch, withSecCHUAFormFactors,
               withSecCHUAModel, withSecCHUAWow64)
    }

    /** defaultOptions: a fresh record with the package defaults. */
    constructor ()
      ensures Snapshot() == DefaultOptions()
    {
      browser := Chrome;
      os := Windows;
      minVersion := Version([]);
      maxVersion := Version([]);
      withWeight := true;
      withSecCHUA := false;
      withSecCHUAFullVersion := false;
      withSecCHUAPlatform := false;
      withSecCHUAPlatformVer := false;
      withSecCHUAMobile := false;
      withSecCHUABitness := false;
      withSecCHUAArch := false;
      withSecCHUAFormFactors := false;
      withSecCHUAModel := false;
      withSecCHUAWow64 := false;
    }

    // The closures the option constructors return, one method each.

    method WithBrowser(b: BrowserName)
      modifies this
      ensures Snapshot() == Applied(Option.WithBrowser(b), old(Snapshot()))
    {
      browser := b;
    }

    method WithOS(name: OSName)
      modifies this
      ensures Snapshot() == Applied(Option.WithOS(name), old(Snapshot()))
    {
      os := name;
    }

    method WithMinVersion(text: string)
      modifies this
      ensures minVersion == ParsedVersion(text)
      ensures old(Snapshot()).(minVersion := minVersion) == Snapshot()
    {
      minVersion := ParseVersionString(text);
    }

    method WithMaxVersion(text: string)
      modifies this
      ensures maxVersion == ParsedVersion(text)
      ensures old(Snapshot()).(maxVersion := maxVersion) == Snapshot()
    {
      maxVersion := ParseVersionString(text);
    }

    method WithMinVersionStruct(v: Version)
      modifies this
      ensures Snapshot() == Applied(Option.WithMinVersionStruct(v), old(Snapshot()))
    {
      minVersion := v;
    }

    method WithMaxVersionStruct(v: Version)
      modifies this
      ensures Snapshot() == Applied(Option.WithMaxVersionStruct(v), old(Snapshot()))
    {
      maxVersion := v;
    }

    method WithWeightedSelection(enable: bool)
      modifies this
      ensures Snapshot() == Applied(Option.WithWeightedSelection(enable), old(Snapshot()))
    {
      withWeight := enable;
    }

    method WithClientHints()
      modifies this
      ensures Snapshot() == Applied(Option.WithClientHints, old(Snapshot()))
    {
      withSecCHUA := true;
      withSecCHUAMobile := true;
      withSecCHUAPlatform := true;
    }

    method WithAllClientHints()
      modifies this
      ensures withSecCHUA && withSecCHUAFullVersion && withSecCHUAPlatform && withSecCHUAPlatformVer
        && withSecCHUAMobile && withSecCHUABitness && withSecCHUAArch && withSecCHUAFormFactors
        && withSecCHUAModel && withSecCHUAWow64
      ensures browser == old(browser) && os == old(os) && minVersion == old(minVersion)
        && maxVersion == old(maxVersion) && withWeight == old(withWeight)
    {
      withSecCHUA := true;
      withSecCHUAFullVersion := true;
      withSecCHUAPlatform := true;
      withSecCHUAPlatformVer := true;
      withSecCHUAMobile := true;
      withSecCHUABitness := true;
      withSecCHUAArch := true;
      withSecCHUAFormFactors := true;
      withSecCHUAModel := true;
      withSecCHUAWow64 := true;
    }

    /** Runs option o's closure on this record (the call opt(options)). */
    method Apply(o: Option)
      modifies this
      ensures Snapshot() == Applied(o, old(Snapshot()))
    {
      match o {
        case WithBrowser(b) => WithBrowser(b);
        case WithOS(name) => WithOS(name);
        case WithMinVersion(text) => WithMinVersion(text);
        case WithMaxVersion(text) => WithMaxVersion(text);
        case WithMinVersionStruct(v) => WithMinVersionStruct(v);
        case WithMaxVersionStruct(v) => WithMaxVersionStruct(v);
        case WithWeightedSelection(enable) => WithWeightedSelection(enable);
        case WithClientHints => WithClientHints();
        case WithAllClientHints => WithAllClientHints();
      }
    }
  }
}
