# A Dafny model of the go-useragent generator

This project models the core of a small Go library that produces realistic
Chrome User-Agent strings and the Client-Hint request headers that go with
them. It also models the version-handling part of the library's data-update
tool.

The library keeps a catalog of browser versions per (browser, operating
system) pair. The catalog is a nested tree of numbers, e.g. `133 -> 0 -> 6943 -> [53, 98]`.
A call to `Generate` works like this:

1. Apply the caller's options to the defaults (Chrome on Windows, weighted selection).
2. Look up the catalog entry, or fail with "browser %s not found" or "os %s not found for browser %s".
3. Keep the versions between the optional minimum and maximum, or fail with "no versions found matching criteria".

The model returns these errors as the constructors `BrowserNotFound(browser)`, `OSNotFound(os, browser)` and `NoMatch` of `Generator.GenError`. Each one stands for the message above; the formatted text itself is not modelled.
4. Pick one version. The pick is uniform, or weighted so that newer versions are likelier.
5. Substitute the version into the entry's User-Agent template.
6. Add every Client-Hint header whose option flag is set, then the `User-Agent` header.

The update tool keeps the fetched versions whose major number is at least 133. It cuts each one at `.` into numbers, and merges those numbers into the catalog tree.

Modules, one per source file plus two shared ones:

- `GoLib` (`go_lib.dfy`): the Go library calls the core relies on. These are
  `strconv.Atoi` (with its 64-bit range errors), the `%d` verb, `strings.Split`,
  `strings.Join`, `strings.ReplaceAll` and `sort.Ints`.
- `Dynamic` (`dynamic.dfy`): the dynamically typed values a YAML decoder hands
  the code (`interface{}`), as a datatype.
- `Types` (`types.dfy`): `Version`, its `String` and `Compare`.
- `Options` (`options.dfy`): the settings record, the option constructors as a
  datatype, `defaultOptions`, `parseVersionString`.
- `OptionRecord` (`options.dfy`): `generateOptions` as a class whose methods
  update its fields the way the option closures do.
- `Data` (`data.dfy`): `toInt`, `parseVersions`, the descending sort and `loadData`.
- `Headers` (`headers.dfy`): `generateHeaders`, both brand lists, `getGreaseBrand`.
- `Generator` (`generator.dfy`): `filterVersions`, `selectVersion`, `Generate`.
- `UpdateData` (`update_data.dfy`): the update tool's `filterVersions`,
  `parseVersion` and `addToMap`.

Where the code does work step by step, the model does too: loops, the option
object, the map being filled. Each such method is proved equal to a
specification function. The properties are then proved about that function.

`loadData` sorts the decoded versions but does not remove duplicates;
`Data.DecodedKeepsDuplicates` shows one version coming out twice.

## Model

| member | source | states |
|---|---|---|
| `GoLib.Atoi` | generator/options.go:119 | Succeeds exactly on an optional sign followed by digits whose value fits in 64 bits, and then returns that value. The value is always within 64 bits. A well-formed literal out of range gives the nearer bound. A digit run after the sign that passes 2^64 - 1 gives the bound of that sign, whatever follows it. Any other malformed text gives 0. |
| `GoLib.AtoiOverflowBeforeSyntax` | generator/options.go:119 | Twenty nines followed by "x" give the maximum int64 with an error, and with a leading '-' the minimum: the overflow is reported before the bad character is read. |
| `GoLib.AtoiSyntaxError` | generator/options.go:119 | "1x" gives 0 with an error. |
| `GoLib.FormatInt` | generator/types.go:35 | The "%d" text of x is non-empty and reads back as the decimal x. It starts with '-' exactly when x is negative. Its digits have no leading zero, except for "0" itself, so "007" and "-0" are never produced. |
| `GoLib.AtoiFormatInt` | generator/types.go:35 | Atoi reads the "%d" text of any 64-bit number back as that number without error. |
| `GoLib.FormatIntHasNoChar` | generator/types.go:35 | The "%d" text holds no character other than digits and '-', so in particular no '.'. |
| `GoLib.Split` | generator/options.go:116 | strings.Split always returns at least one part. |
| `GoLib.SplitParts` | generator/options.go:116 | No part contains the separator, and joining the parts with it gives the input back. |
| `GoLib.SplitJoin` | generator/types.go:37 | `GoLib.Join` (strings.Join) is undone by `GoLib.Split`: splitting a join of separator-free parts gives the parts back. |
| `GoLib.ReplaceAllAbsent` | generator/generator.go:62 | `GoLib.ReplaceAll` (strings.ReplaceAll) leaves a template without the marker's first character unchanged. |
| `GoLib.ReplaceAllAfterPlainPrefix` | generator/generator.go:62 | `GoLib.ReplaceAll` replaces the first marker after a marker-free prefix and goes on replacing in the rest. |
| `GoLib.SortInts` | cmd/update-data/main.go:207-208 | sort.Ints: the result is ascending and a permutation of the input. |
| `Types.Compare` | generator/types.go:41-67 | The loop's answer equals the comparison of the two versions padded with zeros to the longer length. |
| `Types.CompareRange` | generator/types.go:40 | Compare returns only -1, 0 or 1. |
| `Types.CompareAntisymmetric` | generator/types.go:41-67 | Swapping the arguments negates the result, and a version equals itself. |
| `Types.CompareZeroIff` | generator/types.go:49-66 | 0 exactly when the zero-padded components agree at every position, so 145.2 equals 145.2.0.0. |
| `Types.CompareFirstDifference` | generator/types.go:49-64 | -1 exactly when, at the first position where they differ, the first version's component is smaller. |
| `Types.CompareTransitive` | generator/types.go:41-67 | "at most" is transitive, and a chain ending in equality is equal throughout. |
| `Types.CompareExamples` | generator/generator_test.go:65-78 | 145.2 compares equal to 145.2.0.0, and 133.0 is below 133.1. |
| `Types.String` | generator/types.go:32-38 | The loop's text is the components in "%d" form joined with '.'. |
| `Types.RenderSplits` | generator/types.go:32-38 | A rendering of a non-empty version splits at '.' into the components' decimal forms, with no leading or trailing '.'. |
| `Types.RenderEmpty` | generator/types.go:32-38 | The empty version renders as "". |
| `Types.RenderOne` | generator/types.go:32-38 | Version 133 renders as "133". |
| `Types.RenderTwo` | generator/generator_test.go:65-70 | Version 145.2 renders as "145.2". |
| `Types.RenderFour` | generator/types.go:32-38 | Version 133.0.6943.98 renders as "133.0.6943.98". |
| `Options.DefaultOptions` | generator/options.go:32-38 | The defaults are Chrome, Windows, weighted selection, no version bounds and no Client-Hint flag. |
| `Options.LeadingIntsMaximal` | generator/options.go:116-125 | The parsed components are the longest run of leading parts that Atoi accepts, each with Atoi's value. The first part after them fails. |
| `Options.ParseVersionString` | generator/options.go:115-127 | The loop yields exactly the longest run of leading numeric parts. |
| `Options.ParseRenderRoundTrip` | generator/options.go:115-127 | Parsing the rendering of a version with 64-bit components gives the version back. |
| `Options.ParsedVersionFour` | generator/options.go:55 | "133.0.6943.98" parses to 133.0.6943.98. |
| `Options.ParsedVersionTwo` | generator/options.go:55 | "145.2" parses to 145.2. |
| `Options.ParsedVersionOne` | generator/generator_test.go:82 | "133" parses to 133. |
| `Options.ParsedVersionEmpty` | generator/options.go:119-124 | "abc" and "" parse to the empty version, which imposes no bound. |
| `Options.ParsedVersionSigned` | generator/options.go:119 | Atoi's sign is kept: "+7.-1" parses to 7.-1. |
| `Options.ParsedVersionStops` | generator/options.go:121-123 | Parsing stops at the first non-numeric part: "133.x.5" parses to 133. |
| `Options.ApplyFrame` | generator/options.go:40-113 | Each option writes exactly its own fields and leaves every other field as it was. |
| `Options.LastWins` | generator/generator.go:37-40 | After all options are applied, a field holds what the last option touching it wrote. |
| `Options.Untouched` | generator/generator.go:37-40 | A field no option touches keeps its default. |
| `OptionRecord.GenerateOptions.constructor` | generator/options.go:32-38 | A new options object holds the defaults. |
| `OptionRecord.GenerateOptions.WithBrowser` | generator/options.go:41-45 | Sets the browser and nothing else. |
| `OptionRecord.GenerateOptions.WithOS` | generator/options.go:48-52 | Sets the operating system and nothing else. |
| `OptionRecord.GenerateOptions.WithMinVersion` | generator/options.go:56-60 | Sets the minimum to the parsed text and nothing else. |
| `OptionRecord.GenerateOptions.WithMaxVersion` | generator/options.go:63-67 | Sets the maximum to the parsed text and nothing else. |
| `OptionRecord.GenerateOptions.WithMinVersionStruct` | generator/options.go:70-74 | Sets the minimum to the given version and nothing else. |
| `OptionRecord.GenerateOptions.WithMaxVersionStruct` | generator/options.go:77-81 | Sets the maximum to the given version and nothing else. |
| `OptionRecord.GenerateOptions.WithWeightedSelection` | generator/options.go:84-88 | Sets the selection mode and nothing else. |
| `OptionRecord.GenerateOptions.WithClientHints` | generator/options.go:91-97 | Sets the Sec-CH-UA, Mobile and Platform flags and nothing else. |
| `OptionRecord.GenerateOptions.WithAllClientHints` | generator/options.go:100-113 | Sets all ten Client-Hint flags and keeps the browser, OS, bounds and selection mode. |
| `OptionRecord.GenerateOptions.Apply` | generator/generator.go:38-40 | Calling one option on the object changes its state as the option's specification says. |
| `Data.ToInt` | generator/data.go:108-119 | int, int64 and float64 values convert to their number with ok. Anything else gives 0 and not ok. |
| `Data.ParseVersions` | generator/data.go:63-106 | The versions returned, counted with multiplicity, are exactly those the tree denotes in any map order. |
| `Data.AcceptedIntsMembers` | generator/data.go:86-92 | A leaf list yields x exactly when some item converts to x. |
| `Data.DecodedShape` | generator/data.go:63-106 | Every version produced extends the prefix and has at least one component. |
| `Data.DecodedIntKeysPick` | generator/data.go:75-78 | The result of a map does not depend on the order its keys are visited. |
| `Data.DecodedAnyKeysPick` | generator/data.go:79-85 | The same holds for maps with dynamically typed keys, where keys toInt rejects contribute nothing. |
| `Data.DecodedCatalogExample` | generator/types.go:77-83 | Below key 133, the layout 0 -> 6943 -> [53, 98] decodes to 133.0.6943.53 and 133.0.6943.98. |
| `Data.DecodedNilExample` | generator/data.go:98-102 | A nil ends the chain: 145 -> 2 -> nil decodes to the one version 145.2. |
| `Data.DecodedKeepsDuplicates` | generator/data.go:79-85 | An int key and a float key for the same number both contribute, so the version comes out twice. |
| `Data.SortDescending` | generator/data.go:52-54 | The sort leaves the versions newest first by Compare, as a permutation of its input. |
| `Data.LoadData` | generator/data.go:26-61 | The store has exactly the configured browsers and platforms. Each entry keeps its template and holds the decoded versions, sorted newest first. |
| `Headers.GreaseBrand` | generator/headers.go:69-72 | The grease brand is one of "Not(A:Brand", "Not?A_Brand" and "Not A;Brand". |
| `Headers.Major` | generator/headers.go:48-51 | The major version is the first component, or 0 for an empty version. |
| `Headers.ChromeBrandListTemplate` | generator/headers.go:46-67 | Both brand lists follow one template. The grease brand and "Not(A:Brand" carry the placeholder, "Google Chrome" and "Chromium" carry the version, each as "brand";v="version" joined by ", ". |
| `Headers.SecCHUAEntries` | generator/headers.go:46-53 | `Headers.FormatSecCHUA` (formatSecCHUA) gives the grease brand and "Not(A:Brand" version "99", and both "Google Chrome" and "Chromium" the major version. |
| `Headers.FullVersionEntries` | generator/headers.go:55-67 | `Headers.FormatSecCHUAFullVersion` (formatSecCHUAFullVersion) gives the grease brand and "Not(A:Brand" "99.0.0.0", and both real brands the whole rendered version. |
| `Headers.HintNameInjective` | generator/headers.go:12-41 | The ten header names are pairwise distinct. |
| `Headers.GenerateHeaders` | generator/headers.go:9-44 | The ten flag tests build exactly the header map of the specification for the options' settings and the two brand lists. |
| `Headers.AddEnabled` | generator/headers.go:10-43 | Adding each enabled header in turn to an empty map yields exactly the specification's map for that header order. |
| `Headers.ClientHintsExact` | generator/headers.go:9-44 | A header is present exactly when its flag is set, and carries its value. No other name is ever present. |
| `Headers.ClientHintsNone` | generator/headers.go:10 | With no flag set the map is empty. |
| `Headers.ClientHintsFixedValues` | generator/headers.go:12-41 | The fixed values are those of a 64-bit x86 Windows 10 desktop that is not mobile and not WoW64. The two brand headers carry the two brand lists. |
| `Headers.UserAgentNotAHint` | generator/generator.go:66 | No Client-Hint header is named "User-Agent", so the header added last overwrites none of them. |
| `Generator.FilterVersions` | generator/generator.go:74-88 | The loop keeps exactly the versions within the set bounds, in their order. |
| `Generator.FilteredCount` | generator/generator.go:74-88 | An in-range version is kept as often as it occurs. Any other version is dropped. |
| `Generator.FilteredMembers` | generator/generator.go:78-85 | A version survives exactly when it occurs in the input and is within the bounds. |
| `Generator.FilteredAppend` | generator/generator.go:76-86 | Filtering works element by element, so the relative order is preserved. |
| `Generator.FilteredUnbounded` | generator/generator.go:78-82 | With neither bound set, every version is kept. |
| `Generator.CumTotal` | generator/generator.go:104 | The weights n, n-1, ..., 1 sum to the code's n(n+1)/2. |
| `Generator.WeightedIndex` | generator/generator.go:107-116 | A draw below the total picks an index below n whose band [Cum(k), Cum(k+1)) of running weights contains it. |
| `Generator.WeightedIndexIff` | generator/generator.go:109-115 | Index k is picked exactly for the draws in its band [Cum(k), Cum(k+1)). |
| `Generator.WeightedIndexCount` | generator/generator.go:98-116 | Of the n(n+1)/2 equally likely draws, exactly n-k pick index k (`Generator.Draws`): index 0 has weight n and index n-1 weight 1. |
| `Generator.FilteredDescending` | generator/generator.go:76-86 | Filtering a newest-first list leaves it newest first. |
| `Generator.GeneratedNewestWeighted` | generator/generator.go:52-60 | For a store that loadData built (`Data.StoreOf`), the candidates are newest first. Of the n(n+1)/2 weighted draws, the k-th newest candidate is picked by n-k, so the newest gets weight n and the oldest weight 1, as generator.go:98-101 intends. |
| `Generator.SelectVersion` | generator/generator.go:90-119 | The uniform or weighted pick the loop makes for the given draws. An empty list gives the empty version, and the fallback is never reached. |
| `Generator.SelectedIsCandidate` | generator/generator.go:90-116 | From a non-empty list, the selected version is one of the candidates. |
| `Generator.Generate` | generator/generator.go:36-72 | Generate's steps in order: options, lookups, filter, select, substitute, headers. Their result is the specification's outcome. |
| `Generator.GeneratedErrors` | generator/generator.go:43-56 | Each of the three errors is returned exactly when its condition holds: browser missing, OS missing for the browser, or no version in range. |
| `Generator.GeneratedSuccess` | generator/generator.go:58-71 | A result comes from some stored, in-range version. Its User-Agent is `Generator.UserAgentFor`, the template with every "{{version}}" replaced by that version's rendering, and its headers are that version's Client-Hints plus the User-Agent. |
| `Generator.GeneratedHeaders` | generator/generator.go:64-66 | On success "User-Agent" carries the User-Agent string, and each Client-Hint header is present exactly when its flag is set. |
| `Generator.GeneratedDefaults` | generator/generator.go:37 | With no options, a store without Chrome fails with `Err(BrowserNotFound(Chrome))`, standing for "browser chrome not found". A success carries the User-Agent header only. |
| `Generator.GeneratedNoMatchAboveAll` | generator/generator.go:53-56 | A minimum above every stored version gives `Err(NoMatch)`, standing for "no versions found matching criteria". |
| `Generator.BelowHighMinimum` | generator/generator_test.go:90-96 | The minimum 133.0.6943.10000 excludes 133.0.6943.141 and 133.0.6943.98. |
| `UpdateData.FilterVersions` | cmd/update-data/main.go:81-93 | The loop keeps exactly the versions whose text before the first '.' reads as a number of at least 133, in order. |
| `UpdateData.RecentCount` | cmd/update-data/main.go:81-93 | A recent version is kept as often as it occurs. Others are dropped. |
| `UpdateData.RecentMembers` | cmd/update-data/main.go:84-89 | A version is kept exactly when it occurs and is recent. |
| `UpdateData.RecentAppend` | cmd/update-data/main.go:83-91 | Filtering preserves the input order. |
| `UpdateData.RecentByMajor` | cmd/update-data/main.go:84-87 | "M.rest" is kept exactly when the 64-bit number M is at least 133. |
| `UpdateData.RecentWithoutDot` | cmd/update-data/main.go:84-87 | A version without '.' is judged by Atoi of the whole text. |
| `UpdateData.ParseVersion` | cmd/update-data/main.go:146-154 | The result is `UpdateData.ParsedParts(v)`, about which the ParsedParts lemmas below are stated. There is one number per '.'-separated part, so never none. Each number is Atoi's value with its error ignored. A part whose digit run passes 2^64 - 1 gives the bound of its sign, even if a bad character follows. Any other non-numeric part gives 0. |
| `UpdateData.ParsedPartsOverflow` | cmd/update-data/main.go:150 | A part made of twenty nines and then "x" becomes the maximum int64, not 0. |
| `UpdateData.ParsedPartsRender` | cmd/update-data/main.go:146-154 | parseVersion reads back the rendering of any non-empty version with 64-bit components. |
| `UpdateData.ParsedPartsNoDot` | cmd/update-data/main.go:146-154 | Text without '.' gives the single number Atoi reads from it. |
| `UpdateData.IntItemsMembers` | cmd/update-data/main.go:213-218 | The ints collected from a []interface{} list are exactly its int items. |
| `UpdateData.IntKeyed` | cmd/update-data/main.go:239-244 | Converting a map with dynamic keys keeps exactly the int keys, with their values. |
| `UpdateData.Contains` | cmd/update-data/main.go:198-204 | The scan reports exactly whether the leaf number is already in the list. |
| `UpdateData.CollectInts` | cmd/update-data/main.go:213-218 | The loop collects the int items in order. |
| `UpdateData.AddToMap` | cmd/update-data/main.go:157-286 | The recursive merge returns the tree its specification describes, for every shape of entry. |
| `UpdateData.AddLeaf` | cmd/update-data/main.go:182-251 | With one component left below head, the merge gives the leaf case of the specification. A missing entry starts as an empty list. |
| `UpdateData.NewLeafEntry` | cmd/update-data/main.go:195-250 | The leaf case's type switch stores back the entry the specification gives for each type. |
| `UpdateData.AddBranch` | cmd/update-data/main.go:255-286 | With more components left, the merge descends as the specification says. A missing entry starts as an empty map. |
| `UpdateData.NewBranchEntry` | cmd/update-data/main.go:259-285 | The type switch on the way down stores back the entry the specification gives: a converted or fresh map filled from the rest, or the same value for a list or any other type. |
| `UpdateData.AddedShort` | cmd/update-data/main.go:158-179 | Fewer than two components leave the tree unchanged. |
| `UpdateData.AddedFreshLeaf` | cmd/update-data/main.go:182-250 | A leaf number under a missing or nil entry becomes the list [x]. |
| `UpdateData.AddedLeafPresent` | cmd/update-data/main.go:198-210 | A leaf number already in the list changes nothing. |
| `UpdateData.AddedLeafInsert` | cmd/update-data/main.go:205-209 | A new leaf number is added: the list is ascending afterwards, gains exactly that number, and nothing else changes. |
| `UpdateData.AddedLeafOverMap` | cmd/update-data/main.go:231-236 | A leaf number where a map of numbers sits is never recorded. |
| `UpdateData.AddedFreshBranch` | cmd/update-data/main.go:255-285 | A missing or nil entry on the way down becomes a new map filled from the remaining components. |
| `UpdateData.AddedBranchOverList` | cmd/update-data/main.go:272-280 | A list where the path needs a map stops the merge, and the tree stays as it was. |
| `UpdateData.AddedFrame` | cmd/update-data/main.go:157-286 | Only the entry under the first component changes. That key is present afterwards, and every other key keeps its entry. |
| `UpdateData.AddedLeafHolds` | cmd/update-data/main.go:195-230 | A leaf addition leaves a list holding the number: a []int, or the untouched []interface{} that already held it. The []int is sorted ascending only when x was inserted (`UpdateData.AddedLeafInsert`). A list that already held x is left as it was, even if it is unsorted. |
| `UpdateData.AddedIdempotent` | cmd/update-data/main.go:157-286 | Merging a version a second time changes nothing. |
| `UpdateData.AddedIsLoaded` | cmd/update-data/main.go:157-286 | A version merged into a tree whose path it fits is read back by the generator's parseVersions. |

## Left out

- I/O is not modelled. That covers reading the embedded YAML file, fetching
  versions over the network in the update tool, writing the file back, and
  printing. `loadData` is modelled from the decoded `Config` on. YAML decoding
  and its errors are not part of this model.
- The YAML round trip of the update tool (`updateYAML`) is not modelled,
  including its merge loop over the fetched versions. So are `cmd/example`,
  `fetchChromeVersions` and `main`.
- `Generator.New` is not modelled beyond `loadData`, and neither are the
  random number generators. Every draw (`rng.Intn` for the pick,
  `rand.Intn` for each grease brand) is a parameter whose bound is in the
  `requires`.
- Headers.GenerateHeaders: both brand lists are formatted from their draws
  before the ten flag tests. The source draws a grease brand only when the
  flag is set; the resulting map is the same. The ten `if` statements are
  walked as one loop over the header order.
- Go's map iteration order is not fixed. `parseVersions` is therefore
  specified by a multiset, and `loadData`'s map walk by the resulting store.
- The sort calls (`sort.Slice`, `sort.Ints`) are modelled by insertion sorts
  with sorted-and-permutation contracts. `sort.Slice` is not stable, so the
  relative order of versions that compare equal (e.g. 145.2 and 145.2.0.0)
  is not determined by the source. The model fixes one such order.
- A YAML float64 is modelled by the integer it truncates to, the only value
  the code uses. Floating point itself is not modelled.
- Go's `int` is modelled as unbounded. Overflow of `n*(n+1)/2` and of the
  running weight sum is not modelled. `strconv.Atoi`'s 64-bit range errors
  are modelled, including the early range error of a digit run that passes
  2^64 - 1 before a bad character.
- UpdateData.AddToMap: the tree is passed and returned by value. The source
  mutates nested maps in place through shared references. The model stores
  each rebuilt inner map back under its key, so aliasing between maps is not
  represented.
