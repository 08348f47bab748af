# A verified model of the Lighthouse fork's metric, gatherer, plugin and validation core

This project models, in Dafny, the parts of a Lighthouse fork listed below. Each source
file becomes one module. Where the source works step by step (loops that push onto
arrays, break out of nested loops, or sort in place), the module has a method with loop
invariants. That method is proved equal to a specification function. The properties
the code promises are then proved about those functions as lemmas.

- **Last painted hero, scaling version** (`LastPaintedHero`):
  - `findLastChangedTiming` is a method with nested `while` loops. A `found` flag stands for the `x = y = c = Infinity` break.
  - It returns the last analyzed frame whose bytes inside the hero rectangle changed, relative to `speedline.beginning`.
  - The rectangle is scaled by the first analyzed screenshot's width over the viewport width, and each coordinate is rounded on its own.
  - The errors it throws are kept: no analyzed frame, and a compared pair of screenshots of different widths.
  - `computeObservedMetric` takes the largest per-hero timing and rounds the absolute timestamp. `computeSimulatedMetric` always throws.
- **Last painted hero, gather version** (`LastPaintedHeroGather`):
  - The older variant: no scaling, bounds recomputed from each compared frame, no width check, and an unrounded timestamp.
  - `VersionsAgree` proves where the two versions coincide.
  - The shared frame data and the pixel scan are in `Speedline`.
- **Hero elements** (`HeroElements`):
  - `findHeroElements` is a method over abstract element records.
  - It keeps the first strictly largest h1, h2 and img, and the largest valid background image.
  - An h2 becomes the h1 when there is none, and is then deleted.
  - `visibleElementArea` clips at the left edge or else at the right edge, and likewise for height.
- **Plugin config** (`ConfigPlugin`):
  - `parsePlugin` and its `_parseAuditsList`, `_parseAuditRefsList` and `_parseCategory` operate on the cloned JSON value.
  - They cover every throw and its message, in the order the code checks them.
  - Round trips prove that a well-formed plugin parses back to the config it encodes.
- **JSON-LD keys** (`JsonLd`): `validateJsonLD` reports 'Unknown keyword' for every `@`-key that is not one of the seventeen keywords the code lists, taken from the JSON-LD 1.1 draft of its time.
- **schema.org validation** (`Schema`, `SchemaOrg`):
  - `cleanName` removes the leftmost `http://schema.org/` or `https://schema.org/` address once.
  - Also modelled: `findType`, `isKnownType` and the recursive `getPropsForType`.
  - `validateObjectKeys` has three outcomes: 'Unknown value type'; unrecognized types, which skip the key check; or unexpected properties against the safelist.
  - `validateSchemaOrg` unwraps a one-element array and reports every `@type` visit's messages at the cleaned object path.
- **Schema tree generation** (`SchemaTree`): `processData`, `getParents` and `removePrefix` build the type/property tree from the vocabulary graph.
- **Timing trace** (`TimingTraceSaver`):
  - `generateTraceEvents` sorts the caller's array in place with a stable insertion sort. Each entry then gives a begin/instant event and an end event, followed by one metadata event.
  - `createTraceString` splits the entries into the audit part (thread 0) and the gather part (thread 10).
- **Chart bucket rounding** (`Chart`): `ceiling_gap` uses Python's truncating `int(num / gap)` together with the floored `%`.

Shared helper modules:
- `Wrappers`: Option and Result.
- `JsString`: the string operations JavaScript offers, and decimal and hex rendering.
- `JsNumber`: `Math.round` and `Math.min`.
- `Json`: JSON values, `Object.keys` and destructuring rests.
- `Walk`: the traversal visits.

The fixture modules (`LastPaintedHeroFixtures`, `SchemaFixtures`) restate the repository's test cases and prove them.

Points where the code behaves differently from what a reader might expect, modelled as written:
- The scaling version computes the compared byte's index with the width of the current screenshot, while the bounds and the channel count come from the first analyzed screenshot.
- Widths are compared only for pairs whose progress changed. Skipped pairs are never checked.
- The error on a width change is 'Cannot measure changing screenshots'.
- The gather version applies no scaling and never throws for differing widths.

## Model

| member | source | states |
|---|---|---|
| Speedline.Analyzed | lighthouse-core/computed/metrics/last-painted-hero.js:31 | the analyzed frames are the non-interpolated frames, in their order |
| Speedline.AnalyzedMembers | lighthouse-core/computed/metrics/last-painted-hero.js:31 | a frame is analyzed exactly when it is a frame that is not interpolated |
| Speedline.AnalyzedIgnoresInterpolated | lighthouse-core/computed/metrics/last-painted-hero.js:31 | inserting an interpolated frame anywhere leaves the analyzed frames unchanged |
| Speedline.ByteAt | lighthouse-core/computed/metrics/last-painted-hero.js:68-69 | reading outside the byte buffer gives undefined, inside it the byte |
| Speedline.ScanRegion | lighthouse-core/computed/metrics/last-painted-hero.js:63-81 | the triple loop finds a differing byte exactly when some byte of the box differs between the two screenshots |
| Speedline.LastFlaggedNone | lighthouse-core/computed/metrics/last-painted-hero.js:32-84 | with no changed frame the last-changed timestamp stays `beginning` |
| Speedline.LastFlaggedLatest | lighthouse-core/computed/metrics/last-painted-hero.js:50-82 | the last-changed timestamp is that of the last changed frame |
| Speedline.MaxOf | lighthouse-core/computed/metrics/last-painted-hero.js:99 | `Math.max` of a non-empty list is an element and bounds every element |
| JsNumber.Round | lighthouse-core/computed/metrics/last-painted-hero.js:39-42 | `Math.round` is the nearest integer, halves rounded up |
| LastPaintedHero.ComputeSimulatedMetric | lighthouse-core/computed/metrics/last-painted-hero.js:20-22 | always throws 'Last Painted Hero not yet supported in Lantern' |
| LastPaintedHero.FindLastChangedTiming | lighthouse-core/computed/metrics/last-painted-hero.js:30-85 | the method returns what the timing function specifies, errors included |
| LastPaintedHero.TimingWithoutChange | lighthouse-core/computed/metrics/last-painted-hero.js:32-84 | with no compared pair changing inside the scaled rectangle the result is 0 |
| LastPaintedHero.TimingAtLastChange | lighthouse-core/computed/metrics/last-painted-hero.js:50-84 | otherwise the result is the last changed frame's timestamp minus `beginning` |
| LastPaintedHero.ErrorCases | lighthouse-core/computed/metrics/last-painted-hero.js:36-60 | missing first frame exactly when every frame is interpolated; a width error needs a compared pair, so equal widths never throw |
| LastPaintedHero.TimingIgnoresInterpolated | lighthouse-core/computed/metrics/last-painted-hero.js:31 | inserting an interpolated frame anywhere leaves the result unchanged |
| LastPaintedHero.EqualProgressIsSkipped | lighthouse-core/computed/metrics/last-painted-hero.js:54 | when no analyzed pair changes progress, the result is 0 whatever the screenshots hold |
| LastPaintedHero.RegionOutsideImage | lighthouse-core/computed/metrics/last-painted-hero.js:46-64 | a scaled rectangle starting outside the first screenshot is never scanned and gives 0 |
| LastPaintedHero.TimingNonNegative | lighthouse-core/computed/metrics/last-painted-hero.js:32-84 | with every analyzed frame at or after `beginning`, the result is not negative |
| LastPaintedHero.ComputeObservedMetric | lighthouse-core/computed/metrics/last-painted-hero.js:96-104 | timing is the largest per-hero timing; timestamp is `Math.round(navigationStart + timing * 1000)`; the first error aborts |
| LastPaintedHeroGather.ComputeSimulatedMetric | lighthouse-core/gather/computed/metrics/last-painted-hero.js:20-22 | always throws the Lantern error |
| LastPaintedHeroGather.FindLastChangedTiming | lighthouse-core/gather/computed/metrics/last-painted-hero.js:29-68 | the method returns what the timing function specifies, with bounds from each compared frame |
| LastPaintedHeroGather.FewFramesGiveZero | lighthouse-core/gather/computed/metrics/last-painted-hero.js:30-67 | zero or one analyzed frames give 0 |
| LastPaintedHeroGather.TimingWithoutChange | lighthouse-core/gather/computed/metrics/last-painted-hero.js:37-67 | no changed pair gives 0 |
| LastPaintedHeroGather.TimingAtLastChange | lighthouse-core/gather/computed/metrics/last-painted-hero.js:47-67 | the result is the last changed frame's timestamp minus `beginning` |
| LastPaintedHeroGather.TimingIgnoresInterpolated | lighthouse-core/gather/computed/metrics/last-painted-hero.js:30 | inserting an interpolated frame leaves the result unchanged |
| LastPaintedHeroGather.VersionsAgree | lighthouse-core/gather/computed/metrics/last-painted-hero.js:42-49 | with multiplier 1 and screenshots of equal dimensions, both versions give the same result |
| LastPaintedHeroGather.ComputeObservedMetric | lighthouse-core/gather/computed/metrics/last-painted-hero.js:79-88 | the largest per-hero timing, and the timestamp `navigationStart + timing * 1000` not rounded |
| LastPaintedHeroFixtures.ScaledResult | lighthouse-core/test/computed/metrics/last-painted-hero-test.js:30-46 | on the six-frame fixture, the result is the timestamp of the frame that turned the last pixel inside the rectangle on |
| LastPaintedHeroFixtures.HeroFinishesEarly | lighthouse-core/test/computed/metrics/last-painted-hero-test.js:47-52 | region {0,0,1,1} gives 1000 |
| LastPaintedHeroFixtures.HeroFinishesLate | lighthouse-core/test/computed/metrics/last-painted-hero-test.js:53-58 | region {1,1,1,1} gives 4000 |
| LastPaintedHeroFixtures.HeroLargerArea | lighthouse-core/test/computed/metrics/last-painted-hero-test.js:59-70 | region {0,0,1,2} gives 3000 |
| LastPaintedHeroFixtures.BaselinedToBeginning | lighthouse-core/test/computed/metrics/last-painted-hero-test.js:71-77 | with beginning 500, region {0,0,1,1} gives 500 |
| LastPaintedHeroFixtures.LargerViewport | lighthouse-core/test/computed/metrics/last-painted-hero-test.js:78-86 | viewport 1000 over screenshots 2 wide: {500,0,500,500} gives 2000 and {500,500,500,500} gives 4000 |
| LastPaintedHeroFixtures.GatherIgnoresViewport | lighthouse-core/gather/computed/metrics/last-painted-hero.js:42-47 | the gather version on the same case scans pixel 500, outside the image, and gives 0 |
| LastPaintedHeroFixtures.ResizedScreenshots | lighthouse-core/computed/metrics/last-painted-hero.js:60 | screenshots of different widths: the scaling version throws, the gather version reports the change |
| HeroElements.InViewportOverlaps | lighthouse-core/gather/gatherers/hero-elements.js:68-75 | a rect with positive sides is in the viewport exactly when it overlaps it along both axes |
| HeroElements.ClippedSpanIsOverlap | lighthouse-core/gather/gatherers/hero-elements.js:96-113 | a side overflowing at most one edge is clipped to its overlap with the viewport |
| HeroElements.ClippedSpanBothEdges | lighthouse-core/gather/gatherers/hero-elements.js:100-104 | a side overflowing both edges is clipped only at the start and stays wider than the viewport |
| HeroElements.VisibleAreaInside | lighthouse-core/gather/gatherers/hero-elements.js:96-113 | a rect inside the viewport keeps its whole area |
| HeroElements.VisibleAreaNonNegative | lighthouse-core/gather/gatherers/hero-elements.js:96-113 | a rect in the viewport has a non-negative visible area |
| HeroElements.TagSlot | lighthouse-core/gather/gatherers/hero-elements.js:128-134 | a tag name gives at most a heading or image slot, never the background-image slot |
| HeroElements.ValidBackgroundImage | lighthouse-core/gather/gatherers/hero-elements.js:80-91 | valid exactly when the lowercased image starts with `url(` and the repeat is not repeat, repeat-x or repeat-y |
| HeroElements.HeroFrom | lighthouse-core/gather/gatherers/hero-elements.js:38-48 | the stored record rounds left, top, width and height to within one half |
| HeroElements.StepSlot | lighthouse-core/gather/gatherers/hero-elements.js:123-143 | one iteration stores an element under a name exactly when it is a candidate that beats the stored area |
| HeroElements.FindHeroElements | lighthouse-core/gather/gatherers/hero-elements.js:32-156 | the method returns the values of the promoted scan state |
| HeroElements.LargestHero | lighthouse-core/gather/gatherers/hero-elements.js:127-141 | an h1, h2 or img slot (and the background slot when every background candidate has a positive area) is filled exactly when a candidate has a positive area, and holds the first candidate of strictly largest area |
| HeroElements.BackgroundHero | lighthouse-core/gather/gatherers/hero-elements.js:126-141 | the background slot, whose stored area of 0 any candidate replaces, is filled exactly when some element competes for it; it holds the first candidate of strictly largest area when one has a positive area, and otherwise the last candidate |
| HeroElements.PromoteSlots | lighthouse-core/gather/gatherers/hero-elements.js:145-153 | h2 is deleted, and h1 is the h1 or else the h2 renamed |
| HeroElements.ValuesShape | lighthouse-core/gather/gatherers/hero-elements.js:155 | `Object.values` lists one record per stored name, each under its own name |
| HeroElements.HeroesShape | lighthouse-core/gather/gatherers/hero-elements.js:145-155 | the result has no h2, one entry per name, and an h1 exactly when an h1 or h2 candidate had a positive area |
| ConfigPlugin.Error | lighthouse-core/config/config-plugin.js:40-53 | every message starts with the full plugin name |
| ConfigPlugin.ParseAuditDefns | lighthouse-core/config/config-plugin.js:43-58 | the map succeeds exactly when every entry parses, and then holds each entry's definition at its index |
| ConfigPlugin.AuditDefnAccepted | lighthouse-core/config/config-plugin.js:44-57 | an entry is accepted exactly when `path` is its only key and holds a string |
| ConfigPlugin.AuditDefnsAccepted | lighthouse-core/config/config-plugin.js:35-58 | the list is accepted exactly when every entry is, and gives their paths in order |
| ConfigPlugin.AuditDefnErrors | lighthouse-core/config/config-plugin.js:46-54 | unknown keys are reported, joined by ', ', before `path` is checked |
| ConfigPlugin.AuditRefAccepted | lighthouse-core/config/config-plugin.js:73-91 | an auditRef is accepted exactly when it has only `id` (a string) and `weight` (a number) |
| ConfigPlugin.AuditRefErrors | lighthouse-core/config/config-plugin.js:75-86 | unknown keys first, then an id that is no string, then a weight that is no number, each with its message |
| ConfigPlugin.ParseAuditRefs | lighthouse-core/config/config-plugin.js:72-92 | the map succeeds exactly when every auditRef parses, and then holds each parsed auditRef at its index |
| ConfigPlugin.AuditRefsAccepted | lighthouse-core/config/config-plugin.js:67-92 | the list is accepted exactly when every auditRef is, and keeps them in order |
| ConfigPlugin.ContainerErrors | lighthouse-core/config/config-plugin.js:35-104 | missing audits give no list; audits that are no array of objects, auditRefs that are missing or no array of objects, and a category that is missing or no object are rejected with their messages |
| ConfigPlugin.CategoryErrors | lighthouse-core/config/config-plugin.js:101-137 | unknown keys are reported first, then a title that is no string ('tile' in the message), then a description and then a manualDescription that are neither string nor missing; a parsed category holds the title, the optional descriptions and the parsed auditRefs of the input |
| ConfigPlugin.PluginShape | lighthouse-core/config/config-plugin.js:146-172 | a non-object and unknown top-level keys are rejected with their messages |
| ConfigPlugin.ErrorsNamePlugin | lighthouse-core/config/config-plugin.js:147-164 | every error starts with `lighthouse-plugin-<name>` |
| ConfigPlugin.AuditDefnsRoundTrip | lighthouse-core/config/config-plugin.js:35-58 | an encoded list of audit definitions parses back to itself |
| ConfigPlugin.AuditRefsRoundTrip | lighthouse-core/config/config-plugin.js:67-92 | an encoded list of auditRefs parses back to itself |
| ConfigPlugin.CategoryRoundTrip | lighthouse-core/config/config-plugin.js:101-137 | an encoded category parses back to itself |
| ConfigPlugin.PluginRoundTrip | lighthouse-core/config/config-plugin.js:146-172 | an encoded plugin parses back to its config, under the key 'pluginName' |
| Json.OwnKeys | lighthouse-core/config/config-plugin.js:46 | `Object.keys` of an object lists its keys in order, of an array its index strings |
| Json.RestKeys | lighthouse-core/config/config-plugin.js:44-46 | the destructuring rest holds exactly the keys not named |
| Json.InvalidKeysNone | lighthouse-core/config/config-plugin.js:46-47 | the rest is empty exactly when every key is named |
| Json.UniqueField | lighthouse-core/config/config-plugin.js:44 | with distinct keys a property read gives the stored value |
| JsonLd.KeywordsShape | sd-validation/jsonld.js:11-29 | seventeen distinct keywords, each starting with '@' |
| JsonLd.ValidateKey | sd-validation/jsonld.js:43-49 | 'Unknown keyword' exactly for a key starting with '@' that is no keyword, else nothing |
| JsonLd.ValidateKeyCases | sd-validation/jsonld.js:35-49 | other keys and keywords pass; other '@'-keys fail |
| JsonLd.ValidateJsonLD | sd-validation/jsonld.js:55-71 | the method returns the errors the callback pushes over the visits |
| JsonLd.KeyErrorsAppend | sd-validation/jsonld.js:59-68 | the errors of consecutive visits follow each other |
| JsonLd.KeyErrorsEmpty | sd-validation/jsonld.js:59-70 | no errors exactly when no visited key is an unknown keyword |
| JsonLd.KeyErrorsFromVisits | sd-validation/jsonld.js:62-66 | every error is 'Unknown keyword' at the '/'-joined path of an offending visit |
| JsonLd.KeyErrorsCount | sd-validation/jsonld.js:59-68 | never more errors than visits, and as many as visits when every visit offends |
| JsonLd.KeyErrorsComplete | sd-validation/jsonld.js:59-68 | every offending visit is reported as 'Unknown keyword' at its '/'-joined path |
| JsonLd.KeyErrorsExactCount | sd-validation/jsonld.js:59-68 | the number of errors is the number of offending visits |
| JsonLd.ReportsUnknownKeyword | sd-validation/test/jsonld-validation-test.js:14-24 | the keyword test gives one error, 'Unknown keyword' at '@test' |
| SchemaTree.RemovePrefixOfPrefixed | sd-validation/scripts/generate-schema-tree.js:30-32 | the prefix in front of a name is removed |
| SchemaTree.RemovePrefixKeepsHttps | sd-validation/scripts/generate-schema-tree.js:30-32 | the https form is not removed |
| SchemaTree.ParentIds | sd-validation/scripts/generate-schema-tree.js:36 | fails exactly at an item without a string `@id`; otherwise each id with the prefix removed |
| SchemaTree.GetParents | sd-validation/scripts/generate-schema-tree.js:34-42 | an array gives its ids, a truthy value with a truthy `@id` that one id, anything else none |
| SchemaTree.ProcessData | sd-validation/scripts/generate-schema-tree.js:26-63 | the method returns the tree the specification function builds |
| SchemaTree.EntryPerLabelledItem | sd-validation/scripts/generate-schema-tree.js:44-62 | the number of types plus properties equals the number of labelled items |
| SchemaTree.BuildTreeKeepsOrder | sd-validation/scripts/generate-schema-tree.js:44-60 | entries of a prefix of the graph come first, in the same order |
| SchemaTree.FailedPrefix | sd-validation/scripts/generate-schema-tree.js:44-60 | once a prefix fails, the whole graph fails |
| SchemaTree.EntriesFromItems | sd-validation/scripts/generate-schema-tree.js:49-59 | each property entry comes from a labelled rdf:Property item, each type from another labelled item |
| SchemaTree.BuildTreeFails | sd-validation/scripts/generate-schema-tree.js:44-60 | the build fails exactly at a null item or a labelled item whose parents cannot be read |
| Schema.UrlFromMeans | sd-validation/schema.js:12 | the leftmost match of the address pattern, or none exactly when nothing matches |
| Schema.HasSchemaUrlMeans | sd-validation/schema.js:12 | the pattern test is true exactly when either address occurs |
| Schema.CleanName | sd-validation/schema.js:18-20 | the result is the input with the leftmost address removed, or the input itself |
| Schema.CleanNameUnchanged | sd-validation/schema.js:18-20 | a name without the address is kept |
| Schema.CleanNameOfUrl | sd-validation/schema.js:18-20 | either form of the address in front of a name is removed |
| Schema.FindEntryMeans | sd-validation/schema.js:41-46 | `find` gives the first entry with the name, or none exactly when no entry has it |
| Schema.KnownTypeMeans | sd-validation/schema.js:52-54 | a type is known exactly when some type entry carries its cleaned name |
| Schema.PropsForTypeShape | sd-validation/schema.js:26-35 | an unknown type throws, exhausted depth is a stack error, and a result starts with the type's own properties |
| Schema.PropsThroughParents | sd-validation/schema.js:32-34 | the result is the own properties followed by the parents' properties in order |
| Schema.PropsForTypeMembers | sd-validation/schema.js:26-35 | on success, exactly the properties declared by the type or one of its ancestors |
| Schema.PropsForTypeFuel | sd-validation/schema.js:26-35 | more stack depth changes nothing once the recursion ended |
| Schema.UnknownTypesMeans | sd-validation/schema.js:79 | the unknown types are exactly the types not known, in order |
| Schema.UnrecognizedErrorsMeans | sd-validation/schema.js:81-86 | one error for each unknown type on the schema.org address, and for no other |
| Schema.SafelistMembers | sd-validation/schema.js:92-96 | the safelist holds exactly the properties declared by the types or their ancestors |
| Schema.StripConstraintCases | sd-validation/schema.js:105 | a trailing -input or -output is removed, anything else kept |
| Schema.KeyErrorCases | sd-validation/schema.js:98-107 | keywords never give an error; any other key does exactly when its stripped name is not safelisted |
| Schema.UnexpectedKeysMeans | sd-validation/schema.js:98-107 | an error for each offending key, at most one per key |
| Schema.FilterUnknown | sd-validation/schema.js:79 | the method returns the names and the unknown ones, or throws on a type that is no string |
| Schema.ReportUnknown | sd-validation/schema.js:81-86 | the method pushes the errors for the unknown types |
| Schema.BuildSafelist | sd-validation/schema.js:92-96 | the method pushes every type's properties, or throws |
| Schema.CheckKeys | sd-validation/schema.js:98-107 | the method pushes an error per offending key |
| Schema.ValidateObjectKeys | sd-validation/schema.js:63-110 | the method returns the messages or the throw the specification function gives |
| Schema.UnknownValueTypeExactly | sd-validation/schema.js:71-77 | the result is exactly ['Unknown value type'] when the value is neither a string nor an array |
| Schema.NonStringTypeThrows | sd-validation/schema.js:41-46 | a type that is no string throws |
| Schema.UnknownTypeSkipsKeys | sd-validation/schema.js:88-90 | an unknown type makes the keys irrelevant, and only the unrecognized errors are returned |
| Schema.KnownTypesCheckKeys | sd-validation/schema.js:92-109 | with every type known, an error exactly for each non-keyword key no type or ancestor declares |
| Schema.KeyErrorAgainstSafelist | sd-validation/schema.js:99-107 | a key has an error exactly when it is no keyword and no type in scope or ancestor of one declares its cleaned, unconstrained name; the error quotes that name |
| SchemaOrg.PushErrors | sd-validation/schema.js:131-137 | every message is pushed with the same path, in order |
| SchemaOrg.CollectErrors | sd-validation/schema.js:127-139 | the method collects what the callback adds over every visit, or the first throw |
| SchemaOrg.ValidateSchemaOrg | sd-validation/schema.js:115-142 | the method returns what the specification function gives |
| SchemaOrg.SchemaOrgFailureStays | sd-validation/schema.js:127-139 | a throw ends the whole validation |
| SchemaOrg.SchemaOrgErrorsMeans | sd-validation/schema.js:127-139 | throws exactly when some `@type` visit's check throws; otherwise an error exactly for each message of each `@type` visit at its object path |
| SchemaOrg.NoTypeNoErrors | sd-validation/schema.js:128 | a traversal without a `@type` key reports nothing |
| SchemaOrg.ErrorPaths | sd-validation/schema.js:134 | the root object's path is "/", and a nested object's path has its address removed |
| SchemaOrg.UnwrapsSingleton | sd-validation/schema.js:119-125 | null is valid, and a one-element array is validated as its element |
| SchemaFixtures.ArticleProps | sd-validation/schema.js:26-35 | on the fixture tree an Article inherits author, headline and image from CreativeWork and Thing, in parent order |
| SchemaFixtures.ReportsUnknownType | sd-validation/test/schema-org-validation-test.js:14-22 | an unknown schema.org type gives its 'Unrecognized schema.org type' error |
| SchemaFixtures.ReportsUnknownAmongTypes | sd-validation/test/schema-org-validation-test.js:24-32 | of several types only the unknown one is reported |
| SchemaFixtures.ReportsUnexpectedField | sd-validation/test/schema-org-validation-test.js:34-50 | 'Unexpected property "controversial"' for an article |
| SchemaFixtures.CreatePasses | sd-validation/test/schema-org-validation-test.js:52-68 | the activitystreams `Create` type, off the schema.org address, is not reported, whatever the keys |
| SchemaFixtures.EverythingOk | sd-validation/test/schema-org-validation-test.js:71-85 | an article with only declared properties has no errors |
| SchemaFixtures.CatReportedAtRoot | sd-validation/schema.js:127-139 | end to end, the unknown type's error is reported at path "/" |
| JsString.ReplaceFirst | lighthouse-core/lib/timing-trace-saver.js:26 | only the first occurrence is replaced; without one the string is kept |
| JsString.ReplaceAllChar | lighthouse-core/lib/timing-trace-saver.js:26 | every occurrence of the character is replaced and nothing else changes |
| JsString.HexRoundTrip | lighthouse-core/lib/timing-trace-saver.js:34 | the lowercase hex rendering of a number parses back to it |
| JsString.HexInjective | lighthouse-core/lib/timing-trace-saver.js:34 | different numbers have different hex renderings |
| TimingTraceSaver.TraceName | lighthouse-core/lib/timing-trace-saver.js:26 | the event name has no ':' and is no longer than the entry name |
| TimingTraceSaver.TraceNameOfPrefixed | lighthouse-core/lib/timing-trace-saver.js:26 | a leading 'lh:' is removed and every other ':' becomes the modifier letter colon |
| TimingTraceSaver.TraceNameWithoutColon | lighthouse-core/lib/timing-trace-saver.js:26 | a name without ':' is kept as it is |
| TimingTraceSaver.SortByStartCorrect | lighthouse-core/lib/timing-trace-saver.js:19 | the sorted entries are in start-time order and are the same entries |
| TimingTraceSaver.SortByStartOfSorted | lighthouse-core/lib/timing-trace-saver.js:19 | entries already in order stay as they are |
| TimingTraceSaver.InsertNext | lighthouse-core/lib/timing-trace-saver.js:19 | one insertion step places the next entry after every entry that does not start later |
| TimingTraceSaver.SortEntries | lighthouse-core/lib/timing-trace-saver.js:19 | the array is left holding the stable sort of its old contents |
| TimingTraceSaver.StartEvent | lighthouse-core/lib/timing-trace-saver.js:22-40 | phase 'n' with scope 't' exactly when the duration is 0, else 'b'; id is '0x' and the hex index; thread is the thread id |
| TimingTraceSaver.PushEntry | lighthouse-core/lib/timing-trace-saver.js:22-47 | one turn of the `forEach` appends exactly the entry's start event and then its end event |
| TimingTraceSaver.PushEvents | lighthouse-core/lib/timing-trace-saver.js:20-62 | the method pushes each entry's pair and then the labels event |
| TimingTraceSaver.GenerateTraceEvents | lighthouse-core/lib/timing-trace-saver.js:14-65 | a non-array gives []; otherwise the caller's array is sorted and the result is its trace |
| TimingTraceSaver.TraceShape | lighthouse-core/lib/timing-trace-saver.js:19-64 | 2n + 1 events: the pair of the k-th sorted entry at 2k and 2k + 1, then the metadata event |
| TimingTraceSaver.PairFields | lighthouse-core/lib/timing-trace-saver.js:22-47 | start and end share name, id and thread; start ts is startTime * 1000 and end ts adds duration * 1000; end phase 'e' |
| TimingTraceSaver.IdsDistinct | lighthouse-core/lib/timing-trace-saver.js:34 | different entries get different ids |
| TimingTraceSaver.TraceFields | lighthouse-core/lib/timing-trace-saver.js:26-54 | every event runs in process 0 on the given thread and no name contains ':' |
| TimingTraceSaver.StartsInOrder | lighthouse-core/lib/timing-trace-saver.js:19-28 | start timestamps do not decrease along the trace |
| TimingTraceSaver.AuditEntries | lighthouse-core/lib/timing-trace-saver.js:73-74 | the audit and gather parts together are the entries, and the audit part has exactly the non-gather entries |
| TimingTraceSaver.GatherEntries | lighthouse-core/lib/timing-trace-saver.js:73 | the gather part has exactly the gather entries |
| TimingTraceSaver.CreateTraceEvents | lighthouse-core/lib/timing-trace-saver.js:72-78 | the audit trace on thread 0 followed by the gather trace on thread 10 |
| TimingTraceSaver.TracePartition | lighthouse-core/lib/timing-trace-saver.js:73-78 | 2n + 2 events: the audit events come first on thread 0, and the gather events follow on thread 10 |
| Chart.CeilingGap | demo/chart/chart.py:5-11 | fails exactly on a zero gap; the result is always a multiple of gap |
| Chart.PyModZero | demo/chart/chart.py:7-9 | the floored remainder is zero exactly when gap divides num |
| Chart.TruncDivRange | demo/chart/chart.py:6 | the truncated quotient leaves a remainder smaller than gap with the sign of num |
| Chart.PyModRange | demo/chart/chart.py:7 | Python's remainder lies between 0 and the divisor and differs from num by a multiple of it |
| Chart.CeilingGapSmallest | demo/chart/chart.py:5-11 | for num ≥ 0 and gap > 0 the result is the smallest multiple of gap that is at least num |
| Chart.CeilingGapOfMultiple | demo/chart/chart.py:7-10 | a multiple maps to itself, and 0 maps to 0 |
| Chart.CeilingGapNegativeOvershoots | demo/chart/chart.py:6-10 | a negative non-multiple lands one bucket above its ceiling |
| Chart.MinusOneOvershoots | demo/chart/chart.py:5-11 | with the default gap 400: -1 gives 400, 0 gives 0, 1 gives 400, 400 gives 400, 401 gives 800 |

## Left out

- The computed-artifact memoization (`makeComputedArtifact`) and `Speedline.request` are not part of this model, because their code is not among the source files. The frames are a plain input.
- Trace parsing and the end-to-end observed-metric test are left out because they depend on a trace fixture and Speedline parsing.
- The `console.log` calls of the gather version are left out (output only).
- Floating point is not modelled:
  - Timestamps, progress, multipliers, rects and trace times are exact `real`s.
  - `Math.round(r)` is the floor of r + 1/2.
  - `int(num / gap)` is an exact truncating division of integers.
- LastPaintedHero.ComputeObservedMetric and LastPaintedHeroGather.ComputeObservedMetric require a non-empty hero list, so `Math.max()` of no arguments (-Infinity) is not modelled.
- The driver evaluation in `HeroElements.afterPass` and the DOM calls are left out. The DOM calls are `getBoundingClientRect`, `getComputedStyle`, `offsetHeight` and `clientWidth/Height`. Each element is an abstract record of those values, and the viewport is a parameter.
- ToLower only lowercases ASCII letters; Unicode case mapping is not modelled.
- `JSON.parse(JSON.stringify(pluginJson))` in `parsePlugin` is left out. The model parses the cloned value, so values JSON cannot represent (functions, undefined, live properties) are not modelled.
- `walkObject` is not part of this model. A traversal is an abstract function from the root value to its list of visits.
- The JSON-LD expansion and parsing (jsonld.expand, jsonlint) are left out. The validators receive the parsed or expanded value.
- The loaded schema-tree asset is left out. The tree is a parameter, and the fixtures use a three-type excerpt of schema.org.
- The network fetch, the file write and the console output of generate-schema-tree.js are left out (I/O).
- The JSON text that `createTraceString` builds around the events is left out (formatting only).
- Schema.PropsForType: the recursion carries a fuel bound that stands for the call stack. Running out is the StackExceeded error, so a cyclic parent chain is reported as that error rather than as a stack overflow.
- Schema.PropsForType: the model does not state that it never fails with NotAString.
- SchemaOrg.Unwrap: an object with its own `length` property equal to 1 is not unwrapped. Only a one-element array is, because an object's `length` is an ordinary key of the JSON value.
- Schema.ReportUnknown: the `typeof type !== 'string'` branch is not modelled, because it is unreachable. `isKnownType` has already thrown for a type that is no string.
- TimingTraceSaver.GenerateTraceEvents: a value that is not an array is modelled as a null array reference.
- TimingTraceSaver.SortEntries: stability (equal start times keep their order) holds by construction of the insertion sort, but is not stated as a separate lemma. Only sortedness and permutation are. The model assumes the stable `Array.prototype.sort` that ECMAScript guarantees since its 2019 edition; earlier engines may order ties differently.
- LastPaintedHero.FindLastChangedTiming requires `viewport.innerWidth > 0`, and it and LastPaintedHeroGather.FindLastChangedTiming require every analyzed screenshot to have a positive width and height. The source accepts both: dividing by 0 gives Infinity or NaN bounds and channel counts, the loops then scan nothing, and the result is 0 (or, in the scaling version, the width error). Those non-finite numbers are not modelled, so these inputs are not covered; the timing lemmas and ComputeObservedMetric of both versions carry the same requirements.
- HeroElements.LargestHero: for the background slot it holds only when every background candidate has a positive area, because a stored area of 0 is replaced by any candidate. HeroElements.BackgroundHero states the general background rule.
- HeroElements.BackgroundHero requires every rect to have a non-negative width and height, as `getBoundingClientRect` reports them.
- Json.OwnKeys: `Object.keys` is modelled as the property list in list order. JavaScript enumerates integer-like keys first, in ascending order, and then the other keys in insertion order. A `JObj` is taken to list its properties in that order; nothing enforces it, so for a list in another order the '[k1, k2]' part of the 'invalid … properties' messages of ConfigPlugin, and the order of Schema's unexpected-key errors, would differ from the source's.
- Json.PropField: a `JObj` may repeat a key, which a value made by `JSON.parse` never does. On such a value the model reads the first occurrence, where `JSON.parse` would have kept the last, and `Object.keys` would list the key once. Json.UniqueField states the read for distinct keys.
- Chart: `num` and `gap` are integers. A float count, and float rounding of `num / gap` for very large counts, are not modelled.
- The other functions of chart.py (`get_fmp`, `get_timing`, `split_dict`) are left out. They are MongoDB access and printing.
