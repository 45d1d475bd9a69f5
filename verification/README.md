# Verified models of the pure algorithms in `src/lib`

A Dafny project that models the decoders, walks, state machine and ratchets of
`src/lib` and proves what they promise. `dafny verify dfyconfig.toml` checks all
of it.

Strings are sequences of UTF-16 units (`Texts.Text`), with case folding on ASCII
letters; in the changelog gate, where the context rule of the Greek sigma matters,
it is that of any alphabet. Each regular expression is an explicit leftmost, greedy
recogniser.
Code that changes things step by step is a method with the source's loop, proved
equal to a specification function; what the source promises is then proved about
that function. Code made of expressions is functions, and the promises are
lemmas about them. No promise is restricted to bounded inputs.

## What is proved

**Stylesheets** (`CssEscapes`, `CssSpellings`, `CssCodePoints`, `CssSpans`, `CssScan`,
`CssForms`, `SourcePositions`, `CssValidate`, `CssEscaping`, `CssReports`). The validator decodes CSS
escapes (section 4.3.7 of CSS Syntax Module Level 3) in up to eight passes while
it carries an index map, scans what it decoded, and reports positions in the
original. A *spelling* of a sheet is a list of tokens: plain units, hex escapes,
quoted units, stray backslashes. Every text is a spelling, one pass over a
spelling yields its meaning, and what the validator reports for a sheet, however
it is spelled, is told from the meaning after seven passes. The same rules are
reported in the same order for a sheet and any spelling of it exactly when the
eighth pass over the sheet changes no rule; as long as eight passes decode what is
written, the places are those where the offending constructs are written. For a
sheet without backslashes the report is told from its units alone: which form of
`url( )` is read, and which rule its target breaks.

Two things the code does not do are stated exactly. The comment on
`decodeToFixedPoint` (`src/lib/cssValidate.ts:136-146`) says it decodes to a fixed
point, so that no nested escape hides a construct; it stops after eight passes,
reaches a fixed point exactly when eight are enough, and lets `import x` behind a
chain `\5c 5c ... 5c 40 ` pass exactly when the chain is eight or more levels
deep. The `construct` of a violation is described as the offending text as the
author wrote it (`src/lib/cssValidate.ts:72-73`); for every sheet it ends where
the source of its last decoded unit ends if and only if no escape starts there,
and stops right after the backslash otherwise, as for `@impor\74 `.

**Addresses** (`IpAddress`, `IpOrder`, `IpRoundTrips`, `IpAccepts`, `IpPrinting`).
Every spelling of an IPv6 address that section 2.2 of RFC 4291 allows, apart from
the mixed form below, has one key of 32 hex digits; exactly those spellings, the
quads of four printed octets and the quads behind `::ffff:` are accepted; printing
and parsing undo each other in both directions; string order on keys is numeric
order. An IPv4 address, its mapped form (section 2.5.5.2 of RFC 4291) and that form
in hex share a key. `normalizeIp` sends every other dotted input to the IPv4 parser,
so the tail rewrite is stated about `normalizeIpv6`.

**Derived image siblings** (`ImageSrc`, `ImageSrcWalk`, `ImageSrcDocument`,
`ImageSrcRun`, `ImageSrcEffects`, `ImageSrcChanges`, `ImageSrcReferences`). The
walk over a possibly cyclic `$ref` graph is a class whose methods change `paths`,
`schemas` and `seen`; the walk terminates on every graph, reaches exactly the names
that chains of reference texts reach from 2xx responses, gives every object schema
in them, at any depth, its missing siblings and their `required` entries and nothing
else, leaves all other schemas alone, and changes nothing when it runs again.

**Routes** (`RouteGates`, `ParamPaths`, `MountPrefixes`, `ExpressRoutes`,
`RouteSpecs`, `RoutePaths`, `RouteChains`, `GateMarks`, `Addresses`). The
accumulating walk over nested routers collects, in stack order, exactly what a
specification by addresses describes; each operation has the contract spelling of
the mount paths on its way and of its own, and the gates and unmarked layers it is
behind, in order. As in the source, a bare `use('/prefix', gate)` counts for every
later route of its router, whatever its prefix (`src/lib/expressRoutes.ts:153-157`).

**RSS** (`Rss`, `RssMarkup`). A rendered document is the printed tree of its
elements, and a reader recovers every field of it, so rendering is injective
(sections 2.4 and 4.6 of XML 1.0 say which characters need escaping and how).

**Remote fetch** (`RemoteFetch`, `RemoteFetchSafety`, `RemoteFetchOutcomes`). A step
machine whose events are whatever the guard, the network and the clock choose, with
a record of every check, dial, pinned lookup and redirect. Every run is safe, and
every course of redirects ends as its last hop does.

**Mutation sites** (`MutationSites`, `MutationKeys`, `MutationOwners`,
`MutationCalls`). An abstract syntax tree with the node kinds the scanner tells
apart; positions in it are addresses, and climbing to the parent drops the last
index. The sites are the writes in the tree, in the order of the text; a key tells
the route or function, the model and the write of its site.

**Ratchets** (`Casing`, `Changelog`, `ChangelogReading`, `ChangelogNormal`,
`ChangelogLosses`, `ChangelogSigma`, `ChangelogRatchets`, `Completeness`,
`GuardCoverage`, `GuardedFiles`, `FailureCoverage`). Each check passes exactly when
its baseline is exact, and the changelog heading ratchet never loosens along a run
of accepted changes.

One promise of the changelog gate has an exception. `toLowerCase` turns a capital
sigma into a final one at the end of a word, so what a text becomes depends on
what follows it. The results range over every alphabet: any table of letters, of
marks that may stand inside a word, and of lower-case forms. Normalising keeps every
occurrence of a text if and only if no sigma at its edges can look outside. An
identity may be cut off after 80 units right behind a capital sigma inside a word
(`src/lib/changelogGate.ts:160`). Its entry can then be lost, even against its own
changelog: exactly when its key does not occur in its own line, both normalised.
79 letters, a capital sigma and a letter make such a line; with the word and the
sigma once more at its end the line is cut at the same place and never lost.

## Model

| member | source | states |
|---|---|---|
| CssEscapes.DecodeStep | src/lib/cssValidate.ts:88-134 | The `exec` loop, with its copying of plain units and its index map, computes the decoded text and map of the specification, for every text and map |
| CssEscapes.DecodeToFixedPoint | src/lib/cssValidate.ts:148-161 | The capped loop with its early exit returns the state after eight passes |
| CssEscapes.PassMakesProgress | src/lib/cssValidate.ts:145-157 | A pass strictly shortens the text, and changes it, exactly when it holds an escape; otherwise text and map stay |
| CssEscapes.PassKeepsAligned | src/lib/cssValidate.ts:81-134 | Every pass keeps the index map as long as the text, inside the source and non-decreasing, with equal neighbours only at the two halves of one astral code point |
| CssEscapes.FixedPointAligned | src/lib/cssValidate.ts:148-161 | The map that `decodeToFixedPoint` returns is aligned with the source in that sense |
| CssEscapes.FixedPointReached | src/lib/cssValidate.ts:136-161 | The result is that of min(8, n) passes, n being the number needed, and is free of escapes if and only if n is at most 8 |
| CssEscapes.ChainPeels | src/lib/cssValidate.ts:136-140 | A pass over `\5c 5c ...` removes exactly one level of nesting, whatever backslash-free text follows |
| CssEscapes.NestedChainKeepsEscape | src/lib/cssValidate.ts:155-159 | Any chain nested eight deep or more still holds an escape afterwards, so the claimed fixed point is not reached |
| CssSpellings.DecodeRecoversMeaning | src/lib/cssValidate.ts:55-134 | One pass over any well-formed spelling gives exactly the text that is meant, each unit mapped to the start of its token, with NUL, surrogates and values past U+10FFFF as U+FFFD |
| CssSpellings.EveryTextIsSpelled | src/lib/cssValidate.ts:55-56 | Every text is a well-formed spelling, so the previous row covers all inputs |
| CssCodePoints.HexReads | src/lib/cssValidate.ts:111 | Hex digits are read as a number if and only if they are its numeral, in either case and behind any zeros |
| CssCodePoints.CodePointExactly | src/lib/cssValidate.ts:111-117 | A code point becomes one unit, or the high and low surrogate that encode it; NUL, surrogates and values past U+10FFFF become U+FFFD |
| CssCodePoints.HexEscapeMeans | src/lib/cssValidate.ts:105-117 | A hex escape means the character whose numeral it holds |
| CssSpans.TokenSpan | src/lib/cssValidate.ts:118-125 | The token of every unit that is meant, in any spelling, is a non-empty stretch of the source, of one unit exactly when no escape starts there |
| CssSpans.DecodeRecoversEnds | src/lib/cssValidate.ts:118-125 | The ends carried through one pass over any spelling are those of its tokens |
| CssSpans.SpelledEnds | src/lib/cssValidate.ts:118-161 | In a sheet whose meaning holds no escape the ends after eight passes are the ends of its tokens |
| CssSpans.PassKeepsSpans | src/lib/cssValidate.ts:88-134 | Every pass keeps it so that each unit comes from a non-empty stretch of the source, of one unit exactly when no escape starts there, in order and without gaps |
| CssSpans.FixedPointSpans | src/lib/cssValidate.ts:148-161 | The same for the decoded sheet, the stretches reaching from the first unit of the source to its last |
| CssScan.ReadUrlIsMatch | src/lib/cssValidate.ts:61-62 | Whatever the forward reading of `url( )` accepts is a match of the pattern, with that target and end |
| CssScan.ReadUrlMissesNothing | src/lib/cssValidate.ts:61-62 | Wherever the pattern matches in any of its three forms, the forward reading finds a match, so backtracking adds nothing |
| CssScan.AtRuleHasOneAt | src/lib/cssValidate.ts:58-59 | No at-rule match can start inside another |
| CssScan.TargetRefusedIff | src/lib/cssValidate.ts:176-184 | A target is refused if and only if, trimmed, it starts with `//` or names a scheme; leading blanks never change the verdict |
| CssForms.AtRuleExactly | src/lib/cssValidate.ts:58-59 | An at-rule match is `@` and one of the three words in any case with no further word unit behind it, and is that long |
| CssForms.ReadUrlExactly | src/lib/cssValidate.ts:61-62 | A length and a target are read if and only if they are written: past all blanks the quoted form, its target without the quotes, where there is one, and the bare form only where there is none |
| CssForms.RuleExactly | src/lib/cssValidate.ts:176-184 | A target is refused as `data:`, as another host or as a scheme if and only if, trimmed, it is that |
| CssScan.HitsAreMatches | src/lib/cssValidate.ts:236-247 | Each hit of a scan is a genuine match with its verdict, and hits do not overlap and come in order |
| CssScan.EveryAtRuleIsHit | src/lib/cssValidate.ts:236-240 | No at-rule of the decoded text escapes the scan |
| CssScan.EveryUrlIsHitOrCovered | src/lib/cssValidate.ts:242-247 | A forbidden `url()` is hit, or lies inside an earlier `url()` match |
| CssScan.AllHitsOrdered | src/lib/cssValidate.ts:249-251 | Sorting puts exactly the recorded hits in strictly increasing order of start |
| SourcePositions.PositionAt | src/lib/cssValidate.ts:163-174 | The loop returns the line and column counted from the newlines before the offset |
| SourcePositions.PositionInvertible | src/lib/cssValidate.ts:163-174 | The offset is recovered from line, column and newline positions |
| SourcePositions.PositionOrder | src/lib/cssValidate.ts:163-174 | Offset order is exactly lexicographic order of positions, so distinct offsets have distinct positions |
| CssValidate.PushRecord | src/lib/cssValidate.ts:212-234 | The inner `record` appends the violation with rule, construct and position of the specification |
| CssValidate.CssValidate | src/lib/cssValidate.ts:208-252 | Decoding, two scans, recording and sorting by source offset yield one violation for each hit of the decoded text, in text order |
| CssValidate.ViolationsAscend | src/lib/cssValidate.ts:212-251 | Violations come in strictly increasing position, and each construct is a non-empty slice of the source from that position, cut after 80 units |
| CssValidate.ConstructSpansMatch | src/lib/cssValidate.ts:217-220 | The construct ends one unit past the source start of the last decoded unit, at or after its own start |
| CssValidate.ConstructIsWholeIff | src/lib/cssValidate.ts:217-220 | For every sheet and hit, the construct never reaches past the source of the last decoded unit, and reaches its end if and only if no escape starts where that unit comes from |
| CssValidate.PassesExactly | src/lib/cssValidate.ts:197-252 | A sheet passes if and only if its decoded text has no sheet-pulling at-rule and no forbidden `url()` outside an earlier `url()` match |
| CssReports.HitBreaks | src/lib/cssValidate.ts:236-251 | In any decoded text the scans record exactly what breaks a rule in it, told from its units |
| CssReports.ReportsExactly | src/lib/cssValidate.ts:197-252 | For a backslash-free sheet the violations are exactly the three at-rules, and each `url( )` outside earlier ones whose target is refused, each with its rule, its place and its text, cut after 80 units |
| CssReports.QuotedUrlReported | src/lib/cssValidate.ts:176-247 | A quoted address outside earlier `url( )`s is reported whole under exactly the rule that its text breaks, and under no other |
| CssReports.FirstUrlIsUncovered | src/lib/cssValidate.ts:242-247 | A `url(` with none before it lies outside earlier ones |
| CssEscaping.SpellingDecodes | src/lib/cssValidate.ts:136-161 | Decoding any spelling of any sheet is passing seven times over the sheet that is meant, every unit mapped on to the start of the token it is written with |
| CssEscaping.WrittenViolations | src/lib/cssValidate.ts:208-252 | What is reported for any spelling of any sheet: one violation for each hit of the meaning after seven passes, with its rule, where the unit that starts it is written |
| CssEscaping.EscapingHidesNothingIff | src/lib/cssValidate.ts:136-252 | A sheet and a spelling of it have the same rules reported in the same order if and only if the hits after seven and after eight passes over the sheet have the same rules, whatever the spelling |
| CssEscaping.EscapingHidesNothing | src/lib/cssValidate.ts:136-252 | However units of any sheet, backslashes included, are rewritten as escapes, if eight passes decode the result then the same rules are reported in the same order, each where the unit that starts it in the sheet is written |
| CssEscaping.BackslashFreeHidesNothing | src/lib/cssValidate.ts:136-252 | For a backslash-free sheet this holds of every spelling, and each violation is at the first source unit of the rewritten construct |
| CssEscaping.NestedImportRefusedIff | src/lib/cssValidate.ts:136-161 | A sheet-pulling at-rule behind nested escapes is refused, at its own place, if and only if the nesting is less than eight levels deep; otherwise the sheet passes |
| CssEscaping.ConstructCutShort | src/lib/cssValidate.ts:217-220 | The construct reported for `@impor\74 ` is that text up to its backslash |
| IpAddress.DenormalizeIp | src/lib/ipAddress.ts:113-124 | The loop over the key builds the presentation form of the specification, dotted exactly for mapped keys |
| IpAddress.NormalizeIp | src/lib/ipAddress.ts:25-37 | Whatever is accepted is normalised to exactly 32 lower-case hex digits |
| IpAddress.NormalizeIpv4 | src/lib/ipAddress.ts:39-51 | An accepted quad gets a key in `::ffff:0:0/96` |
| IpOrder.OrderIsNumeric | src/lib/ipAddress.ts:18-23 | On hex texts of one length string order and equality are those of the numbers |
| IpOrder.RangeIsNumeric | src/lib/ipAddress.ts:106-111 | `ipInRange` holds exactly when the 128-bit number lies in the range |
| IpOrder.Ipv4Range | src/lib/ipAddress.ts:106-111 | A range with IPv4 bounds holds exactly the IPv4 addresses between them as 32-bit numbers: no sign boundary and no other IPv6 address |
| IpOrder.Ipv4KeyNumber | src/lib/ipAddress.ts:46-50 | The low half of an IPv4 key is the 32-bit number of its four octets |
| IpRoundTrips.Ipv4PrintsBack | src/lib/ipAddress.ts:39-51 | Printing the key of an accepted quad gives the quad back, so no IPv4 address has two accepted dotted spellings |
| IpRoundTrips.NormalizeOfDenormalize | src/lib/ipAddress.ts:113-124 | For every key, normalising what is printed gives the key back |
| IpPrinting.PrintedShortest | src/lib/ipAddress.ts:118-123 | A key outside the mapped range is printed as eight groups, each the number of its four digits without leading zeros |
| IpRoundTrips.SpellingIsRead | src/lib/ipAddress.ts:69-104 | Every full or elided spelling is read as the eight groups it stands for |
| IpRoundTrips.ReadIsSpelling | src/lib/ipAddress.ts:69-104 | Whatever is read as eight groups is such a spelling of them |
| IpRoundTrips.AcceptsExactlySpellings | src/lib/ipAddress.ts:26-36 | Without a dot, an input has a key if and only if it is, trimmed and lower-cased, a spelling whose padded groups make that key |
| IpAccepts.Ipv4AcceptsExactly | src/lib/ipAddress.ts:39-51 | The IPv4 parser accepts exactly the quads of four printed octets, with the key of those octets |
| IpAccepts.AcceptsExactly | src/lib/ipAddress.ts:25-37 | An input has a key if and only if it is, trimmed and lower-cased, a spelling of eight hex groups, a printed quad or a printed quad behind `::ffff:`, with that key |
| IpRoundTrips.EverySpellingHasOneKey | src/lib/ipAddress.ts:26-104 | Any case, leading zeros up to four digits, `::` for any non-empty run of zero groups and surrounding blanks all give the key of the eight numbers |
| IpRoundTrips.AddressKeyInjective | src/lib/ipAddress.ts:18-23 | Different addresses have different keys |
| IpRoundTrips.MappedTailRewritten | src/lib/ipAddress.ts:53-67 | `::ffff:` before a valid quad is rewritten to the same address in hex groups |
| IpRoundTrips.MappedFormsAgree | src/lib/ipAddress.ts:30-104 | A quad, `::ffff:` before it, its hex form, and `normalizeIpv6` called directly on either mapped form all have one key |
| ImageSrc.SiblingKeysAreNew | src/modules/imageSrc.ts:28-43 | No sibling key is an image field or a key the walk reads, and each belongs to one field |
| ImageSrcChanges.ImageFieldsAre | src/modules/imageSrc.ts:28-43 | The five image fields, the names of their siblings, and that each sibling is a nullable string, or a list of strings for the list field |
| ImageSrcReferences.RefNameExactly | src/lib/openapiImageSrc.ts:61 | A reference names what stands behind its last slash, or all of it |
| ImageSrcReferences.RefsExactly | src/lib/openapiImageSrc.ts:58-69 | A schema refers to exactly the names in which the `$ref` texts end that stand in it at any depth, not behind another reference |
| ImageSrcDocument.DeclareField | src/lib/openapiImageSrc.ts:40-44 | One `declare` adds the sibling where the field stands without one, and pushes its `required` entry where the field is required |
| ImageSrcDocument.DeclareSiblings | src/lib/openapiImageSrc.ts:34-47 | Declaring field after field gives the properties with all missing siblings, whatever order and earlier pushes |
| ImageSrcWalk.ReachableIsClosed | src/lib/openapiImageSrc.ts:53-66 | The names reached by chains of references from the roots form a closed set that holds the roots |
| ImageSrcWalk.LeastClosed | src/lib/openapiImageSrc.ts:53-66 | A closed set of reached names that holds the roots is all of them |
| ImageSrcWalk.ChildrenBounded | src/lib/openapiImageSrc.ts:67-68 | Adding siblings never makes a child as deep as its parent's bound, which is why the walk of a growing document ends |
| ImageSrcWalk.ObjectTransformed | src/lib/openapiImageSrc.ts:67-68 | Declaring siblings first and then visiting all children, new ones included, is the structural transformation |
| ImageSrcRun.DocumentWalk.Visit | src/lib/openapiImageSrc.ts:49-69 | The walk returns the node transformed, marks every name it refers to, and from then on every marked schema is transformed and every other one untouched |
| ImageSrcRun.DocumentWalk.Follow | src/lib/openapiImageSrc.ts:60-66 | Following a reference marks its name before its schema is walked; a seen name changes nothing, and a missing schema is only marked |
| ImageSrcRun.DocumentWalk.Apply | src/lib/openapiImageSrc.ts:71-87 | A run ends with `seen` equal to the names reachable from 2xx responses and the document as specified |
| ImageSrcEffects.TransformedComplete | src/lib/openapiImageSrc.ts:33-47 | Every object schema inside a transformed node has the sibling of each image field |
| ImageSrcEffects.ObjectSchemaAfter | src/lib/openapiImageSrc.ts:33-47 | An object schema keeps its keys, gains exactly the missing siblings, each with the declared schema, and a new sibling is required exactly when its field is |
| ImageSrcEffects.TransformedRefs | src/lib/openapiImageSrc.ts:58-69 | A transformed schema refers to exactly the names it referred to before |
| ImageSrcEffects.CompleteIsSettled | src/lib/openapiImageSrc.ts:41 | The walk changes nothing in a schema that has all its siblings |
| ImageSrcEffects.RunCompletesReached | src/lib/openapiImageSrc.ts:71-87 | After a run every object schema in a reached schema has the siblings of its image fields, and every unreached schema is unchanged |
| ImageSrcChanges.TransformedDeclares | src/lib/openapiImageSrc.ts:33-69 | Every object schema inside a visited node, at any depth and also as a `properties` map, gains exactly its missing siblings, with their schemas, and exactly one `required` entry for each whose field is required; nothing else changes |
| ImageSrcChanges.RunDeclaresImages | src/lib/openapiImageSrc.ts:71-87 | A run does that to every 2xx body and every schema they reach, and leaves every other response and schema as it was |
| ImageSrcReferences.ReachedExactly | src/lib/openapiImageSrc.ts:58-86 | `seen` ends as exactly the names to which chains of reference texts lead from the bodies of responses whose code starts with 2 |
| ImageSrcReferences.RunFollowsTexts | src/lib/openapiImageSrc.ts:58-86 | A run declares the images of a schema if such a chain leads to it, and leaves it as it was otherwise |
| ImageSrcReferences.SchemaChainDeclares | src/lib/openapiImageSrc.ts:58-86 | Every schema that `#/components/schemas/` references lead to from a 2xx response is seen and declares its images |
| ImageSrcEffects.SecondRunChangesNothing | src/lib/openapiImageSrc.ts:71-87 | Running twice is running once |
| RouteGates.ExpectedCodes | src/lib/routeGate.ts:178-205 | The codes come strictly ascending and are exactly those some applicable gate can answer |
| MountPrefixes.ComputeMountPrefix | src/lib/expressRoutes.ts:47-65 | The replacement with its key counter computes the specified prefix |
| MountPrefixes.MountPrefixUndoesCompilation | src/lib/expressRoutes.ts:34-65 | For every path of literal and parameter segments, the prefix recovered from the compiled source is the path, the i-th key filling the i-th parameter and `param` a missing one |
| MountPrefixes.MountPathRoundTrips | src/lib/expressRoutes.ts:34-65 | With the keys Express recorded, the mount path itself comes back |
| ExpressRoutes.RouteCollector.Walk | src/lib/expressRoutes.ts:119-166 | The walk appends to `found` exactly the operations of its stack under the inherited context, and nothing it accumulates inside a sub-router survives outside |
| ExpressRoutes.CollectRoutes | src/lib/expressRoutes.ts:116-179 | An app without a router is an error; otherwise the result is the walk of its root stack |
| RouteSpecs.RoutesAreRoutes | src/lib/expressRoutes.ts:129-152 | Every listed address leads to a route |
| RouteSpecs.EveryRouteListed | src/lib/expressRoutes.ts:129-152 | Every route at any depth is listed |
| RouteSpecs.RoutesInOrder | src/lib/expressRoutes.ts:129-152 | Routes are listed in stack order, without repeats |
| RouteSpecs.WalkMeansAddresses | src/lib/expressRoutes.ts:119-166 | From any point and context the accumulating walk collects exactly the operations that addresses describe, in order |
| RouteSpecs.CollectedIsSpecified | src/lib/expressRoutes.ts:110-179 | The same for a whole app |
| RouteSpecs.OperationsOfRoute | src/lib/expressRoutes.ts:130-144 | A route yields one operation exactly for each of its paths and enabled methods other than `_all` |
| RouteSpecs.OperationMeaning | src/lib/expressRoutes.ts:71-81 | Operations are exactly those of routes, and each carries the gates of earlier `use` layers, outermost router first, then its own chain's |
| RouteSpecs.SiblingsNeverLeak | src/lib/expressRoutes.ts:145-152 | What a route is served with is the same in two apps that agree along its way, whatever other routers hold |
| RoutePaths.PlainIsKept | src/lib/expressRoutes.ts:68-69 | Text without a colon stays as it is in a contract path |
| RoutePaths.ParamIsBraced | src/lib/expressRoutes.ts:68-69 | A colon and the whole word behind it become that word in braces |
| RoutePaths.LoneColonIsKept | src/lib/expressRoutes.ts:68-69 | A colon with no word behind it stays; with the two rows above this fixes every path |
| RoutePaths.PathIsSpelled | src/lib/expressRoutes.ts:67-69 | A path of segments, with or without a slash behind it, becomes the path with each parameter in braces and no slash at its end, and `/` alone stays |
| RoutePaths.PlainPathSpelled | src/lib/expressRoutes.ts:67-69 | Of any path without a colon just one slash at the end is dropped, unless it stands behind a line end or alone |
| RoutePaths.BaseIsMounts | src/lib/expressRoutes.ts:145-152 | The base of a layer is the text of the mount paths on its way, in order |
| RoutePaths.OperationServed | src/lib/expressRoutes.ts:129-144 | The operations of an app are exactly those its routes serve, one for each path and enabled method but `_all`, with the upper-cased method and the gates and unmarked layers on the way |
| RoutePaths.OperationSpelled | src/lib/expressRoutes.ts:110-152 | The path of every operation is that of the mount segments on its way followed by the segments of its route, in the spelling of the contract |
| RouteChains.GatesAreMarks | src/lib/expressRoutes.ts:71-81 | The gates read off some handlers are their marks, in their order and without any left out |
| RouteChains.OperationGates | src/lib/expressRoutes.ts:71-157 | Every operation carries, in order, the marks of the `use` layers on its way and of its own chain |
| RouteChains.OperationUnmarked | src/lib/expressRoutes.ts:95-163 | Every operation reports exactly the layers ahead of its handler that carry neither mark, each under its number or its path, Express's own two at the root exempt |
| GateMarks.OffendingExactly | src/lib/gateMarkCoverage.ts:28-40 | The check reports exactly the unmarked layers of contract routes, and is ok if and only if no contract route has one |
| GateMarks.ContractRouteIff | src/lib/openapiCompleteness.ts:39-54 | A path is in the contract if and only if it lies below `api`, not below its `dev`, and not where a name there starts with `docs` |
| GateMarks.GateMarksMeaning | src/lib/gateMarkCoverage.ts:28-40 | The check of a whole app is ok if and only if every layer ahead of every contract handler is marked or is a root built-in |
| Rss.EscapeReadsBack | src/lib/rss.ts:11-22 | Escaping is undone by reading entities |
| Rss.EscapeIsInert | src/lib/rss.ts:11-22 | Escaped text holds no raw angle bracket or quote, and an ampersand only where an entity starts |
| Rss.ReadsItem | src/lib/rss.ts:43-52 | A reader recovers all fields of a rendered item, absent and empty optional fields identified |
| Rss.DocumentReadsBack | src/lib/rss.ts:54-75 | A reader recovers the channel and every item, in order, from the rendered document |
| Rss.RenderInjective | src/lib/rss.ts:54-75 | Documents that render alike are alike |
| Rss.CreatorsDeclared | src/lib/rss.ts:62-67 | The Dublin Core namespace is declared if and only if some item has a non-empty creator |
| RssMarkup.EscapeIs | src/lib/rss.ts:11-22 | Exactly the five markup units become entities, each its own predefined one |
| RssMarkup.ItemPrints | src/lib/rss.ts:43-52 | A rendered item is its element, printed with its fields indented below it: title, link, guid, date and the optional ones that are there |
| RssMarkup.DocumentPrints | src/lib/rss.ts:54-75 | Every rendered document is the declaration and the nested `rss` and `channel` elements with their fields, tag by tag, and an empty line where there are no items |
| RssMarkup.DocumentIsRoot | src/lib/rss.ts:54-75 | With items it is exactly its root element, printed |
| RemoteFetch.Fetch.Handle | src/lib/remoteFetch.ts:89-226 | Each event changes target, hop, listeners, size, chunks, abort flag and record exactly as the step of the machine says |
| RemoteFetch.FetchRemote | src/lib/remoteFetch.ts:193-226 | A fetch against any course of events returns the result of the run, if it is over |
| RemoteFetchSafety.StepKeeps | src/lib/remoteFetch.ts:89-226 | Every event keeps the invariant, from every state that satisfies it |
| RemoteFetchSafety.RunKeeps | src/lib/remoteFetch.ts:193-226 | Every state of every run satisfies the invariant |
| RemoteFetchSafety.DialsAreVetted | src/lib/remoteFetch.ts:61-102 | Each dial follows a successful check of the same target on the addresses it vetted, checks are of the first or the redirected target, and lookups answer with vetted addresses only |
| RemoteFetchSafety.BudgetsHold | src/lib/remoteFetch.ts:121-137 | At most maxRedirects + 1 dials, and never more than maxBytes bytes held |
| RemoteFetchSafety.RetryableExactly | src/lib/remoteFetch.ts:50-57 | A failure is retryable if and only if it is a timeout, a connection fault, a 5xx or a 429 |
| RemoteFetchSafety.OverCapIsFinal | src/lib/remoteFetch.ts:130-136 | Once the body passes the cap, no later events change the outcome |
| RemoteFetchSafety.ReadingSinceResponse | src/lib/remoteFetch.ts:128-138 | The chunks held while reading are those that came since one accepted response of that URL |
| RemoteFetchSafety.SuccessIsFinalBody | src/lib/remoteFetch.ts:128-139 | Success returns the concatenation, in order, of all chunks between the final accepted response and its end, within the cap |
| RemoteFetchOutcomes.BodyDecides | src/lib/remoteFetch.ts:121-139 | After any redirects within the budget, a 2xx answer with no or a fitting declared length gives success with the whole body under the address checked last if the body fits, and the size failure if not, whatever comes later |
| RemoteFetchOutcomes.AnswerRefused | src/lib/remoteFetch.ts:108-126 | An answer without a body to read fails for its own reason: its status, retryable for 429 and from 500 on; a 3xx without a location; a location that does not resolve; a declared length over the cap |
| RemoteFetchOutcomes.RedirectsLead | src/lib/remoteFetch.ts:203-218 | Within the budget the next check is of the target of the last redirect |
| RemoteFetchOutcomes.RedirectsRunOut | src/lib/remoteFetch.ts:203-220 | One redirect more than the budget allows fails for that reason |
| RemoteFetchOutcomes.CheckDecides | src/lib/remoteFetch.ts:205-222 | At any hop a check that refuses or throws ends the fetch with its reason |
| RemoteFetchOutcomes.LookupAnswers | src/lib/remoteFetch.ts:66-81 | A lookup is answered with all vetted addresses, or with the first where one is asked for |
| RemoteFetchOutcomes.FaultDecides | src/lib/remoteFetch.ts:171-191 | A connection that breaks before the answer fails the fetch as timed out if the time was up, with its code if not |
| RemoteFetchOutcomes.BrokenBodyFails | src/lib/remoteFetch.ts:139-143 | A body that breaks off fails the fetch; no part of it is returned |
| MutationSites.ClimbingIsCarrying | src/lib/prismaMutationSites.ts:88-103 | Climbing the parents agrees, at every node of every tree, with one top-down pass that carries "inside a try block whose catch translates" |
| MutationSites.IsGuarded | src/lib/prismaMutationSites.ts:88-103 | The climbing loop answers what that top-down pass carries |
| MutationSites.RouteOwnerIsNearest | src/lib/prismaMutationSites.ts:109-123 | The route owner is that of the deepest `router.verb('path', ...)` call at or above the node; no node up to the root is one exactly when there is none |
| MutationSites.FunctionOwnerIsNearest | src/lib/prismaMutationSites.ts:125-135 | The same for the deepest named function, method or binding |
| MutationSites.FindRouteOwner | src/lib/prismaMutationSites.ts:109-123 | The climbing loop finds that owner |
| MutationSites.FindFunctionOwner | src/lib/prismaMutationSites.ts:125-135 | The climbing loop finds that owner |
| MutationOwners.RouteOfExactly | src/lib/prismaMutationSites.ts:109-123 | A route call is `x.verb('path', ...)` with one of five verbs, read as its upper-cased verb and its path with braces |
| MutationOwners.BoundNameExactly | src/lib/prismaMutationSites.ts:125-135 | A named function, method or variable binds its name, and nothing else does |
| MutationOwners.ReadCallExactly | src/lib/prismaMutationSites.ts:64-76 | A site is exactly a call `x.model.op(...)` of one of seven writes on a known model |
| MutationKeys.EverySiteListed | src/lib/prismaMutationSites.ts:178-197 | Every mutation call of the tree is visited |
| MutationKeys.SitesInOrder | src/lib/prismaMutationSites.ts:178-197 | Sites come in source order, a call before the calls inside it |
| MutationCalls.CollectedAreWrites | src/lib/prismaMutationSites.ts:64-197 | The sites of a file are, one for one and in the order of the text, the writes on known models in its tree, each with its model and its write |
| MutationKeys.KeyTellsAll | src/lib/prismaMutationSites.ts:183-186 | A key determines its base and its ordinal |
| MutationKeys.KeysDistinct | src/lib/prismaMutationSites.ts:162-167 | Whatever the bases, no two sites share a key |
| MutationKeys.CollectedKeysDistinct | src/lib/prismaMutationSites.ts:162-199 | The keys of one file are pairwise distinct |
| MutationKeys.OrdinalsCountEarlier | src/lib/prismaMutationSites.ts:165-186 | A site's ordinal is one more than the number of earlier sites with its base |
| MutationOwners.BasesTellSites | src/lib/prismaMutationSites.ts:147-183 | Two sites of a file have one base exactly when they belong to one route by verb and contract path, up to a blank and `/` taken as empty, or to none and to one function, a missing name taken as empty, and write the same model in the same way |
| MutationOwners.RouteSiteKey | src/lib/prismaMutationSites.ts:105-183 | For a mount and a route of segments the base is verb, blank, contract path, `::`, model, dot and write |
| MutationOwners.FunctionSiteKey | src/lib/prismaMutationSites.ts:158-183 | Elsewhere it is the file, the nearest bound name if any, the model and the write |
| MutationKeys.SiteCollector.Push | src/lib/prismaMutationSites.ts:179-193 | Recording a call keeps the counter map equal to the occurrences of each base and the sites equal to the specified ones |
| MutationKeys.SiteCollector.Visit | src/lib/prismaMutationSites.ts:178-196 | Visiting a node records exactly the calls under it, in order |
| MutationKeys.CollectMutationSites | src/lib/prismaMutationSites.ts:168-199 | The program returns the specified sites of the file |
| GuardCoverage.PassesExactly | src/lib/prismaGuardCoverage.ts:153-198 | Whatever the keys, the ratchet passes if and only if the baselined keys are the failing sites' keys and no such key is shared with a later candidate that does not fail |
| GuardCoverage.SomeBaselinePassesIff | src/lib/prismaGuardCoverage.ts:153-198 | Some baseline turns the check green if and only if no failing key is shared in that way |
| GuardCoverage.BaselineIsExact | src/lib/prismaGuardCoverage.ts:130-198 | With distinct keys the ratchet passes if and only if the baselined keys are the keys of the gated, unguarded candidates |
| GuardCoverage.NarrowingIsNoticed | src/lib/prismaGuardCoverage.ts:141-144 | An area with a failing site cannot leave the gate without turning the check red |
| GuardCoverage.OneFileIsExact | src/lib/prismaGuardCoverage.ts:153-198 | For the sites collected from one file the ratchet is exact without further condition |
| GuardedFiles.GuardedExactly | src/lib/prismaMutationSites.ts:50-103 | A node is guarded if and only if some step on its way goes into the block of a `try` whose `catch` mentions a code |
| GuardedFiles.DevOnlyExactly | src/lib/prismaGuardCoverage.ts:110-122 | A site is dev-only if and only if it has no route and its file lies in `src/modules/devTools/` |
| GuardedFiles.FailsExactly | src/lib/prismaGuardCoverage.ts:124-166 | A site fails the gate, unless baselined, if and only if its area is gated, it is not dev-only, its write can violate a constraint of its model or miss its row, and no `try` on its way translates that |
| Changelog.ExtractUnreleasedEntries | src/lib/changelogGate.ts:145-167 | The loop returns one entry for each top-level bullet of the first `[Unreleased]` section, in order |
| Changelog.ExtractUnreleasedHeadings | src/lib/changelogGate.ts:280-296 | The loop returns the headings of that section with their line numbers |
| Changelog.CountByName | src/lib/changelogGate.ts:298-305 | Each name maps to the number of its headings, and absent names have none |
| Changelog.CheckUnreleasedHeadings | src/lib/changelogGate.ts:327-366 | The worsened types are exactly those whose surplus grew, the introduced headings exactly the unknown names the base had not, and it fails exactly when either is non-empty |
| ChangelogReading.BulletsExactly | src/lib/changelogGate.ts:145-167 | A line is read as an entry if and only if it is a bullet after the first `[Unreleased]` heading with no `## ` heading in between |
| ChangelogReading.BulletsInOrder | src/lib/changelogGate.ts:145-167 | The bullets are the bullet lines of that section, one for one and in order |
| ChangelogReading.HeadingsExactly | src/lib/changelogGate.ts:280-296 | A heading is read if and only if a line of that section carries its name, under the one-based number of that line |
| ChangelogReading.HeadingsInOrder | src/lib/changelogGate.ts:280-296 | The headings come from top to bottom |
| ChangelogReading.HeadingNameIff | src/lib/changelogGate.ts:291-293 | A line is a heading of a name if and only if it is `###`, spaces, the name and spaces, the name bare of outer spaces unless only spaces are left |
| ChangelogReading.BoldLeadIff | src/lib/changelogGate.ts:156 | The bold lead of a bullet ends at the first `**` that leaves it a unit, on the same line, and exists exactly then |
| ChangelogReading.LinesAre | src/lib/changelogGate.ts:146 | The lines of a changelog, joined by newlines, are the changelog, and no line holds a newline |
| ChangelogReading.LineKinds | src/lib/changelogGate.ts:147-154 | A bullet starts with `- ` or `* `, a section with `## `, and `[Unreleased]` with `## [unreleased]` in any case |
| ChangelogReading.EntryExactly | src/lib/changelogGate.ts:156-165 | The key of an entry is its bold lead, or else the first 80 units behind its mark, normalised; its excerpt is the first 120 units of its trimmed line |
| Casing.EndCounts | src/lib/changelogGate.ts:133-134 | In any alphabet, what follows a text changes how it is lowered if and only if it ends, marks aside, in a capital sigma after a letter, and then by one final sigma |
| ChangelogNormal.NormaliseIs | src/lib/changelogGate.ts:133-134 | Lowering before collapsing and trimming gives the same as after |
| ChangelogNormal.NormaliseKeepsSubstrings | src/lib/changelogGate.ts:129-134 | In any alphabet, what stands in a text is found in it after both are normalised, whatever the text, if and only if no capital sigma at its edges can look outside |
| ChangelogLosses.LostExactly | src/lib/changelogGate.ts:177-188 | An entry is reported removed if and only if its key does not occur in the normalised head |
| ChangelogLosses.CutSafeIff | src/lib/changelogGate.ts:156-160 | Which bullets are not cut at an open sigma: those with a bold lead, those of at most 82 units, and those not cut right behind a capital sigma inside a word of the alphabet |
| ChangelogLosses.NoSigmaIsSafe | src/lib/changelogGate.ts:133-160 | A bullet without a capital sigma is not cut at one, wherever it stands |
| ChangelogLosses.SafeKeepsKey | src/lib/changelogGate.ts:156-167 | A bullet that is not cut at an open sigma holds its own key, both normalised |
| ChangelogSigma.NeverLostIff | src/lib/changelogGate.ts:145-188 | No changelog that has a bullet loses its entry against itself if and only if the bullet line holds its own key, both normalised |
| ChangelogSigma.NeverCutAwayIff | src/lib/changelogGate.ts:169-188 | No release cut of a changelog that has a bullet loses its entry if and only if the line holds its own key |
| ChangelogSigma.SigmaCutIsLost | src/lib/changelogGate.ts:156-188 | In any alphabet, a bullet of 79 letters, a capital sigma and one more letter is cut at the sigma and lost against its own changelog |
| ChangelogSigma.CutButKept | src/lib/changelogGate.ts:156-188 | The same line with the word and the sigma once more at its end is cut there too, and still holds its key |
| ChangelogLosses.KeptAnywhereIff | src/lib/changelogGate.ts:169-188 | Every head that holds a bullet line, anywhere, keeps its entry if and only if the line holds its key both alone and with a letter behind it |
| ChangelogLosses.KeptLinesLoseNothing | src/lib/changelogGate.ts:169-188 | A head that still holds every bullet line, anywhere, loses nothing, if each line holds its key in those two cases |
| ChangelogLosses.NothingLostAgainstItself | src/lib/changelogGate.ts:169-188 | A changelog whose bullets hold their keys loses no entry against itself |
| ChangelogLosses.AddingNeverLosesIff | src/lib/changelogGate.ts:182-185 | Adding text around a head, whatever text, never creates a loss if and only if each key of the base that is in the head is there also when letters stand right before or after the head |
| ChangelogLosses.EdgeSafeStandsAlone | src/lib/changelogGate.ts:182-185 | A head that neither starts nor ends at an open sigma meets that condition for every base |
| ChangelogLosses.ReleaseCutPasses | src/lib/changelogGate.ts:169-188 | Replacing the `[Unreleased]` heading by any lines, such as an empty section and the new version's heading, passes whenever the bullets hold their keys |
| ChangelogRatchets.AcceptedExactly | src/lib/changelogGate.ts:298-366 | A change is accepted if and only if it gives no name more headings than it had, beyond one, and brings in no name that is neither one of the six types nor was there |
| ChangelogRatchets.RatchetOnlyTightens | src/lib/changelogGate.ts:311-326 | Along any chain of accepted changes no surplus ever grows and every unrecognised name was already in the first |
| ChangelogRatchets.CleanStaysClean | src/lib/changelogGate.ts:311-326 | A chain that starts with one known heading per type stays so |
| Completeness.BaselineIsExact | src/lib/openapiCompleteness.ts:130-197 | The check is ok if and only if the baselined shapes are the shapes of routed but unregistered operations |
| Completeness.ShapeIsNameless | src/lib/openapiCompleteness.ts:103-108 | The shape of a path is the path with its parameter names left out |
| Completeness.ShapeTells | src/lib/openapiCompleteness.ts:103-108 | Two operations have one shape exactly when they have one verb and one path shape, and a baseline entry that writes an operation has its shape |
| Completeness.RenamingKeepsVerdict | src/lib/openapiCompleteness.ts:142-154 | Renaming parameters in any routes, registrations and baseline entries keeps the verdict |
| FailureCoverage.DeclaresNothing | src/lib/openapiFailureCoverage.ts:110-118 | True exactly when every declared 4xx code is one the operation's gates can answer |
| FailureCoverage.KeyTells | src/lib/openapiFailureCoverage.ts:90 | Two operations have one key exactly when they have one verb and one path |
| FailureCoverage.SweepLiveRoutes | src/lib/openapiFailureCoverage.ts:135-169 | The loop returns, in route order, the keys of the unclassified routes and of the outdated ones of either list, and counts the documented routes |
| FailureCoverage.CheckFailureCoverage | src/lib/openapiFailureCoverage.ts:180-215 | Each failing list holds exactly its keys, dead entries included, and the check is ok if and only if registered routes are listed exactly when their declared 4xx codes all come from their gates and every listed key is live |
| FailureCoverage.NothingFoundIffExact | src/lib/openapiFailureCoverage.ts:180-215 | Three empty lists mean an exact classification, and the other way round |

## Left out

- Invite, bounty, ratio, download-grant and leadership lifecycles: their modules are not part of this model.
- Express, Prisma, the TypeScript compiler, DNS, TLS, sockets and timers are trees, answers and events; `checkPublicUrl` is any function.
- `pinnedLookup` is bypassed by Node for a literal address in the URL; the model records lookups where they happen and does not require one before a response.
- `new URL(...)` is an arbitrary function that may fail.
- Full Unicode case mapping: in the changelog gate letters, marks and lower-case forms are any table over UTF-16 units, so a letter that takes two units is not seen as one letter. Elsewhere only ASCII letters fold; the `i` flag folds no other letter onto the ASCII patterns used, and an address text with other letters is refused either way.
- ReportsExactly: for sheets without backslashes; for others HitBreaks tells the hits of the decoded text, and WrittenViolations where they are reported.
- BasesTellSites: for property names without a colon and file names that do not start with a capital, as identifiers and repository paths are.
- RouteSiteKey, OperationSpelled, PathIsSpelled: for paths of plain segments and one-word parameters; PlainIsKept, ParamIsBraced and LoneColonIsKept fix every other path.
- ReleaseCutPasses: stated in one direction for a given changelog; NeverCutAwayIff has both for every bullet.
- Regular expression engines: only the patterns used, as recognisers.
- JSON nodes are values: two places that share one object, and key order, are not modelled; the walk's in-place change is a returned node plus the fields of the class.
- The `description` texts of the sibling schemas, and all human-readable messages and `format*Report` functions.
- `.sort()` on result lists, except where order is claimed (CSS violations, expected codes); such lists are sets or keep their collection order.
- Totals and other counters for reports, and the parameter-name mismatches, which never fail a check.
- RSS dates are the text of `toUTCString()`, taken to hold no `<`; `contributionItemTitle` and `releaseUrl` are string templates.
- The syntax tree has the node kinds the scanner tells apart; the text of a `catch` clause is given with its node.
- Routes: a chain element is a handler with its marks and name; `markGate` and `markNotGate`, which stamp them, are not modelled. A layer with both a route and a stack is taken as a route.
- `checkChangelogGate`, the rule on which paths need an entry, is one branch over a file list.
- Files of `src/lib` that branch on one rule at a time (`assetValidate.ts`, `pagination.ts`, `commitMessage.ts`, `envCoverage.ts` and the like) would only add easy members.
