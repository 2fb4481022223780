# floimg-web core, modelled in Dafny

This project models the logic of the FloImg marketing site's frontend package
(`packages/frontend`). The model covers these parts:

- **Changelog parser** (`lib/changelog-parser.ts`). `parseChangeType` classifies one bullet by
  its conventional-commit prefix and strips that prefix. `determineCategory` infers a
  release's category (SDK, Studio or Repository) from its packages and sections.
  `parseChangelog` folds the lines of a `CHANGELOG.md` into releases, with their package
  groups, named sections and entries. Each of its regular expressions is a hand-written
  matcher. The matcher's lemmas state what the regular expression accepts and what it
  captures: greedy whitespace runs, the lazy bold label of nested items, and `.` excluding
  line terminators.
- **Changelog RSS feed** (`pages/changelog/feed.xml.ts`). Both changelogs are parsed and
  cloud releases are relabelled `Cloud`. The two lists are merged and stably sorted newest
  first. Each release becomes one item with a title, a summary description, a date, a link
  and one category.
- **Template preview generator** (`scripts/generate-template-previews.ts`). `isAITemplate`
  and the regeneration test are modelled. So is `workflowToPipeline`, the conversion of a
  Studio workflow into a pipeline. That conversion has three parts:
  - a dependency map;
  - a batched topological sort (one round of ready nodes per batch);
  - one variable `v<i>` per sorted node, and one step per generator node or connected
    transform node.
- **Consent store** (`stores/consent.ts`). The store is a state machine. The module
  variables `currentState` and `isInitialized` are one part of its state. The consent
  cookie and the `localStorage` entry are the other part. The model covers initialisation
  (cookie first, then storage), the queries (over the corrected initialisation, see
  "Findings"), `acceptAll`, `rejectAll`, `setPreferences`,
  `resetConsent` and `getConsentDate`.
- **Catalog lookups**:
  - `data/plugins.ts`: by slug, by category, the category list, and the free-text search;
  - `data/templates.ts`: the fixed category list, per-category listing, Studio link, and
    lookup by id;
  - `data/authors.ts`: author resolution with its team aliases and fallback, and the team
    list;
  - `lib/profile.ts`: the social links of a creator profile.

The shared modules are:

- `Wrappers`: `Option` and `Result`.
- `Text`: the JavaScript string primitives used:
  - `trim` with its whitespace set;
  - `split`, `join`, `includes` and `startsWith`;
  - ASCII `toLowerCase`;
  - decimal rendering of numbers.
- `Seqs`: filter, first match, first-occurrence de-duplication and subsequences, with full
  specifications.

The plugin and template catalogs are static data in the source. Here they are parameters,
so every property holds of any catalog. The author registry is modelled as shipped.

Where the code and its comments disagree, the model follows the code:

- The `BREAKING` replace pattern of `parseChangeType` carries the `i` flag. So its
  `breaking:` alternative also strips `BREAKING:`: `BREAKING: x` becomes `x` (see
  `ChangeTypes.BreakingColonRoundTrip`).
- The test that selects the breaking type is case-sensitive: `breaking:` or `BREAKING`.
  Only the strip is case-insensitive.
- The doc comment of `getAuthor` says an unknown id yields the "FloImg Team" author. The
  code returns a fallback author, whose id and name are the id as given.

## Model

| member | source | states |
|---|---|---|
| ChangeTypes.Classify | packages/frontend/src/lib/changelog-parser.ts:80-97 | the prefix tests on the already trimmed text: the type is `other` exactly when none of the five tests passes, and an `other` entry keeps the text whole |
| ChangeTypes.ParseChangeType | packages/frontend/src/lib/changelog-parser.ts:77-98 | a bullet is of type `other` exactly when its trimmed text passes none of the five prefix tests (`feat`, `fix`, `docs`, `chore` with `:` or `(`, then `breaking:` or `BREAKING`), and then it keeps its trimmed text whole |
| ChangeTypes.ParseChangeTypeSuffix | packages/frontend/src/lib/changelog-parser.ts:78-97 | the text returned is always a suffix of the trimmed bullet: classification only removes a prefix |
| ChangeTypes.ParseChangeTypeTrimmed | packages/frontend/src/lib/changelog-parser.ts:78 | classification sees the trimmed bullet only: trimming first changes nothing |
| ChangeTypes.ConventionalRoundTrip | packages/frontend/src/lib/changelog-parser.ts:81-92 | `feat: x`, `fix: x`, `docs: x` and `chore: x` give that type and exactly `x` |
| ChangeTypes.ScopedRoundTrip | packages/frontend/src/lib/changelog-parser.ts:81-92 | `type(scope): x`, with a non-empty scope free of `)`, gives that type and exactly `x` |
| ChangeTypes.BreakingChangeRoundTrip | packages/frontend/src/lib/changelog-parser.ts:93-94 | `BREAKING CHANGE: x` is a breaking change with text `x` |
| ChangeTypes.BreakingColonRoundTrip | packages/frontend/src/lib/changelog-parser.ts:93-94 | `breaking: x` and `BREAKING: x` are breaking changes with text `x`: the case-insensitive strip removes `BREAKING:` too |
| ChangeTypes.ClassifyConventional | packages/frontend/src/lib/changelog-parser.ts:81-92 | text starting `type:` or `type(` gets that type, with the match of `^type(\([^)]+\))?:\s*` cut off (nothing when it does not match) |
| ChangeTypes.ClassifyBreaking | packages/frontend/src/lib/changelog-parser.ts:93-94 | text starting `breaking:` or `BREAKING` that no conventional test took is breaking, with the breaking pattern's match cut off |
| ChangeTypes.KindPrefixEndSound | packages/frontend/src/lib/changelog-parser.ts:82 | a computed strip length is a match of `^type(\([^)]+\))?:` followed by the longest whitespace run |
| ChangeTypes.KindPrefixEndComplete | packages/frontend/src/lib/changelog-parser.ts:82 | every match of that pattern, greedy run included, is the one computed |
| ChangeTypes.BreakingPrefixEndSound | packages/frontend/src/lib/changelog-parser.ts:94 | a computed strip length is a case-insensitive match of `breaking:` or `BREAKING\s*CHANGE:?` at the start, followed by the longest whitespace run |
| ChangeTypes.BreakingPrefixEndComplete | packages/frontend/src/lib/changelog-parser.ts:94 | every such match is the one computed |
| ChangelogLines.TailCaptureSpec | packages/frontend/src/lib/changelog-parser.ts:224 | `\s+(.+)$` captures everything after the longest whitespace run, and fails exactly when no split fits |
| ChangelogLines.TripleEndSound | packages/frontend/src/lib/changelog-parser.ts:135 | a found version number is three dot-separated digit runs, not followed by a digit |
| ChangelogLines.TripleEndComplete | packages/frontend/src/lib/changelog-parser.ts:135 | every such number is found, with that end |
| ChangelogLines.MatchVersionHeader | packages/frontend/src/lib/changelog-parser.ts:135 | no contract of its own; `MatchVersionHeaderSound` and `MatchVersionHeaderComplete` state what it matches and captures |
| ChangelogLines.MatchVersionHeaderSound | packages/frontend/src/lib/changelog-parser.ts:135 | a matched version header is `## [`, optional `v`, a dotted triple, `]`, spaces, `-`, spaces and a `YYYY-MM-DD` date, and the captures are those parts |
| ChangelogLines.MatchVersionHeaderComplete | packages/frontend/src/lib/changelog-parser.ts:135 | every line of that shape is matched with those captures |
| ChangelogLines.VersionHeaderCaptures | packages/frontend/src/lib/changelog-parser.ts:135 | the captured number is a dotted triple and the captured date has the ISO shape |
| ChangelogLines.MatchPackageHeader | packages/frontend/src/lib/changelog-parser.ts:183 | no contract of its own; `MatchPackageHeaderSound` and `MatchPackageHeaderComplete` state what it matches and captures |
| ChangelogLines.MatchPackageHeaderSound | packages/frontend/src/lib/changelog-parser.ts:183 | a matched package header is `### @teamflojo/<name>`, spaces and `(<triple>)`, and the captures are those parts |
| ChangelogLines.MatchPackageHeaderComplete | packages/frontend/src/lib/changelog-parser.ts:183 | every line of that shape is matched with those captures |
| ChangelogLines.PackageHeaderCaptures | packages/frontend/src/lib/changelog-parser.ts:183 | the package name is scoped `@teamflojo/` with a non-empty rest, and its version is a dotted triple |
| ChangelogLines.MatchSectionHeader | packages/frontend/src/lib/changelog-parser.ts:203-205 | no contract of its own; `MatchSectionHeaderSound` and `MatchSectionHeaderOf` state what it matches |
| ChangelogLines.MatchSectionHeaderSound | packages/frontend/src/lib/changelog-parser.ts:203-205 | a matched section line is exactly `### ` followed by one of the seven section names |
| ChangelogLines.MatchSectionHeaderOf | packages/frontend/src/lib/changelog-parser.ts:203-205 | each of the seven names is recognised on such a line |
| ChangelogLines.MatchBullet | packages/frontend/src/lib/changelog-parser.ts:224 | no contract of its own; `MatchBulletSpec` and `MatchBulletOf` state what it matches and captures |
| ChangelogLines.MatchBulletSpec | packages/frontend/src/lib/changelog-parser.ts:224 | a bullet is `-`, whitespace and a capture of the rest; a line fails exactly when it does not start with `-` or no split fits |
| ChangelogLines.MatchBulletOf | packages/frontend/src/lib/changelog-parser.ts:224 | `- x` is a bullet capturing `x` when `x` starts with a non-space and holds no line terminator |
| ChangelogLines.MatchSubHeader | packages/frontend/src/lib/changelog-parser.ts:238 | no contract of its own; `MatchSubHeaderSound` and `MatchSubHeaderOf` state what it matches and captures |
| ChangelogLines.MatchSubHeaderSound | packages/frontend/src/lib/changelog-parser.ts:238 | a sub-header is `#### ` followed by a non-empty capture without line terminators |
| ChangelogLines.MatchSubHeaderOf | packages/frontend/src/lib/changelog-parser.ts:238 | every such line is a sub-header capturing its rest |
| ChangelogLines.SeparatorTailSpec | packages/frontend/src/lib/changelog-parser.ts:248-258 | after the bold label, `\s*[-–]\s*(.+)$` and `\s+(.+)$` capture the greedy tail, and fail exactly when no split fits |
| ChangelogLines.LazyLabelFits | packages/frontend/src/lib/changelog-parser.ts:248 | the chosen bold label lets the rest of the nested pattern match |
| ChangelogLines.LazyLabelFirst | packages/frontend/src/lib/changelog-parser.ts:248 | no shorter label does: `(.+?)` takes the shortest label that fits |
| ChangelogLines.LazyLabelNone | packages/frontend/src/lib/changelog-parser.ts:248 | no label is chosen only when no label length fits |
| ChangelogLines.MatchNested | packages/frontend/src/lib/changelog-parser.ts:248-258 | no contract of its own; `MatchNestedShape`, `MatchNestedComplete` and `MatchLabelledCapture` state what each of the two nested patterns matches and captures |
| ChangelogLines.MatchLabelledCapture | packages/frontend/src/lib/changelog-parser.ts:248-258 | a nested match captures the shortest fitting label and the greedy tail |
| ChangelogLines.NestedPrefixSpec | packages/frontend/src/lib/changelog-parser.ts:248 | the indentation, dash and whitespace before `**` are recognised exactly when the line has that shape |
| ChangelogLines.MatchNestedShape | packages/frontend/src/lib/changelog-parser.ts:248-258 | a nested match needs an indented `- **` start |
| ChangelogLines.MatchNestedComplete | packages/frontend/src/lib/changelog-parser.ts:248-258 | an indented line with some fitting label is matched |
| ChangelogLines.NotHeader | packages/frontend/src/lib/changelog-parser.ts:135-238 | a line not starting with `#` matches none of the header patterns |
| ChangelogLines.IsUnreleasedHeader | packages/frontend/src/lib/changelog-parser.ts:162 | no contract of its own; it reads the pattern with `i` as ASCII case folding, which is what `i` does without the `u` flag; `UnreleasedNotVersion` and `UnreleasedCloses` state its use |
| ChangelogLines.UnreleasedNotVersion | packages/frontend/src/lib/changelog-parser.ts:135-162 | an `## [Unreleased]` line is never a version header |
| ChangelogLines.NestedNotHeader | packages/frontend/src/lib/changelog-parser.ts:135-248 | a nested item line matches no header and no bullet, so it reaches the nested branches |
| ChangelogLines.PackageLineNotVersion | packages/frontend/src/lib/changelog-parser.ts:135-183 | a package header is neither a version header nor the Unreleased header |
| ChangelogParser.DetermineCategory | packages/frontend/src/lib/changelog-parser.ts:103-120 | Studio exactly when some package is a studio package and none is an SDK package; Repository exactly when a `Repository` section exists and no package is either; SDK otherwise |
| ChangelogParser.StudioTestRedundant | packages/frontend/src/lib/changelog-parser.ts:106 | the `floimg-studio` test is implied by the `studio` test |
| ChangelogParser.StudioAndSdkDisjoint | packages/frontend/src/lib/changelog-parser.ts:105-112 | no package counts as both a studio package and an SDK package |
| ChangelogParser.CategoryByMembership | packages/frontend/src/lib/changelog-parser.ts:103-120 | the category depends only on which packages and sections occur, not on their order or repetition |
| ChangelogParser.Close | packages/frontend/src/lib/changelog-parser.ts:138-148 | closing a release appends the open package and section and sets the category the closed content determines |
| ChangelogParser.CloseRelease | packages/frontend/src/lib/changelog-parser.ts:138-149 | with an open release, closing pushes it and clears every slot; without one it changes nothing |
| ChangelogParser.NewRelease | packages/frontend/src/lib/changelog-parser.ts:151-157 | a new release is versioned `v<number>`, carries the header's date, is empty and starts as SDK |
| ChangelogParser.AddEntry | packages/frontend/src/lib/changelog-parser.ts:229-233 | an entry never touches the saved releases and leaves the release open; `BulletIntoPackage`, `BulletIntoSection` and `BulletWithoutGroup` state where it goes |
| ChangelogParser.StepInRelease | packages/frontend/src/lib/changelog-parser.ts:182-265 | a line inside an open release never touches the saved releases, leaves a release open and keeps its version and date |
| ChangelogParser.Step | packages/frontend/src/lib/changelog-parser.ts:133-266 | no contract of its own; `StepWf`, `StepKeepsDone`, `OutsideReleaseIgnored`, `UnreleasedCloses` and the header, bullet, sub-header and nested lemmas state each branch |
| ChangelogParser.Run | packages/frontend/src/lib/changelog-parser.ts:126-266 | no contract of its own; `RunWf` and `RunStamps` state the loop's invariant and the releases it opens |
| ChangelogParser.Finish | packages/frontend/src/lib/changelog-parser.ts:268-280 | no contract of its own; `ParseChangelogStamps` and `ParseChangelogCategorized` state what the final save returns |
| ChangelogParser.ParseChangelog | packages/frontend/src/lib/changelog-parser.ts:125-281 | no contract of its own; `ParseChangelogStamps`, `ParseChangelogCategorized`, `ParseChangelogVersions` and `ParseChangelogEmpty` state its result |
| ChangelogParser.StepWf | packages/frontend/src/lib/changelog-parser.ts:133-266 | each line keeps the invariant: no group without a release, and never a package and a section open together |
| ChangelogParser.RunWf | packages/frontend/src/lib/changelog-parser.ts:133-266 | the invariant holds after any sequence of lines |
| ChangelogParser.ParseChangelogCategorized | packages/frontend/src/lib/changelog-parser.ts:125-281 | every parsed release carries the category that `determineCategory` gives its final content |
| ChangelogParser.RunStamps | packages/frontend/src/lib/changelog-parser.ts:133-266 | the releases pushed or open after a run are the version headers of the lines, one each, in order |
| ChangelogParser.ParseChangelogStamps | packages/frontend/src/lib/changelog-parser.ts:125-281 | the parse has one release per version header line, in file order, with that header's version and date |
| ChangelogParser.HeaderStampsWell | packages/frontend/src/lib/changelog-parser.ts:135-153 | every header stamp is `v` and a dotted triple, with an ISO-shaped date |
| ChangelogParser.ParseChangelogVersions | packages/frontend/src/lib/changelog-parser.ts:151-153 | every parsed release has such a version and date |
| ChangelogParser.ParseChangelogNoHeaders | packages/frontend/src/lib/changelog-parser.ts:125-281 | content without a version header line parses to no releases |
| ChangelogParser.ParseChangelogEmpty | packages/frontend/src/lib/changelog-parser.ts:125-127 | the empty changelog has no releases |
| ChangelogParser.StepKeepsDone | packages/frontend/src/lib/changelog-parser.ts:133-266 | a line never alters a pushed release and pushes at most one |
| ChangelogParser.OutsideReleaseIgnored | packages/frontend/src/lib/changelog-parser.ts:180 | outside a release, any line other than a version or Unreleased header is ignored |
| ChangelogParser.UnreleasedCloses | packages/frontend/src/lib/changelog-parser.ts:162-178 | an Unreleased header closes the open release and leaves none open |
| ChangelogParser.BulletIntoPackage | packages/frontend/src/lib/changelog-parser.ts:224-230 | any line `^-\s+(.+)$` matches, under an open package, appends `parseChangeType` of the capture to the package |
| ChangelogParser.BulletIntoSection | packages/frontend/src/lib/changelog-parser.ts:231-233 | with no package open, any such bullet line appends `parseChangeType` of its capture to the open section |
| ChangelogParser.BulletWithoutGroup | packages/frontend/src/lib/changelog-parser.ts:229-234 | any such bullet line with neither a package nor a section open is dropped |
| ChangelogParser.SubHeaderIntoSection | packages/frontend/src/lib/changelog-parser.ts:238-245 | `#### c` in an open section adds a `feat` entry with text `c` |
| ChangelogParser.SubHeaderWithoutSection | packages/frontend/src/lib/changelog-parser.ts:238-245 | a `#### c` sub-header is dropped while no section is open |
| ChangelogParser.PackageHeaderOpens | packages/frontend/src/lib/changelog-parser.ts:183-199 | a package header files the open group into the release and opens an empty package with the captured name and version |
| ChangelogParser.SectionHeaderOpens | packages/frontend/src/lib/changelog-parser.ts:203-220 | a section header files the open group into the release and opens an empty section of that name |
| ChangelogParser.NestedIntoSection | packages/frontend/src/lib/changelog-parser.ts:248-265 | a nested item in an open section adds a `feat` entry `label: text`, the dashed form taking precedence |
| ChangelogParser.NestedWithoutSection | packages/frontend/src/lib/changelog-parser.ts:249-259 | a nested item with no section open is dropped |
| ChangelogFeed.CategoryNameInjective | packages/frontend/src/pages/changelog/feed.xml.ts:50 | distinct categories are published under distinct names |
| ChangelogFeed.SourceReleases | packages/frontend/src/pages/changelog/feed.xml.ts:12 | no contract of its own; `SourceReleasesIsParse` states that the empty-content short-cut is the parse |
| ChangelogFeed.SourceReleasesIsParse | packages/frontend/src/pages/changelog/feed.xml.ts:12 | skipping the parser for empty content gives what the parser would |
| ChangelogFeed.LabelOss | packages/frontend/src/pages/changelog/feed.xml.ts:12 | OSS releases are never labelled Cloud |
| ChangelogFeed.LabelCloud | packages/frontend/src/pages/changelog/feed.xml.ts:19-21 | every cloud release is labelled Cloud |
| ChangelogFeed.LabelKeepsReleases | packages/frontend/src/pages/changelog/feed.xml.ts:12-21 | labelling keeps the releases themselves, and an OSS label is the parsed category |
| ChangelogFeed.Compare | packages/frontend/src/pages/changelog/feed.xml.ts:25-26 | no contract of its own; `SortNewestFirst` and `SortStable` state the order it induces |
| ChangelogFeed.Insert | packages/frontend/src/pages/changelog/feed.xml.ts:24-27 | inserting adds exactly `x` to the multiset of entries |
| ChangelogFeed.InsertSorted | packages/frontend/src/pages/changelog/feed.xml.ts:24-27 | inserting a dated entry into a dated newest-first list keeps it dated and newest first |
| ChangelogFeed.InsertStable | packages/frontend/src/pages/changelog/feed.xml.ts:24-27 | inserting keeps the relative order of the entries of any one date, with `x` first |
| ChangelogFeed.Sort | packages/frontend/src/pages/changelog/feed.xml.ts:24-27 | the sort keeps the number of entries; `SortPermutes`, `SortStable` and `SortNewestFirst` state the rest |
| ChangelogFeed.SortPermutes | packages/frontend/src/pages/changelog/feed.xml.ts:24-27 | sorting is a permutation |
| ChangelogFeed.SortCounts | packages/frontend/src/pages/changelog/feed.xml.ts:24-27 | sorting keeps the number of entries of every kind |
| ChangelogFeed.SortStable | packages/frontend/src/pages/changelog/feed.xml.ts:24-27 | entries of equal date keep their relative order |
| ChangelogFeed.SortNewestFirst | packages/frontend/src/pages/changelog/feed.xml.ts:24-27 | with every entry dated, no entry precedes a newer one |
| ChangelogFeed.SortDated | packages/frontend/src/pages/changelog/feed.xml.ts:24-27 | sorting dated entries leaves them dated |
| ChangelogFeed.Merge | packages/frontend/src/pages/changelog/feed.xml.ts:24-27 | no contract of its own; `FeedPermutes`, `MergeSameDate` and `FeedNewestFirst` state its result |
| ChangelogFeed.MergeSameDate | packages/frontend/src/pages/changelog/feed.xml.ts:24 | among releases of one date, OSS releases come first, then cloud ones, each in changelog order |
| ChangelogFeed.ParsedDated | packages/frontend/src/pages/changelog/feed.xml.ts:12-25 | parsed releases always have a date, so the comparator's undated case never applies |
| ChangelogFeed.TotalChanges | packages/frontend/src/pages/changelog/feed.xml.ts:37-39 | no contract of its own; `TotalChangesCounts` states that it counts every entry of packages and sections |
| ChangelogFeed.TotalChangesCounts | packages/frontend/src/pages/changelog/feed.xml.ts:37-39 | the change count is the number of entries over all packages and sections |
| ChangelogFeed.PackageListEmpty | packages/frontend/src/pages/changelog/feed.xml.ts:35-41 | the `name@version` list is empty exactly when the release has no packages |
| ChangelogFeed.Description | packages/frontend/src/pages/changelog/feed.xml.ts:35-43 | no contract of its own; `DescriptionShape` states both shapes |
| ChangelogFeed.DescriptionShape | packages/frontend/src/pages/changelog/feed.xml.ts:35-43 | the description is `<list> - <n> change(s)` with packages and `<n> change(s)` without |
| ChangelogFeed.Item | packages/frontend/src/pages/changelog/feed.xml.ts:45-51 | no contract of its own; `ItemNamesRelease` states each field |
| ChangelogFeed.ItemNamesRelease | packages/frontend/src/pages/changelog/feed.xml.ts:45-51 | an item's title is `<version> Released`, its link `/changelog/#<version>`, its date the release's, and its one category the label's name |
| ChangelogFeed.CloudItemsCount | packages/frontend/src/pages/changelog/feed.xml.ts:33-52 | there are as many Cloud items as Cloud-labelled entries |
| ChangelogFeed.Feed | packages/frontend/src/pages/changelog/feed.xml.ts:11-52 | no contract of its own; `FeedCounts` states the number of items and of Cloud items |
| ChangelogFeed.FeedCounts | packages/frontend/src/pages/changelog/feed.xml.ts:11-52 | the feed has one item per release of either changelog, and as many Cloud items as cloud releases |
| ChangelogFeed.FeedPermutes | packages/frontend/src/pages/changelog/feed.xml.ts:24 | the merged releases are exactly the OSS and cloud releases |
| ChangelogFeed.FeedNewestFirst | packages/frontend/src/pages/changelog/feed.xml.ts:24-48 | no feed item precedes an item with a later date |
| TemplatePreviews.HasAiNode | packages/frontend/scripts/generate-template-previews.ts:151-158 | true exactly when some generator node names an AI generator |
| TemplatePreviews.IsAiTemplate | packages/frontend/scripts/generate-template-previews.ts:146-161 | a template is AI exactly when its main generator or a generator node's name is one of the eight AI generators |
| TemplatePreviews.NeedsRegeneration | packages/frontend/scripts/generate-template-previews.ts:125-141 | forced, a missing image or a missing hash file always means regenerate |
| TemplatePreviews.ForceIgnoresStore | packages/frontend/scripts/generate-template-previews.ts:126 | when forced, neither the files nor the hash matter |
| TemplatePreviews.UpToDateAfterWrite | packages/frontend/scripts/generate-template-previews.ts:132-140 | with the image present and the current hash stored, nothing is regenerated |
| TemplatePreviews.InitDepsSpec | packages/frontend/scripts/generate-template-previews.ts:189-192 | the initial map has one empty entry per node id |
| TemplatePreviews.AddEdgesSpec | packages/frontend/scripts/generate-template-previews.ts:193-198 | adding the edges adds each edge's source to a known target, and adds no key |
| TemplatePreviews.Deps | packages/frontend/scripts/generate-template-previews.ts:189-198 | no contract of its own; `DepsSpec` states that each node's set holds exactly the sources of its incoming edges |
| TemplatePreviews.DepsSpec | packages/frontend/scripts/generate-template-previews.ts:189-198 | the dependencies of a node are exactly the sources of its incoming edges, and only node ids are keys |
| TemplatePreviews.Ready | packages/frontend/scripts/generate-template-previews.ts:205-212 | every ready index is an index of a node; `ReadyFrom` states which nodes are ready, in workflow order |
| TemplatePreviews.ReadyFrom | packages/frontend/scripts/generate-template-previews.ts:205-212 | the ready list holds exactly the ready nodes, in workflow order |
| TemplatePreviews.UnsortedShrinks | packages/frontend/scripts/generate-template-previews.ts:204-219 | a non-empty round of ready nodes strictly shrinks the unsorted nodes, so the sort ends |
| TemplatePreviews.Sorting | packages/frontend/scripts/generate-template-previews.ts:204-220 | no contract of its own; `SortingInv` states the loop invariant it keeps and its stop condition |
| TemplatePreviews.Batches | packages/frontend/scripts/generate-template-previews.ts:200-220 | no contract of its own; `BatchesInv`, `SortStops` and `DepsPlacedEarlier` state the finished sort |
| TemplatePreviews.SortingInv | packages/frontend/scripts/generate-template-previews.ts:200-220 | the sort keeps its invariant and stops with every node placed or none ready |
| TemplatePreviews.BatchesInv | packages/frontend/scripts/generate-template-previews.ts:200-220 | the finished sort satisfies the invariant |
| TemplatePreviews.SortedNodes | packages/frontend/scripts/generate-template-previews.ts:202-219 | the sorted list has one node per placed index; `SortedDistinct` states that no node is placed twice |
| TemplatePreviews.SortedDistinct | packages/frontend/scripts/generate-template-previews.ts:216-219 | no node is placed twice, and at most all nodes are placed |
| TemplatePreviews.BatchesInOrder | packages/frontend/scripts/generate-template-previews.ts:205-219 | each round places its nodes in workflow order |
| TemplatePreviews.DepsPlacedEarlier | packages/frontend/scripts/generate-template-previews.ts:205-212 | every edge into a placed node starts at a node placed in an earlier round |
| TemplatePreviews.SortStops | packages/frontend/scripts/generate-template-previews.ts:204-214 | the sort ends with every node placed or with no node ready, which is the case for a cycle |
| TemplatePreviews.MissingSourceOmitted | packages/frontend/scripts/generate-template-previews.ts:193-212 | a node with an edge from a missing node is never placed |
| TemplatePreviews.NoEdgesOneBatch | packages/frontend/scripts/generate-template-previews.ts:200-220 | without edges, one round places every node, in workflow order |
| TemplatePreviews.VarName | packages/frontend/scripts/generate-template-previews.ts:228 | no contract of its own; `VarNameInjective` states that distinct positions get distinct names |
| TemplatePreviews.VarNameInjective | packages/frontend/scripts/generate-template-previews.ts:228 | distinct positions get distinct variable names |
| TemplatePreviews.VarMap | packages/frontend/scripts/generate-template-previews.ts:223-229 | no contract of its own; `VarMapKeys` and `VarMapLast` state its keys and values |
| TemplatePreviews.VarMapKeys | packages/frontend/scripts/generate-template-previews.ts:223-229 | every visited node id has a variable |
| TemplatePreviews.VarMapLast | packages/frontend/scripts/generate-template-previews.ts:223-229 | a node id maps to the variable of its last visit |
| TemplatePreviews.StepFor | packages/frontend/scripts/generate-template-previews.ts:227-263 | no contract of its own; `GeneratorStep`, `SilentNodes` and `TransformStep` state each node type |
| TemplatePreviews.Steps | packages/frontend/scripts/generate-template-previews.ts:226-264 | no contract of its own; `StepsBound`, `StepsOutsNamed` and `StepsOutsDistinct` state its result |
| TemplatePreviews.GeneratorStep | packages/frontend/scripts/generate-template-previews.ts:234-241 | a generator node emits its generate step, writing its own variable |
| TemplatePreviews.SilentNodes | packages/frontend/scripts/generate-template-previews.ts:231-232 | input, save and other nodes emit no step but still get their variable |
| TemplatePreviews.TransformStep | packages/frontend/scripts/generate-template-previews.ts:242-259 | a transform emits a step exactly when its first image-input edge comes from a visited node, and then reads that node's variable |
| TemplatePreviews.StepsBound | packages/frontend/scripts/generate-template-previews.ts:226-264 | there are at most as many steps as sorted nodes |
| TemplatePreviews.StepsOutsNamed | packages/frontend/scripts/generate-template-previews.ts:226-264 | every step writes the variable of some sorted node |
| TemplatePreviews.StepsOutsDistinct | packages/frontend/scripts/generate-template-previews.ts:226-264 | no two steps write the same variable |
| TemplatePreviews.WorkflowToPipeline | packages/frontend/scripts/generate-template-previews.ts:184-267 | no contract of its own; `PipelineOutsFresh` states the name, the bound on steps and distinct outputs |
| TemplatePreviews.PipelineOutsFresh | packages/frontend/scripts/generate-template-previews.ts:184-267 | the pipeline is named after the template, has at most one step per node, and no two steps write the same variable |
| Consent.WithEssential | packages/frontend/src/stores/consent.ts:144 | forcing `essential` sets it and changes no other field |
| Consent.InitializeAsWritten | packages/frontend/src/stores/consent.ts:129-168 | on the server the default state is returned; an initialised store answers its current state |
| Consent.InitializeThrowsOnBareStorage | packages/frontend/src/stores/consent.ts:155-158 | a stored value without `preferences`, with no usable cookie, makes initialisation throw |
| Consent.Initialize | packages/frontend/src/stores/consent.ts:129-168 | the corrected initialisation: as written on the server and when initialised, and otherwise it leaves the store initialised and answers the store's state |
| Consent.InitializeAgrees | packages/frontend/src/stores/consent.ts:155-164 | it agrees with the code wherever the code does not throw, and treats the throwing input like nothing stored |
| Consent.InitializeIdempotent | packages/frontend/src/stores/consent.ts:134-136 | initialising twice is initialising once |
| Consent.CookieFirst | packages/frontend/src/stores/consent.ts:139-149 | a usable cookie wins, with `essential` forced, and is copied to storage |
| Consent.StorageSecond | packages/frontend/src/stores/consent.ts:155-163 | without a usable cookie, a stored state is used with `essential` forced and copied to the cookie |
| Consent.InitializeKeepsEssential | packages/frontend/src/stores/consent.ts:139-167 | initialisation keeps `essential` granted and answers a state granting it |
| Consent.GetConsentState | packages/frontend/src/stores/consent.ts:173-178 | an initialised store answers its current state unchanged |
| Consent.GetConsentStateAsWritten | packages/frontend/src/stores/consent.ts:173-178 | the query as written answers an initialised store's state, and otherwise runs the initialisation as written |
| Consent.GetConsentStateAgrees | packages/frontend/src/stores/consent.ts:173-178 | the query over the corrected initialisation answers what the code answers wherever the code does not throw; the code throws exactly for an uninitialised store in the browser, with no usable cookie and a stored value without `preferences` |
| Consent.HasConsent | packages/frontend/src/stores/consent.ts:190-192 | no contract of its own; `EssentialAlwaysGranted` states that `essential` is always granted |
| Consent.EssentialAlwaysGranted | packages/frontend/src/stores/consent.ts:190-192 | `hasConsent("essential")` is always true |
| Consent.ConsentDate | packages/frontend/src/stores/consent.ts:289-291 | there is a consent date exactly when the user has interacted and the timestamp is non-zero, and it is that timestamp |
| Consent.UpdateState | packages/frontend/src/stores/consent.ts:197-204 | an update grants `essential`, keeps the initialised flag, and writes the new state to cookie and storage |
| Consent.UpdateReadsBack | packages/frontend/src/stores/consent.ts:197-204 | the state written by an update is what the store reads back |
| Consent.AcceptAll | packages/frontend/src/stores/consent.ts:219-230 | no contract of its own; `AcceptAllGrants` states the state it writes |
| Consent.AcceptAllGrants | packages/frontend/src/stores/consent.ts:219-230 | after `acceptAll` every category is granted, the user has interacted, the version is current, and the date is the time given |
| Consent.RejectAll | packages/frontend/src/stores/consent.ts:235-246 | no contract of its own; `RejectAllDenies` states the state it writes |
| Consent.RejectAllDenies | packages/frontend/src/stores/consent.ts:235-246 | after `rejectAll` only `essential` is granted, and the user has interacted |
| Consent.SetPreferences | packages/frontend/src/stores/consent.ts:251-263 | no contract of its own; `SetPreferencesMerges` and `SetPreferencesIdempotent` state the merge |
| Consent.SetPreferencesMerges | packages/frontend/src/stores/consent.ts:251-263 | given fields replace the current ones, missing fields keep them, and `essential` stays granted |
| Consent.SetPreferencesIdempotent | packages/frontend/src/stores/consent.ts:251-263 | setting the same preferences again changes only the timestamp |
| Consent.ResetConsent | packages/frontend/src/stores/consent.ts:268-276 | no contract of its own; `ResetForgets` states the state after a reset |
| Consent.ResetForgets | packages/frontend/src/stores/consent.ts:268-276 | after a reset the store is as loaded, the state read is the default, and there is no consent date |
| Consent.TransitionsKeepEssential | packages/frontend/src/stores/consent.ts:129-276 | every operation keeps `essential` granted |
| Plugins.PluginBySlug | packages/frontend/src/data/plugins.ts:810-812 | the lookup finds the first plugin with the slug, and finds nothing exactly when no plugin has it |
| Plugins.PluginBySlugUnique | packages/frontend/src/data/plugins.ts:810-812 | with unique slugs, every plugin is found by its own slug |
| Plugins.PluginsByCategory | packages/frontend/src/data/plugins.ts:814-816 | the listing holds exactly the plugins of the category, in catalog order |
| Plugins.PluginsByCategoryPartition | packages/frontend/src/data/plugins.ts:814-816 | the four category listings together hold every plugin exactly once |
| Plugins.Categories | packages/frontend/src/data/plugins.ts:818-820 | the category list holds exactly the categories some plugin has, each once |
| Plugins.CategoriesFirstSeen | packages/frontend/src/data/plugins.ts:818-820 | the categories come in the order the catalog first mentions them |
| Plugins.CategoriesNonEmpty | packages/frontend/src/data/plugins.ts:814-820 | a category is listed exactly when its listing is not empty |
| Plugins.Search | packages/frontend/src/data/plugins.ts:822-829 | the search keeps exactly the plugins whose name, description or some tag contains the query, ignoring case, in catalog order |
| Plugins.SearchEmptyQuery | packages/frontend/src/data/plugins.ts:822-829 | the empty query lists the whole catalog |
| Plugins.SearchIgnoresQueryCase | packages/frontend/src/data/plugins.ts:823 | the query's case does not change the result |
| Plugins.SearchFindsByName | packages/frontend/src/data/plugins.ts:825 | searching a plugin's own name finds it |
| Templates.CategoryLabelInjective | packages/frontend/src/data/templates.ts:18 | the four category labels are distinct |
| Templates.Categories | packages/frontend/src/data/templates.ts:332-334 | the category list is every label once, in display order |
| Templates.TemplatesByCategory | packages/frontend/src/data/templates.ts:336-338 | the listing holds exactly the templates with that label, in gallery order, and nothing for a string that is no label |
| Templates.TemplatesByCategoryPartition | packages/frontend/src/data/templates.ts:336-338 | the four listings together hold every template exactly once |
| Templates.StudioUrl | packages/frontend/src/data/templates.ts:340-342 | the link is the Studio address followed by the id, unencoded |
| Templates.StudioUrlId | packages/frontend/src/data/templates.ts:340-342 | an id can be read back exactly from a string with the Studio prefix |
| Templates.StudioUrlRoundTrip | packages/frontend/src/data/templates.ts:340-342 | reading the id back from a link gives the id |
| Templates.StudioUrlIdRoundTrip | packages/frontend/src/data/templates.ts:340-342 | every Studio link is the link of the id it carries |
| Templates.TemplateById | packages/frontend/src/data/templates.ts:344-346 | the lookup finds the first template with the id, and finds nothing exactly when none has it |
| Profile.PlatformNameInjective | packages/frontend/src/lib/profile.ts:151-184 | the five platform names a link records are distinct |
| Profile.Piece | packages/frontend/src/lib/profile.ts:149-188 | a platform gives at most one link, well formed and of that platform, and gives one exactly when its field is set and not empty |
| Profile.SocialLinks | packages/frontend/src/lib/profile.ts:146-191 | the call fails exactly when a website address is set that the URL parser rejects, and gives at most five links otherwise |
| Profile.PiecesWellFormed | packages/frontend/src/lib/profile.ts:149-188 | every link is built from its platform's field |
| Profile.PiecesOrdered | packages/frontend/src/lib/profile.ts:149-188 | links of platforms in display order come in that order |
| Profile.PiecesPresence | packages/frontend/src/lib/profile.ts:149-188 | a platform of the list has a link exactly when its field is set |
| Profile.SocialLinksOrdered | packages/frontend/src/lib/profile.ts:146-191 | the links come in the order github, twitter, bluesky, instagram, website, so no platform appears twice |
| Profile.SocialLinksWellFormed | packages/frontend/src/lib/profile.ts:149-188 | each handle link is the platform's address prefix and the handle; the website link keeps the address and has its host name as handle |
| Profile.SocialLinksPresence | packages/frontend/src/lib/profile.ts:149-188 | a platform has a link exactly when its field is set and not empty |
| Authors.RegistryKeyedById | packages/frontend/src/data/authors.ts:17-41 | each registry entry is filed under its own id, and the registry holds nothing else |
| Authors.GetAuthorAsWritten | packages/frontend/src/data/authors.ts:47-63 | the lookup as written yields an inherited object member exactly for ids that lower-case to `constructor` or `__proto__` |
| Authors.GetAuthorAsWrittenInherits | packages/frontend/src/data/authors.ts:55-62 | `getAuthor("Constructor")` yields no author |
| Authors.GetAuthor | packages/frontend/src/data/authors.ts:47-63 | team aliases give the team, registered ids give their entry whatever their case, and any other id gives an author with that id and name and no profile |
| Authors.GetAuthorAgrees | packages/frontend/src/data/authors.ts:47-63 | away from the inherited names the corrected lookup is the lookup as written |
| Authors.GetAuthorIgnoresCase | packages/frontend/src/data/authors.ts:48-56 | a known id or alias resolves the same in any case |
| Authors.TeamAuthors | packages/frontend/src/data/authors.ts:68-70 | the team list keeps exactly the entries marked team with a non-empty username, in order |
| Authors.GetTeamAuthors | packages/frontend/src/data/authors.ts:68-70 | the collective team entry is never listed |
| Authors.TeamAuthorsListed | packages/frontend/src/data/authors.ts:17-70 | with the shipped registry the list is Brett Cooke then Brandon L'Europa |

## Left out

- Network fetches of the two changelogs (`fetchFloimgChangelog`, `fetchCloudChangelog`) are left out. The feed takes their contents as strings, and an unavailable changelog is the empty string.
- `formatReleaseDate` and the `toLocaleDateString` rendering of `getConsentDate` are left out: locale formatting belongs to the host. `Consent.ConsentDate` answers the raw timestamp.
- The `rss()` call that serialises the feed to XML, and the feed's fixed title, description and site, are left out. The model stops at the list of items.
- ChangelogFeed.FeedNewestFirst: dates are compared as strings, which orders real calendar dates as `new Date` does. A captured date with an out-of-range month (`2024-13-01`) parses to an invalid `Date`, the comparator yields `NaN`, and the sort treats the pair as equal. A captured date with an out-of-range day rolls over to a later date in V8 (`2024-02-30` is 1 March), so it compares equal to `2024-03-01` where `Compare` orders the two strictly. Neither case is modelled.
- ChangelogFeed.SortNewestFirst: requires every entry to be dated. The source's comparator is inconsistent for undated entries, but parsed releases are always dated (`ChangelogFeed.ParsedDated`).
- Plugins.Search: case is folded for ASCII letters only (`Text.Lower`). JavaScript's `toLowerCase` also folds non-ASCII letters, so the result is exact only for ASCII text.
- Authors.GetAuthor: the same ASCII-only lower-casing applies to ids.
- Consent.GetConsentState: `hasConsent`, `getConsentDate` and `setPreferences` are modelled over the corrected initialisation. Where the code throws (the consent finding below), `getConsentState` throws too, and so do these three. `Consent.GetConsentStateAsWritten` and `Consent.GetConsentStateAgrees` state where that happens.
- Consent: the cookie is decoded with `decodeURIComponent` outside the `try`. A malformed escape there throws a `URIError`, which is not modelled.
- Consent: JSON that parses to a value of the wrong shape, such as a string field where a boolean belongs, is not modelled. A read state is a well-typed `ConsentState` or one of the listed failure kinds.
- Consent: the cookie attributes (domain, max-age), the JSON encodings, the listeners, `subscribe`, and the `consent-updated` event are left out. A state written and read back is the same state.
- `Date.now()` is the parameter `now`. Whether `window`, `document` and `localStorage` exist is the flag `present`.
- The preview script's file system, API calls, cost prompt and command line are left out. Whether the image and the hash file exist is a parameter, and so is the stored hash.
- `computeTemplateHash` (SHA-256 of a JSON encoding) is the parameter `hash`. Node `params` are opaque maps passed through.
- Profile: the URL parser behind `new URL(...).hostname` is the parameter `hostname`. It gives `None` where the constructor throws.
- Profile: the remaining functions of `lib/profile.ts` (API calls and formatting) are left out, because they concern I/O and display only.
- The catalog data of `data/plugins.ts` and `data/templates.ts` are parameters. The fields only pages read are left out.
- The React and Astro components are left out, because they concern presentation only.

## Findings

| source | as written | input that shows it | evidently intended | confidence | as-written member | corrected member |
|---|---|---|---|---|---|---|
| packages/frontend/src/stores/consent.ts:155-164 | with no usable cookie, a truthy stored value is used as a state and `stored.preferences.essential = true` runs outside any `try` | `localStorage` entry `{}` or `1` with no consent cookie: `initializeConsent` throws a `TypeError` | skip such a value like an unparsable one, as the cookie branch does, and fall through to the current state | not executed | Consent.InitializeAsWritten, Consent.InitializeThrowsOnBareStorage | Consent.Initialize, Consent.InitializeAgrees |
| packages/frontend/src/data/authors.ts:55-62 | the registry is a plain object indexed by the lower-cased id, with the fallback taken only when the index is falsy, so inherited members are found too | `getAuthor("Constructor")` returns the `Object` function instead of an author, and `getAuthor("__proto__")` returns `Object.prototype` | consult only the registry's own entries, so that these ids get the fallback author | not executed | Authors.GetAuthorAsWritten, Authors.GetAuthorAsWrittenInherits | Authors.GetAuthor, Authors.GetAuthorAgrees |
