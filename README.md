# website-sandbox display logic in Dafny

This project models the display logic of a small client-side site. The site
reads a page manifest (`pages/pages.json`) and several read-only JSON data
files, and turns them into navigation, routes and widget tables. The model
covers the part that turns those arrays into display data:

- the string normalisers and HTML escapers of `src/core/strings.js`, as the
  `Strings` module;
- the route and page-path helpers of `src/core/url.js`, as the `Url` module;
- the three-tier folder order (summary, then years newest first, then
  alphabetical) and a stable sort, as the `Ordering` module;
- the DJ-collection filter and sorter (`renderDjCollection`), as the
  `DjCollection` module;
- the DJ set-summary matcher, its fallback samples and its grouping by folder,
  as the `SetSummary` module;
- the submitted-music division table, as the `SubmittedMusic` module;
- the recent-history table, as the `RecentHistory` module;
- the first-seen navigation grouping of `src/nav/nav.js`, as the `Nav` module;
- the home-page guarantee of `src/nav/manifest.js`, as the `Manifest` module;
- the single-file variant `app.js`, as the `App` module. This covers its
  `ensureSpecialPages` with the dj/collection entry, its sorted `groupPages`,
  the page choice and dispatch of `route`, and the query derived in
  `hydrateDjSetSummary`.

Some code exists in several identical copies:

- `app.js:5-24` and `app.js:30-55` repeat `strings.js` and `url.js`;
- `app.js:184-255` and
  `src/assets/scripts/components/widgets/renderDjCollectionInto.js:3-74`
  repeat `renderDjCollection`;
- `app.js:347-479` repeats the set-summary code.

Each copy is modelled once, by the same members. `Base` holds generic
sequence helpers and their lemmas: `filter`, `map`, `flatMap`, `join`,
`split`, `includes`, and the JS `||` coercions.

Modelling conventions:

- A JSON field is an `Option`. JS truthiness, as in `x || y` and
  `.filter(Boolean)`, is `Truthy`: present and non-empty.
- A `null` array entry reads like a record whose fields are all missing.
- `toLowerCase` and `toUpperCase` act on ASCII letters only.
- `localeCompare` is lexicographic order on the lower-cased strings.
- `Array.prototype.sort` is stable. It is modelled by `Ordering.SortByKey`, a
  stable insertion sort, and `Ordering.SortByKeyStable` proves that it is
  stable. `Ordering.SortInPlace` and `Ordering.SortedCopy` are
  array methods proved to compute it.
- `String.prototype.trim` removes the ECMAScript white-space and
  line-terminator characters.

Where the source mutates state, the model does too:

- loops are `method`s with invariants;
- the `Map` built by get-or-create-then-push is a `map` plus a key sequence in
  insertion order;
- the nav.js group objects are instances of a class, `Nav.NavGroup`. They are
  shared between `navOrder` and the folder map, and their `pages` field is
  updated in place.

The widgets produce HTML strings. The model produces the structured content
of those strings instead: names, counts, open flags, link texts and the
placeholder rows.

Where the documented behaviour and the code differ, the model follows the
code, except where noted. Two cases:

- A search query is matched against the `" | "`-join of a record's fields,
  not against each field on its own. A query that contains `" | "` can
  therefore match across two fields. `Search.HaystackStraddles` shows this;
  `Search.HaystackMatchesField` shows the two readings agree when the query
  has no space and no `|`.
- `renderDjCollectionInto.js` imports only `escapeHtml`, yet it calls
  `normalizeForSearch` and `escapeAttr`. The model gives it the shared
  helpers it evidently intends.

## Model

| member | source | states |
|---|---|---|
| Strings.Lower | src/core/strings.js:16 | lower-casing keeps the length |
| Strings.LowerAt | src/core/strings.js:16 | each character is lower-cased on its own |
| Strings.LowerAppend | src/core/strings.js:16 | lower-casing distributes over concatenation |
| Strings.LowerIdentity | src/core/strings.js:16 | a string without upper-case letters is its own lower-case form |
| Strings.LowerKeepsContains | src/core/strings.js:16 | lower-casing keeps a substring a substring |
| Strings.NormalizeForSearch | src/core/strings.js:15-17 | missing or empty input gives ""; the length is kept; no upper-case letter is left; each character is kept or is the upper-case letter shifted to lower case |
| Strings.NormalizeForSearchIdempotent | src/core/strings.js:15-17 | normalising twice equals normalising once |
| Strings.NormalizeToken | src/core/strings.js:19-21 | output only has [a-z0-9]; it is a subsequence of the normalised input; it keeps every [a-z0-9] character as often as the normalised input has it and no other character |
| Strings.NormalizeTokenIdempotent | src/core/strings.js:19-21 | the token form of a token form is itself |
| Strings.NormalizeTokenOfLowered | src/core/strings.js:19-21 | for a string without upper-case letters the token form is exactly the [a-z0-9] filter of the string |
| Strings.ReplaceAllAbsent | src/core/strings.js:3-7 | replaceAll of a character that is absent changes nothing |
| Strings.ReplaceAllAbsence | src/core/strings.js:3-7 | after replaceAll a character the replacement lacks is absent, if it was the replaced one or was absent before |
| Strings.EscapeHtml | src/core/strings.js:1-8 | output holds no `<`, `>`, `"` or `'`; input without the five special characters is returned unchanged |
| Strings.EscapeHtmlSafe | src/core/strings.js:2-7 | the replaceAll chain, with `&` replaced first, leaves none of `< > " '` and fixes text without special characters |
| Strings.EscapeHtmlAppend | src/core/strings.js:2-7 | escaping distributes over concatenation |
| Strings.EscapeHtmlPerChar | src/core/strings.js:2-7 | escaping equals replacing each character by its own entity |
| Strings.EscapeAttr | src/core/strings.js:10-13 | output also holds no backtick |
| Strings.EscapeAttrPerChar | src/core/strings.js:10-13 | escapeAttr equals escapeHtml per character, with the backtick replaced by `&#96;` |
| Strings.EscapeHtmlRoundTrip | src/core/strings.js:1-8 | decoding the five entities inverts escapeHtml |
| Strings.EscapeAttrRoundTrip | src/core/strings.js:10-13 | decoding the six entities inverts escapeAttr |
| Strings.WordsShape | src/core/strings.js:25-26 | split at separator runs and filtered, every word is non-empty and holds no `-`, `_` or space |
| Strings.CapitalizedShape | src/core/strings.js:27 | the capitalised words keep that shape |
| Strings.JoinSpacing | src/core/strings.js:28 | joining such words with a space gives no leading, trailing or doubled space |
| Strings.TitleCaseMissing | src/core/strings.js:24 | missing or empty input gives "" |
| Strings.TitleCaseShape | src/core/strings.js:23-29 | output has no `-`, no `_`, no leading or trailing space and no doubled space |
| Strings.TitleCaseWords | src/core/strings.js:27 | the output words are the input words, each with its first letter upper-cased and the rest unchanged |
| Url.FirstSegmentOf | src/core/url.js:3 | `split("/")` gives one field iff there is no "/"; otherwise its first field is the slash-free text before the first "/" |
| Url.EncodeRouteMissing | src/core/url.js:2 | a missing id encodes to "" |
| Url.EncodeRouteSegments | src/core/url.js:2-5 | with an encoder that emits no "/", the segments of the result are the encoded segments of the id, so their number is kept |
| Url.EncodeRouteRoundTrip | src/core/url.js:2-5 | decoding each segment and re-joining gives the id back, for an invertible slash-free encoder |
| Url.Trim | src/core/url.js:10 | the result is trimmed and occurs in the input |
| Url.TrimOf | src/core/url.js:10 | trimming white space around a trimmed text gives that text |
| Url.TrimIdempotent | src/core/url.js:10 | trimming twice equals trimming once |
| Url.DecodeRoute | src/core/url.js:8-15 | never ""; "home" unless the hash starts with `#/`; otherwise "home" or a trimmed piece of the text after `#/` |
| Url.DecodeRouteOf | src/core/url.js:9-14 | `#/` followed by a non-empty id inside white space decodes to the id |
| Url.DecodeRouteBlank | src/core/url.js:9-14 | `#/` followed by white space only decodes to "home" |
| Url.DecodeRouteKeepsPercentEscapes | src/core/url.js:9-14 | no percent-decoding: `#/a%20b` decodes to `a%20b` |
| Url.SafePagePathFromId | src/core/url.js:17-21 | null iff the id is empty, contains "..", or starts with "/"; otherwise exactly "pages/" + id + ".md" |
| Url.SafePagePathStaysInPages | src/core/url.js:17-21 | an accepted path starts with the segment "pages", a non-empty segment follows it, and no segment is ".." |
| Ordering.DecimalValueInjective | src/widgets/djCollection/djCollection.js:12 | equal-length digit strings with the same `Number` value are equal |
| Ordering.FolderSortKey | src/widgets/djCollection/djCollection.js:7-14 | group 0 iff the lower-cased name is "summary"; group 1 iff it is four digits, with its numeric year; group 2 otherwise, with year -1 |
| Ordering.LexLessIrreflexive | src/widgets/djCollection/djCollection.js:21 | the label order is irreflexive |
| Ordering.LexLessTransitive | src/widgets/djCollection/djCollection.js:21 | the label order is transitive |
| Ordering.LexLessTotal | src/widgets/djCollection/djCollection.js:21 | any two different labels are ordered |
| Ordering.LessIrreflexive | src/widgets/djCollection/djCollection.js:16-22 | the comparator never puts a key before itself |
| Ordering.LessTransitive | src/widgets/djCollection/djCollection.js:16-22 | the comparator's order is transitive |
| Ordering.LessTies | src/widgets/djCollection/djCollection.js:16-22 | keys the comparator ties have the same group, and the same year or label |
| Ordering.FolderKeysTied | src/widgets/djCollection/djCollection.js:16-22 | two folders tie only when their lower-cased names are equal |
| Ordering.SortByKeyPermutes | src/widgets/djCollection/djCollection.js:16 | sorting gives a permutation of the input |
| Ordering.SortByKeySorted | src/widgets/djCollection/djCollection.js:16-22 | sorting gives a list that is ordered by the comparator |
| Ordering.SortByKeyOfSorted | src/widgets/djCollection/djCollection.js:16-22 | an already ordered list is sorted to itself |
| Ordering.SortByKeyIdempotent | src/widgets/djCollection/djCollection.js:16-22 | sorting twice equals sorting once |
| Ordering.SortByKeySum | src/widgets/djCollection/djCollection.js:16 | sorting keeps any sum over the elements |
| Ordering.SortByKeyMembers | src/widgets/djCollection/djCollection.js:16 | sorting keeps exactly the members of the input |
| Ordering.SortByKeyStable | src/widgets/djCollection/djCollection.js:16-22 | stability: for any key, the elements the comparator ties with it come out in their input order |
| Ordering.FilterSorted | src/widgets/djCollection/djCollection.js:16-42 | filtering an ordered list keeps it ordered |
| Ordering.SortInPlace | src/widgets/djCollection/djCollection.js:16 | the in-place sort of an array leaves the stable sort of its old contents |
| Ordering.InsertNext | src/widgets/djCollection/djCollection.js:16 | one insertion step sorts the prefix one element further and leaves the rest alone |
| Ordering.SortedCopy | src/widgets/djCollection/djCollection.js:16 | sorting a spread copy returns the stable sort of the input |
| Ordering.NameKeyYear | src/widgets/djSetSummary/renderDjSetSummaryInto.js:81-87 | a four-digit folder name gets group 1 and its numeric year |
| Ordering.NameKeys | src/widgets/djSetSummary/renderDjSetSummaryInto.js:81-87 | the keys of "Summary", "misc", "2021" and "2023" |
| Ordering.SortFour | src/widgets/djCollection/djCollection.js:16-22 | four keys in the summary, year, year, other pattern sort to summary, the later year, the earlier year, other |
| Ordering.SortExample | src/widgets/djCollection/djCollection.js:16-22 | ["2021","Summary","misc","2023"] sorts to ["Summary","2023","2021","misc"] |
| Search.HaystackFromField | src/widgets/djCollection/djCollection.js:35-39 | a field whose lower-cased text holds the query makes the joined haystack hold it |
| Search.HaystackMatchesField | src/widgets/djCollection/djCollection.js:35-39 | for a query without space or `\|`, the joined haystack holds it iff one truthy field, lower-cased, holds it |
| Search.HaystackStraddles | src/widgets/djCollection/djCollection.js:35-39 | the joined haystack holds "a \| b" although neither field does |
| Search.JoinContainsPart | src/widgets/djCollection/djCollection.js:38 | a needle without separator characters found in a join is found in one of the parts |
| DjCollection.ItemViewOf | src/widgets/djCollection/djCollection.js:46-53 | link text is label, else title, else "(untitled)"; href is the url when truthy, else "#"; the date is shown, unchanged, iff it is truthy; the title is added iff it is truthy and differs from the link text |
| DjCollection.DjCollectionView | src/widgets/djCollection/djCollection.js:73 | queryActive iff the normalised query is non-empty; a missing folders array gives no folders and a total of 0 |
| DjCollection.FirstYearIndex | src/widgets/djCollection/djCollection.js:24 | the index of the first four-digit folder name, or -1 when there is none |
| DjCollection.FolderSections | src/widgets/djCollection/djCollection.js:26-70 | the loop with its inlined map callback keeps a folder iff the query is empty or keeps one of its items; each kept folder gives its display name, kept count, open flag and kept item views, in folder order; `totalMatched` is the sum of the kept counts |
| DjCollection.RenderDjCollection | src/widgets/djCollection/djCollection.js:3-74 | renderDjCollection (sorted copy, first year, sections, total) computes the specified view |
| DjCollection.MatchingItemsMembers | src/widgets/djCollection/djCollection.js:33-40 | an item is kept iff the query is empty or the haystack of its truthy fields and folder name holds it; kept items keep their order |
| DjCollection.ShownFoldersSpec | src/widgets/djCollection/djCollection.js:16-44 | shown folders are the input folders with a kept item (all of them for an empty query), in comparator order; each section has the folder's name, count and item views; the total is the sum of the kept counts |
| DjCollection.ViewCountsSum | src/widgets/djCollection/djCollection.js:44 | the section counts add up to the kept-item counts of the folders |
| DjCollection.MatchCountEmptyQuery | src/widgets/djCollection/djCollection.js:34 | with an empty query each folder's kept count is its item count |
| DjCollection.EmptyQueryKeepsEverything | src/widgets/djCollection/djCollection.js:33-34 | an empty query shows every folder with all its items, and `totalMatched` equals the total item count |
| DjCollection.ActiveQueryDropsEmptyFolders | src/widgets/djCollection/djCollection.js:42 | with an active query no shown folder has zero kept items |
| DjCollection.OpenFlag | src/widgets/djCollection/djCollection.js:56-57 | a section is open iff its name is "summary" in any case, or its name equals the name of the first four-digit folder in sorted order |
| DjCollection.FourDigitsKey | src/widgets/djCollection/djCollection.js:11-12 | a four-digit name gets group 1 with its numeric year |
| DjCollection.LaterYearNotLater | src/widgets/djCollection/djCollection.js:20 | in sorted order a later year folder never has a larger year |
| DjCollection.FirstYearIsLatest | src/widgets/djCollection/djCollection.js:24 | the first four-digit folder after sorting has the largest year of all input folders |
| SetSummary.MatchFolder | src/widgets/djSetSummary/renderDjSetSummaryInto.js:30-38 | the inner loop appends exactly the folder's matching items, tagged with the folder name |
| SetSummary.CollectMatches | src/widgets/djSetSummary/renderDjSetSummaryInto.js:28-39 | the nested loop collects every match, folder by folder |
| SetSummary.ItemSample | src/widgets/djSetSummary/renderDjSetSummaryInto.js:46-47 | the label when it is truthy, else the title when it is truthy, else no sample |
| SetSummary.SampleFolder | src/widgets/djSetSummary/renderDjSetSummaryInto.js:44-49 | the inner sample loop appends the folder's samples and stops at 10 |
| SetSummary.CollectSamples | src/widgets/djSetSummary/renderDjSetSummaryInto.js:41-51 | the samples are the first 10 labels of all items, in folder and item order |
| SetSummary.GroupByFolder | src/widgets/djSetSummary/renderDjSetSummaryInto.js:75-79 | keys in first-seen order, one entry per key, each holding its folder's matched items in match order |
| SetSummary.GroupOfAbsent | src/widgets/djSetSummary/renderDjSetSummaryInto.js:77 | a folder with no match has an empty group |
| SetSummary.SetLinkOf | src/widgets/djSetSummary/renderDjSetSummaryInto.js:101-106 | link text is label, else title, else "(untitled)"; href is the url when truthy, else "#"; the date is shown, unchanged, iff it is truthy |
| SetSummary.SectionFor | src/widgets/djSetSummary/renderDjSetSummaryInto.js:98-122 | the count equals the group size; the links are the items' links in order; a non-empty name is its own heading; open iff the name is "summary" in any case; heading "(Unknown)" iff the name is empty or is that text |
| SetSummary.SetSummary | src/widgets/djSetSummary/renderDjSetSummaryInto.js:6-22 | "Missing query" iff the trimmed name is empty; a load failure iff the name is set and the data is missing; no matches iff the name is set, the data is present and no item matches; found iff there is at least one match; both carry the trimmed name |
| SetSummary.SummarizeSets | src/widgets/djSetSummary/renderDjSetSummaryInto.js:24-124 | the loops compute the specified outcome |
| SetSummary.TokenRuleSubsumes | src/widgets/djSetSummary/renderDjSetSummaryInto.js:33-35 | with a non-empty token, a match is equivalent to the token rule alone |
| SetSummary.B2bQuery | src/widgets/djSetSummary/renderDjSetSummaryInto.js:6-26 | "b2b" is its own trimmed name, search form and token |
| SetSummary.B2bExample | src/widgets/djSetSummary/renderDjSetSummaryInto.js:33-35 | "b2b" matches "B-2-B Mashup" only through the token rule and does not match "Solo Set" |
| SetSummary.MatchesAreFilteredItems | src/widgets/djSetSummary/renderDjSetSummaryInto.js:28-39 | the matches are all tagged items, in folder then item order, filtered by the rule |
| SetSummary.MatchMembers | src/widgets/djSetSummary/renderDjSetSummaryInto.js:28-39 | a tagged item is a match iff it matches and one folder of that name holds it |
| SetSummary.SampleMembers | src/widgets/djSetSummary/renderDjSetSummaryInto.js:41-51 | a candidate sample is exactly a label of some item |
| SetSummary.SamplesAreLabels | src/widgets/djSetSummary/renderDjSetSummaryInto.js:41-51 | each kept sample is a non-empty label of some item |
| SetSummary.NoMatchSamples | src/widgets/djSetSummary/renderDjSetSummaryInto.js:41-51 | with no match: the samples are exactly the first 10 candidate labels (all of them when there are at most 10), each a real label |
| SetSummary.GroupMembers | src/widgets/djSetSummary/renderDjSetSummaryInto.js:75-79 | an item is in a folder's group iff it was matched in that folder |
| SetSummary.GroupSizesSum | src/widgets/djSetSummary/renderDjSetSummaryInto.js:75-79 | the group sizes add up to the number of matches |
| SetSummary.FoundSections | src/widgets/djSetSummary/renderDjSetSummaryInto.js:75-131 | the total is the number of matches and the section counts add up to it; sections follow the folder order over exactly the grouped folders; each section is its folder's group; open sections come first |
| SubmittedMusic.Blanks | src/assets/scripts/components/widgets/renderSubmittedMusicInto.js:7 | n cells, all "" |
| SubmittedMusic.NormalizeRow | src/assets/scripts/components/widgets/renderSubmittedMusicInto.js:5-9 | exactly `width` cells; the row's cells form a prefix; the padding is "" |
| SubmittedMusic.NormalizeRowCopy | src/assets/scripts/components/widgets/renderSubmittedMusicInto.js:6-9 | copy, then push "" or set the length, gives the normalised row |
| SubmittedMusic.NormalizeRowsCopy | src/assets/scripts/components/widgets/renderSubmittedMusicInto.js:3-11 | the loop over the rows gives normalizeRows |
| SubmittedMusic.NormalizeRowsShape | src/assets/scripts/components/widgets/renderSubmittedMusicInto.js:3-10 | the number of rows is kept; every row has the header width; each cell is the input cell or "" |
| SubmittedMusic.NonArrayRowIsBlank | src/assets/scripts/components/widgets/renderSubmittedMusicInto.js:6 | a non-array row becomes all "" |
| SubmittedMusic.NormalizeRowOfWidth | src/assets/scripts/components/widgets/renderSubmittedMusicInto.js:7-8 | a row of the right width is unchanged |
| SubmittedMusic.NormalizeRowsIdempotent | src/assets/scripts/components/widgets/renderSubmittedMusicInto.js:3-10 | normalising twice equals normalising once |
| SubmittedMusic.NormalizeRowsExample | src/assets/scripts/components/widgets/renderSubmittedMusicInto.js:3-10 | headers ["Date","Artist"] and rows [["2024-01-01"]] give [["2024-01-01",""]] |
| SubmittedMusic.PlaceholderSpan | src/assets/scripts/components/widgets/renderSubmittedMusicInto.js:36 | `max(headers.length, 1)` |
| SubmittedMusic.DivisionTable | src/assets/scripts/components/widgets/renderSubmittedMusicInto.js:13-39 | headers as given; the count is the number of kept rows, at most the input rows; queryActive iff the query is non-empty; a placeholder iff the count is 0, spanning max(headers, 1); otherwise the body rows are the kept rows' cell texts, in order |
| SubmittedMusic.EmptyQueryKeepsAllRows | src/assets/scripts/components/widgets/renderSubmittedMusicInto.js:19 | an empty query keeps every normalised row |
| SubmittedMusic.KeptRowsSpec | src/assets/scripts/components/widgets/renderSubmittedMusicInto.js:18-21 | a row is kept iff it is a normalised row whose lower-cased `" \| "`-join holds the query, or the query is empty; order is kept |
| SubmittedMusic.DivisionNames | src/assets/scripts/components/widgets/renderSubmittedMusicInto.js:92 | one non-empty name per division; a division with a truthy name is labelled with that name; "UnknownDivision" iff the name is missing or is that text |
| SubmittedMusic.Rerender | src/assets/scripts/components/widgets/renderSubmittedMusicInto.js:98-111 | "No divisions found" with no status iff the index is out of range or the entry is null; otherwise the division's table with the "matching" or "total" status and its count |
| RecentHistory.RowOf | src/assets/scripts/components/widgets/renderRecentHistoryInto.js:16-18 | each column is the field or "" |
| RecentHistory.RenderRecentHistory | src/assets/scripts/components/widgets/renderRecentHistoryInto.js:3-34 | the count is the number of kept entries, at most the input; queryActive iff the query is non-empty; a placeholder spanning 3 columns iff the count is 0; otherwise one row per kept entry, in order |
| RecentHistory.StatusOf | src/assets/scripts/components/widgets/renderRecentHistoryInto.js:90 | "matching" iff the query is active, with the count |
| RecentHistory.EmptyQueryKeepsAllEntries | src/assets/scripts/components/widgets/renderRecentHistoryInto.js:4-6 | an empty query keeps every entry in order; missing entries give the placeholder |
| RecentHistory.KeptEntriesSpec | src/assets/scripts/components/widgets/renderRecentHistoryInto.js:5-12 | an entry is kept iff it is an input entry whose lower-cased `" \| "`-join of truthy dt, title and artist holds the query, or the query is empty; the kept entries are a subsequence of the input |
| RecentHistory.KeptEntryByField | src/assets/scripts/components/widgets/renderRecentHistoryInto.js:7-11 | for a query without space or `\|`, an entry is kept iff one truthy field, lower-cased, holds it |
| Manifest.HasPageCons | src/nav/manifest.js:11-12 | putting an entry in front adds its own id and no other |
| Manifest.EnsureSpecialPages | src/nav/manifest.js:9-15 | home is always present; with home present the result is the input; otherwise home is put in front (length n+1); a non-array input gives exactly [home] |
| Nav.RootIffNoSlash | src/nav/nav.js:16-22 | a page is a root page iff its id has no "/"; otherwise its folder is the text before the first "/" |
| Nav.NavGroup.constructor | src/nav/nav.js:24 | a new group has the folder and no pages |
| Nav.PlacePage | src/nav/nav.js:14-29 | one pass keeps navOrder and the folder map equal to the specified grouping of the pages so far; groups are old or new |
| Nav.GroupPages | src/nav/nav.js:4-33 | the shared group objects, read at the end, give exactly the specified navigation order, and every group is a new object |
| Nav.UnseenFolderEmpty | src/nav/nav.js:23-29 | a folder not yet seen has no pages |
| Nav.GroupSlotCount | src/nav/nav.js:22-27 | a folder has one group entry once it is seen and none before |
| Nav.NavPagesCount | src/nav/nav.js:13-30 | every page with an id appears exactly once across the links and group pages, so the total is the number of pages with an id |
| Nav.SeenFoldersSpec | src/nav/nav.js:22-25 | a folder is seen iff some page with an id and a "/" has it as its first segment |
| Nav.UnlistedSkipped | src/nav/nav.js:14 | a page without an id leaves the navigation unchanged |
| Nav.RootPageLinked | src/nav/nav.js:16-20 | a page whose id has no "/" appends a link to itself |
| Nav.LinkAtPosition | src/nav/nav.js:16-20 | a root page's link sits at the position of the manifest point where it appears |
| Nav.GroupAtFirstSight | src/nav/nav.js:22-27 | a folder's group sits where the folder first appears and holds all its pages |
| Nav.OneGroupPerFolder | src/nav/nav.js:22-27 | no two groups share a folder, and a folder has a group iff some grouped page names it |
| Nav.GroupPagesInOrder | src/nav/nav.js:29 | a group holds exactly its folder's pages, in manifest order |
| App.FirstIndexOf | app.js:78 | `findIndex`: -1 iff no entry has the id; otherwise the first such index |
| App.FixDjKind | app.js:83-84 | a dj/collection page without a kind gets kind "dj"; every other page is unchanged; id, title and path never change |
| App.FixDjKinds | app.js:82-85 | the forEach applies that fix to every entry and keeps the length |
| App.EnsureSpecialPages | app.js:69-89 | home and dj/collection are both present; a missing dj/collection entry is spliced in right after the first home entry; otherwise each entry gets the kind fix |
| App.DjInsertCounts | app.js:77-80 | the splice adds exactly one dj/collection entry and loses nothing |
| App.HomeOf | app.js:92 | the first home entry, or the default home page |
| App.CollectPages | app.js:97-109 | the loop's root pages are the root entries other than home in order; one key per folder in first-seen order; each folder's pages in order |
| App.CollectPage | app.js:98-108 | one pass preserves that state |
| App.SortGroups | app.js:112-115 | each group is replaced by its stable sort by label |
| App.GroupPagesSorted | app.js:91-117 | home, the sorted root pages and each folder's sorted pages |
| App.GroupedPagesSpec | app.js:97-114 | the root list and each group are sorted by `title \|\| id`, are permutations of the pages they take, and hold exactly the non-home pages with an id of their kind |
| App.ChoosePage | app.js:502-505 | the first exact id match, else the first home entry, else the default home |
| App.Dispatch | app.js:507-517 | home iff the id is home or the kind is home; else the DJ collection iff the kind is dj or the id is dj/collection; else markdown of the page |
| App.Route | app.js:498-518 | an id the manifest lacks shows home; a markdown page is always the manifest's entry for the id |
| App.DjRouteShowsCollection | app.js:499-513 | `#/dj/collection` shows the DJ collection when that entry does not claim the home kind |
| App.MarkdownPath | app.js:316 | the explicit path, else the safe path of the id |
| App.SummaryQuery | app.js:485-489 | the trimmed attribute when non-empty; else the first segment of an id that has a "/"; else "" |

## Left out

- All DOM work is left out: `innerHTML`, `querySelector`, `classList`, `details.open`, event listeners and the `rerender` writes. These are side effects on the host page. The model returns the structured content instead of HTML strings.
- `fetch`, `res.json()`, `await` and `loadManifest` are network and async plumbing. A failed load becomes an absent value, as in `SetSummary.SetSummary`.
- The markdown conversion and sanitisation (`window.marked`, `window.DOMPurify`) and `encodeURI` are foreign library calls.
- `encodeURIComponent` is a browser built-in. `Url.EncodeRoute` takes the encoder as a parameter.
- Hash-change routing and widget hydration are event wiring: src/router/router.js, src/widgets/widgets.js, src/assets/scripts/components/site-widgets.js and the app.js start-up.
- src/_data/navigation.js is static configuration. It is not part of this model.
- The order in which app.js `renderNav` lists the groups is part of its DOM rendering and is not modelled.
- Unicode lower-casing and locale collation cannot be modelled faithfully. Lower-casing is ASCII only, and `localeCompare` is lexicographic order on the lower-cased labels.
- Non-string ids, titles, cells and names are left out: every text field is a string or absent. `String(x)` of a number or object is not modelled.
- `App.HomeOf` and `App.ChoosePage` do not model a throw. The `find` calls at app.js:92 and app.js:503-504 read `p.id` without `?.`, so a `null` entry before the first match throws. The model reads a `null` entry as a record whose fields are all missing, so it skips such an entry. nav.js and the other loops use `p?.id` and skip `null` entries as the model does.
- App.EnsureSpecialPages: the app.js `forEach` writes `kind` into page objects that may be shared with the caller's array. The model works on values, so that write is not visible through the input.
- App.EnsureSpecialPages: the `insertAt = 0` fallback at app.js:79 cannot be reached, because home was ensured just before. The model keeps the branch and proves that home is found.
- App.GroupPagesSorted: the groups are a `map` plus a key list, and `arr.sort` is modelled as a sorted copy put back. No other code holds the arrays, so modelling them as values loses nothing visible.
