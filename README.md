# boptest-dashboard in Dafny

This project models the logic of the BOPTEST dashboard. The dashboard collects
results of building-control benchmark simulations: KPIs such as thermal discomfort,
energy use, cost and emissions, for a building type and a scenario. It lets
users filter, sort, select and share those results. The model covers the
TypeScript client helpers and the server controllers that derive, filter,
merge, deduplicate and authorise results, and it proves what they promise.

One Dafny module stands for each source file:

- `TableHelpers` (client/src/Lib/TableHelpers.ts): row construction, the
  comparators and the stable sort.
- `ResultFilters` (client/src/Lib/resultFilters.ts): building the filter request.
- `ResultsApi` (client/src/Lib/useResultsApi.ts): query serialisation, and
  merging a page of results by uid, newest first.
- `ScenarioDisplay` (client/src/Lib/scenarioDisplay.ts): humanised scenario keys,
  value formatting, scenario entries and the "All …" labels.
- `UserDisplay` (client/src/NavBar/userDisplay.ts) and `MainLayout`
  (client/src/NavBar/MainLayout.tsx): the two avatar-initials variants.
- `ResultsTable` (client/src/Components/ResultsTable.tsx): range clamping and
  expanding, header labels and cells, the sort and selection rules, and the
  tag and scenario dedupe.
- `ResultsTableState`: the same table's component state as a class.
- `DashboardResultsTable` (client/src/Components/DashboardResultsTable.tsx):
  checkbox removal by index, and flattening a row into key and value lists.
  The dashboard table's sort toggle and select-all handler (lines 478-485 and
  487-494) are the same rules as the results table's, so they are the
  members `ResultsTable.NextOrder` and `ResultsTable.SelectAll`.
- `MobileMainLayout` (client/src/NavBar/MobileMainLayout.tsx): header-option
  equality, and the apply and reset updaters.
- `DashboardViewModel` (client/src/Pages/Dashboard/useDashboardViewModel.ts):
  the hook's state as a class. It covers the share-status update, the error
  title, retrying and the logged-out reset.
- `ResultController` and `ResultSignature` (server/controllers/result.ts). The
  first covers sanitising, hydration, the share-visibility rule, the user
  filters, building result documents, scenario normalisation and
  `toggleShared`. The second covers `stableStringify` and the KPI ranges.
- `ResultFacet` (server/models/ResultFacet.ts): sorted set union, scenario
  merging and the facet upsert.
- `DocumentStore` (server/datastore/documentStore.ts): version 4 UUIDs, row
  mapping, and the documents table as an in-memory class with an `initialized`
  flag.
- `BuildingTypeModel` (server/models/BuildingType.ts): building types on top of
  the store.
- `AccountController` (server/controllers/account.ts): accounts over an
  in-memory accounts table with the unique columns of server/models/Account.ts.
- `Security` (server/utils/security.ts): the session CSRF token.

`Wrappers`, `Strings`, `Sequences` and `Interfaces` model the JavaScript
built-ins the code relies on:

- truthiness, `undefined`/`null` and thrown errors;
- string case, trimming, splitting, number text and parsing, and `localeCompare`;
- filtering and sorting;
- JSON values and object property get/set;
- the records of common/interfaces.ts.

Randomness, hashing, the clock and the markdown download are parameters.

## Model

| member | source | states |
|---|---|---|
| TableHelpers.CellLessAsymmetric | client/src/Lib/TableHelpers.ts:59-63 | JavaScript `<` on two cells never holds both ways |
| TableHelpers.CellLessTotal | client/src/Lib/TableHelpers.ts:59-65 | two cells of one kind are ordered one way or the other, or equal |
| TableHelpers.CellLessTransitive | client/src/Lib/TableHelpers.ts:59-63 | `<` on cells is transitive |
| TableHelpers.NotLessTransitive | client/src/Lib/TableHelpers.ts:59-65 | "not below" is transitive on cells of one kind, so equal cells form classes |
| TableHelpers.DescendingComparator | client/src/Lib/TableHelpers.ts:58-66 | the result is -1 exactly when b's cell is below a's, 1 exactly when it is above, 0 exactly when neither |
| TableHelpers.Compare | client/src/Lib/TableHelpers.ts:70-80 | `desc` uses the descending comparator and `asc` its negation |
| TableHelpers.CompareConsistent | client/src/Lib/TableHelpers.ts:70-80 | on rows whose sort column holds one kind of cell, the comparator is antisymmetric in sign and transitive, as `Array.prototype.sort` needs |
| TableHelpers.CreateDataFromResult | client/src/Lib/TableHelpers.ts:23-45 | the row copies id, uid, date, thermal discomfort, cost, emissions, control step and forecast uncertainty; both energy columns show `energyUse`; both time-ratio columns show `timeRatio`; air quality shows `iaq`; the fields the result does not carry are undefined |
| TableHelpers.CreatedRowsUniform | client/src/Lib/TableHelpers.ts:23-56 | rows built from results hold one kind of cell per column, so the comparators are consistent on them |
| TableHelpers.CreateRows | client/src/Lib/TableHelpers.ts:47-56 | no input gives no rows; otherwise one row per result, in order, each built by `createDataFromResult` |
| TableHelpers.BeforeTransitive | client/src/Lib/TableHelpers.ts:84-88 | the (comparator, then index) order of `stableSort` is transitive |
| TableHelpers.BeforeTotal | client/src/Lib/TableHelpers.ts:84-88 | two pairs with different indices are ordered one way or the other |
| TableHelpers.Sink | client/src/Lib/TableHelpers.ts:84-88 | one insertion step in place keeps the multiset of elements and extends the sorted prefix by one |
| TableHelpers.StableSort | client/src/Lib/TableHelpers.ts:82-90 | the output is a permutation of the input, ordered by the comparator, and elements the comparator ties keep their input order |
| TableHelpers.SortedPairsProject | client/src/Lib/TableHelpers.ts:89 | dropping the indices from the sorted pairs gives a sorted permutation in which ties keep their input order |
| ResultFilters.FindFacet | client/src/Lib/resultFilters.ts:32-34 | the position of the first facet with exactly the given building type name, or none when no facet has it |
| ResultFilters.KeptEntries | client/src/Lib/resultFilters.ts:41-43 | an entry is kept exactly when its value is present and not empty |
| ResultFilters.KeptEntriesConcat | client/src/Lib/resultFilters.ts:41-43 | filtering keeps the order of the entries |
| ResultFilters.KeptEntriesKeys | client/src/Lib/resultFilters.ts:41-43 | filtering keeps the keys distinct |
| ResultFilters.AssignRange | client/src/Lib/resultFilters.ts:56-70 | no range changes nothing; each bound that is present sets its own key, an absent one leaves it |
| ResultFilters.ScenarioObject | client/src/Lib/resultFilters.ts:45-48 | assigning the kept entries one by one gives an object holding exactly those entries, in order |
| ResultFilters.BuildFilterRequest | client/src/Lib/resultFilters.ts:25-81 | the name and the uid of its facet are set only for a non-empty name; the scenario only when an entry is kept; tags only when non-empty; each range as `assignRange` sets it; the emissions keys never; a payload with nothing gives `{}` |
| ResultsApi.KeyNameInjective | client/src/Lib/useResultsApi.ts:30-77 | distinct parameters have distinct query names, so no write overwrites another |
| ResultsApi.ScenarioNameNotFixed | client/src/Lib/useResultsApi.ts:47 | a `scenario.<key>` name never equals a fixed parameter name |
| ResultsApi.RangeKeysComplete | client/src/Lib/useResultsApi.ts:66-75 | the five `assignRange` calls cover exactly the ten range parameters |
| ResultsApi.SerializeHead | client/src/Lib/useResultsApi.ts:33-42 | the uid and name are written when truthy; tags, joined with commas, when non-empty; nothing else |
| ResultsApi.AssignScenario | client/src/Lib/useResultsApi.ts:44-50 | every `scenario.<key>` written comes from an entry with a non-empty value, and with distinct keys every such entry is written; other parameters are unchanged |
| ResultsApi.SerializeScenario | client/src/Lib/useResultsApi.ts:44-50 | the scenario step adds only `scenario.` parameters and writes exactly the non-empty entries |
| ResultsApi.AssignRanges | client/src/Lib/useResultsApi.ts:52-64 | each listed bound is written exactly when it is defined, with its value; other parameters are unchanged |
| ResultsApi.SerializeRanges | client/src/Lib/useResultsApi.ts:66-75 | every range bound, emissions included, is written under its own name exactly when it is defined |
| ResultsApi.SerializeFilters | client/src/Lib/useResultsApi.ts:30-77 | the parameters hold the truthy building type fields, the joined tags, the non-empty scenario entries and the defined bounds, and nothing more |
| ResultsApi.ScenarioFactsTransfer | client/src/Lib/useResultsApi.ts:44-75 | the range step does not disturb what the scenario step wrote |
| ResultsApi.HeadFactsTransfer | client/src/Lib/useResultsApi.ts:33-75 | the later steps do not disturb what the first three wrote |
| ResultsApi.LastWithUid | client/src/Lib/useResultsApi.ts:82-84 | the last incoming item with a uid, and none exactly when no item has it |
| ResultsApi.SetAll | client/src/Lib/useResultsApi.ts:82-84 | after the `set` calls, each uid holds its last incoming item, or its earlier entry when none came; keys stay distinct and each entry sits under its own uid |
| ResultsApi.BuildUidMap | client/src/Lib/useResultsApi.ts:81-84 | the map holds, for every uid, the last incoming item with it, else the current one |
| ResultsApi.ByDateDescConsistent | client/src/Lib/useResultsApi.ts:85-87 | the newest-first comparator is consistent, so the sort is well defined |
| ResultsApi.MergeResults | client/src/Lib/useResultsApi.ts:80-88 | uids are distinct; each result is the one the map keeps for its uid; every current and incoming uid appears; results run newest first |
| ResultsApi.PresentKeyListed | client/src/Lib/useResultsApi.ts:85 | a uid in the map is the uid of one of the sorted values |
| ScenarioDisplay.LabelConfigOf | client/src/Lib/scenarioDisplay.ts:6-30 | the eight configured keys, each with a non-empty label and an "All" label |
| ScenarioDisplay.SpaceCamelSeparates | client/src/Lib/scenarioDisplay.ts:43 | after the camel-case replacement no lower-case letter or digit is directly followed by an upper-case letter |
| ScenarioDisplay.SpaceCamelHead | client/src/Lib/scenarioDisplay.ts:43 | the replacement keeps the first character |
| ScenarioDisplay.SpaceCamelOnlyInsertsSpaces | client/src/Lib/scenarioDisplay.ts:43 | the replacement inserts only spaces: without spaces, the text is unchanged |
| ScenarioDisplay.Dashes | client/src/Lib/scenarioDisplay.ts:44 | no `-` or `_` is left, and the text does not grow |
| ScenarioDisplay.DashesKeepsOthers | client/src/Lib/scenarioDisplay.ts:44 | apart from spaces, the dash replacement keeps exactly the characters that are not dashes |
| ScenarioDisplay.NonEmpty | client/src/Lib/scenarioDisplay.ts:49 | `filter(Boolean)` keeps exactly the non-empty strings |
| ScenarioDisplay.Capitalize | client/src/Lib/scenarioDisplay.ts:50 | the length is kept, the first character is upper-cased, every other character is kept |
| ScenarioDisplay.HumanizeKey | client/src/Lib/scenarioDisplay.ts:32-52 | an empty key gives the empty label and a configured key gives its configured label |
| ScenarioDisplay.HumanizedWords | client/src/Lib/scenarioDisplay.ts:42-51 | an unconfigured key gives space-separated words, each non-empty, capitalised and free of dashes; with white space removed and ignoring case, the label spells the key without its `-`, `_` and white space |
| ScenarioDisplay.SpaceCamelKeepsNonSpace | client/src/Lib/scenarioDisplay.ts:43 | the camel-case replacement keeps every character that is not white space or a dash, in order |
| ScenarioDisplay.DashesKeepsNonSpace | client/src/Lib/scenarioDisplay.ts:44 | without white space, the dash replacement gives the text without its white space and dashes |
| ScenarioDisplay.TrimKeepsNonSpace | client/src/Lib/scenarioDisplay.ts:45 | `trim` removes only white space |
| ScenarioDisplay.CapitalizeSquashed | client/src/Lib/scenarioDisplay.ts:50 | capitalising a word changes it only in case |
| ScenarioDisplay.SquashedCapitalized | client/src/Lib/scenarioDisplay.ts:49-51 | capitalising every word changes the words only in case |
| ScenarioDisplay.FormatValue | client/src/Lib/scenarioDisplay.ts:54-75 | undefined and null render empty and a string renders as itself |
| ScenarioDisplay.ArrayRendering | client/src/Lib/scenarioDisplay.ts:59-64 | an array renders empty exactly when every item renders empty |
| ScenarioDisplay.JoinEmptyIff | client/src/Lib/scenarioDisplay.ts:62-63 | joining non-empty parts is empty exactly when there are no parts |
| ScenarioDisplay.OwnEntries | client/src/Lib/scenarioDisplay.ts:90 | `Object.entries` of an object gives its entries; of an array, the decimal indices with the items |
| ScenarioDisplay.ToEntries | client/src/Lib/scenarioDisplay.ts:90-98 | one entry per property, carrying the key, the humanised key and the formatted value |
| ScenarioDisplay.WithValue | client/src/Lib/scenarioDisplay.ts:99 | exactly the entries with a non-empty value, each at most as often as before |
| ScenarioDisplay.BuildScenarioEntries | client/src/Lib/scenarioDisplay.ts:83-104 | a falsy or non-object scenario gives no entries; otherwise the entries with a value, sorted case-insensitively by label, and no others |
| ScenarioDisplay.ScenarioEntryListed | client/src/Lib/scenarioDisplay.ts:90-103 | an entry is listed exactly when some property has its key, label and non-empty rendered value |
| ScenarioDisplay.GetScenarioLabel | client/src/Lib/scenarioDisplay.ts:106 | the label of a key is its humanised form |
| ScenarioDisplay.GetScenarioAllLabel | client/src/Lib/scenarioDisplay.ts:108-118 | the configured "All" label; else "All" for an empty label; else "All " and the label, with an `s` added unless it ends in one |
| ScenarioDisplay.AllLabelIsPlural | client/src/Lib/scenarioDisplay.ts:108-118 | every "All" label is the bare word or "All " followed by text ending in `s` |
| UserDisplay.WordPrefix | client/src/NavBar/userDisplay.ts:5 | the longest prefix free of white space: it stops at the first space |
| UserDisplay.Words | client/src/NavBar/userDisplay.ts:5 | every word is non-empty and free of white space |
| UserDisplay.WordsEmptyIff | client/src/NavBar/userDisplay.ts:5-8 | there are no words exactly when the text is all white space |
| UserDisplay.WordsOfWord | client/src/NavBar/userDisplay.ts:5 | a text without white space is a single word |
| UserDisplay.GetAvatarInitials | client/src/NavBar/userDisplay.ts:1-15 | a missing or empty name gives "?"; every result has one or two characters |
| UserDisplay.BlankNameInitials | client/src/NavBar/userDisplay.ts:5-8 | a name made of white space gives "?" |
| UserDisplay.WordsOfJoin | client/src/NavBar/userDisplay.ts:5 | words joined by single spaces split back into the same words |
| UserDisplay.InitialsOfWords | client/src/NavBar/userDisplay.ts:5-14 | words separated by spaces, with white space around them or not, give the upper-cased first character of the first word and, when there are several, of the last word |
| UserDisplay.SingleWordInitial | client/src/NavBar/userDisplay.ts:9-11 | one word, with white space around it or not, gives its upper-cased first letter |
| UserDisplay.TrimAround | client/src/NavBar/userDisplay.ts:5 | `trim` removes exactly the white space around a word |
| MainLayout.FirstChar | client/src/NavBar/MainLayout.tsx:150-151 | `substring(0, 1)`: the first character (a code point, see "## Left out"), or nothing for empty text |
| MainLayout.GetAvatarText | client/src/NavBar/MainLayout.tsx:148-153 | the empty name gives "?"; the result has at most two characters; a name without a space gives its upper-cased first letter |
| MainLayout.FirstAndLastInitials | client/src/NavBar/MainLayout.tsx:149-152 | two or more words joined by single spaces give the upper-cased first characters of the first and the last word |
| MainLayout.TrailingSpaceDropsLastInitial | client/src/NavBar/MainLayout.tsx:150-152 | words followed by a trailing space give only the first word's initial, since the last part is empty |
| MainLayout.SpacesGiveEmptyText | client/src/NavBar/MainLayout.tsx:149-152 | a name of spaces gives the empty text, where the navigation bar's initials give "?" |
| ResultsTable.Min | client/src/Components/ResultsTable.tsx:68-69 | `Math.min`: at most both arguments, and one of them |
| ResultsTable.Max | client/src/Components/ResultsTable.tsx:68-69 | `Math.max`: at least both arguments, and one of them |
| ResultsTable.ClampRange | client/src/Components/ResultsTable.tsx:64-71 | with ordered limits both bounds end within them; a bound already within is kept; an ordered range stays ordered |
| ResultsTable.ClampRangeIdempotent | client/src/Components/ResultsTable.tsx:64-71 | clamping twice is clamping once |
| ResultsTable.ClampFiltersToRanges | client/src/Components/ResultsTable.tsx:73-87 | scenario and tags are kept; a missing version becomes ""; the four ranges are clamped to their limits |
| ResultsTable.ClampFiltersIdempotent | client/src/Components/ResultsTable.tsx:73-87 | clamping the filters twice is clamping them once |
| ResultsTable.ClampEffect | client/src/Components/ResultsTable.tsx:1081-1096 | the previous filters are kept when their eight bounds already equal the clamped ones, otherwise the clamped filters replace them |
| ResultsTable.ClampEffectStable | client/src/Components/ResultsTable.tsx:1080-1097 | after the effect the bounds are the clamped ones, and running it again changes nothing, so the effect settles |
| ResultsTable.ExpandRange | client/src/Components/ResultsTable.tsx:982-988 | the smallest range holding both ranges |
| ResultsTable.ExpandRanges | client/src/Components/ResultsTable.tsx:990-1004 | each of the four computed ranges is widened around its active filter |
| ResultsTable.ExpandedRangesKeepFilters | client/src/Components/ResultsTable.tsx:990-1006 | ranges widened around ordered filters never clamp them: the clamp effect then keeps the filters |
| ResultsTable.SpaceEnd | client/src/Components/ResultsTable.tsx:221 | where the greedy `\s*` stops: the characters it passes are white space and the next one is not |
| ResultsTable.SplitPosition | client/src/Components/ResultsTable.tsx:221 | after a given first group, a unit can only start where `\s*` stops |
| ResultsTable.ScanFacts | client/src/Components/ResultsTable.tsx:221 | the backtracking search returns the shortest first group that admits a unit, and nothing when no split admits one |
| ResultsTable.ParseHeaderLabel | client/src/Components/ResultsTable.tsx:220-229 | a unit is found exactly when some split of the pattern gives one; without one the label is kept whole; with one the main part is the shortest first group, trimmed, and the unit is the bracketed rest |
| ResultsTable.ParseHeaderLabelSplits | client/src/Components/ResultsTable.tsx:220-229 | a text without `[` or line breaks, then white space (line breaks included), then a bracketed unit, splits into the trimmed text and the unit |
| ResultsTable.BuildHeadCells | client/src/Components/ResultsTable.tsx:190-203 | the ten base cells, with the share column appended when asked; no column appears twice |
| ResultsTable.NextOrder | client/src/Components/ResultsTable.tsx:1196-1203 | the next order is descending exactly when the clicked column is the one sorted ascending |
| ResultsTable.NextOrderAlternates | client/src/Components/ResultsTable.tsx:1196-1203 | clicking the same column twice restores the order |
| ResultsTable.Removed | client/src/Components/ResultsTable.tsx:1228 | the filter keeps exactly the other ids |
| ResultsTable.Toggled | client/src/Components/ResultsTable.tsx:1226-1231 | a selected id is taken out, an unselected one appended |
| ResultsTable.ToggleKeepsNoDuplicates | client/src/Components/ResultsTable.tsx:1226-1231 | a selection without duplicates stays so, and clicking an id twice leaves the same set of ids |
| ResultsTable.ToggleTwiceRestores | client/src/Components/ResultsTable.tsx:1226-1231 | selecting an unselected id and clicking it again restores the selection exactly |
| ResultsTable.Pruned | client/src/Components/ResultsTable.tsx:1099-1103 | exactly the selected ids whose row is still shown |
| ResultsTable.PrunedKeepsOrder | client/src/Components/ResultsTable.tsx:1099-1103 | pruning keeps the order of the selection and every copy of a kept id |
| ResultsTable.PrunedIdempotent | client/src/Components/ResultsTable.tsx:1099-1103 | pruning twice is pruning once, and a selection of shown rows is left as is |
| ResultsTable.SelectAll | client/src/Components/ResultsTable.tsx:1209-1214 | checking selects the ids of every shown row, unchecking selects none |
| ResultsTable.SelectAllSurvivesPruning | client/src/Components/ResultsTable.tsx:1099-1103 | a select-all keeps whole under pruning against the same rows |
| ResultsTable.Normalize | client/src/Components/ResultsTable.tsx:957-961 | a value is trimmed and filed under its lower-case form |
| ResultsTable.StoreDistinct | client/src/Components/ResultsTable.tsx:951-966 | the dedupe store holds each lower-case key once |
| ResultsTable.StoreCovers | client/src/Components/ResultsTable.tsx:957-964 | every non-blank value has its key in the store |
| ResultsTable.StoreEntries | client/src/Components/ResultsTable.tsx:957-964 | the store's entries are exactly the non-blank values that come first with their key |
| ResultsTable.DedupedOptions | client/src/Components/ResultsTable.tsx:967-969 | the stored spellings, sorted case-insensitively, each exactly once |
| ResultsTable.DedupedOptionsMembers | client/src/Components/ResultsTable.tsx:951-969 | an option is shown exactly when it is the trimmed first spelling of its key |
| ResultsTable.DedupedOptionsDistinct | client/src/Components/ResultsTable.tsx:951-969 | no two options differ only in case |
| ResultsTable.DedupedOptionsCover | client/src/Components/ResultsTable.tsx:951-969 | every non-blank value is represented by an option equal to it ignoring case |
| ResultsTable.StoreKeyIsLower | client/src/Components/ResultsTable.tsx:961-963 | every entry sits under the lower-case form of its spelling |
| ResultsTable.TagSource | client/src/Components/ResultsTable.tsx:925-966 | with no building type, the tags of every facet; with one, the tags of its facet, or none when no facet has this name |
| ResultsTable.AddSpelling | client/src/Components/ResultsTable.tsx:957-964 | a blank value or a key already stored leaves the store alone; otherwise the trimmed spelling is added under its key |
| ResultsTable.DedupeTags | client/src/Components/ResultsTable.tsx:951-969 | the loop gives exactly the deduplicated options of the tags |
| ResultsTable.AllScenarioKeys | client/src/Components/ResultsTable.tsx:1051-1059 | exactly the keys that appear in some facet's scenario |
| ResultsTable.ScenarioOptions | client/src/Components/ResultsTable.tsx:1007-1066 | nothing without a filter callback; with a building type, per key of its facet the deduplicated values, or nothing when no facet matches; without one, per key of any facet the deduplicated values across all facets |
| ResultsTableState.TableState.constructor | client/src/Components/ResultsTable.tsx:842-844 | the table starts sorted newest first with nothing selected |
| ResultsTableState.TableState.RequestSort | client/src/Components/ResultsTable.tsx:1196-1203 | the order becomes the next order and the sort column the clicked one; the rest of the state is unchanged |
| ResultsTableState.TableState.SelectAllClick | client/src/Components/ResultsTable.tsx:1205-1215 | nothing changes when selection is disabled; otherwise the selection becomes all or none of the shown ids |
| ResultsTableState.TableState.CheckboxClick | client/src/Components/ResultsTable.tsx:1217-1232 | nothing changes when selection is disabled; otherwise the id is toggled, and the selection keeps no duplicates |
| ResultsTableState.TableState.PruneSelection | client/src/Components/ResultsTable.tsx:1099-1103 | the selection is pruned to the shown rows and keeps no duplicates |
| ResultsTableState.TableState.ApplyFilterRanges | client/src/Components/ResultsTable.tsx:1080-1097 | the filters become the result of the clamp effect; nothing else changes |
| ResultsTableState.TableState.TableRows | client/src/Components/ResultsTable.tsx:1354 | the shown rows are a permutation of the filtered rows, ordered by the current comparator, and rows that compare equal keep their input order |
| DashboardResultsTable.IndexOfId | client/src/Components/DashboardResultsTable.tsx:501 | `indexOf`: the first position of the id, or none exactly when it is absent |
| DashboardResultsTable.FirstIndexAtMost | client/src/Components/DashboardResultsTable.tsx:501 | the position `indexOf` finds is at or before every position holding the id |
| DashboardResultsTable.CheckboxClick | client/src/Components/DashboardResultsTable.tsx:496-517 | an absent id is appended at the end; a present one is cut out at its first position with the others kept in order; the length changes by exactly one |
| DashboardResultsTable.CheckboxClickAgreesWithToggle | client/src/Components/DashboardResultsTable.tsx:501-515 | on a selection without duplicates the index-based removal is the filter-based toggle of the other results table |
| DashboardResultsTable.RemovedAt | client/src/Components/DashboardResultsTable.tsx:506-515 | without duplicates, removing a value cuts out exactly its position |
| DashboardResultsTable.DuplicateSurvivesClick | client/src/Components/DashboardResultsTable.tsx:501-515 | when the id occurs twice, a click removes only the first copy: the id stays selected and the later copy moves one place forward |
| DashboardResultsTable.FlatStep | client/src/Components/DashboardResultsTable.tsx:541-547 | one more entry adds its own leaves when it is an object, and itself otherwise |
| DashboardResultsTable.FlatLeavesOnly | client/src/Components/DashboardResultsTable.tsx:542-546 | only leaves come out, nothing the flattening would descend into |
| DashboardResultsTable.FlatOfLeaves | client/src/Components/DashboardResultsTable.tsx:541-547 | an object whose entries are all leaves flattens to its own entries |
| DashboardResultsTable.FlatConcat | client/src/Components/DashboardResultsTable.tsx:541 | the flattening follows entry order: two runs of entries give their leaves one after the other |
| DashboardResultsTable.Flattener.constructor | client/src/Components/DashboardResultsTable.tsx:538-539 | both lists start empty |
| DashboardResultsTable.Flattener.Traverse | client/src/Components/DashboardResultsTable.tsx:540-549 | `traverse` appends the keys and the values of the leaves below the node, depth first in entry order |
| DashboardResultsTable.Flattener.Visit | client/src/Components/DashboardResultsTable.tsx:541-548 | the loop body descends into an object value and pushes any other value with its key |
| DashboardResultsTable.GetFlatKeyValPairFromObj | client/src/Components/DashboardResultsTable.tsx:537-552 | the keys and the values of the leaves, equally long, in depth-first entry order, leaves only; `null` counts as a leaf (see Findings) |
| DashboardResultsTable.FlatAsWritten | client/src/Components/DashboardResultsTable.tsx:540-549 | the flattening as written fails on a `null` node, and on any other node fails exactly when a `null` lies below the entries it visits |
| DashboardResultsTable.NullFieldThrows | client/src/Components/DashboardResultsTable.tsx:542-543 | a row with one `null` field makes the code as written fail, where the corrected flattening gives that field |
| DashboardResultsTable.AsWrittenAgreesWithoutNull | client/src/Components/DashboardResultsTable.tsx:540-549 | without `null` values the code as written and the corrected flattening agree |
| MobileMainLayout.EqualIffSameCanonical | client/src/NavBar/MobileMainLayout.tsx:36-73 | two options compare equal exactly when they agree once a missing left action reads as `'none'`, the auth flag and the status presence by truthiness, and the status state and label only when both have a status |
| MobileMainLayout.EqualIsEquivalence | client/src/NavBar/MobileMainLayout.tsx:36-73 | the comparison is reflexive, symmetric and transitive |
| MobileMainLayout.MissingMeansDefault | client/src/NavBar/MobileMainLayout.tsx:40-54 | a missing left action equals `'none'` and a missing auth flag equals `false` |
| MobileMainLayout.ApplyHeaderOptions | client/src/NavBar/MobileMainLayout.tsx:321-329 | the stored options equal the requested ones with the left action forced to `'none'`; equal options keep the previous object, other options replace it |
| MobileMainLayout.ApplyIdempotent | client/src/NavBar/MobileMainLayout.tsx:321-329 | applying the same options twice stores what applying them once stored |
| MobileMainLayout.AppliedLeftActionIsNone | client/src/NavBar/MobileMainLayout.tsx:322-325 | after applying, the left action reads as `'none'` whatever was asked |
| MobileMainLayout.ResetHeaderOptions | client/src/NavBar/MobileMainLayout.tsx:331-335 | the result equals the defaults; options already equal to them keep the previous object |
| MobileMainLayout.ResetIdempotent | client/src/NavBar/MobileMainLayout.tsx:331-335 | a reset right after a reset changes nothing |
| DashboardViewModel.ErrorTitle | client/src/Pages/Dashboard/useDashboardViewModel.ts:105-112 | no title exactly without an error; "Authentication Error" exactly when the lower-cased error contains "logged in"; otherwise "Unable to Load Results" |
| DashboardViewModel.LoggedOutTitle | client/src/Pages/Dashboard/useDashboardViewModel.ts:78-82 | the message the logged-out reset sets is titled as an authentication error |
| DashboardViewModel.MentionIsAuthentication | client/src/Pages/Dashboard/useDashboardViewModel.ts:109-111 | any message containing "logged in" is titled as an authentication error |
| DashboardViewModel.WithShareStatusSettles | client/src/Pages/Dashboard/useDashboardViewModel.ts:132-141 | the list update keeps the length, gives every result with the uid the new flag, leaves the others alone, and a second identical update changes nothing |
| DashboardViewModel.SelectedWithShareStatus | client/src/Pages/Dashboard/useDashboardViewModel.ts:142-150 | the selected result changes only when its uid matches, and then only in its flag |
| DashboardViewModel.ViewModel.constructor | client/src/Pages/Dashboard/useDashboardViewModel.ts:73-86 | the page starts with no results, no selection, no error and no reload |
| DashboardViewModel.ViewModel.UserChanged | client/src/Pages/Dashboard/useDashboardViewModel.ts:73-86 | nothing happens while the user loads; a user who is not logged in has the results cleared and the login error set; otherwise the error is cleared and a reload requested |
| DashboardViewModel.ViewModel.LoadFailed | client/src/Pages/Dashboard/useDashboardViewModel.ts:53-59 | a 401 stores the login message, any other failure the load message; nothing else changes |
| DashboardViewModel.ViewModel.HandleRetry | client/src/Pages/Dashboard/useDashboardViewModel.ts:103-120 | without both identifiers nothing changes; with them the error is cleared and a reload requested |
| DashboardViewModel.ViewModel.SelectResult | client/src/Pages/Dashboard/useDashboardViewModel.ts:122-124 | the row becomes the selection; nothing else changes |
| DashboardViewModel.ViewModel.ClearSelection | client/src/Pages/Dashboard/useDashboardViewModel.ts:126-128 | the selection is cleared; nothing else changes |
| DashboardViewModel.ViewModel.UpdateResultShareStatus | client/src/Pages/Dashboard/useDashboardViewModel.ts:130-153 | the results and the selection take the share-status update; the error and the reloads are unchanged |
| ResultController.SanitizeAccountForResult | server/controllers/result.ts:40-47 | the API key and salt are blanked and the results emptied; every other field is kept |
| ResultController.SanitizedAccountHidesCredentials | server/controllers/result.ts:40-47 | two accounts that differ only in their credentials and results sanitise to the same account |
| ResultController.SanitizeSharedResult | server/controllers/result.ts:140-153 | the account keeps only its hashed identifier, display name and provider; every other field of the result is kept |
| ResultController.SanitizeAll | server/controllers/result.ts:174 | each result of the list is sanitised, in order |
| ResultController.ToResult | server/controllers/result.ts:49-87 | the numeric id becomes the id; uid, deletion, share flag and date are copied; the account is sanitised; an empty building type uid becomes "unknown-building", an empty name falls back to the uid and then to "Unknown Building" |
| ResultController.HydratedConcat | server/controllers/result.ts:104-114 | hydration works record by record: a concatenation hydrates to the concatenation |
| ResultController.HydratedMembers | server/controllers/result.ts:104-114 | a result is hydrated exactly when it comes from a record whose account is known |
| ResultController.HydratedAllKnown | server/controllers/result.ts:104-114 | nothing is skipped when every account is known |
| ResultController.HydrateResults | server/controllers/result.ts:89-117 | no records give no results; records with a missing account are skipped and the others kept in input order, so the output is never longer |
| ResultController.FindByUid | server/controllers/result.ts:120 | the first record with the uid: no earlier record has it; none exactly when no record has it |
| ResultController.GetSharedResultByUid | server/controllers/result.ts:119-138 | a sanitised result is returned exactly when the uid names a record that is not deleted, whose account is known, and that is shared by itself or by its account |
| ResultController.GetAllSharedResults | server/controllers/result.ts:161-175 | the active records are hydrated, the shareable ones kept and sanitised |
| ResultController.SharedListSound | server/controllers/result.ts:161-175 | everything on the shared list is a sanitised visible record |
| ResultController.SharedListComplete | server/controllers/result.ts:161-175 | every visible record is on the shared list |
| ResultController.UserFiltersIgnoreCase | server/controllers/result.ts:209-226 | the user filter ignores the case of the typed uid and name |
| ResultController.OwnBuildingTypePasses | server/controllers/result.ts:209-226 | filtering on a result's own building type keeps it |
| ResultController.EmptyFiltersKeepAll | server/controllers/result.ts:209-226 | uid and name filters that are each missing or empty keep every result |
| ResultController.GetUserResultsPage | server/controllers/result.ts:201-236 | the page's records are hydrated and, with filters, kept exactly when the filter texts occur, ignoring case, in their building type; the paging is passed through |
| ResultController.GetAllResultsForUser | server/controllers/result.ts:238-253 | an id that does not parse fails with "Invalid user ID"; an unknown account fails with "Account <id> not found"; otherwise the user's records that are not deleted, hydrated, all owned by that account |
| ResultController.ToJsonObject | server/controllers/result.ts:32-37 | an object or array is kept; anything else becomes `{}` |
| ResultController.BuildResultDocument | server/controllers/result.ts:255-287 | a null scenario builds no document; otherwise the document is not deleted, belongs to the submitter, copies uid, date, version, control step, share flag and all nine KPIs, defaults missing tags to `[]`, carries the given building type, stores an object or array scenario as submitted and anything else as `{}`, passes the forecast parameters through `toJsonObject`, and copies the three string fields of the scenario, empty when absent |
| ResultController.BuiltDocumentReadsBack | server/controllers/result.ts:255-287 | a built document stored and read back gives the submitted KPIs, the sanitised submitter and the building type it was filed under |
| ResultController.ObjectEntries | server/controllers/result.ts:300-302 | `Object.keys` with their values: an object's entries, an array's indices, nothing for other values |
| ResultController.NatToStringInjective | server/controllers/result.ts:301 | distinct array indices give distinct keys |
| ResultController.Normalised | server/controllers/result.ts:303-310 | a scalar becomes a one-item list of its text; an array keeps the texts of its items that are not null, no more than it has |
| ResultController.NormalisedArray | server/controllers/result.ts:304-307 | an empty array gives no values, and one item more appends its text unless it is null, so every non-null item is kept in order |
| ResultController.NormalisedKeys | server/controllers/result.ts:299-313 | every key written is a key of the scenario |
| ResultController.NormalisedStep | server/controllers/result.ts:301-311 | one key more adds its normalised values unless its value is null |
| ResultController.NormalisedGet | server/controllers/result.ts:299-313 | a key reads back nothing for a missing or null value and its normalised values otherwise |
| ResultController.ScenarioValues | server/controllers/result.ts:299-313 | the loop writes, for every key of the scenario object in order, the normalised values of a value that is not null |
| ResultController.IndexById | server/controllers/result.ts:332 | the position of the first record with the id, or none exactly when no record has it |
| ResultController.WithShared | server/controllers/result.ts:341 | only the share flag changes |
| ResultController.SharingMakesVisible | server/controllers/result.ts:121-135 | once the owner shares an active result of a known account, it is visible |
| ResultController.ResultTable.constructor | server/controllers/result.ts:331-343 | the table holds the given records |
| ResultController.ResultTable.ToggleShared | server/controllers/result.ts:331-343 | a missing result fails with "Result not found" and a foreign one with "Not authorized", changing nothing; otherwise only that record's share flag changes |
| ResultSignature.KeyIndex | server/controllers/result.ts:355 | the position of the first entry with the key |
| ResultSignature.ItemTextsInOrder | server/controllers/result.ts:350-352 | an array prints its items in their own order |
| ResultSignature.EntryTextsInOrder | server/controllers/result.ts:354-356 | an object prints each sorted key as `"key":` followed by its own value's text |
| ResultSignature.EntryTextsAgree | server/controllers/result.ts:354-356 | objects with the same entries in another order print the same entry texts |
| ResultSignature.SortedKeysStrict | server/controllers/result.ts:354 | the sorted keys of an object are strictly increasing |
| ResultSignature.Stringify | server/controllers/result.ts:345-357 | a primitive prints as `JSON.stringify` prints it; an array prints inside brackets and an object inside braces, `[]` and `{}` when empty |
| ResultSignature.StringifyIgnoresKeyOrder | server/controllers/result.ts:345-357 | the canonical text does not depend on the order in which an object's keys were inserted |
| ResultSignature.Reading | server/controllers/result.ts:407-479 | every result's value is read for the plain KPIs; for peak gas and district heating only truthy values are |
| ResultSignature.LowIsMinimum | server/controllers/result.ts:407-479 | the running minimum lies below the start and every reading, and is one of them |
| ResultSignature.HighIsMaximum | server/controllers/result.ts:407-479 | the running maximum lies above the start and every reading, and is one of them |
| ResultSignature.BoundsStep | server/controllers/result.ts:407-479 | one result more lowers the minimum or raises the maximum only by its own reading |
| ResultSignature.KpiRangeIsTight | server/controllers/result.ts:379-520 | each KPI range is the tightest one covering the target's value and every reading |
| ResultSignature.KpiDetailsCover | server/controllers/result.ts:481-519 | every range of the details is that KPI's range and so covers the target and every reading |
| ResultSignature.Widen | server/controllers/result.ts:408-414 | the two updates of one KPI in the loop body give the running bounds one result further |
| ResultSignature.GetKpiRanges | server/controllers/result.ts:379-520 | `numResults` is the number of results, and each KPI's range covers the target's value and every reading, as tightly as possible |
| ResultFacet.AddToSet | server/models/ResultFacet.ts:27 | `set.add`: the members are the old ones and the new value |
| ResultFacet.AddAll | server/models/ResultFacet.ts:24-29 | the members are the existing ones and all added values |
| ResultFacet.Present | server/models/ResultFacet.ts:26 | exactly the incoming values that are not null or undefined |
| ResultFacet.AddAllKeepsNoDuplicates | server/models/ResultFacet.ts:24-29 | the set never holds a value twice |
| ResultFacet.UnionFacts | server/models/ResultFacet.ts:23-31 | the union is strictly sorted, so free of duplicates, and holds exactly the existing values and the present incoming ones |
| ResultFacet.UnionByMembers | server/models/ResultFacet.ts:23-31 | the union depends only on the members of its inputs |
| ResultFacet.UnionIdempotent | server/models/ResultFacet.ts:23-31 | adding the same incoming values twice gives what adding them once gave |
| ResultFacet.UnionOfStrictlySorted | server/models/ResultFacet.ts:23-31 | with nothing incoming, a sorted list without duplicates is returned unchanged |
| ResultFacet.UnionStrings | server/models/ResultFacet.ts:23-31 | the loop returns the sorted set of the existing values and the present incoming ones |
| ResultFacet.MergeFromFacts | server/models/ResultFacet.ts:38-40 | the assignments keep the keys distinct, give every incoming key the union with its existing values, and leave other keys alone |
| ResultFacet.MergedScenarioFacts | server/models/ResultFacet.ts:33-42 | keys absent from the incoming object keep their values; incoming keys take the union of existing and incoming values; keys stay distinct |
| ResultFacet.MergeScenario | server/models/ResultFacet.ts:33-42 | the loop over the incoming keys gives the merged scenario |
| ResultFacet.JsonStringsOfStrings | server/models/ResultFacet.ts:7-8 | a list of strings stored as JSON reads back unchanged |
| ResultFacet.JsonScenarioOfScenario | server/models/ResultFacet.ts:7 | a scenario object stored as JSON reads back unchanged |
| ResultFacet.FacetOf | server/models/ResultFacet.ts:14 | a stored value that is not an object reads as a facet without scenario or tags |
| ResultFacet.FacetOfFacetJson | server/models/ResultFacet.ts:4-9 | a facet document stored as JSON reads back unchanged |
| ResultFacet.ScenarioMap | server/models/ResultFacet.ts:18 | the record's scenario has exactly the document's scenario keys, each with the document's values for it |
| ResultFacet.MapRecordToFacet | server/models/ResultFacet.ts:13-21 | the uid, name and tags are the document's, and the scenario has its keys with their values |
| ResultFacet.MapRecordDefaults | server/models/ResultFacet.ts:13-21 | a document whose scenario and tags are missing or falsy maps to an empty scenario and no tags, with its building type read from the document |
| ResultFacet.UpsertResultFacet | server/models/ResultFacet.ts:44-84 | the facet found by uid is replaced in place with the given name, the merged scenario and the united tags; otherwise such a document is appended; a failed insert changes nothing; the returned facet carries the given uid and name |
| DocumentStore.SetVersion | server/datastore/documentStore.ts:28 | the high nibble becomes 4 (the version of section 4.4 of RFC 4122) and the low nibble is kept |
| DocumentStore.SetVariant | server/datastore/documentStore.ts:29 | the two high bits become `10` (the variant of section 4.4 of RFC 4122) and the other six are kept |
| DocumentStore.ByteDigits | server/datastore/documentStore.ts:31 | one byte gives two lower-case hex digits |
| DocumentStore.Hex | server/datastore/documentStore.ts:31 | `toString('hex')` gives two characters per byte, the digits of that byte in order |
| DocumentStore.HexIsLower | server/datastore/documentStore.ts:31 | hex text contains only lower-case hex digits |
| DocumentStore.UuidTextShape | server/datastore/documentStore.ts:31-32 | the UUID text has 36 characters, dashes exactly at positions 8, 13, 18 and 23, and hex digits everywhere else |
| DocumentStore.UuidTextVersion | server/datastore/documentStore.ts:28-32 | once the version and variant bits are set, the text shows `4` at position 14 and one of `89ab` at position 19 |
| DocumentStore.GenerateUuid | server/datastore/documentStore.ts:26-33 | only bytes 6 and 8 of the buffer change (version and variant); the result is their UUID text, a version 4 UUID |
| DocumentStore.MapRow | server/datastore/documentStore.ts:88-106 | a numeric id delivered as a number is taken as is; one delivered as text maps only when it parses in base 10; the other columns carry over |
| DocumentStore.MapRowParsesText | server/datastore/documentStore.ts:100 | a bigint delivered as its decimal text maps to that same number |
| DocumentStore.FindDoc | server/datastore/documentStore.ts:127 | `None` exactly when no row has this collection and doc id; otherwise the position of such a row |
| DocumentStore.KeyIsUnique | server/datastore/documentStore.ts:61 | with doc ids a primary key, the row matched by a key is the only one |
| DocumentStore.FirstWhere | server/datastore/documentStore.ts:150-153 | a `LIMIT 1` query gives `None` exactly when no row qualifies, and otherwise a qualifying row |
| DocumentStore.ReplaceKeepsInvariant | server/datastore/documentStore.ts:124-127 | changing the data and update time of a row keeps doc ids distinct and numeric ids unique and below the sequence |
| DocumentStore.DeleteKeepsInvariant | server/datastore/documentStore.ts:142 | deleting rows keeps the table invariant |
| DocumentStore.InsertKeepsInvariant | server/datastore/documentStore.ts:61-68 | appending a row with a fresh doc id and the next sequence value keeps the invariant, with the sequence advanced |
| DocumentStore.DocumentStore.constructor | server/datastore/documentStore.ts:45-47 | a new store is not initialized and sees the database as it is |
| DocumentStore.DocumentStore.Init | server/datastore/documentStore.ts:49-80 | nothing happens once initialized; otherwise a committed transaction creates the schema and sets the flag, and a failed one changes nothing and fails; rows are never touched |
| DocumentStore.DocumentStore.EnsureInit | server/datastore/documentStore.ts:82-86 | afterwards the store is initialized and the schema exists; the rows are unchanged |
| DocumentStore.DocumentStore.Insert | server/datastore/documentStore.ts:108-119 | the insert draws the next numeric id; it fails, changing no row, exactly when the generated doc id is taken; otherwise it appends and returns the record with both dates set to now |
| DocumentStore.DocumentStore.Replace | server/datastore/documentStore.ts:121-137 | `null` and no change when no row has the key; otherwise only that row's data and update time change and the updated row is returned |
| DocumentStore.DocumentStore.Delete | server/datastore/documentStore.ts:139-145 | exactly the rows with this key go; the others keep their order |
| DocumentStore.DocumentStore.FindByDocId | server/datastore/documentStore.ts:147-162 | the first row with this collection and doc id, and no change to the table |
| DocumentStore.DocumentStore.FindByNumericId | server/datastore/documentStore.ts:164-179 | the first row with this collection and numeric id, and no change to the table |
| DocumentStore.DocumentStore.FindOneByField | server/datastore/documentStore.ts:181-197 | the first row of the collection whose field text equals the value |
| DocumentStore.DocumentStore.FindManyByField | server/datastore/documentStore.ts:199-210 | all rows of the collection whose field text equals the value, in table order |
| DocumentStore.DocumentStore.FindAll | server/datastore/documentStore.ts:212-222 | all rows of the collection, in table order |
| DocumentStore.DocumentStore.FindByNumericIds | server/datastore/documentStore.ts:224-238 | an empty id list gives no rows; otherwise the rows of the collection whose numeric id is listed |
| BuildingTypeModel.ScenariosOrEmpty | server/models/BuildingType.ts:49 | truthy scenarios are kept, anything else becomes the empty object |
| BuildingTypeModel.MapRecordToBuildingType | server/models/BuildingType.ts:10-22 | the numeric id becomes `id`, the uid and name are the stored ones, and no results are attached |
| BuildingTypeModel.PayloadField | server/models/BuildingType.ts:43-50 | every field of the stored payload reads back as written |
| BuildingTypeModel.MapRecordOfPayload | server/models/BuildingType.ts:10-22 | mapping back a record that holds a payload gives the building type the payload was built from, with the record's numeric id |
| BuildingTypeModel.CreateBuildingType | server/models/BuildingType.ts:34-55 | a taken uid is refused with the source's message and nothing stored; otherwise exactly one record of the collection is appended, holding the payload with the defaulted scenarios, and the returned building type is its mapping |
| BuildingTypeModel.UpdateBuildingType | server/models/BuildingType.ts:57-83 | an unknown id is refused with the source's message and nothing changes; otherwise only the found record takes the new payload and update time, and the new building type is returned |
| BuildingTypeModel.GetBuildingTypeByUid | server/models/BuildingType.ts:91-98 | the first building type with this uid, or the "not found" error; the table is unchanged |
| BuildingTypeModel.FindBuildingTypeById | server/models/BuildingType.ts:100-104 | the first building type with this id, or `null`; the table is unchanged |
| BuildingTypeModel.MapRecords | server/models/BuildingType.ts:88 | mapping records keeps their number and order |
| BuildingTypeModel.GetBuildingTypes | server/models/BuildingType.ts:85-89 | all building types of the collection, in table order |
| BuildingTypeModel.FindBuildingTypesByIds | server/models/BuildingType.ts:106-110 | the building types whose id is listed, in table order; none for an empty list |
| AccountController.WithId | server/models/Account.ts:9-13 | the persisted account is the given data under the generated id, with no results |
| AccountController.PersistRows | server/models/Account.ts:6-52 | `save` fails with the duplicate-key error, leaving the table, when the new row would repeat a unique column; otherwise the row is appended under the next id and returned |
| AccountController.PersistKeepsUnique | server/models/Account.ts:9-30 | persisting keeps the id and the three unique columns distinct and the ids below the next one |
| AccountController.ReplaceRows | server/controllers/account.ts:121 | a replace of an unknown id fails; one that would repeat a unique column fails; otherwise the row with that id is overwritten in place |
| AccountController.ReplaceKeepsUnique | server/models/Account.ts:9-30 | replacing keeps the unique columns distinct and the ids below the next one |
| AccountController.AccountStore.constructor | server/models/Account.ts:6-47 | an empty table whose first generated id is 1 |
| AccountController.AccountStore.Persist | server/models/Account.ts:49-52 | the table and the next id change as `PersistRows` says |
| AccountController.AccountStore.Replace | server/controllers/account.ts:121 | the table changes as `ReplaceRows` says; the next id does not |
| AccountController.Find | server/controllers/account.ts:22-67 | the first row that matches the key, or `None` exactly when none does |
| AccountController.FindUnique | server/models/Account.ts:9-30 | with the unique columns distinct, each key finds exactly the row that holds it |
| AccountController.SanitizeAccount | server/controllers/account.ts:13-20 | key and salt are blanked and results dropped; every other field is kept |
| AccountController.SanitizersAgree | server/controllers/account.ts:13-20 | the account sanitiser is the one the result controller uses |
| AccountController.GetAccountById | server/controllers/account.ts:22-28 | an error, with the source's message, exactly when no account has the id; otherwise the sanitised stored account |
| AccountController.GetAccountByHashedIdentifier | server/controllers/account.ts:30-36 | an error exactly when no account has the identifier; otherwise the sanitised stored account |
| AccountController.GetAccountByApiKey | server/controllers/account.ts:53-59 | an error exactly when no account has the key; otherwise the stored account itself, key included |
| AccountController.GetApiKeyByHashedIdentifier | server/controllers/account.ts:61-67 | an error exactly when no account has the identifier; otherwise the stored account, key kept, without results |
| AccountController.LookupsFindStoredAccount | server/controllers/account.ts:22-67 | in a table with unique columns each lookup by a stored account's id, identifier or key answers with that account in its promised view |
| AccountController.SubsequenceNoLonger | server/controllers/account.ts:38-51 | a subsequence is never longer than the sequence |
| AccountController.DataOfAll | server/controllers/account.ts:38-51 | the data of each account, in order |
| AccountController.CreatedInInputOrder | server/controllers/account.ts:38-51 | the created accounts carry input data in input order, some skipped, never more than the input |
| AccountController.CreatedAreStored | server/controllers/account.ts:38-51 | the table keeps its unique columns, every old row stays and every created account is stored |
| AccountController.FreshAccountsAllCreated | server/controllers/account.ts:38-51 | when no account clashes with the table or another input, none is skipped |
| AccountController.CreateAccounts | server/controllers/account.ts:38-51 | the loop persists each account in turn, skips the failures, and returns the created ones as `CreateAll` does |
| AccountController.RemoveDashes | server/controllers/account.ts:84 | `.replace(/-/g, '')` leaves no dash and keeps every other character |
| AccountController.RemoveDashesOfUuid | server/controllers/account.ts:84 | a UUID without its dashes is the 32 hex digits of its bytes |
| AccountController.RemoveDashesJoin | server/controllers/account.ts:84 | removing dashes distributes over a join at a dash |
| AccountController.CreateApiKey | server/controllers/account.ts:82-87 | with `randomUUID`, the UUID without its dashes; otherwise the hex of the random bytes, two digits per byte |
| AccountController.ApiKeyIsHex | server/controllers/account.ts:82-87 | the key is 32 hex digits from a UUID, or 64 from 32 random bytes |
| AccountController.IdentifierSalt | server/controllers/account.ts:75 | a non-empty environment salt is used; otherwise the default salt |
| AccountController.CreateHashedIdentifier | server/controllers/account.ts:74-80 | the identifier is the digest of the provider id followed by the environment salt when it is non-empty, otherwise by the default salt |
| AccountController.IdentifierClashIsDigestCollision | server/controllers/account.ts:74-80 | each identifier is the digest of its provider id followed by the salt, and distinct provider ids give distinct texts to digest, so two providers share an identifier only through a digest collision |
| AccountController.AppendCancels | server/controllers/account.ts:78 | appending the same salt to two texts keeps them apart |
| AccountController.DisplayNameFor | server/controllers/account.ts:95 | `User_` followed by the first eight characters of the identifier, or all of a shorter one |
| AccountController.OAuthAccountData | server/controllers/account.ts:97-104 | the persisted data: the identifier, its display name, the key and salt, unshared, and the provider |
| AccountController.CreateAccountFromOAuth | server/controllers/account.ts:93-107 | the table changes as persisting the OAuth data for the hashed identifier says |
| AccountController.OAuthAccountShape | server/controllers/account.ts:93-107 | a created OAuth account is stored under the next id with the identifier, its display name, unshared |
| AccountController.RegenerateApiKey | server/controllers/account.ts:109-123 | a missing identifier is an error with the source's message and no change; otherwise the account with a new key and salt replaces the stored one |
| AccountController.RegeneratedDiffersOnlyInCredentials | server/controllers/account.ts:115-121 | the regenerated account differs from the stored one only in key and salt, and no other row changes |
| Security.Session.constructor | server/utils/security.ts:11 | a session holding the given token, or none |
| Security.Response.constructor | server/utils/security.ts:25 | a response with no status and no error body yet |
| Security.Header | server/utils/security.ts:29 | a header is present exactly when the request carries it, with its value |
| Security.EnsuredToken | server/utils/security.ts:11-15 | a truthy token is kept; a missing or empty one becomes the hex of the random bytes, two characters per byte |
| Security.EnsureIsIdempotent | server/utils/security.ts:11-15 | once ensured the token is truthy, and ensuring again keeps it whatever bytes are drawn |
| Security.EnsureSessionCsrfToken | server/utils/security.ts:6-16 | no session is the "Session is not initialized" error; otherwise the session holds the ensured token and it is returned |
| Security.CsrfVerdict | server/utils/security.ts:18-37 | an Authorization header accepts; otherwise a missing session token rejects as missing, and a present one accepts exactly when the header equals it, else rejects as invalid |
| Security.OnlyTheEnsuredTokenPasses | server/utils/security.ts:6-37 | after ensuring, a request without an API key passes exactly when its header carries the session's token |
| Security.AuthorizationSkipsCsrf | server/utils/security.ts:19-22 | a non-empty Authorization header passes whatever the tokens |
| Security.ValidateSessionCsrf | server/utils/security.ts:18-37 | the answer is the verdict's; a rejection sets status 403 and the verdict's error, an acceptance leaves the response alone |

## Left out

- server/seedResults.go and tests/dummy_test.go: fixed HTTP requests with no logic to prove.
- The asynchronous part of the `useResultsApi` hook (client/src/Lib/useResultsApi.ts:103-182): fetching, cancel tokens and request-id guards exist to handle racing requests, and concurrency is not modelled.
- React rendering, styling, routing, charts and locale number formatting: they compute no values.
- The Express, passport, cognito and session route handlers: request plumbing.
- ORM schema files: only the unique columns of server/models/Account.ts are used, as the invariant of the accounts table.
- The account finders and `replaceAccount` are imported by server/controllers/account.ts but not defined in server/models/Account.ts. They are modelled as lookups and a replace on an in-memory table, and the text of the replace's failures is the model's own.
- AccountController.GetAccountByApiKey: the `select: false` on `apiKey` and `apiKeySalt` (server/models/Account.ts:24, 29) is not modelled. The finders return the stored account with both columns.
- The result and account lookups that server/controllers/result.ts imports are not part of this model. Stored result records and accounts are parameters: a list in table order, and a map from account id.
- `createResultAndAssociatedModels` (server/controllers/result.ts:289-321) is not modelled as one operation. It awaits six steps in turn:
  1. The account lookup by API key (line 290). It is modelled as AccountController.GetAccountByApiKey.
  2. The building-type defaults `'unknown'` and `'Unknown Building'` and their `String` conversion (lines 291-294). They are not modelled. The model takes the uid and name as given.
  3. `buildResultDocument` (line 296). It is modelled as ResultController.BuildResultDocument.
  4. `createResult` (line 297). It comes from server/models/Result.ts, which is not part of this model. DocumentStore.DocumentStore.Insert models a generic insert.
  5. The loop that collects scenario values (lines 299-313). It is modelled as ResultController.ScenarioValues.
  6. `upsertResultFacet` (lines 315-320). It is modelled as ResultFacet.UpsertResultFacet. The `String` mapping of tags at line 319 is not modelled.
  No operation of the model chains the steps, so their order is not modelled. Neither is the partial commit: a facet upsert that fails after line 297 leaves the result document stored.
- `createResults` (server/controllers/result.ts:323-329) runs `createResultAndAssociatedModels` for every result under `Promise.allSettled`. It is concurrent and is not modelled.
- `getSignatureDetailsForResult` (server/controllers/result.ts:359-377) is a store query followed by a filter on the `stableStringify` signature. Only the signature and `getKPIRanges` are modelled.
- `getResults` and `getSharedResultsPage` (server/controllers/result.ts:155-159, 185-199) are not modelled as operations. They compose a query that is not part of this model with `hydrateResults` and `sanitizeSharedResult`, which are modelled.
- `filterRows`, `getFilterRanges`, `setupFilters`, `createTagOptions`, `getBuildingScenarios` and `createVersionOptions` are imported by client/src/Components/ResultsTable.tsx but are not part of this model.
- Randomness (`randomBytes`, `randomUUID`), SHA-256, `process.env`, the clock (`now()`, `new Date()`) and the download of a building type's markdown are parameters of the operations that use them.
- `console.warn` and `console.error` are dropped.
- `localeCompare(..., {sensitivity: 'base'})` is approximated by a case-insensitive comparison of ASCII code units. `toUpperCase`, `toLowerCase`, `\s` and `trim` are ASCII only.
- JavaScript numbers are `real` for KPIs and ranges and `int` for ids and timestamps. `NaN`, infinities and floating-point rounding are not modelled.
- The JSON text of primitives (`JSON.stringify` of a leaf, and the text `->>` gives a number) is a parameter.
- DocumentStore.DocumentStore.EnsureInit: the store operations call `ensureInit` and are modelled with a commit that succeeds. A failing commit is modelled only by `Init`.
- DocumentStore.DocumentStore.Insert: the only database failure modelled is a repeated `doc_id`. Connection errors and the pg `Pool` are not modelled.
- ResultsApi.SerializeFilters: the parameters are a map, so the insertion order of the query string is not stated.
- DashboardViewModel.ViewModel.HandleRetry: reloading results is the loader's effect and is not part of this model. It is recorded as a count of requested reloads.
- ResultController.BuildResultDocument: a `timePeriod`, `electricityPrice` or `weatherForecastUncertainty` that is missing or not a string is stored as the empty string. The source stores the value as it is, or leaves the field undefined. The document's fields are typed as strings.
- ResultController.BuildResultDocument: `dateRun` is kept as a timestamp. `new Date(dateRun).toISOString()` (server/controllers/result.ts:264) is not modelled: the model produces no ISO text and does not model the `RangeError` it throws on an invalid date.
- Strings.SortStrings and Strings.Le order strings by code point. The default `sort()` and the key order of `stableStringify` (server/controllers/result.ts:354) compare UTF-16 code units. The two orders differ only for strings with characters above U+FFFF, which JavaScript stores as surrogate pairs that sort below U+E000-U+FFFF.
- ResultsApi.MergeResults: results with the same `dateRun` keep the order in which the uid map holds them, since the sort is stable. The contract states neither that insertion order nor the order of such ties.
- ScenarioDisplay.BuildScenarioEntries: entries whose labels compare equal under `localeCompare` are sorted, but their relative order is not stated. The insertion sort of Strings.SortByKey is proved sorted and a permutation, not stable.
- UserDisplay.GetAvatarInitials, MainLayout.FirstChar and MainLayout.GetAvatarText: an initial is the first code point of a word. `substring(0, 1)` (client/src/NavBar/userDisplay.ts:10-13, client/src/NavBar/MainLayout.tsx:150-151) takes the first UTF-16 code unit, so for a name starting above U+FFFF, such as "😀 Bob", the source's initial is a lone high surrogate where the model's is the whole character.
- ResultsTable.ScenarioOptions: the options are a map, so their key order is not stated. The source builds them in the `Object.entries` order of the chosen facet, or in the order keys are first seen across the facets (client/src/Components/ResultsTable.tsx:1041-1063), and the filter menu lists the scenario dropdowns in that order. The effect also returns early when there are no rows (client/src/Components/ResultsTable.tsx:977-979), leaving the previous options in place; the model has no such case and describes only the options the effect computes.
- UserDisplay.GetAvatarInitials: its own contract gives only the "?" cases and the length. The characters of the initials are stated by UserDisplay.InitialsOfWords, for a name made of words separated by single spaces with white space around them. Names with longer runs of white space between words are not covered by a lemma.
- ResultController.ObjectEntries: `Object.keys` lists integer-like keys first, in ascending order, so `{"b": 1, "1": 2}` gives `1` before `b`. The model keeps the order of the entries as given.
- ScenarioDisplay.OwnEntries: the same holds for `Object.entries`.
- DocumentStore.DocumentStore.FindOneByField, FindManyByField, FindAll and FindByNumericIds: the queries have no `ORDER BY`, so the database promises no row order. The model returns rows in the order they were inserted, and "the first row" means the first in that order.
- BuildingTypeModel.GetBuildingTypes and FindBuildingTypesByIds rest on those queries, and the same choice applies.
- ResultFacet.FacetOfFacetJson: the `data` column is `jsonb` (server/datastore/documentStore.ts:64). It reorders an object's keys and keeps the last of repeated keys. The model stores a document as given, so the read-back holds of the model's store.
- BuildingTypeModel.MapRecordOfPayload: the same `jsonb` choice applies.
- The `AccountData` datatype: `Omit<Account, 'results'>` keeps `id`, but the model has no `id` field. The table always assigns the id.
- AccountController.PersistRows: a failed save leaves the next id as it was. A database sequence would be advanced, as DocumentStore.DocumentStore.Insert models.
- server/models/ResultFacet.test.ts expects behaviour that server/models/ResultFacet.ts does not have: another argument list, and insertion order instead of the `.sort()` at line 30. The model follows the code.

## Findings

| source | as written | input that shows it | evidently intended | confidence | as-written member | corrected member |
|---|---|---|---|---|---|---|
| client/src/Components/DashboardResultsTable.tsx:542-543 | `typeof val === 'object'` also holds for `null`, so `traverse(null)` calls `Object.entries(null)`, which throws | a row `{key: null}` | `null` is a leaf, flattened as the pair `key`, `null` | not executed | DashboardResultsTable.NullFieldThrows | DashboardResultsTable.GetFlatKeyValPairFromObj |
