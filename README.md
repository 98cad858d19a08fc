# xandalyze2 dashboard core, modelled in Dafny

Xandalyze is a monitoring dashboard for Xandeum pNodes. The page holds a
list of `PNode` records: pubkey, gossip address, optional version, status,
latency, and optional location, disk space and uptime. It derives several
views from that list:

- the stat cards;
- the node registry table, which can be searched and sorted;
- the status pie and the latency chart;
- the map markers per region;
- the offline insight cards of the AI sidebar;
- the digest sent to the language model for the network report.

Two request lifecycles are modelled:

- The AI command modal and sidebar take a prompt and send it to the model.
  They strip Markdown fences from the answer and parse the result as JSON.
- The network report request sends the digest to the model and shows the
  report it returns.

The model covers those rules. There is one module per source file, plus
three shared modules:

- `Types`: the records.
- `Strings`: the JavaScript string built-ins the code relies on, over
  `seq<char>`: `toLowerCase`, `trim`, `includes`, `replace(/x/g, '')`, the
  relational `<`, and `split(':')[0]`.
- `NodeAggregates`: the `filter(...).length` counts and `reduce` sums over
  the node list, shared by the page, the sidebar, the charts and the digest.

Pure expressions are modelled as functions. The parts the source builds step
by step are modelled imperatively:

- The table sorts a copied array in place. `NodeSort.SortInPlace` is an
  insertion sort over an `array`, proved to order every neighbouring pair
  and to keep the elements.
- The map fills a `counts` record in a `forEach`. `CountLocations` does this
  with a loop over a `map`.
- The sidebar `push`es its cards one at a time. `Insights` appends to a
  list.
- Component state lives in classes:
  - `NodeTableView` holds the table's state;
  - `CommandPanel` holds the state of the modal and of the sidebar's chat
    half;
  - `Home` holds the page's state.

  Their methods assign the fields the source's `set...` calls assign.

Some behaviour of the code that the model keeps as written:

- There is no balanced-brace extraction and no `summary`→`message`
  fallback. The reply is reduced to
  `replace(/```json/g,'').replace(/```/g,'').trim()` and given to
  `JSON.parse`. So a reply such as "Sure! ```json {...} ```" keeps its
  leading "Sure!" and fails to parse.
- `handleAnalyze` does not itself check `isLoading`. A second request while
  one is pending is prevented only because the submit control is disabled
  (`CommandPanel.BeginAnalyze` ensures `!SubmitEnabled()`).
- The search filter is skipped only for the empty term (`if (searchTerm)`).
  A whitespace-only term is lower-cased and filters like any other.
- `app/page.tsx` imports `generateNetworkReport` from `services/aiService`,
  and the type `GeminiReport`. Neither is part of this model.
  `services/geminiService.ts` and `AIReport` from `types.ts` are modelled in
  their place.

## Model

| member | source | states |
|---|---|---|
| Types.StatusName | types.ts:1-6 | the enum's string value for each status, never empty |
| Strings.IsWhitespace | components/ai/AICommandModal.tsx:52 | definition: the WhiteSpace and LineTerminator characters of sections 12.2 and 12.3 of ECMA-262, which `trim()` removes |
| Strings.ToLowerChar | components/NodeTable.tsx:27 | lower-cases exactly the ASCII capitals, by +32, and leaves every other character alone |
| Strings.ToLower | components/NodeTable.tsx:27-31 | `toLowerCase` keeps the length, maps each character by `ToLowerChar` and leaves no capital |
| Strings.ToLowerIdempotent | components/NodeTable.tsx:27-31 | lower-casing twice is lower-casing once |
| Strings.TrimStart | components/ai/AICommandModal.tsx:52 | the result is a suffix, everything cut off is whitespace, and it does not start with whitespace |
| Strings.TrimEnd | components/ai/AICommandModal.tsx:52 | the result is a prefix, everything cut off is whitespace, and it does not end with whitespace |
| Strings.Trim | components/ai/AICommandModal.tsx:52 | `trim()` leaves no whitespace at either end |
| Strings.TrimIsSlice | components/ai/AICommandModal.tsx:52 | the trimmed text is a slice of the input with only whitespace cut off on both sides |
| Strings.PrefixOfSuffix | components/ai/AICommandModal.tsx:52 | a prefix of the suffix at `i` is the slice of the input at `i` |
| Strings.IsBlank | components/ai/AICommandModal.tsx:44 | definition: `!s.trim()`, i.e. the trimmed string is empty; `BlankIffAllWhitespace` characterises it |
| Strings.BlankIffAllWhitespace | components/ai/AICommandModal.tsx:44 | `!prompt.trim()` holds exactly when every character of the prompt is whitespace |
| Strings.TrimKeepsTrimmed | components/ai/AICommandModal.tsx:52 | a string without whitespace at its ends is its own trim |
| Strings.Includes | components/NodeTable.tsx:29-31 | definition: `s.includes(t)` as a left-to-right scan; its meaning is stated by `IncludesIff` |
| Strings.IncludesIff | components/NodeTable.tsx:29-31 | the left-to-right `includes` scan succeeds exactly when the term occurs at some offset |
| Strings.SliceOfTail | components/NodeTable.tsx:29-31 | a slice of the tail is the slice of the whole one place further on |
| Strings.IncludesTransitive | components/NodeTable.tsx:29-31 | a substring of a substring is a substring |
| Strings.IncludesToLower | components/NodeTable.tsx:27-31 | lower-casing both sides keeps a substring a substring |
| Strings.IncludesSuffix | app/page.tsx:248 | a string occurs in any string that ends with it |
| Strings.IncludesMiddle | app/page.tsx:248 | a string occurs, at the offset after the prefix, in any string built around it |
| Strings.RemoveAll | components/ai/AICommandModal.tsx:52 | `replace(/pat/g, '')` never lengthens the text |
| Strings.RemoveAllAbsent | components/ai/AICommandModal.tsx:52 | a pattern whose first character is absent removes nothing |
| Strings.RemoveAllPrefixAbsent | components/ai/AICommandModal.tsx:52 | a leading part without the pattern's first character passes through the removal unchanged |
| Strings.BeforeColon | components/NodeTable.tsx:114 | `split(':')[0]` is the longest prefix without a colon, followed by a colon when shorter than the input |
| Strings.MessageOr | components/ai/AICommandModal.tsx:58 | `err.message` or the fallback: the message when it is not empty, the fallback otherwise, never empty for a non-empty fallback; also the report's error at app/page.tsx:67 |
| Strings.StrLess | components/NodeTable.tsx:40-41 | definition: string `<`, lexicographic by character code with a proper prefix first; a strict total order by the three lemmas below |
| Strings.StrLessIrreflexive | components/NodeTable.tsx:40-41 | no string is `<` itself |
| Strings.StrLessTransitive | components/NodeTable.tsx:40-41 | string `<` is transitive |
| Strings.StrLessTrichotomy | components/NodeTable.tsx:40-41 | two strings are equal or ordered one way, never both ways |
| Strings.DigitChar | app/page.tsx:248 | a digit character whose code is `'0'` plus the digit |
| Strings.NatToString | app/page.tsx:248 | `${latency}` is a non-empty run of digits without a leading zero |
| Strings.NatToStringRoundTrip | app/page.tsx:248 | reading the digits back gives the number |
| Strings.NatToStringInjective | components/DashboardCharts.tsx:70-71 | different numbers render differently |
| NodeAggregates.CountStatus | components/DashboardCharts.tsx:15-17 | `filter(status === s).length` is at most the list length |
| NodeAggregates.CountNotActive | components/ai/AICommandSidebar.tsx:32 | `filter(status !== 'Active').length` is at most the list length |
| NodeAggregates.ActivePlusNotActive | components/ai/AICommandSidebar.tsx:31-32 | the Active count and the not-Active count add up to the list length |
| NodeAggregates.NotActiveIsOtherStatuses | components/ai/AICommandSidebar.tsx:32 | the not-Active count is the Delinquent, Offline and Bootstrap counts together |
| NodeAggregates.CountStatusPositive | components/DashboardCharts.tsx:15-17 | a status count is positive exactly when some node has that status |
| NodeAggregates.CountNotActivePositive | components/ai/AICommandSidebar.tsx:32 | the not-Active count is positive exactly when some node is not Active |
| NodeAggregates.LatencySum | app/page.tsx:76 | definition: `reduce((acc, n) => acc + n.latency, 0)`, left to right |
| NodeAggregates.DiskOrZero | app/page.tsx:75 | definition: `n.diskSpace or 0` as a number, a missing capacity counted as 0 |
| NodeAggregates.StorageSum | app/page.tsx:75 | definition: `reduce((acc, n) => acc + (n.diskSpace or 0), 0)`, left to right |
| NodeAggregates.StorageSumBounds | app/page.tsx:75 | with non-negative capacities, each node's capacity, a missing one counted as 0, is at most the total |
| NodeAggregates.StorageSumNonNegative | app/page.tsx:75 | non-negative capacities give a non-negative total |
| NodeAggregates.MeanLatency | app/page.tsx:76 | the mean latency is 0 for an empty list and otherwise times the length gives the sum; never negative |
| NodeAggregates.MeanTimesCount | app/page.tsx:76 | the mean times the node count is the latency sum, the empty list included |
| NodeAggregates.ScalePreservesLess | components/ai/AICommandSidebar.tsx:47 | multiplying by a positive count keeps `<` |
| NodeAggregates.MeanBelow | components/ai/AICommandSidebar.tsx:33-47 | the mean is below a bound exactly when the sum is below bound times count |
| NodeSort.NumValue | components/NodeTable.tsx:37-38 | definition: `node[key] ?? ''` for a numeric column as `<` sees it, a missing value counted as 0 |
| NodeSort.StrValue | components/NodeTable.tsx:37-38 | definition: `node[key] ?? ''` for a string column, the status as its enum string |
| NodeSort.KeyLess | components/NodeTable.tsx:40-41 | definition: `valA < valB`, numeric or string `<` by column |
| NodeSort.Compare | components/NodeTable.tsx:35-43 | the comparator answers -1, 0 or 1; its meaning is stated by `CompareMeaning` |
| NodeSort.KeyTrichotomy | components/NodeTable.tsx:37-42 | values of one column are less, same or greater, and exactly one of these |
| NodeSort.KeyLessTransitive | components/NodeTable.tsx:40-41 | `valA < valB` is transitive in every column, missing values coalesced by `?? ''` |
| NodeSort.CompareMeaning | components/NodeTable.tsx:35-43 | the comparator is 0 exactly for equal keys, antisymmetric, and negative exactly when the node goes first in the chosen direction |
| NodeSort.InOrderTransitive | components/NodeTable.tsx:35-43 | comparator order is transitive |
| NodeSort.SameKeyLess | components/NodeTable.tsx:40-42 | a value less than one of two equal values is less than the other |
| NodeSort.SameKeyLess' | components/NodeTable.tsx:40-42 | a value equal to one below another is also below it |
| NodeSort.SortedMeaning | components/NodeTable.tsx:35-43 | sorted by the comparator means non-decreasing for 'asc' and non-increasing for 'desc' |
| NodeSort.AdjacentInOrderIsSorted | components/NodeTable.tsx:35-43 | neighbours in order make every pair in order |
| NodeSort.Swapped | components/NodeTable.tsx:35 | exchanging two neighbours keeps the elements and moves only those two |
| NodeSort.SortInPlace | components/NodeTable.tsx:35-43 | `result.sort(cmp)` leaves every neighbouring pair in comparator order and the same multiset of nodes |
| NodeSort.InsertStep | components/NodeTable.tsx:35-43 | moving a node left past a neighbour the comparator puts after it keeps the insertion invariant |
| NodeSort.InsertDone | components/NodeTable.tsx:35-43 | once the moving node stops, the sorted prefix has grown by one |
| NodeSort.Insert | components/NodeTable.tsx:35-43 | one insertion pass extends the ordered prefix by one and keeps the elements |
| NodeSort.Swap | components/NodeTable.tsx:35 | the array afterwards is the old one with the two neighbours exchanged |
| NodeSort.Reverse | components/NodeTable.tsx:40-41 | the reverse has the same length with positions mirrored |
| NodeSort.ReverseMultiset | components/NodeTable.tsx:40-41 | reversing keeps the elements |
| NodeSort.SameHead | components/NodeTable.tsx:35-43 | two sorted arrangements of the same nodes with distinct keys start with the same node |
| NodeSort.TailSorted | components/NodeTable.tsx:35-43 | dropping the first node keeps a sequence sorted |
| NodeSort.TailDistinct | components/NodeTable.tsx:35-43 | dropping the first node keeps keys distinct |
| NodeSort.TailMultiset | components/NodeTable.tsx:35-43 | equal heads removed from equal multisets leave equal multisets |
| NodeSort.SortedUnique | components/NodeTable.tsx:35-43 | with distinct keys there is only one sorted arrangement |
| NodeSort.DescIsReversedAsc | components/NodeTable.tsx:40-42 | with distinct keys the 'desc' order is the reverse of the 'asc' order |
| NodeTable.Matches | components/NodeTable.tsx:28-32 | definition: the lower-cased term occurs in the lower-cased pubkey, or in a present, non-empty version or location |
| NodeTable.FilterByTerm | components/NodeTable.tsx:28-32 | the filter keeps exactly the matching nodes, each as often as in the input |
| NodeTable.Keep | components/NodeTable.tsx:26-33 | definition: the empty term keeps every node; any other term keeps the nodes that `Matches` its lower-cased form |
| NodeTable.Filtered | components/NodeTable.tsx:26-33 | the empty term keeps the list as it is; any other term keeps exactly the nodes whose lower-cased pubkey, version or location contains the lower-cased term |
| NodeTable.FilteredAndSortedNodes | components/NodeTable.tsx:23-46 | the rows are exactly the kept nodes with their multiplicities, non-decreasing by the column for 'asc' and non-increasing for 'desc'; the input list is a value and unchanged |
| NodeTable.NarrowingSearch | components/NodeTable.tsx:26-33 | a node kept for a longer term is kept for any term it contains |
| NodeTable.SearchIgnoresCase | components/NodeTable.tsx:27 | terms differing only in letter case keep the same nodes |
| NodeTable.NextSortConfig | components/NodeTable.tsx:16-21 | the clicked column becomes the key; the direction is 'desc' exactly when that column was 'asc' |
| NodeTable.RepeatedClickAlternates | components/NodeTable.tsx:16-21 | clicking a column again flips the direction; a new column starts ascending |
| NodeTable.NodeTableView.constructor | components/NodeTable.tsx:13-14 | the search starts empty and the sort at latency ascending |
| NodeTable.NodeTableView.HandleSort | components/NodeTable.tsx:16-21 | the sort config becomes `NextSortConfig` of the old one; the search is kept |
| NodeTable.NodeTableView.SetSearchTerm | components/NodeTable.tsx:72 | the search term becomes the raw text; the sort is kept |
| NodeTable.NodeTableView.Rows | components/NodeTable.tsx:23-46 | the rows for the current state are the kept nodes in comparator order |
| NodeTable.LatencyTone | components/NodeTable.tsx:141-144 | emerald exactly below 60 ms, rose exactly from 150 ms, yellow in between |
| NodeTable.LatencyToneMonotone | components/NodeTable.tsx:141-144 | a slower node never gets a better colour |
| NodeTable.LatencyBarWidth | components/NodeTable.tsx:148 | the width lies in [0,100], is 100 exactly from 300 ms, and is latency/3 below |
| NodeTable.LatencyBarMonotone | components/NodeTable.tsx:148 | a slower node never gets a shorter bar |
| NodeTable.UptimeTone | components/NodeTable.tsx:129-132 | emerald exactly above 95, rose exactly at most 80 or when missing |
| NodeTable.UptimeToneAntitone | components/NodeTable.tsx:129-132 | more uptime never gets a worse colour; a missing uptime is worst |
| NodeTable.UptimeBarWidth | components/NodeTable.tsx:133 | the bar width is the uptime, or 0 when missing |
| NodeTable.StatusBadge | components/NodeTable.tsx:48-57 | Active and Delinquent get their own badge; Offline and Bootstrap both show the Offline badge |
| NodeTable.HostLabel | components/NodeTable.tsx:114 | the host label holds no colon and is no longer than the gossip address |
| NodeTable.HostLabelOfHostPort | components/NodeTable.tsx:114 | for `host:port` the label is the host; an address without a colon is shown whole |
| AICommand.StripFences | components/ai/AICommandModal.tsx:52 | the cleaned reply is never longer than the reply |
| AICommand.RemovedStartsWithTick | components/ai/AICommandModal.tsx:52 | a removal output that starts with a backtick comes from input that does |
| AICommand.RemovedStartsWithTwoTicks | components/ai/AICommandModal.tsx:52 | likewise for two backticks |
| AICommand.NoFenceAfterRemoval | components/ai/AICommandModal.tsx:52 | after `replace(/```/g, '')` no "```" remains, even where a deletion joins backticks |
| AICommand.IncludesOfTrim | components/ai/AICommandModal.tsx:52 | what occurs in the trimmed text occurs in the text |
| AICommand.StripFencesClean | components/ai/AICommandSidebar.tsx:117-119 | the text given to `JSON.parse` holds no "```" and has no whitespace at either end |
| AICommand.StripFencesWithoutTicks | components/ai/AICommandSidebar.tsx:118 | a reply without backticks is only trimmed |
| AICommand.FenceKeptByJsonRemoval | components/ai/AICommandModal.tsx:52 | removing "```json" leaves a bare "```" alone |
| AICommand.StripFencedBody | components/ai/AICommandModal.tsx:52-53 | a body fenced as "```json ... ```" comes back as the trimmed body |
| AICommand.OutcomeOf | components/ai/AICommandModal.tsx:48-58 | success exactly when the request resolved and the stripped text parsed, with that parsed value; a rejection, or a parse error, gives its message or 'Failed to process request' |
| AICommand.CommandPanel.constructor | components/ai/AICommandModal.tsx:8-11 | prompt is the initial prompt; no result, not loading, no error |
| AICommand.CommandPanel.Open | components/ai/AICommandModal.tsx:15-21 | opening resets the prompt to the initial one and clears result and error |
| AICommand.CommandPanel.EditPrompt | components/ai/AICommandModal.tsx:85 | the prompt becomes the typed text; nothing else changes |
| AICommand.CommandPanel.SubmitEnabled | components/ai/AICommandModal.tsx:91 | definition: the negation of `isLoading or !prompt.trim()`; `BeginAnalyze` proves it false while a request runs |
| AICommand.CommandPanel.BeginAnalyze | components/ai/AICommandModal.tsx:43-91 | a blank prompt starts nothing and changes nothing; otherwise loading starts, the error clears, and submit is disabled |
| AICommand.CommandPanel.FinishAnalyze | components/ai/AICommandModal.tsx:55-61 | success stores the value and keeps the error; failure stores the message and keeps the result; loading ends either way |
| AICommand.CommandPanel.HandleAnalyze | components/ai/AICommandSidebar.tsx:109-128 | the whole handler: no change for a blank prompt; otherwise loading ends false, with the result on success (error cleared) or the error text on failure (result kept) |
| AICommandSidebar.Insights | components/ai/AICommandSidebar.tsx:28-71 | no cards for no nodes; otherwise 3 cards exactly when some node is not Active and 2 exactly when all are: the alert, only ever first and carrying the non-Active count; then exactly one latency card, chosen by mean < 100; then Capacity with the storage sum, only ever last |
| AICommandSidebar.AlertMeansNotAllActive | components/ai/AICommandSidebar.tsx:32-45 | the alert shows exactly when some node is Delinquent, Offline or Bootstrap, and counts all three |
| AICommandSidebar.PerformanceMeansLowSum | components/ai/AICommandSidebar.tsx:33-47 | 'Performance' exactly when the latencies sum to less than 100 ms per node |
| DashboardPage.CalculateStats | app/page.tsx:73-84 | total is the length, active is the Active count and at most the total, storage the coalesced sum, mean times total is the latency sum, all zero for no nodes |
| DashboardPage.AllActiveIff | app/page.tsx:74 | active equals total exactly when every node is Active |
| DashboardPage.AnalyzePrompt | app/page.tsx:248 | the prompt starts with "Analyze this specific pNode: " |
| DashboardPage.AnalyzePromptContents | app/page.tsx:248 | the prompt contains the pubkey, the latency with "ms" and the status, and is not blank |
| DashboardPage.NotBlankWhenFirstIsNot | app/page.tsx:248 | a string starting with a non-whitespace character is not blank |
| DashboardPage.HealthTone | app/page.tsx:354-356 | emerald exactly above 80, rose exactly at most 60 |
| DashboardPage.HealthToneAntitone | app/page.tsx:354-356 | a higher score never gets a worse colour |
| DashboardPage.Home.constructor | app/page.tsx:29-41 | the snapshot of all eleven hooks is their `useState` initial values |
| DashboardPage.Home.LoadDataBegin | app/page.tsx:44 | only `loading` changes, to true; every other hook keeps its value |
| DashboardPage.Home.LoadDataEnd | app/page.tsx:46-48 | only `nodes` (the fetched list), `lastRefreshed` (the time) and `loading` (false) change |
| DashboardPage.Home.LoadData | app/page.tsx:43-49 | the whole refresh changes only `nodes`, `lastRefreshed` and `loading`, to the fetched list, the time and false |
| DashboardPage.Home.GenerateReportBegin | app/page.tsx:59-61 | only `aiLoading` (true), `aiError` (none) and `isAiModalOpen` (true) change |
| DashboardPage.Home.GenerateReportEnd | app/page.tsx:63-70 | success changes only `aiReport` and `aiLoading`; failure only `aiError` (the message or the report fallback) and `aiLoading`; loading ends false either way |
| DashboardPage.Home.HandleGenerateReport | app/page.tsx:58-71 | the whole handler changes only the report modal's hooks: open, not loading, and the report with no error, or the error with the report kept |
| DashboardPage.Home.NavClick | app/page.tsx:127-134 | 'ai' starts the report as `GenerateReportBegin` does and keeps the tab; any other id changes only the tab; the mobile menu closes in both cases and nothing else changes |
| DashboardPage.Home.AnalyzeNode | app/page.tsx:247-250 | only the command prompt (the node's analysis prompt) and the command modal (open) change |
| DashboardPage.Home.CloseCommandModal | app/page.tsx:421-424 | only the command modal (closed) and its prompt (cleared) change |
| DashboardPage.Home.CloseAiModal | app/page.tsx:314 | only `isAiModalOpen` changes, to false |
| DashboardCharts.StatusBuckets | components/DashboardCharts.tsx:14-18 | exactly three buckets, Active, Delinquent, Offline, each with the count of that exact status |
| DashboardCharts.BucketTotalOfThree | components/DashboardCharts.tsx:14-18 | the total of three buckets is their three values |
| DashboardCharts.BucketsCoverAllButBootstrap | components/DashboardCharts.tsx:14-18 | the buckets plus the Bootstrap count give the length, so their sum is at most the length, with equality exactly when no node is Bootstrap |
| DashboardCharts.CenterLabel | components/DashboardCharts.tsx:50 | the centre label is `nodes.length`, so it is never below the slices' total (it exceeds it by the Bootstrapping nodes) |
| DashboardCharts.LatencyChartLabels | components/DashboardCharts.tsx:70-71 | 24 points labelled "i:00" for i from 0 to 23 |
| DashboardCharts.LatencyChartLabelsDistinct | components/DashboardCharts.tsx:70-71 | the 24 labels are pairwise different |
| GeographicalMap.LocationCoords | components/GeographicalMap.tsx:17-24 | the six regions of `LOCATION_COORDS` with their coordinates, in declaration order |
| GeographicalMap.TableNames | components/GeographicalMap.tsx:17-24 | the region names of the table, in order |
| GeographicalMap.LocationNamesDistinct | components/GeographicalMap.tsx:17-24 | the six region names are pairwise different |
| GeographicalMap.LocationCount | components/GeographicalMap.tsx:30-31 | the nodes counted at a name are at most all nodes, and none at the empty name |
| GeographicalMap.CountOr0 | components/GeographicalMap.tsx:31 | definition: `counts[name] or 0` |
| GeographicalMap.CountsMap | components/GeographicalMap.tsx:28-33 | definition: the `counts` record after the `forEach` has visited the nodes; its meaning is stated by `CountsMapMeaning` |
| GeographicalMap.CountsMapMeaning | components/GeographicalMap.tsx:28-33 | the record holds exactly the locations that have nodes, each with its node count |
| GeographicalMap.CountLocations | components/GeographicalMap.tsx:28-33 | the `forEach` fills the record described by `CountsMap` |
| GeographicalMap.MarkersFrom | components/GeographicalMap.tsx:35-39 | at most one marker per table entry, each with a positive count equal to the record's entry for its name |
| GeographicalMap.Markers | components/GeographicalMap.tsx:27-40 | at most six markers, each counting the nodes at its location and naming an entry of the table with its coordinates |
| GeographicalMap.MarkersFromUnfold | components/GeographicalMap.tsx:35-39 | a positive count puts the entry's marker first, a zero count drops it |
| GeographicalMap.MarkersInTableOrder | components/GeographicalMap.tsx:35 | markers appear in the table's declaration order |
| GeographicalMap.ShiftPastHead | components/GeographicalMap.tsx:35 | positions in the rest of the table shift by one in the whole table |
| GeographicalMap.MarkersComplete | components/GeographicalMap.tsx:39 | every entry with a positive count has its marker |
| GeographicalMap.HitsAtMostOne | components/GeographicalMap.tsx:31 | a node is counted at no more than one of distinct names |
| GeographicalMap.NoOtherHit | components/GeographicalMap.tsx:31 | a node counted at the first of distinct names is counted at no other |
| GeographicalMap.NamesTotalStep | components/GeographicalMap.tsx:29-31 | one more node adds its hits to the total |
| GeographicalMap.NamesTotalBound | components/GeographicalMap.tsx:29-31 | distinct names never count more nodes than there are |
| GeographicalMap.NamesTotalEmpty | components/GeographicalMap.tsx:29-31 | no nodes, no counts |
| GeographicalMap.MarkerTotalCons | components/GeographicalMap.tsx:38 | a marker in front adds its count to the total |
| GeographicalMap.MarkerTotalIsNamesTotal | components/GeographicalMap.tsx:35-39 | dropping zero counts loses nothing: the markers add up to the nodes counted at the table's names |
| GeographicalMap.MarkersCountAtMostAllNodes | components/GeographicalMap.tsx:35-39 | the marker counts add up to at most the number of nodes |
| GeographicalMap.OuterRadius | components/GeographicalMap.tsx:102 | the outer radius lies in [4, 14], and is at least 4.5 for a marker |
| GeographicalMap.InnerRadius | components/GeographicalMap.tsx:107 | the inner radius lies in [2, 8] |
| GeographicalMap.CirclesNested | components/GeographicalMap.tsx:102-107 | the inner circle sits inside the outer with a margin of 2, and neither shrinks as the count grows |
| GeminiService.PresentVersions | services/geminiService.ts:18 | `map(version).filter(Boolean)` holds exactly the present, non-empty versions |
| GeminiService.PresentVersionsOfOne | services/geminiService.ts:18 | one node contributes its version exactly when it is present and not empty |
| GeminiService.PresentVersionsAppend | services/geminiService.ts:18 | the filter keeps node order: the versions of `a + b` are those of `a` followed by those of `b` |
| GeminiService.FirstIndex | services/geminiService.ts:18 | the first position of an element |
| GeminiService.Dedup | services/geminiService.ts:18 | `[...new Set(s)]` has the same elements as `s`, each once |
| GeminiService.DedupKeepsFirstOccurrenceOrder | services/geminiService.ts:18 | the set keeps the order of first occurrences |
| GeminiService.FirstIndexOfExtension | services/geminiService.ts:18 | appending does not move an existing first occurrence |
| GeminiService.FirstIndexOfNew | services/geminiService.ts:18 | a new element first occurs at the end |
| GeminiService.VersionsInUse | services/geminiService.ts:18 | every present, non-empty version once, and nothing else |
| GeminiService.Sample | services/geminiService.ts:25 | `min(10, length)` entries, the first nodes in order as id and status |
| GeminiService.BuildDigest | services/geminiService.ts:16-26 | total, Active count (at most total), mean latency (0 when empty), versions in use and the sample |
| GeminiService.GenerateNetworkReport | services/geminiService.ts:10-59 | 'Missing API Key' without a key; 'Empty response from AI' for an empty answer; a thrown error, from the model or from `JSON.parse`, passed on with its message unchanged; success exactly when the answer is non-empty and parses, with the parsed report |
| GeminiService.MissingKeyNeedsNoModel | services/geminiService.ts:11-13 | without a key the outcome does not depend on the model or the parser |
| GeminiService.ReportDependsOnDigestOnly | services/geminiService.ts:20-35 | the node list reaches the request only through the digest: for one fixed behaviour of the model and the parser, node lists with the same digest lead to the same outcome |

## Left out

- Rendering: JSX, class strings, icons and layout, StatCard and the docs site.
- `fetchPNodes`: the fetch, its timeout and the fallback to mock data. `LoadDataEnd` takes the fetched list as a parameter.
- The request to the model, `useAI` and the HTTP route: the model's reply is a parameter (`Reply`, `ModelReply`, `ReportOutcome`).
- `JSON.parse` is a function parameter, and `JSON.stringify` is not modelled: the digest is kept as a record.
- The 30 s polling interval, React effect scheduling and `new Date()`. The refresh time is an integer parameter.
- Settings in `localStorage`, the mock nodes and the random jitter of the latency chart.
- Display formatting: `toFixed`, `toLocaleString` and `Math.round`. Cards carry the unrounded numbers.
- The uptime percentage card at app/page.tsx:210, which divides by the node count and is NaN for an empty list: floating point NaN is not modelled.
- Floating-point rounding: JavaScript numbers are doubles, but the model computes with exact reals. Rounding in the `reduce` sums, in `sum / (length || 1)` and in `(latency / 300) * 100` is not modelled, so `NodeAggregates.MeanLatency`'s `r * n == sum` and `NodeTable.LatencyBarWidth`'s `w * 3 == latency` hold in exact arithmetic only.
- The sidebar's suggestion buttons: they are a constant list, and clicking one is `EditPrompt`.
- `Strings.ToLower`: lower-cases ASCII letters only, not the full Unicode case mapping of `toLowerCase`.
- Strings are sequences of code points, not UTF-16 code units, so `<` and `includes` on surrogate pairs are not modelled.
- `NodeSort.SortInPlace`: an insertion sort standing for the engine's `Array.prototype.sort`. Stability and the engine's own algorithm are not claimed; the result is stated by what any correct sort guarantees (order of neighbours and the same multiset).
- `NodeSort.KeyLess`: a missing numeric value compares as 0 (what `''` coerces to under `<`). NaN is not modelled.
- A missing `response.text` in the model's reply is modelled as the empty text. In `geminiService` that matches the code's empty-text check. In the command modal and sidebar, an undefined `text` throws a TypeError at `.replace` before `JSON.parse`, so the message shown there is the TypeError's, which `AICommand.OutcomeOf` does not model.
- `GeographicalMap.CountsMapMeaning`: the counts record is a Dafny map, so a location named like an inherited object property (e.g. "constructor") is not given its JavaScript behaviour.
- `GeminiService.BuildDigest`: the average is stated as `MeanLatency`, whose own contract relates it to the latency sum; `toFixed(2)` is not modelled.
- The modal and the sidebar share one `CommandPanel`: their state hooks, reset effect and handler are identical, and the system prompt they prepend is not modelled.
