# OTT ranking aggregation, modelled in Dafny

This project models the data core of the ott-rank-fusion dashboard, `src/lib/data.ts`.
The dashboard reads weekly top-10 lists from several streaming platforms (Netflix, Disney+,
wavve, TVING) and turns them into one cross-platform leaderboard. The model covers:

- `calculateIntegratedRanking`: groups the records by title and scores each record
  `11 - rank`. For every title it keeps the platforms in input order, the total weekly views,
  the first genre seen and the platform of the best (lowest) rank. It then sorts the entries
  by score descending, total views descending and title ascending. The `forEach` loop is an
  imperative method (`Ranking.GroupByTitle`). Its loop invariant ties the map it fills to a
  fold over the records read so far (`Ranking.Tallies`). Lemmas prove that this fold holds,
  for each title and for no other, the tally of exactly that title's records.
- `filterData`: keeps, in order, the records that pass the platform, genre and week selections.
- `getAvailableGenres` / `getAvailableWeeks`: the distinct genres in ascending order, and the
  distinct weeks in descending order (newest first).
- The text that `exportToCSV` builds: a byte order mark, a header of eight Korean labels, and
  one comma-separated line per ranking. Lines are joined by line breaks, and the platforms of
  an entry are joined by `;`.

Modules, one per file:

| file | module | contents |
|---|---|---|
| `wrappers.dfy` | `Wrappers` | `Option`, for the optional week selection |
| `records.dfy` | `Records` | the `OttData` record, the `IntegratedRanking` entry, the genres and weeks of a list of records |
| `ordered_sets.dfy` | `OrderedSets` | `new Set(...)` read back in insertion order, shared by the facets and the ranking |
| `strings.dfy` | `Strings` | the string order, `join`/`split` on one separator, decimal text of integers |
| `sorting.dfy` | `Sorting` | `Array.prototype.sort` with a comparator (on values), `reverse` |
| `filter.dfy` | `Filter` | `filterData` |
| `facets.dfy` | `Facets` | `getAvailableGenres`, `getAvailableWeeks` |
| `ranking.dfy` | `Ranking` | `calculateIntegratedRanking` |
| `export.dfy` | `Export` | the CSV text of `exportToCSV` |

`Ranking.Summarizes(data, e)` states what an entry must be. Let `g` be the records of
`data` whose title is `e.title`, in input order. Then `e.score` is the sum of `11 - rank`
over `g`, and `e.platforms` lists the platforms of `g`. `e.platformCount` is `|g|`, and
`e.totalViews` is the sum of the weekly views of `g`. `e.genre` is the genre of `g[0]`. And
`e.mainPlatform` is the platform of the first record of `g` that has the lowest rank.

## Model

| member | source | states |
|---|---|---|
| Ranking.CalculateIntegratedRanking | src/lib/data.ts:56-111 | every entry is the summary of its title's records (score = sum of 11 - rank, platforms in input order, platformCount, total views, first genre, platform of the first lowest rank); every title of the input has an entry; no two entries share a title; each entry stands before its neighbour in comparator order; no records give no entries |
| Ranking.CountRecord | src/lib/data.ts:67-92 | one pass of the forEach body changes only the entry of the record's title, to the tally `Gather` describes, and appends the title to the key order exactly when it was not a key yet |
| Ranking.GroupByTitle | src/lib/data.ts:67-92 | the forEach loop leaves titleMap equal to the fold of the per-record update over all records, with keys in first-seen order |
| Ranking.TalliesGathered | src/lib/data.ts:67-92 | after any prefix of the records, titleMap has a key exactly for the titles seen, each key once in insertion order, and each key's tally is built from exactly that title's records |
| Ranking.GatherStep | src/lib/data.ts:67-92 | one pass of the forEach body keeps that invariant |
| Ranking.GatherExtends | src/lib/data.ts:70-91 | the body turns the tally of a title's earlier records into the tally of those records plus the current one, whether the title was new or not |
| Ranking.TallyStart | src/lib/data.ts:70-85 | a new title's tally after its first record holds that record's points, platform, genre and views, and its rank and platform as best |
| Ranking.TallyStep | src/lib/data.ts:81-91 | a later record appends its points and platform, adds its genre only when new, adds its views, and replaces the best only with a strictly lower rank |
| Ranking.FirstBestIsFirstLowest | src/lib/data.ts:88-91 | the best tracked by bestRank/bestPlatform is a record with the lowest rank of the title, and no earlier record has that rank (the first wins ties) |
| Ranking.FirstBestUnique | src/lib/data.ts:88-91 | that position is determined by the records alone |
| OrderedSets.DistinctHead | src/lib/data.ts:100 | the first value of a Set is the first value added, so `Array.from(genres)[0]` is the first record's genre |
| Ranking.GatheredTallies | src/lib/data.ts:95-103 | every key's genre Set is non-empty, so the map callback always has a first genre |
| Ranking.TallyForSummarizes | src/lib/data.ts:95-103 | the map callback turns a title's tally into the entry `Summarizes` describes |
| Ranking.EntriesDistinct | src/lib/data.ts:95-103 | entries made from distinct keys are distinct |
| Ranking.SortedTalliesAreTheRanking | src/lib/data.ts:94-110 | the mapped and sorted tallies summarize their titles, cover every title of the input, and have distinct titles |
| Ranking.EveryTitleRanked | src/lib/data.ts:67-103 | every record's title has an entry |
| Ranking.SummaryUnique | src/lib/data.ts:95-103 | two entries that summarize the same title of the same records are equal |
| Ranking.SummaryConsistent | src/lib/data.ts:95-103 | an entry's platformCount is the length of its non-empty platforms list, its main platform is one of those platforms, and its genre is the genre of a record of that title |
| Ranking.ScoreBounds | src/lib/data.ts:68 | with ranks in 1..10, a title scores between 1 and 10 points per appearance |
| Ranking.RankedBeforeTotal | src/lib/data.ts:106-110 | the comparator orders every pair one way or the other |
| Ranking.RankedBeforeTransitive | src/lib/data.ts:106-110 | the comparator is transitive |
| Ranking.RankingOrder | src/lib/data.ts:106-110 | in the sorted result, any earlier entry has a higher score, or an equal score and more views, or equal both and a strictly smaller title |
| Filter.FilterData | src/lib/data.ts:123-136 | the result holds every record that passes the platform, genre and week tests, as often as the input does, and nothing else |
| Filter.FilterIsSubsequence | src/lib/data.ts:129-135 | the result keeps the input order |
| Filter.FilterKeepsMatching | src/lib/data.ts:129-135 | input whose records all pass is returned unchanged |
| Filter.FilterUnrestricted | src/lib/data.ts:130-132 | no platform, no genre and an absent or empty week select the whole input |
| Filter.FilterIdempotent | src/lib/data.ts:129-135 | filtering twice with the same selection is filtering once |
| OrderedSets.Distinct | src/lib/data.ts:114 | `new Set(values)` read back holds each value once and exactly the values given |
| Facets.LeIsTotalOrder | src/lib/data.ts:115 | the string order used by `sort()` is total and transitive |
| Facets.StrictlyAscending | src/lib/data.ts:115 | sorted values without repeats ascend strictly |
| Facets.ReverseDescends | src/lib/data.ts:120 | reversing a strictly ascending list gives a strictly descending one with the same values, whose head is the greatest |
| Facets.AvailableGenres | src/lib/data.ts:113-116 | each genre of the input once, no other value, in strictly ascending order |
| Facets.AvailableWeeks | src/lib/data.ts:118-121 | each week of the input once, no other value, in strictly descending order; the first week is at least every week of the input |
| Facets.WeeksNewestFirst | src/lib/data.ts:118-121 | weeks 2024-01, 2024-03, 2024-02 come back as 2024-03, 2024-02, 2024-01 |
| Sorting.Sort | src/lib/data.ts:106-110 | the result is sorted by the comparator and is a permutation of the input; repeat-free input stays repeat-free |
| Sorting.Reverse | src/lib/data.ts:120 | element k of the result is element n-1-k of the input |
| Strings.LeTotal | src/lib/data.ts:109 | any two titles compare one way or the other |
| Strings.LeTransitive | src/lib/data.ts:109 | the title order is transitive |
| Strings.LeAntisymmetric | src/lib/data.ts:109 | titles that compare both ways are equal |
| Strings.LeReflexive | src/lib/data.ts:109 | every title compares to itself |
| Strings.JoinHasNo | src/lib/data.ts:142-153 | a joined text holds a character only if a part or the separator holds it |
| Strings.JoinStartsWithFirst | src/lib/data.ts:152 | a join of several parts begins with the first part and the separator |
| Strings.JoinEndsWithLast | src/lib/data.ts:152 | a join of several parts ends with the separator and the last part |
| Strings.JoinPartWithSeparator | src/lib/data.ts:152 | a part that holds the separator reads, once joined, as two parts |
| Strings.SplitJoin | src/lib/data.ts:142-153 | splitting a join of one or more parts on a separator that no part holds gives the parts back |
| Strings.NatToString | src/lib/data.ts:144 | the decimal text of a natural number is non-empty, all digits, with no leading zero |
| Strings.IntToString | src/lib/data.ts:146 | the text of an integer starts with '-' exactly when the integer is negative |
| Strings.ParseNatToString | src/lib/data.ts:144 | the decimal text of a natural number reads back as that number |
| Export.Fields | src/lib/data.ts:143-152 | a row has as many fields as the header has labels |
| Export.ExportText | src/lib/data.ts:141-155 | the text opens with the byte order mark; when no field holds a line break, the rest splits on line breaks into exactly 1 + n lines, the header line and then the row of each ranking in order |
| Export.ExportEmpty | src/lib/data.ts:139-155 | an empty ranking exports the header line alone |
| Export.HeaderColumns | src/lib/data.ts:139-142 | the header line splits back into the eight labels |
| Export.RowStartsWithPosition | src/lib/data.ts:143-144 | the row of the k-th entry (from 0) begins with k+1 and a comma |
| Export.RowEndsWithPlatforms | src/lib/data.ts:151-152 | a row ends with a comma and the entry's platforms joined by ';' |
| Export.RowColumns | src/lib/data.ts:143-152 | a row of fields without commas splits into its eight fields; the first reads back as the 1-based position; when the platforms are non-empty and none holds ';', the last splits back into them |
| Export.ExportLines | src/lib/data.ts:141-153 | when no field holds a line break, the text has 1 + n lines: the header, then the rows of the entries in order |
| Export.GroupedViewsSpill | src/lib/data.ts:143-152 | fields are not quoted: views that toLocaleString writes with grouping commas (1,234,567 is three groups) spill into one column per group, so the row has 7 + groups columns and the platform count and platforms sit groups - 1 columns right of their labels |
| Ranking.Points | src/lib/data.ts:68 | a record earns 11 - rank points, unclamped |
| Ranking.Sum | src/lib/data.ts:97 | the `reduce` that adds a list of numbers from 0 |
| Ranking.FirstBest | src/lib/data.ts:88-91 | the position bestRank/bestPlatform settle on: the first record's, replaced only by a later record with a strictly lower rank |
| Ranking.Gather | src/lib/data.ts:70-91 | the tally the forEach body leaves for a record's title: the existing tally, or a fresh one holding the record's rank and platform as best, then with the points and platform pushed, the genre added if absent, the views added and the best replaced on a strictly lower rank |
| Ranking.Tallies | src/lib/data.ts:67-92 | titleMap after the forEach body has run on every record, in order |
| Ranking.TitleOrder | src/lib/data.ts:67-92 | the key insertion order of that titleMap: a title joins when first seen |
| Ranking.ToRanking | src/lib/data.ts:95-103 | the `.map` callback: title, sum of the scores, platforms, best platform, first genre, total views, number of platforms |
| Ranking.RankedBefore | src/lib/data.ts:106-110 | holds when the comparator returns <= 0: higher score, or equal score and more views, or both equal and `Le(a.title, b.title)` |
| Filter.Matches | src/lib/data.ts:130-134 | the filter callback: platform listed or none selected, genre listed or none selected, and week equal or no week (absent or empty) selected |
| Records.GenresOf | src/lib/data.ts:114 | `data.map(item => item.genre)` |
| Records.WeeksOf | src/lib/data.ts:119 | `data.map(item => item.week)` |
| Strings.Le | src/lib/data.ts:109 | the title order of `localeCompare`, also the order of `sort()` at line 115: character by character, a prefix first |
| Strings.Join | src/lib/data.ts:151-153 | `Array.prototype.join`: the parts with the separator between neighbours, "" for no parts |
| Strings.JoinFlatten | src/lib/data.ts:149-152 | a field that is itself a join of one or more parts on the separator reads, once joined, as those parts |
| Export.Row | src/lib/data.ts:143-152 | one ranking's line: its eight fields joined by ',' |
| Export.Lines | src/lib/data.ts:141-153 | the header line followed by the row of each ranking with its 0-based index |
| Export.CsvContent | src/lib/data.ts:141-153 | csvContent: those lines joined by line breaks |

## Left out

- `loadPlatformData` and `loadAllData` (src/lib/data.ts:21-54) are not modelled. They fetch
  CSV files over the network, parse numbers with `parseInt`, and turn errors into empty lists.
- The download half of `exportToCSV` (src/lib/data.ts:155-163) is not modelled: the Blob, the
  link element and its click are browser side effects. The `filename` parameter is used only there.
- Export.Fields: `Number.prototype.toLocaleString` is a parameter `formatViews: int -> string`.
  Its locale-dependent grouping is not modelled.
- Strings.Le: `localeCompare(…, 'ko')` and the default order of `sort()` are both modelled
  as plain character-by-character order. Korean collation rules are not modelled. Neither is
  JavaScript's comparison of UTF-16 code units, which differs from code-point order for
  characters outside the Basic Multilingual Plane.
- Sorting.Sort: `Array.prototype.sort` is modelled as an insertion sort on values. Sorting in
  place is not modelled. The proofs give sortedness and permutation, not the stability of the
  engine's algorithm. No proof shows that the sorted order is unique, although the distinct
  titles make the comparator a strict total order.
- Ranking.GroupByTitle: `titleMap` is a Dafny `map` from titles to tally values, plus a `seq`
  for the key insertion order. The tally object that `titleMap.get` returns is mutated through
  an alias. The model rebinds the map entry instead: `Ranking.CountRecord` reads the tally (or
  starts a new one), builds the updated tally and writes it back in one step. The genre `Set`
  is a sequence with add-if-absent.
- JavaScript numbers are modelled as unbounded integers. Floating-point rounding and `NaN`
  ranks or views (what `parseInt` returns on bad input) are not modelled.
- The `platform` field is a string. Its TypeScript type names four platforms, but the loader
  casts whatever text it reads.
- The `region` field is carried but not used by the core, as in the source.
- `src/pages/Index.tsx` and the components are not part of this model. They hold the React
  state and URL parameters, and render the results.
