# Statistical rarity core, modelled in Dafny

This project models the computational core of a statistical NFT rarity
calculator (`components/rarity/utils.ts`). A user uploads item records as JSON
or CSV. The core then:

- infers which field of a record holds its trait entries;
- lets the user choose which trait types count towards the score;
- scores every item by inverse frequency;
- ranks the items with competition ranking (10, 10, 8 → 1, 1, 3);
- exports the result as CSV.

Modules, following the functions of the source:

| module | file | models |
|---|---|---|
| `Wrappers` | wrappers.dfy | `Option` and `Result` |
| `Seqs` | seqs.dfy | generic sequence facts used by the proofs |
| `Text` | text.dfy | `trim`, `split`/`join` on one character, `includes`, ASCII `toLowerCase`, `String(n)` for integers |
| `JsValues` | values.dfy | JSON values as JavaScript sees them: objects as ordered property lists, truthiness, `String(v)` |
| `Ordering` | ordering.dfy | the default string `sort`, the stable comparator `sort`, insertion-ordered `Set`s |
| `TraitEntries` | trait_entries.dfy | the key-priority rules for a trait entry's type (`trait_type`, `traitType`, `type`, `name`) and value (`value`, `val`, `trait_value`) |
| `CsvImport` | csv_import.dfy | `detectTokenIdColumn`, `parseCsvForColumnSelection`, `parseCsvToJson` |
| `Schema` | schema.dfy | `validateSchema` |
| `AttributeField` | attribute_field.dfy | `analyzeAttributeField`, with its strided sample |
| `TraitStats` | trait_stats.dfy | `validateTraitTypes` |
| `RarityCounts` | rarity_counts.dfy | pass 1 of `calculateRarity`: the value and trait-count frequency tables |
| `RarityScores` | rarity_scores.dfy | pass 2 of `calculateRarity`: per-item breakdown and total |
| `Ranking` | ranking.dfy | the sort and the tie-aware rank loop, and `calculateRarity` as a whole |
| `CsvExport` | csv_export.dfy | `exportRarityResults` with `escapeCsvValue` and `toFixed(10)` |

Where the source loops and updates variables, the model is a method with a loop.
Each such method is proved equal to a specification function, for example
`Ranking.AssignRanks`, `CsvImport.BuildRecords` and
`CsvExport.ExportRarityResults`. The lemmas beside each function state what the
source promises about it. Scores are exact `real` numbers, so `n / count` is
exact.

Some behaviour of the code differs from what its own shape suggests. The model
follows the code:

- `validateSchema` reports every problem it finds in the `errors` list of its
  result (utils.ts:102-107, 112, 119, 149). A `null` first record is not
  reported there: `Object.entries(null)` at utils.ts:129 throws. That case is
  the `Failure` result of `Schema.ValidateSchema`. The function also accepts
  an array as the first element of a candidate field, because
  `typeof [] === 'object'`.
- `analyzeAttributeField` caps its sample size at 1000 records so that large
  datasets stay fast (utils.ts:161-162). The step it derives,
  `max(1, floor(n / min(1000, n)))` (utils.ts:163), is 1 for every `n` below
  2000, so up to 1999 records are examined
  (`AttributeField.SmallDataFullyScanned`).
- `validateTraitTypes` reads a value only when it is truthy, so a numeric `0`
  counts as "no value" there. The rarity engine keeps it as `"0"`
  (`TraitEntries.ZeroValueIsBlankForStats`, `TraitEntries.ZeroValueIsKeptForScoring`).
- The header cells of the export are not escaped; only row cells are. A trait
  type containing a comma therefore shifts the header columns.
  `CsvExport.HeaderSplits` states the alignment only for comma-free types.

## Model

| member | source | states |
|---|---|---|
| Text.Trim | components/rarity/utils.ts:29 | the result is no longer than the input, neither starts nor ends with JavaScript white space, and is empty exactly when the input is all white space |
| Text.TrimInfix | components/rarity/utils.ts:29 | the result is the part of the input between a leading and a trailing run of JavaScript white space |
| Text.TrimIdempotent | components/rarity/utils.ts:57 | trimming an already trimmed cell changes nothing |
| Text.Split | components/rarity/utils.ts:26 | `split` gives at least one piece, no piece holds the separator, and joining the pieces with it gives back the text |
| Text.SplitJoin | components/rarity/utils.ts:484 | splitting a line joined from separator-free pieces gives back the pieces |
| Text.ContainsOccurs | components/rarity/utils.ts:19 | `includes(p)` holds exactly when `p` occurs at some position |
| Text.DigitsRoundTrip | components/rarity/utils.ts:487 | the decimal rendering of a natural number reads back as that number |
| JsValues.GetDefined | components/rarity/utils.ts:173 | a property reads as defined exactly when `key in obj` holds |
| JsValues.PutReads | components/rarity/utils.ts:73-75 | after `obj[key] = v`, `obj[key]` is `v` and every other property reads as before |
| JsValues.PutKeys | components/rarity/utils.ts:88 | an assignment appends a new key at the end and keeps the key order otherwise |
| Ordering.StrLtTransitive | components/rarity/utils.ts:184 | the default string order is transitive |
| Ordering.StrLtTrichotomy | components/rarity/utils.ts:184 | any two strings are ordered one way, equal, or ordered the other way |
| Ordering.SortStrings | components/rarity/utils.ts:184 | `sort()` returns a sorted permutation of its input |
| Ordering.SortedUnique | components/rarity/utils.ts:184 | two sorted permutations of the same strings are equal |
| Ordering.SortStringsUnique | components/rarity/utils.ts:232 | any sorted permutation of the input is what `sort()` returns |
| Ordering.DistinctSpec | components/rarity/utils.ts:175 | a `Set` built by `add` holds each added element exactly once and nothing else |
| Ordering.DistinctSnoc | components/rarity/utils.ts:451 | `add` appends an element not yet present and otherwise changes nothing |
| Ordering.DistinctShorter | components/rarity/utils.ts:159-180 | a `Set` never holds more elements than were added to it |
| Ordering.PermutationKeepsNoDup | components/rarity/utils.ts:184 | rearranging a duplicate-free list keeps it duplicate-free with the same members |
| Ordering.SortDescSpec | components/rarity/utils.ts:236 | a comparator sort by a key, largest first, orders by that key and permutes its input |
| Ordering.SortDescStable | components/rarity/utils.ts:426 | the sort is stable: equal keys keep their input order |
| TraitEntries.FirstPresentSpec | components/rarity/utils.ts:173 | `keys.find(field => field in attr)` yields the first key the entry has, and nothing exactly when it has none |
| TraitEntries.NamesMembership | components/rarity/utils.ts:173-175 | a type name is read exactly when some entry carries it |
| TraitEntries.NamesAppend | components/rarity/utils.ts:193-228 | the names read from two runs of entries are the names of the first run, then of the second |
| TraitEntries.TwoFieldEntry | components/rarity/utils.ts:198-199 | an entry `{trait_type: t, value: v}` has type key `t` and value key `v` |
| TraitEntries.ZeroValueIsBlankForStats | components/rarity/utils.ts:203 | the trait validator reads a value `0` as no value |
| TraitEntries.ZeroValueIsKeptForScoring | components/rarity/utils.ts:303-307 | the rarity engine reads a value `0` as the value `"0"` |
| TraitEntries.FirstTypeKeyQuirk | components/rarity/utils.ts:173-174 | a falsy `trait_type` drops the entry even when `name` is set |
| CsvImport.FindTokenIdHeader | components/rarity/utils.ts:17-21 | the header found is the first whose lowercase form contains a token-id pattern; none is found exactly when no header does |
| CsvImport.DetectTokenIdColumn | components/rarity/utils.ts:15-22 | the same, with `null` for no match |
| CsvImport.CellsAreTrimmed | components/rarity/utils.ts:29 | every cell of a split line is already trimmed |
| CsvImport.ParseCsvForColumnSelection | components/rarity/utils.ts:25-46 | fails with the source's message exactly when fewer than two non-blank lines exist; otherwise returns the header cells, the cells of up to five data lines, the detected token-id column, no name column, no attribute columns and the name-selection step |
| CsvImport.PreviewRows | components/rarity/utils.ts:30-36 | the preview holds the cells of the lines after the header, in order, five at most |
| CsvImport.ApplyCellsAttributes | components/rarity/utils.ts:65-85 | a row's trait entries are exactly the entries of its non-empty attribute cells that are not the token-id or name column and do not read "none" in any case |
| CsvImport.RowItemShape | components/rarity/utils.ts:62-93 | every record carries its trait entries under `attributes`; its name is its last non-empty name cell, or else `Token #` followed by its last non-empty token-id cell, or by `i - 1` when it has none |
| CsvImport.LastRoleCellSpec | components/rarity/utils.ts:65-75 | the cell found for a role fills that role and no later cell does; none is found exactly when no cell fills it |
| CsvImport.ApplyCellReads | components/rarity/utils.ts:66-75 | a non-empty cell of the token-id column sets `tokenId`; otherwise a non-empty cell of the name column sets `name`; every other cell leaves both as they were |
| CsvImport.ApplyCellsRoles | components/rarity/utils.ts:65-85 | after the cell loop, `tokenId` and `name` hold the last non-empty cell of their column (a column chosen for both fills `tokenId`), and are unset when there is none |
| CsvImport.FinishRowShape | components/rarity/utils.ts:87-93 | the attributes are attached; a truthy name is kept, and a missing or falsy one becomes `Token #` followed by a truthy `tokenId`, or by `i - 1`; the name is always truthy |
| CsvImport.AttributeEntryReadsBack | components/rarity/utils.ts:79-82 | an entry made from an attribute cell reads back, for the analyzer and for the rarity engine, as its column and its value |
| CsvImport.CellTableAt | components/rarity/utils.ts:57 | row `k` of the cell table holds the cells of line `k` |
| CsvImport.KeptRowsMembership | components/rarity/utils.ts:59-60 | a data line becomes a record exactly when one of its cells is non-empty |
| CsvImport.KeptRowsIncreasing | components/rarity/utils.ts:56-96 | records keep the order of their lines |
| CsvImport.ParseRow | components/rarity/utils.ts:62-93 | the record built from one line is the record the row specification describes |
| CsvImport.BuildRecords | components/rarity/utils.ts:56-96 | one record per kept line, in line order, each built against the header line |
| CsvImport.ParseCsvToJson | components/rarity/utils.ts:49-99 | fails with the source's message exactly when fewer than two non-blank lines exist; otherwise returns one record per non-empty data line, in order |
| Schema.Entries | components/rarity/utils.ts:129 | `Object.entries` fails exactly on `null`, and for an object or array lists its keys in `Object.keys` order |
| Schema.CandidateKeysMembership | components/rarity/utils.ts:129-144 | a key is reported exactly when its value is a non-empty array whose first element is a non-null object with trait-like keys |
| Schema.CandidateKeysBound | components/rarity/utils.ts:128-146 | no more keys are reported than the record has properties |
| Schema.ValidateSchema | components/rarity/utils.ts:101-156 | the not-an-array and empty-array errors; failure exactly on a `null` first record; otherwise the item count, the sample, the candidate keys in property order, validity exactly when a candidate exists, and the error exactly when none does |
| Schema.TypicalRecordIsValid | components/rarity/utils.ts:130-141 | a record with an `attributes` list of `{trait_type, value}` entries passes, with `attributes` as its only candidate |
| AttributeField.Stride | components/rarity/utils.ts:162-163 | the sampling step is at least 1 |
| AttributeField.SmallDataStrideOne | components/rarity/utils.ts:162-163 | below 2000 records the step is 1 |
| AttributeField.LargeDataStride | components/rarity/utils.ts:162-163 | from 1000 records on, the step is `floor(n / 1000)` |
| AttributeField.StrideOneSamplesAll | components/rarity/utils.ts:165-180 | with step 1, the sample is every entry of every record |
| AttributeField.OffGridIrrelevant | components/rarity/utils.ts:165 | records off the sampling grid do not affect the result |
| AttributeField.AddNamesDistinct | components/rarity/utils.ts:170-178 | adding entries' names to a set gives the distinct names of all entries seen, in first-seen order |
| AttributeField.AddTypeNames | components/rarity/utils.ts:170-178 | one record's entries added to the set of type names |
| AttributeField.SampleTypeNames | components/rarity/utils.ts:159-180 | the set holds the distinct type names of the sampled records' entries, in first-seen order |
| AttributeField.AnalyzeAttributeField | components/rarity/utils.ts:158-187 | selected types are the distinct sampled names in first-seen order; available types are the same names, sorted |
| AttributeField.SelectedTypes | components/rarity/utils.ts:182-186 | each selected type appears once, and a type is selected exactly when some sampled entry names it |
| AttributeField.SmallDataFullyScanned | components/rarity/utils.ts:161-165 | under 2000 records, every entry of every record is examined |
| TraitStats.TallySnoc | components/rarity/utils.ts:205-223 | one more entry bumps the record of its own type and leaves every other record unchanged |
| TraitStats.AbsentTally | components/rarity/utils.ts:205-212 | a type no entry names has the fresh record |
| TraitStats.StepTallied | components/rarity/utils.ts:196-224 | reading one entry keeps the dictionary equal to the tally of the entries read |
| TraitStats.FoldTallied | components/rarity/utils.ts:193-228 | reading any run of entries keeps the dictionary equal to their tally |
| TraitStats.FoldAppend | components/rarity/utils.ts:193-228 | reading two runs of entries is reading the first, then the second |
| TraitStats.AddEntry | components/rarity/utils.ts:196-225 | one entry read into the dictionary |
| TraitStats.CountEntry | components/rarity/utils.ts:205-223 | the record is created on first sight, then counted |
| TraitStats.TallyEntries | components/rarity/utils.ts:196-226 | one record's entries read in order |
| TraitStats.TallyRecords | components/rarity/utils.ts:193-228 | after all records, the keys are the distinct type names in first-seen order, and each record is that type's tally |
| TraitStats.SortedRecords | components/rarity/utils.ts:231-233 | the records in key order, each with its values sorted |
| TraitStats.RecordsAreSummaries | components/rarity/utils.ts:230-236 | those records are the per-type summaries of the entries |
| TraitStats.ValidateTraitTypes | components/rarity/utils.ts:189-238 | the per-type summaries of every entry of every record, most frequent type first |
| TraitStats.ValuesWithinCount | components/rarity/utils.ts:214-217 | a type's count of entries with a value never exceeds its entry count |
| TraitStats.CountPositive | components/rarity/utils.ts:205-214 | a type is counted exactly when some entry names it |
| TraitStats.SummaryFacts | components/rarity/utils.ts:205-233 | each summary carries its name, its entry count (at least 1) and its count of valued entries; its unique values are sorted, each appears once, and they are exactly the non-blank values seen |
| TraitStats.SummariesShape | components/rarity/utils.ts:236 | before sorting, there is one summary per type, in first-seen order |
| TraitStats.SortedSummaries | components/rarity/utils.ts:236 | sorting keeps each summary once and matches each to its type |
| TraitStats.TraitTypesByCount | components/rarity/utils.ts:236 | the returned types are ordered by count, largest first |
| TraitStats.TraitTypesOnce | components/rarity/utils.ts:201-236 | every named type appears exactly once, with its own summary, and no other type appears |
| RarityCounts.FrequenciesSnoc | components/rarity/utils.ts:312-315 | counting one more occurrence is `if (!m[x]) m[x] = 0; m[x]++` |
| RarityCounts.FrequenciesMeaning | components/rarity/utils.ts:327-330 | a key is present exactly when it occurred, and it maps to its positive number of occurrences |
| RarityCounts.CountFoldPairs | components/rarity/utils.ts:298-323 | counting entries is counting the pairs read from them |
| RarityCounts.PairFoldSpec | components/rarity/utils.ts:298-323 | counting pairs adds them to the frequencies, and adds the selected ones to the selected count |
| RarityCounts.CountEntry | components/rarity/utils.ts:303-321 | one entry counted: its pair and, if its type is selected, the selected count |
| RarityCounts.CountPairs | components/rarity/utils.ts:294-324 | one record's pairs are added to the value frequencies; its selected count is the number of its pairs with a selected type |
| RarityCounts.CountOccurrences | components/rarity/utils.ts:278-331 | after pass 1, the value table is the frequency of every pair over all records, and the trait-count table is the frequency of each record's selected count |
| RarityCounts.HistogramTotal | components/rarity/utils.ts:326-330 | the trait-count table sums to the number of records |
| RarityCounts.RecordPairsCounted | components/rarity/utils.ts:311-315 | a record's pairs are among the pairs counted over all records |
| RarityScores.AssignLookup | components/rarity/utils.ts:378-383 | after `traits[t] = s`, `traits[t]` is `s` and every other line reads as before |
| RarityScores.CoveredMembers | components/rarity/utils.ts:374 | every pair of a covered record has a positive count |
| RarityScores.RecordCovered | components/rarity/utils.ts:374-396 | pass 1 counted every pair of every record and every record's selected count, so no division in pass 2 is by zero or undefined |
| RarityScores.ScorePairsCount | components/rarity/utils.ts:385-389 | pass 2's selected counter is the selected count of pass 1 |
| RarityScores.AssignTypes | components/rarity/utils.ts:378 | writing a line appends its type unless the type already has a line |
| RarityScores.ScorePairsTypes | components/rarity/utils.ts:363-392 | the breakdown has one line per type read, in first-seen order |
| RarityScores.LastValueSpec | components/rarity/utils.ts:378 | a type's last value is that of its last pair, and none exactly when no pair has the type |
| RarityScores.ScorePairsLookup | components/rarity/utils.ts:363-392 | the line of a type holds the score of that type's last pair, scored against its positive count |
| RarityScores.ScorePairsTotal | components/rarity/utils.ts:385-389 | the running total is the sum of `n / count` over the selected pairs, repeats included |
| RarityScores.ScorePairsWellScored | components/rarity/utils.ts:374-383 | every line of the breakdown has a positive count and scores `n / count` and `count / n * 100` |
| RarityScores.ScoreLaw | components/rarity/utils.ts:374-376 | score times count is `n`, score times percentage is 100, and both are positive |
| RarityScores.ScoredFacts | components/rarity/utils.ts:395-414 | the scored record keeps its item and index with rank 0; its `trait_count` line scores the record's selected count; its other lines are the breakdown; its total is the selected sum plus the `trait_count` score |
| RarityScores.ItemCountLine | components/rarity/utils.ts:395-404 | record `i`'s `trait_count` line scores its selected count against the number of records sharing that count |
| RarityScores.ItemTraitLine | components/rarity/utils.ts:371-383 | record `i`'s line for a type holds the score of its last value of that type, or is absent when it has none |
| RarityScores.ItemTotal | components/rarity/utils.ts:385-406 | record `i`'s total is `n / count` summed over its selected pairs, plus its `trait_count` score |
| RarityScores.ItemLines | components/rarity/utils.ts:359-413 | record `i`'s lines are its types in first-seen order, then `trait_count`, all well scored |
| RarityScores.RepeatedTypeQuirk | components/rarity/utils.ts:378-389 | two entries of one selected type both add to the total, while the breakdown keeps only the later value |
| RarityScores.ScoreEntry | components/rarity/utils.ts:363-391 | one entry read extends the scoring by its pair |
| RarityScores.ScoreAttributes | components/rarity/utils.ts:361-393 | a record's entries scored in order |
| RarityScores.ScoreRecord | components/rarity/utils.ts:355-414 | one record scored, its `trait_count` line written last |
| RarityScores.ScoreRecords | components/rarity/utils.ts:340-415 | pass 2 gives one result per record, in input order |
| Ranking.RanksStep | components/rarity/utils.ts:430-435 | rank 1 at the front, `i + 1` where the score differs from the one before, and the previous rank on a tie |
| Ranking.AssignRanks | components/rarity/utils.ts:428-436 | the loop sets every rank to the competition rank and changes nothing else |
| Ranking.RankCountsAbove | components/rarity/utils.ts:428-436 | on scores sorted largest first, a rank is one more than the number of strictly larger scores |
| Ranking.RankBounds | components/rarity/utils.ts:429-435 | the first rank is 1 and no rank exceeds its position plus one |
| Ranking.RankOrder | components/rarity/utils.ts:428-436 | equal scores share a rank, and a larger score has a smaller rank |
| Ranking.TiedRanksExample | components/rarity/utils.ts:428-436 | scores 10, 10, 8 are ranked 1, 1, 3 |
| Ranking.CalculateRarity | components/rarity/utils.ts:240-439 | the two passes, the sort and the rank loop give the pass 2 results, sorted and ranked |
| Ranking.RankedKeeps | components/rarity/utils.ts:435 | ranking changes only the ranks |
| Ranking.UnrankedIndices | components/rarity/utils.ts:408-414 | each pass 2 result carries its input position and rank 0 |
| Ranking.SortedResults | components/rarity/utils.ts:426 | the sorted results are a permutation of the pass 2 results, each the result of the record at its index |
| Ranking.RarityPermutes | components/rarity/utils.ts:426-438 | one result per record; rank aside, the results are a permutation of the pass 2 results, each the pass 2 result of the record at its index |
| Ranking.RarityOrdered | components/rarity/utils.ts:426 | results come largest score first, equal scores in input order |
| Ranking.RarityRanks | components/rarity/utils.ts:426-436 | each rank is one more than the number of strictly larger scores, and the first is 1 |
| CsvExport.Escape | components/rarity/utils.ts:459-464 | a value is left as it is exactly when it holds no comma, quote or line feed; otherwise it is wrapped in quotes |
| CsvExport.EscapeRoundTrip | components/rarity/utils.ts:457-465 | an escaped cell reads back as the text it was made from |
| CsvExport.UndoubleDoubleQuotes | components/rarity/utils.ts:462 | undoubling doubled quotes gives back the text |
| CsvExport.Scaled | components/rarity/utils.ts:491 | the value times 10^10, rounded to the nearest integer |
| CsvExport.FixedForm | components/rarity/utils.ts:491 | `toFixed(10)` of a non-negative score gives digits and a point with ten digits after it, no superfluous leading zero, and digits that read back as the rounded value times 10^10 |
| CsvExport.NegativeFixed | components/rarity/utils.ts:491 | a negative value is written as a minus sign and its magnitude |
| CsvExport.FixedNeedsNoQuoting | components/rarity/utils.ts:490-491 | a fixed-point score cell needs no quoting |
| CsvExport.IntNeedsNoQuoting | components/rarity/utils.ts:492 | a rank or count cell needs no quoting |
| CsvExport.LookupPresent | components/rarity/utils.ts:499-500 | `nft.traits[t]` is set exactly when `t` is one of its keys |
| CsvExport.TraitKeysMembership | components/rarity/utils.ts:449-453 | a key is collected exactly when some result has a line for it |
| CsvExport.ColumnTypesSpec | components/rarity/utils.ts:447-454 | the column types are sorted and duplicate-free, and a type has columns exactly when some result has a line for it |
| CsvExport.AddTraitTypes | components/rarity/utils.ts:450-452 | one result's keys added to the set |
| CsvExport.CollectTraitTypes | components/rarity/utils.ts:448-454 | the loop yields the sorted column types |
| CsvExport.TraitCountColumn | components/rarity/utils.ts:399 | a non-empty export always has `trait_count` columns |
| CsvExport.FlattenTripleAt | components/rarity/utils.ts:477-481 | group `k` of three cells starts at cell `3k` |
| CsvExport.BuildHeaders | components/rarity/utils.ts:468-481 | the five leading headers, then value, count and score headers per type, in order |
| CsvExport.FirstTruthySpec | components/rarity/utils.ts:487 | `a \|\| b \|\| ...` yields the first truthy property, and nothing exactly when none is truthy |
| CsvExport.PushTraitCells | components/rarity/utils.ts:498-515 | pushes the three cells of one trait type |
| CsvExport.BuildRow | components/rarity/utils.ts:486-516 | a row is the leading cells, then three cells per column type |
| CsvExport.PushRowLines | components/rarity/utils.ts:486-518 | one line per result is appended, in order |
| CsvExport.ExportCsv | components/rarity/utils.ts:445 | nothing is produced exactly when there are no results |
| CsvExport.ExportRarityResults | components/rarity/utils.ts:441-521 | the loops build the CSV text the export specification describes, and nothing for no results |
| CsvExport.RowWidth | components/rarity/utils.ts:468-515 | every row has as many cells as the header: five, then three per type |
| CsvExport.ColumnsAligned | components/rarity/utils.ts:476-515 | the three cells of each type sit under that type's three headers |
| CsvExport.RowStartsWithLead | components/rarity/utils.ts:489-495 | every row starts with the five leading cells |
| CsvExport.LeadCellsMeaning | components/rarity/utils.ts:489-495 | the leading cells are the escaped token id, the score with ten decimals, the rank, and two empty cells |
| CsvExport.TokenIdCell | components/rarity/utils.ts:487-490 | the token-id cell is the first truthy of `name`, `tokenId`, `token_id` and `id`, read back through the escaping; if none is truthy, it is the 1-based position |
| CsvExport.TraitCellsMeaning | components/rarity/utils.ts:498-514 | a type the result lacks gives three empty cells; otherwise the value cell reads back as the value's string form (a `null` value leaves it empty), the count cell is the count, and the score cell is empty exactly when the type is excluded from scoring and holds the score to ten decimals otherwise |
| CsvExport.HeaderCellsNoComma | components/rarity/utils.ts:468-481 | header cells of comma-free types hold no comma |
| CsvExport.HeaderSplits | components/rarity/utils.ts:484 | with comma-free types, the header line splits back into the header cells |

## Left out

- Progress reporting through `setCalculationProgress`, and the `setTimeout` yields between batches (utils.ts:271-288, 333-353, 418-423). They change no result and depend on a UI callback and a timer.
- The download at the end of `exportRarityResults` (utils.ts:523-533): the `Blob`, the object URL, the link and the file name with its timestamp. `CsvExport.ExportRarityResults` returns the CSV text that would be downloaded, or `None` where the source returns early.
- Floating point: scores are exact reals. Where IEEE rounding would make two mathematically equal totals differ, or two different ones equal, the model's ties and order may differ from the program's.
- CsvExport.FixedForm: `toFixed(10)` is modelled as round-half-up of the exact value. It does not model binary rounding, and values of 10^21 or more, which JavaScript writes in exponent form.
- JSON numbers are integers in the model (`JsValues.Value.Num`); `String(n)` of a fraction is not modelled. `String(n)` is written with all its digits, while JavaScript switches to exponent form from 10^21 on.
- `toLowerCase` is modelled on ASCII letters only.
- JavaScript orders integer-like object keys before the others; objects here keep plain insertion order. Each object is assumed to have distinct keys.
- Parsing JSON text (`JSON.parse` in the callers) is not part of this model. The core receives parsed values.
- The pre-pass of `calculateRarity` that creates an empty table per type (utils.ts:250-269) is folded in. It only prevents a lookup on a missing type, and the flat `(type, value)` frequency map makes that lookup total.
- `traitValueCounts` is modelled as one map keyed by `(type, value)` pairs instead of nested objects.
- The unused `itemTraits` object of pass 1 (utils.ts:295-309) is left out.
- For zero records, `analyzeAttributeField` computes the step `NaN` and its loop does not run; `AttributeField.Stride` returns 1 there, which gives the same empty result.
- Strings are sequences of characters. JavaScript compares UTF-16 code units, so the two orders differ only for characters outside the Basic Multilingual Plane.
- `field in attr` also sees inherited properties; the model sees own properties only.
- Plain objects used as dictionaries are modelled as maps without inherited keys. A trait type or value equal to the name of an `Object.prototype` member (`constructor`, `toString`, `valueOf`, `__proto__`, ...) is not modelled. On such names the source misbehaves: `validateTraitTypes` finds the inherited function at utils.ts:205 and throws at utils.ts:220; pass 1 counts `NaN` at utils.ts:312-315, which reaches the scores and totals; the export reads an inherited `traits[t]` at utils.ts:499 and throws; `__proto__` assigned at utils.ts:378 never becomes an own key.
- `undefined` is modelled as an absent property, or as `null` where a value is required.
- CsvExport.Escape: the contract states when a cell is quoted and that it reads back (`CsvExport.EscapeRoundTrip`), not the exact characters produced.
