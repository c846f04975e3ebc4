# Android update analysis: merged method lineages and their cross-tabulation

This project models the core of Android-Update-Analysis. The system compares how an Android code base evolved along two lineages from a common ancestor. The **upstream** lineage is AOSP; the **fork** is CyanogenMod/LineageOS.

The model covers:

- **The lineage mapper** (`EvolutionAnalyser.discoverMappingForProject`, `combineMappings`). Four detectors run in a fixed order and their results are merged first-match-wins. Lineage is `lineage.dfy`; the merge is `combine.dfy`.
- **The cross-lineage aggregator** (`generateIntersectionsOfMappings`, `categorizeMappingTypes`, `filterMethodMapping`). It builds the table of upstream type × fork type, purges mutually identical changes from diagonal cells, counts deleted methods by their fork outcome, and counts newly added methods. Code is in `aggregation.dfy`, properties in `aggregation_properties.dfy`.
- **The report** (`writeToOutput`): the CSV lines the table is written as, and how the cells read back. See `report.dfy`.
- **The automation around it** (`CommitBasedAutomation`):
  - the rules for lines of the input CSV files and the set of paired repositories, where equality is by name (`input_csv.dfy`);
  - the choice of subsystems at a merge commit (`subsystems.dfy`);
  - the first-parent walk that collects AOSP merge commits, `populateMergeCommit`, and the analysis name (`merge_commits.dfy`).
- **The Java string operations the source relies on**: `trim`, `split` (trailing empty strings dropped), `toLowerCase`, `String.valueOf(int)` and `String.hashCode` (`java_strings.dfy`).

Methods that loop in the source are Dafny methods with loop invariants. Each is proved equal to a specification function, and lemmas state what those functions promise. The paired-repository set, which the source mutates, is a class.

What the code does, stated plainly where a reader might expect otherwise:

- **Row conservation.** The code conserves raw plus purged over a main row: the methods of that upstream type, all of them (`RowConservation`). The deleted row holds other methods. The total written at the end of a report line is the sum of the raw parts only (`ReportedTotal`).
- **Detector inputs.** The refactoring and argument-change detectors get the full old and new universes, together with the keys already mapped and the destinations already claimed. Only the body-change detector gets the filtered universes.
- **Added methods.** A method counts as added when its key (a signature string) differs from the `toString()` of every destination. The code does not compare identities.
- **No shared destinations.** "No two sources share a destination" is not enforced by the merge. It holds only when the detectors respect the claims they are given (`NoSharedDestination`).
- **The last report line** holds the added-method counts. Deleted methods are the NOT_FOUND row.

## Model

Paths are relative to the repository root. `EA` is `java/src/ca/ualberta/mehran/androidevolution/mapping/EvolutionAnalyser.java`; `CBA` is `java/src/ca/ualberta/mehran/androidevolution/repositories/CommitBasedAutomation.java`; both are spelled out in the table.

| member | source | states |
|---|---|---|
| MappingCombiner.CombineMappings | java/src/ca/ualberta/mehran/androidevolution/mapping/EvolutionAnalyser.java:404-416 | the loop computes the first-match fold of the mappings, taken in argument order |
| MappingCombiner.CombinedKeys | java/src/ca/ualberta/mehran/androidevolution/mapping/EvolutionAnalyser.java:407-412 | the merged key set is the union of the inputs' key sets |
| MappingCombiner.CombinedTakesEarliest | java/src/ca/ualberta/mehran/androidevolution/mapping/EvolutionAnalyser.java:407-412 | every key maps to the value of the earliest input that holds it |
| MappingCombiner.LaterNeverOverwrites | java/src/ca/ualberta/mehran/androidevolution/mapping/EvolutionAnalyser.java:409-411 | appending a mapping never changes a key already present |
| MappingCombiner.CombineStep | java/src/ca/ualberta/mehran/androidevolution/mapping/EvolutionAnalyser.java:375-395 | merging stage after stage in pairs equals merging all stages at once |
| LineageMapper.GetListOfDestinationMethods | java/src/ca/ualberta/mehran/androidevolution/mapping/EvolutionAnalyser.java:424-432 | d is in the result iff some mapping has destination d |
| LineageMapper.GetStringListOfDestinationMethods | java/src/ca/ualberta/mehran/androidevolution/mapping/EvolutionAnalyser.java:434-443 | s is in the result iff the destination of some mapping prints as s |
| LineageMapper.DestinationNamesMembers | java/src/ca/ualberta/mehran/androidevolution/mapping/EvolutionAnalyser.java:434-443 | the same membership, for the set function the aggregator uses |
| LineageMapper.DiscoverMappingForProject | java/src/ca/ualberta/mehran/androidevolution/mapping/EvolutionAnalyser.java:340-402 | runs the four detectors on exactly the inputs the source passes them, merges the results first-match-wins, and re-keys by signature: the keys are the signatures of the merged mapping, and each value is the mapping of an old method with that signature |
| LineageMapper.LineageIsFold | java/src/ca/ualberta/mehran/androidevolution/mapping/EvolutionAnalyser.java:358-395 | chaining the three pairwise merges is one first-match fold over the four stages in order |
| LineageMapper.LineagePriority | java/src/ca/ualberta/mehran/androidevolution/mapping/EvolutionAnalyser.java:358-395 | a method mapped by several stages keeps the mapping of the earliest (identical < refactoring < argument change < body change) |
| LineageMapper.IdenticalEntriesSurvive | java/src/ca/ualberta/mehran/androidevolution/mapping/EvolutionAnalyser.java:352-358 | what the identical detector found is never replaced |
| LineageMapper.LineageKeys | java/src/ca/ualberta/mehran/androidevolution/mapping/EvolutionAnalyser.java:358-395 | a method is mapped iff some stage maps it |
| LineageMapper.BodyStageInputsUnclaimed | java/src/ca/ualberta/mehran/androidevolution/mapping/EvolutionAnalyser.java:390-393 | the body-change detector sees exactly the old methods not yet mapped and the new methods no mapping has as destination |
| LineageMapper.CombineKeepsDistinct | java/src/ca/ualberta/mehran/androidevolution/mapping/EvolutionAnalyser.java:404-416 | merging a stage whose destinations are distinct and unclaimed keeps destinations distinct |
| LineageMapper.NoSharedDestination | java/src/ca/ualberta/mehran/androidevolution/mapping/EvolutionAnalyser.java:362-395 | if every detector keeps to the destinations it is told are claimed, no two old methods share a destination in the merged lineage |
| LineageMapper.KeyBySignature | java/src/ca/ualberta/mehran/androidevolution/mapping/EvolutionAnalyser.java:397-400 | the keys are the signatures, and each value is the mapping of some old method with that signature |
| LineageMapper.KeyBySignatureUnique | java/src/ca/ualberta/mehran/androidevolution/mapping/EvolutionAnalyser.java:397-400 | when signatures are unique, every old method's mapping is found under its signature |
| Aggregation.FilterMethodMapping | java/src/ca/ualberta/mehran/androidevolution/mapping/EvolutionAnalyser.java:264-278 | one bucket per type that occurs among the given keys, holding exactly the keys of that type (NOT_FOUND for keys the mapping lacks) |
| Aggregation.CategorizeMappingTypes | java/src/ca/ualberta/mehran/androidevolution/mapping/EvolutionAnalyser.java:250-262 | the mapping's own keys bucketed by their type |
| Aggregation.BucketsPartition | java/src/ca/ualberta/mehran/androidevolution/mapping/EvolutionAnalyser.java:267-276 | every key lies in the bucket of its own type, buckets hold nothing else, and no bucket is empty |
| Aggregation.BucketIsClass | java/src/ca/ualberta/mehran/androidevolution/mapping/EvolutionAnalyser.java:264-278 | looking up any type, present or not, gives the keys of that type |
| Aggregation.ClassSizesTotal | java/src/ca/ualberta/mehran/androidevolution/mapping/EvolutionAnalyser.java:264-278 | the class sizes over all types add up to the number of keys |
| AggregationProperties.BucketSizesTotal | java/src/ca/ualberta/mehran/androidevolution/mapping/EvolutionAnalyser.java:250-278 | the bucket sizes add up to the number of keys bucketed |
| Aggregation.CountPurged | java/src/ca/ualberta/mehran/androidevolution/mapping/EvolutionAnalyser.java:155-166 | 0 for IDENTICAL or when the diagonal bucket is absent; otherwise the number of diagonal methods whose two mappings are equal |
| Aggregation.PurgedStep | java/src/ca/ualberta/mehran/androidevolution/mapping/EvolutionAnalyser.java:158-165 | one step of the purge loop adds one exactly for a method present in both mappings with equal mappings |
| Aggregation.BuildRow | java/src/ca/ualberta/mehran/androidevolution/mapping/EvolutionAnalyser.java:171-187 | one cell per fork bucket: [size - purged, purged] on a diagonal other than IDENTICAL, [size] elsewhere |
| Aggregation.BuildMainRows | java/src/ca/ualberta/mehran/androidevolution/mapping/EvolutionAnalyser.java:146-189 | one row per upstream type that occurs, each built from that type's fork buckets and purge count |
| Aggregation.IncrementCount | java/src/ca/ualberta/mehran/androidevolution/mapping/EvolutionAnalyser.java:199-205 | the count of one type goes up by one, starting from 0 when absent; other types are unchanged |
| Aggregation.CountDeleted | java/src/ca/ualberta/mehran/androidevolution/mapping/EvolutionAnalyser.java:192-214 | the deleted row: the ancestor methods the upstream mapping lacks, counted once under their fork type (NOT_FOUND when the fork lacks them too) |
| Aggregation.CountsByForkTypeStep | java/src/ca/ualberta/mehran/androidevolution/mapping/EvolutionAnalyser.java:194-205 | counting one more deleted method keeps the row equal to the per-fork-type counts |
| Aggregation.DeletedStep | java/src/ca/ualberta/mehran/androidevolution/mapping/EvolutionAnalyser.java:193-213 | one step of the deletion loop preserves its invariant, for both mapped and unmapped methods |
| Aggregation.NewMethodsOf | java/src/ca/ualberta/mehran/androidevolution/mapping/EvolutionAnalyser.java:218-221 | the target keys that are not the printed name of any destination |
| Aggregation.CountMutualNew | java/src/ca/ualberta/mehran/androidevolution/mapping/EvolutionAnalyser.java:222-233 | mutual is the number of names new on both sides, identical the number of those with equal source text, and identical <= mutual |
| Aggregation.MutualNewStep | java/src/ca/ualberta/mehran/androidevolution/mapping/EvolutionAnalyser.java:224-232 | one step of the loop adds one to each counter exactly when the source's two tests pass |
| Aggregation.CountNewMethods | java/src/ca/ualberta/mehran/androidevolution/mapping/EvolutionAnalyser.java:217-238 | the ADDED row: ADDED = [mutual - identical, identical], NOT_FOUND = [upstream new], OTHER = [fork new] |
| Aggregation.GenerateIntersectionsOfMappings | java/src/ca/ualberta/mehran/androidevolution/mapping/EvolutionAnalyser.java:141-241 | the main rows, then the NOT_FOUND row replaced by the deleted row, then the ADDED row |
| AggregationProperties.TableRows | java/src/ca/ualberta/mehran/androidevolution/mapping/EvolutionAnalyser.java:149-238 | the table's rows are the upstream types that occur plus NOT_FOUND and ADDED; where each row comes from |
| AggregationProperties.PurgedSetMembers | java/src/ca/ualberta/mehran/androidevolution/mapping/EvolutionAnalyser.java:156-162 | a method is purged iff it lies in the diagonal cell and both lineages gave it the same mapping |
| AggregationProperties.MainRowCell | java/src/ca/ualberta/mehran/androidevolution/mapping/EvolutionAnalyser.java:171-187 | a main row has column t1 iff that cross bucket is non-empty, and the cell is built from that bucket |
| AggregationProperties.PurgedWithinDiagonal | java/src/ca/ualberta/mehran/androidevolution/mapping/EvolutionAnalyser.java:155-166 | purged <= the size of the diagonal cell |
| AggregationProperties.MainCells | java/src/ca/ualberta/mehran/androidevolution/mapping/EvolutionAnalyser.java:171-187 | the cells of a main row in terms of the cross buckets, with 0 <= purged <= raw + purged on the diagonal |
| AggregationProperties.MainCellTotal | java/src/ca/ualberta/mehran/androidevolution/mapping/EvolutionAnalyser.java:178-185 | raw plus purged of a main-row cell is the size of its bucket |
| AggregationProperties.RowConservation | java/src/ca/ualberta/mehran/androidevolution/mapping/EvolutionAnalyser.java:150-189 | for every main row, raw plus purged summed over all fork types is the number of upstream methods of that type |
| AggregationProperties.DeletedRowFacts | java/src/ca/ualberta/mehran/androidevolution/mapping/EvolutionAnalyser.java:192-214 | each cell of the deleted row counts the deleted methods of one fork type; nothing is purged; the cells add up to the number of deleted methods |
| AggregationProperties.DeletedRowCounts | java/src/ca/ualberta/mehran/androidevolution/mapping/EvolutionAnalyser.java:191-215 | the table's NOT_FOUND row is the deleted row, whatever the main loop put there |
| AggregationProperties.AddedRowCounts | java/src/ca/ualberta/mehran/androidevolution/mapping/EvolutionAnalyser.java:217-238 | the table's ADDED row, with 0 <= identical <= mutual <= the new methods of either side |
| AggregationProperties.NewCountsOrdered | java/src/ca/ualberta/mehran/androidevolution/mapping/EvolutionAnalyser.java:222-233 | identical <= mutual <= upstream new, and mutual <= fork new |
| AggregationProperties.MutualNewMembers | java/src/ca/ualberta/mehran/androidevolution/mapping/EvolutionAnalyser.java:218-225 | a name is mutually new iff both targets hold it and neither lineage has a destination printed that way |
| AggregationProperties.IdenticalMutualNewMembers | java/src/ca/ualberta/mehran/androidevolution/mapping/EvolutionAnalyser.java:227-229 | an identical mutual new method is a mutual one whose two source texts are equal |
| AggregationProperties.CellsNonNegative | java/src/ca/ualberta/mehran/androidevolution/mapping/EvolutionAnalyser.java:141-241 | no cell of the table is negative |
| Report.RenderRow | java/src/ca/ualberta/mehran/androidevolution/mapping/EvolutionAnalyser.java:107-125 | the line of one upstream type: a cell per reported fork type, with exceptions falling back to 0, then the total of the raw parts |
| Report.AddedLineReadsBack | java/src/ca/ualberta/mehran/androidevolution/mapping/EvolutionAnalyser.java:127-131 | when the ADDED row has its three cells, the added-method line is written, and its three cells read back to upstream new, fork new and (mutual minus identical, identical) |
| Report.WriteToOutput | java/src/ca/ualberta/mehran/androidevolution/mapping/EvolutionAnalyser.java:87-131 | the header of three counts, the five type lines in order, then the added-method line; None when that last line fails |
| Report.RowCellsAt | java/src/ca/ualberta/mehran/androidevolution/mapping/EvolutionAnalyser.java:111-123 | cell i renders column i as "raw", or as "raw(purged)" when purged is not 0 |
| Report.RowLinesAt | java/src/ca/ualberta/mehran/androidevolution/mapping/EvolutionAnalyser.java:107-126 | line k is the line of the k-th reported type |
| Report.TotalCell | java/src/ca/ualberta/mehran/androidevolution/mapping/EvolutionAnalyser.java:122-124 | the last cell of a line is the sum of the raw parts |
| Report.SplitTotal | java/src/ca/ualberta/mehran/androidevolution/mapping/EvolutionAnalyser.java:115-122 | the raw sum plus the purged sum is the row total, so the written total leaves purged methods out |
| Report.CellTextRoundTrip | java/src/ca/ualberta/mehran/androidevolution/mapping/EvolutionAnalyser.java:119-121 | a cell of non-negative numbers reads back to its raw and purged parts |
| Report.PlainCellRoundTrip | java/src/ca/ualberta/mehran/androidevolution/mapping/EvolutionAnalyser.java:119-120 | a cell without purged methods reads back to its count |
| Report.PurgedCellRoundTrip | java/src/ca/ualberta/mehran/androidevolution/mapping/EvolutionAnalyser.java:119-121 | a cell "raw(purged)" reads back to both numbers |
| Report.RowLineReadsBack | java/src/ca/ualberta/mehran/androidevolution/mapping/EvolutionAnalyser.java:111-123 | every cell written for a row of non-negative counts reads back to that row's cell |
| Report.MainRaw | java/src/ca/ualberta/mehran/androidevolution/mapping/EvolutionAnalyser.java:178-185 | the raw part of a main-row cell is its bucket less the purged methods on the diagonal |
| Report.MainRawSum | java/src/ca/ualberta/mehran/androidevolution/mapping/EvolutionAnalyser.java:111-122 | summed over distinct columns, the raw parts are the bucket sizes less the purge count when the diagonal is among the columns |
| Report.ReportedTotal | java/src/ca/ualberta/mehran/androidevolution/mapping/EvolutionAnalyser.java:107-124 | the total written for a main row is the upstream methods of that type whose fork type is reported, less the purged ones |
| Report.ReportLinesShape | java/src/ca/ualberta/mehran/androidevolution/mapping/EvolutionAnalyser.java:98-131 | whenever the added-method line exists, the output is seven lines: the header, the five type lines in order, then that line |
| Report.AddedLineOfTable | java/src/ca/ualberta/mehran/androidevolution/mapping/EvolutionAnalyser.java:127-131 | the added-method line of a generated table always exists and holds upstream new, fork new, and mutual minus identical with the identical count in parentheses |
| Report.GeneratedTableIsWritten | java/src/ca/ualberta/mehran/androidevolution/mapping/EvolutionAnalyser.java:87-131 | a table from generateIntersectionsOfMappings is always written in full: seven lines, the last giving upstream new, fork new, and mutual-minus-identical with the identical count in parentheses |
| InputCsv.ClassifyAgreesWithRecognised | java/src/ca/ualberta/mehran/androidevolution/repositories/CommitBasedAutomation.java:212-243 | the reader and the validator agree: a line is read iff the validator accepts it |
| InputCsv.IsValidInputCsvFile | java/src/ca/ualberta/mehran/androidevolution/repositories/CommitBasedAutomation.java:229-250 | true iff every line, trimmed, is blank, a comment, a version line, or has at least three cells |
| InputCsv.StringHash | java/src/ca/ualberta/mehran/androidevolution/repositories/CommitBasedAutomation.java:519-521 | String.hashCode over the UTF-16 code units, with 32-bit wrap-around: always within the int range |
| InputCsv.Utf16 | java/src/ca/ualberta/mehran/androidevolution/repositories/CommitBasedAutomation.java:519-521 | the UTF-16 encoding a Java String holds: at least one code unit per character, each below 0x10000 |
| InputCsv.SupplementaryCharHash | java/src/ca/ualberta/mehran/androidevolution/repositories/CommitBasedAutomation.java:519-521 | a character above U+FFFF is hashed as its two surrogates: the hash of "\U{1F600}" is 31 * 0xD83D + 0xDE00 |
| InputCsv.EqualRepositoriesHashAlike | java/src/ca/ualberta/mehran/androidevolution/repositories/CommitBasedAutomation.java:513-521 | repositories equal by name have equal hash codes |
| InputCsv.RepositorySet.constructor | java/src/ca/ualberta/mehran/androidevolution/repositories/CommitBasedAutomation.java:67 | an empty set of paired repositories |
| InputCsv.RepositorySet.Add | java/src/ca/ualberta/mehran/androidevolution/repositories/CommitBasedAutomation.java:513-521 | Set.add under name equality: added iff no repository of that name is present; an existing one is kept |
| InputCsv.ReadInputCsvFile | java/src/ca/ualberta/mehran/androidevolution/repositories/CommitBasedAutomation.java:207-227 | the set becomes the old set with the repository (first cell, third cell) of every data line added in file order |
| InputCsv.CollectPairedRepositories | java/src/ca/ualberta/mehran/androidevolution/repositories/CommitBasedAutomation.java:67-72 | the repositories of the valid files, file after file, invalid files skipped |
| InputCsv.KindsAt | java/src/ca/ualberta/mehran/androidevolution/repositories/CommitBasedAutomation.java:210-222 | line i is classified on its own |
| InputCsv.DataRepositoriesFromLines | java/src/ca/ualberta/mehran/androidevolution/repositories/CommitBasedAutomation.java:216-221 | a repository is read iff some data line names it |
| InputCsv.FileRepositoriesFromLines | java/src/ca/ualberta/mehran/androidevolution/repositories/CommitBasedAutomation.java:210-221 | a repository comes from a file iff some trimmed line is neither a comment nor a version line and has at least three cells, the first being the name and the third the URL |
| InputCsv.OnlyDataLinesAdd | java/src/ca/ualberta/mehran/androidevolution/repositories/CommitBasedAutomation.java:212-215 | blank, comment, version and malformed lines add nothing |
| InputCsv.AddAllAppend | java/src/ca/ualberta/mehran/androidevolution/repositories/CommitBasedAutomation.java:69-72 | reading two lists one after the other is reading their concatenation |
| InputCsv.AddAllKeepsNamesUnique | java/src/ca/ualberta/mehran/androidevolution/repositories/CommitBasedAutomation.java:513-521 | however many are added, no two collected repositories share a name |
| InputCsv.AddAllNames | java/src/ca/ualberta/mehran/androidevolution/repositories/CommitBasedAutomation.java:513-521 | the collected names are the names present before and those of the added repositories |
| InputCsv.FirstRepositoryWins | java/src/ca/ualberta/mehran/androidevolution/repositories/CommitBasedAutomation.java:513-521 | of several repositories with one new name, the first one read is kept |
| InputCsv.AddAllKeepsExisting | java/src/ca/ualberta/mehran/androidevolution/repositories/CommitBasedAutomation.java:220 | repositories already present stay |
| InputCsv.AddAllFrom | java/src/ca/ualberta/mehran/androidevolution/repositories/CommitBasedAutomation.java:220 | every collected repository was present before or was read |
| Subsystems.ConsiderManifest | java/src/ca/ualberta/mehran/androidevolution/repositories/CommitBasedAutomation.java:285-302 | a subsystem for an ancestor manifest iff it is in all three snapshots, its directory is not a test or example, and the directory's src is in all three |
| Subsystems.GetSubsystemsInRepository | java/src/ca/ualberta/mehran/androidevolution/repositories/CommitBasedAutomation.java:265-306 | exactly the subsystems of the selected manifests, one per manifest |
| Subsystems.SelectionStep | java/src/ca/ualberta/mehran/androidevolution/repositories/CommitBasedAutomation.java:284-303 | one step of the manifest loop preserves its invariant |
| Subsystems.SelectedSubsystemQualifies | java/src/ca/ualberta/mehran/androidevolution/repositories/CommitBasedAutomation.java:284-302 | each returned subsystem: its manifest is in all three snapshots; its path is dir + "/src" and is in all three; dir contains none of "/test", "Test" or (any case) "example"; its name is dir's last component |
| Subsystems.RootManifest | java/src/ca/ualberta/mehran/androidevolution/repositories/CommitBasedAutomation.java:287-289 | a manifest at the repository root names the subsystem "src" at "/src" |
| Subsystems.SubsystemNameIsLastComponent | java/src/ca/ualberta/mehran/androidevolution/repositories/CommitBasedAutomation.java:287 | any other subsystem is named after the last '/'-free component of its directory |
| Subsystems.ParentDirSplitsPath | java/src/ca/ualberta/mehran/androidevolution/repositories/CommitBasedAutomation.java:286-289 | a manifest path is its directory, a '/', and a file name without '/' |
| JavaStrings.TrimIsMaximalSlice | java/src/ca/ualberta/mehran/androidevolution/repositories/CommitBasedAutomation.java:211 | trim removes exactly the leading and trailing runs of characters <= ' ': what is cut is whitespace, and a non-empty result starts and ends with a character above ' ' |
| JavaStrings.TrimIdempotent | java/src/ca/ualberta/mehran/androidevolution/repositories/CommitBasedAutomation.java:404-405 | trimming twice is trimming once |
| JavaStrings.ToLower | java/src/ca/ualberta/mehran/androidevolution/repositories/CommitBasedAutomation.java:214 | toLowerCase keeps the length and lowers every character |
| JavaStrings.JoinPieces | java/src/ca/ualberta/mehran/androidevolution/repositories/CommitBasedAutomation.java:216-217 | cutting at every separator loses nothing: the pieces joined back are the line |
| JavaStrings.SplitIsPiecesPrefix | java/src/ca/ualberta/mehran/androidevolution/repositories/CommitBasedAutomation.java:216-217 | split keeps the leading pieces and drops only empty ones; when the separator occurs the last piece kept is not empty; without it the result is the input itself |
| JavaStrings.ParseNatToString | java/src/ca/ualberta/mehran/androidevolution/mapping/EvolutionAnalyser.java:119-121 | String.valueOf of a non-negative number reads back to that number |
| MergeCommits.ParentParsing | java/src/ca/ualberta/mehran/androidevolution/repositories/CommitBasedAutomation.java:403-424 | no record for an empty parent list; for a list with a space, the CM and AOSP parents are its first two words and the ancestor their trimmed merge base; otherwise the list is the CM parent alone |
| MergeCommits.ParentListMeaning | java/src/ca/ualberta/mehran/androidevolution/repositories/CommitBasedAutomation.java:405-423 | the same, for the trimmed list |
| MergeCommits.CollectUpstreamMerges | java/src/ca/ualberta/mehran/androidevolution/repositories/CommitBasedAutomation.java:385-400 | the loop collects the records of the walk that name AOSP merges, then reverses them |
| MergeCommits.FindUpstreamMergeCommits | java/src/ca/ualberta/mehran/androidevolution/repositories/CommitBasedAutomation.java:384-401 | from the trimmed head hash, at most 200 first-parent steps, populating each commit from git's output |
| MergeCommits.WalkStep | java/src/ca/ualberta/mehran/androidevolution/repositories/CommitBasedAutomation.java:388-397 | one step of the walk: stop without a record or a CM parent, else keep the record if it is a merge and go on to the CM parent |
| MergeCommits.Reverse | java/src/ca/ualberta/mehran/androidevolution/repositories/CommitBasedAutomation.java:399 | Collections.reverse: same length, element i is element n-1-i |
| MergeCommits.WalkKeepsMergesOfChain | java/src/ca/ualberta/mehran/androidevolution/repositories/CommitBasedAutomation.java:387-398 | the walk is the chain of visited commits with the non-merges dropped |
| MergeCommits.ChainFollowsParents | java/src/ca/ualberta/mehran/androidevolution/repositories/CommitBasedAutomation.java:387-397 | the chain starts at the head, follows CM parents, has at most as many commits as steps allow, and stops early only at a commit without a record or CM parent |
| MergeCommits.ChainLength | java/src/ca/ualberta/mehran/androidevolution/repositories/CommitBasedAutomation.java:387 | no more commits are visited than the step bound |
| MergeCommits.FirstParentHistory | java/src/ca/ualberta/mehran/androidevolution/repositories/CommitBasedAutomation.java:386-394 | with git as the lookup: the chain starts at the head hash; each record is what populateMergeCommit gives for its own hash; each next hash is the previous CM parent |
| MergeCommits.UpstreamMergesFacts | java/src/ca/ualberta/mehran/androidevolution/repositories/CommitBasedAutomation.java:389-393 | exactly the records with both an AOSP parent and an ancestor are kept |
| MergeCommits.UpstreamMergesInOrder | java/src/ca/ualberta/mehran/androidevolution/repositories/CommitBasedAutomation.java:389-393 | kept records keep their relative order |
| MergeCommits.OldestFirst | java/src/ca/ualberta/mehran/androidevolution/repositories/CommitBasedAutomation.java:399 | the returned list is oldest first: a later entry was visited earlier, nearer the head |
| MergeCommits.OnlyUpstreamMergesReturned | java/src/ca/ualberta/mehran/androidevolution/repositories/CommitBasedAutomation.java:387-399 | at most steps records are returned, each an AOSP merge visited on the chain |
| MergeCommits.StatusReadsBack | java/src/ca/ualberta/mehran/androidevolution/repositories/CommitBasedAutomation.java:137-159 | the analysis name ends in "nc" iff the merge replays without conflict |
| MergeCommits.AnalysisNamesDistinct | java/src/ca/ualberta/mehran/androidevolution/repositories/CommitBasedAutomation.java:155-159 | within one repository and subsystem, two merge commits share a name only if they share hash and status |

## Left out

- File I/O is left out, including CSVUtils quoting and joining. A report is its lines, each a list of cells; an input file is its lines.
- The exception handler around writeToOutput is left out. A failing added-method line gives None; the lines written before the exception are not modelled.
- The git commands are parameters:
  - what `git log -1 --format=%P` prints for a commit is the function `parentsOf`;
  - what `git merge-base` prints is `mergeBase`;
  - the head output of `git log -1 --format=%H` is a string.
- The rest of git and the file system is left out:
  - cloning, switching branches, resetting, and gitReplayAospMerge;
  - the replay's verdict is the boolean given to MergeStatus.
- Walking the checked-out trees is left out. Each snapshot is its manifest paths and all of its paths, relative to the repository root, as getAndroidManifestFiles collects them.
- The commit message is not read, so the tag it matches (aospTagName) is not modelled; AospMergeCommit has no tag field. Regular expressions are not modelled.
- The four detectors (SourcererCC, RefactoringMiner, ChangeDistiller, body change) are inputs. Each is a total function of exactly the arguments the source passes it. The class-by-qualified-name indexes are part of those functions. MethodMapping.java and MethodModel.java are not part of this model. A method is observed through its signature, its toString() and its source text, and MethodMapping equality is structural.
- Also left out: main, run, targetedRun, prepareForAnalysis, the loops of processRepository and processBranch, processCommit and processSubsystem beyond the analysis name, randomSample, filterAndSummerizeProjectModifiedMethods, discoverMappings, and logging. These are orchestration, I/O, or disabled sampling.
- genuineChangesMethodsIntersection (lines 157-165) only feeds the commented-out sampling, so it is not built.
- HashMap and HashSet iteration order is not modelled; the loops pick elements in an unspecified order.
  - GetSubsystemsInRepository promises its elements and their count, not their order.
  - KeyBySignature: when two old methods share a signature, the model does not say which one the iteration reaches last. It only promises that the value comes from one of them.
- Collections.reverse is the function Reverse applied to the collected sequence; the list is not reversed in place.
- Java's 32-bit int overflow is modelled for String.hashCode only. Counts and totals are unbounded integers.
- JavaStrings.ToLower: only the ASCII letters are lowered, where Java's toLowerCase covers all of Unicode. The model also assumes a default locale that lowers ASCII letters in the usual way. Under a Turkish or Azerbaijani locale, 'I' lowers to dotless 'ı', so a line such as "VERSIONS:" is not a version line in Java but is one in the model.
- Subsystems.SubsystemName: File paths are not normalised. A directory's name is its last '/'-separated component, and the repository root is recognised by an empty directory.
- PopulateMergeCommit: the null check on commonAncestorCommit can never fail, because trim never returns null. The model makes no distinction there.
- The walk lemmas are stated for any commit lookup. FirstParentHistory ties them to populateMergeCommit over git's output.
