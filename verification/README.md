# Verified model of the media server's core

A Dafny model of the parts of the media server where state, ordering and arithmetic interact: merging and rematching
titles, the media statistics, reference-counted images, the download queue, "more like this", marker replacement,
preferences, secrets, settings and rate limits, and of three tools kept beside it: the mutation tester, the lint for
sequential awaits and the title-matching hash table. `dafny verify dfyconfig.toml` checks the whole project.

The model keeps the form of the code. Repositories that change rows are classes with one field per table; loops are
methods with invariants; pure expressions are functions. Every such method is proved against a specification, and the
lemmas say what the specification is good for.

| Modules | What they model |
|---|---|
| `Catalog`, `MergePlanner`, `TvMerge`, `LinkMerge`, `MovieRows`, `TitleMerge` | tables with foreign keys, unique indexes and cascades; the merge planner, its statements, the rows of movies and the merge transaction |
| `Rematch` | folding every conflicting title into one and rewriting its identity and relations under field locks |
| `CodeMask`, `MaskLiterals`, `ImportReach`, `SitePatterns`, `Doubles`, `MutationSites`, `CrashRecovery` | the mutation tester: masker, what its literals are, import search, patterns, whole numbers as doubles, mutation sites, sampling, recovery record |
| `OpenAddressing` | the bigram table with linear probing in 32-bit cells, against a plain frequency map |
| `ImageStore` | image rows, the six kinds of pointers to them, and the file cache |
| `Sums`, `MediaStats` | incremental counters against a recount |
| `Downloads` | the guarded steps of concurrent download workers |
| `SourceTraits`, `SimilarTitles` | loading and collecting the traits of a title; the weighted trait query, its ranking and its pages |
| `Markers` | scoped replacement of markers, one file or many |
| `ValueCodecs`, `Preferences`, `Secrets` | codecs of stored values; sparse overrides through them; the secrets file and its boot protocol |
| `SettingsMemo`, `RateOverrides` | the runtime settings layer, the revision memo, the route budget overrides |
| `AwaitScan` | runs of awaits, their markers, the pairs and the stale markers reported |
| `Text`, `Ordering`, `Chunking`, `Counting`, `Folding` | trimming, splitting, decimal numbers, stable sorting, chunks of a list, facts about sizes, a key that folds long facts |

## Where the code keeps a promise only under a condition

The exact condition is proved over all inputs, and a lemma names an input on which it fails.

- A merge commits if and only if no file of one title competes with a file of the other for the same slot: two default
  files for one movie or episode, or one path for one episode. Otherwise a unique index of `media_files` rejects a
  repoint and the transaction rolls back (`TitleMerge.MergeRepository.Merge`, `Rematch.TwoDefaultFilesClash`).
- A rematch commits if and only if the files of the target and all conflicts are pairwise free of such clashes and no
  remaining title has the mix of locked and provider values. The mix can be taken only when exactly one of title and
  release date is locked, because the conflict query looks for the provider's values, not for the values that will be
  written (`Rematch.RewriteIsUnique`, `Rematch.LockedTitleMeetsThird`).
- The row of a movie keeps the key it was made under. A title that comes to have the stable key another title had takes
  that title's row over if and only if it has none itself, and with it the other title's films; if it has one, the call
  fails. Neither happens while no title with such a row has changed its stable key, as a rematch does
  (`MovieRows.FindOrCreateByMetadataId`, `MovieRows.TakesOverIff`, `MovieRows.StaysCurrentIff`, `MovieRows.OldKeyTakesRow`).
- A mutation run that meets no living owner of the record and no throwing restoring write, and whose records can be
  written, is crash-safe at every instant, whatever other write throws. A second run that is refused while the first
  holds a mutant, or a claim whose restoring write throws, exits through the exit hook, which removes the record: the
  disk then stays sound if and only if no file is mutated. A run that cannot write its record rewrites an intact file
  on exit: the file survives if and only if that write finishes or leaves the source
  (`CrashRecovery.MutationRun.ClaimWorkspace`, `CrashRecovery.MutationRun.JudgeMutant`,
  `CrashRecovery.RefusalLosesOriginal`, `CrashRecovery.FailedClaimLosesOriginal`,
  `CrashRecovery.FailedRecordLosesOriginal`).
- A mutant changes its module unless it counts up a number that prints as it stands and is a double from 2^54 on, or from
  2^53 on a multiple of four (`MutationSites.MutantIsAChangeIff`, `MutationSites.RoundedNumberStays`).
- The bigram table stores codes in 32-bit signed cells but compares them unconverted. A pair that starts at U+8000 or
  above is never found, and its wrapped code can be the marker of a one-letter title. Table and frequency map agree if
  and only if the two titles share no pair from U+8000 on and the first is not one letter whose marker such a pair of the
  second wraps to (`OpenAddressing.TableRefinesMapIff`, `OpenAddressing.EqualTitlesMayNotMatch`,
  `OpenAddressing.UnlikeTitlesMayMatch`).
- Saving an image fails if and only if one row has its stable key and another its path, or the new id is taken. A fresh
  file cache is stale after a replacement if and only if the row the upsert is going to reuse is cached, is not among the
  owner's previous images, and reads differently from the new image (`ImageStore.UpsertIsUniqueIff`,
  `ImageStore.TwoRowsMayMatch`, `ImageStore.CacheIsFreshIff`, `ImageStore.CacheMayGoStale`).
- Incremental statistics count truthy fields, a rebuild counts non-null ones: they agree if and only if no file has an
  empty string as movie id, episode id or quality tag (`MediaStats.RebuildAgreesIff`, `MediaStats.EmptyTagIsDrift`).
- A claim counts the slots of the profile it names, which need not be the row's own. The row's profile stays within its
  slots if and only if it had one free (`Downloads.ClaimKeepsSlotsIff`, `Downloads.ForeignClaimOverfills`).
- A producer of markers that runs again replaces what its first run left if and only if its first markers named no plugin
  or source other than its own; a marker of another name stays and piles up (`Markers.RunAgainIff`,
  `Markers.ForeignMarkerStays`).
- A preference reads back as written if and only if it is trimmed and non-empty, within range, one of the options, or a
  list of trimmed non-empty texts (`ValueCodecs.RoundTripIff`, `ValueCodecs.PaddedTextIsLost`); a secrets file if and
  only if its values are trimmed, non-empty and of one line (`Secrets.RoundTripIff`, `Secrets.PaddedSecretIsLost`).
- The check made when rate-limit overrides are saved lists exactly the entries the lookups ignore if and only if no entry
  the lookups use holds a second equals sign; such an entry is reported and used (`RateOverrides.ReportAgreesIff`,
  `RateOverrides.BudgetIsReportedIff`, `RateOverrides.ReportedBudgetApplies`).

## Model

| member | source | states |
|---|---|---|
| MergePlanner.IdentityKeyExact | src/repositories/metadata-merge.repository.ts:28-31 | the printed episode identity tells apart exactly type and number, a missing type counting as the empty one |
| MergePlanner.PlanTvShowMerge | src/repositories/metadata-merge.repository.ts:34-83 | the nested loops return the lists that collect one decision per row, in row order |
| MergePlanner.EveryRowTreatedOnce | src/repositories/metadata-merge.repository.ts:57-80 | each source season gets exactly one of transfer and delete, each episode of a matched season exactly one of repoint and move, in the order the rows came |
| MergePlanner.ListsHoldDecisions | src/repositories/metadata-merge.repository.ts:66-79 | an id is in a list of the plan if and only if that was the decision for it, under the owner of that decision |
| MergePlanner.SeasonDecided | src/repositories/metadata-merge.repository.ts:57-64 | a season of the source is deleted exactly when the target has its number and transferred otherwise |
| MergePlanner.EpisodeDecided | src/repositories/metadata-merge.repository.ts:66-79 | every episode of a matched source season is repointed or moved |
| MergePlanner.DecisionsFit | src/repositories/metadata-merge.repository.ts:57-80 | every decision means for the tables what its list stands for: twins by season number and by (number, type, episode number) |
| MergePlanner.PlannerPlans | src/repositories/metadata-merge.repository.ts:34-83 | run on the rows of a database, the planner returns the merge plan of that database |
| MergePlanner.PlannerOwnersAgree | src/repositories/metadata-merge.repository.ts:66-79 | no episode is listed under two owners, so the statements can run in any order of the owners |
| TvMerge.NoFileIsLost | src/repositories/metadata-merge.repository.ts:149-178 | after any part of the plan that respects the statement order, every file is still there and every constraint holds, unless two files clash for a slot |
| TvMerge.KeysStayHeld | src/repositories/metadata-merge.repository.ts:149-178 | no foreign key dangles in any intermediate state |
| TvMerge.SeasonsStayUnique | src/repositories/metadata-merge.repository.ts:168-176 | (title, season number) stays unique in every intermediate state |
| TvMerge.EpisodesStayUnique | src/repositories/metadata-merge.repository.ts:162-176 | (season, type, number) stays unique in every intermediate state |
| TvMerge.FilesStayUnique | src/repositories/metadata-merge.repository.ts:153-160 | the four unique indexes of media files hold after any repoints when no files clash |
| TvMerge.ClashIsCaught | src/repositories/metadata-merge.repository.ts:153-160 | once all repoints have run, a clash between the two titles shows as an index violation: the merge aborts on every clash |
| TvMerge.RepointStep | src/repositories/metadata-merge.repository.ts:153-160 | one chunk of a repoint statement, with episode ids as keys, is one more part of the plan done |
| TvMerge.MoveStep | src/repositories/metadata-merge.repository.ts:162-166 | the same for a move statement |
| TvMerge.TransferStep | src/repositories/metadata-merge.repository.ts:168-170 | the same for the transfer statement |
| TvMerge.DropEpisodesStep | src/repositories/metadata-merge.repository.ts:172-174 | deleting matched episodes cascades into no file, because their files were repointed first |
| TvMerge.DropSeasonsStep | src/repositories/metadata-merge.repository.ts:176 | deleting matched seasons cascades into no episode and no file |
| TvMerge.SeasonsAreEmpty | src/repositories/metadata-merge.repository.ts:172-176 | once moves and episode deletions are done no episode is left in a matched season |
| TvMerge.RetagStep | src/repositories/metadata-merge.repository.ts:178 | the last statement gives the remaining files of the source the target's id |
| TvMerge.SeasonsAreUnion | src/repositories/metadata-merge.repository.ts:134-179 | the target ends with the union of the season numbers, its own rows untouched, nothing invented |
| TvMerge.EpisodesAreUnion | src/repositories/metadata-merge.repository.ts:134-179 | per season the target ends with the union of the episode identities, its own rows untouched, nothing invented |
| TvMerge.FilesAreCarriedOver | src/repositories/metadata-merge.repository.ts:134-179 | every source file ends under the target in the slot it had, path and default flag kept; other files do not change |
| TvMerge.MergeStaysConsistent | src/repositories/metadata-merge.repository.ts:134-179 | afterwards every file fits its title again |
| LinkMerge.JoinKeepsEveryLink | src/repositories/metadata-merge.repository.ts:85-89 | the joined links hold a pair if either title had it, the target's value wins, other titles keep theirs |
| LinkMerge.MergeJunctionTable | src/repositories/metadata-merge.repository.ts:205-240 | deleting duplicates and re-keying the rest yields the joined links |
| LinkMerge.MergeCollectionMemberships | src/repositories/metadata-merge.repository.ts:185-203 | re-keying alone yields the joined links once the source row's leftovers cascade away |
| Catalog.ChunksCompose | src/integrations/drizzle-orm/query/table-access/chunking.utils.ts:42-60 | running a statement for consecutive chunks of ids is running it once for all of them |
| TitleMerge.MovieClashIsExact | src/repositories/metadata-merge.repository.ts:127-130 | repointing the films keeps the file indexes if and only if no two files clash |
| TitleMerge.FilmsAreFolded | src/repositories/metadata-merge.repository.ts:114-132 | after the movie statements every file is carried over and the source has no movie row, with no file lost to the cascade |
| TitleMerge.ShowsAreFolded | src/repositories/metadata-merge.repository.ts:134-179 | the executed plan folds everything below the source into the target and keeps integrity |
| TitleMerge.FinishedIsMerged | src/repositories/metadata-merge.repository.ts:97-102 | joining the links and deleting the source row turns the folded tables into the merged ones |
| TitleMerge.MergeRepository.ForEachChunked | src/integrations/drizzle-orm/query/table-access/chunking.utils.ts:42-60 | one statement per chunk comes to one statement for all ids, or stops at the first rejected chunk; every recorded state is that of a prefix |
| TitleMerge.MergeRepository.MergeTvShowData | src/repositories/metadata-merge.repository.ts:134-179 | succeeds if and only if no files clash; then everything is folded and every intermediate state kept all files and constraints |
| MovieRows.FindOrCreateByMetadataId | src/repositories/movies.repository.ts:36-59 | comes back with the row that has the key, else the title's row with its key repaired, else a new one; fails if and only if another title holds the key and the title has a row |
| MovieRows.TakesOverIff | src/repositories/movies.repository.ts:54-55 | a call that succeeds takes the row of another title if and only if that title holds the key |
| MovieRows.OwnIdsStay | src/repositories/movies.repository.ts:45-48 | whatever key is used, keys made from ids stay with their titles |
| MovieRows.OwnIdIsFree | src/repositories/metadata-merge.repository.ts:121 | so no row has the key made from the id of a title without a row: the merge inserts |
| MovieRows.CurrentTakesNothing | src/repositories/movies.repository.ts:45-48 | while every row's key is made from the current stable key of its title or from an id, a call with the stable key of its title takes no row over and keeps it so |
| MovieRows.StaysCurrentIff | src/repositories/metadata-persistence.repository.ts:131-140 | a title that changes its stable key leaves the keys current if and only if its row is not made from a stable key |
| MovieRows.OldKeyTakesRow | src/repositories/movies.repository.ts:50-58 | a concrete row that a new title with the old stable key takes over |
| TitleMerge.MergeRepository.FindOrCreateMovie | src/repositories/metadata-merge.repository.ts:116-121 | the target ends with a movie row, found or inserted, no file changes and the keys of movie rows keep fitting |
| TitleMerge.MergeRepository.MergeMovieMediaFiles | src/repositories/metadata-merge.repository.ts:114-132 | the same for movies, whose target gets a movie row when it has none |
| TitleMerge.MergeRepository.MergeLinksAndDelete | src/repositories/metadata-merge.repository.ts:97-102 | the link statements and the delete finish the merge; no statement of them loses a file |
| TitleMerge.MergeRepository.Merge | src/repositories/metadata-merge.repository.ts:91-106 | a merge commits if and only if no file of one title competes with one of the other; committed, the tables are merged and no step lost a file; rejected, nothing changed; the keys of movie rows keep fitting |
| Rematch.FoldOneMore | src/repositories/metadata-persistence.repository.ts:121-129 | one more merge extends the folding of any number of titles to one more title |
| Rematch.ClashesAddUp | src/repositories/metadata-persistence.repository.ts:121-129 | after some folding the target clashes with a title exactly if it or a folded title did at the start |
| Rematch.RewriteIsUnique | src/repositories/metadata-persistence.repository.ts:131-140 | writing the new identity breaks a unique index of titles if and only if a remaining title has the mix of locked and provider values |
| Rematch.WholeIdentityIsFree | src/repositories/metadata-persistence.repository.ts:335-347 | with both or neither of title and release date locked the mix is never taken |
| Rematch.LockedTitleMeetsThird | src/repositories/metadata-persistence.repository.ts:335-347 | a concrete catalog where a locked title with the provider's date meets a third title, so the rematch is rejected |
| Rematch.RowsAreRematched | src/repositories/metadata-persistence.repository.ts:131-140 | each of the eight lockable columns keeps its value while its own lock is set, else takes the provider's value where one is given; kind and other titles stay, the stable key is the provider's |
| Rematch.LocksDecideRow | src/repositories/metadata-persistence.repository.ts:335-347 | the locks leave one possible row |
| Rematch.LockedOverviewStays | src/repositories/metadata-persistence.repository.ts:335-347 | a locked overview stays although the provider gives another, and is replaced without the lock |
| Rematch.TwoDefaultFilesClash | src/repositories/metadata-merge.repository.ts:127-130 | a concrete pair of movies, each with a default file, whose merge the default-file index rejects |
| Rematch.LockDecidesRelation | src/repositories/metadata-persistence.repository.ts:271-308 | of a locked relation every row survives and none is added; of an unlocked one exactly the provider's rows remain |
| Rematch.RelationsFollowLocks | src/repositories/metadata-persistence.repository.ts:271-308 | under the lock name of each relation, and both names of companies, the target's rows stay or are exactly the provider's; rows of folded titles are gone, those of other titles stay |
| Rematch.MembershipsFollowLock | src/repositories/metadata-persistence.repository.ts:284-331 | locked, the collections are those folded together; unlocked, the target's are exactly the provider's |
| Rematch.RematchRepository.SelectConflicts | src/repositories/metadata-persistence.repository.ts:104-119 | the query returns each conflicting title once |
| Rematch.RematchRepository.FoldConflicts | src/repositories/metadata-persistence.repository.ts:121-129 | the loop folds all conflicts, and succeeds if and only if no two of the titles have clashing files |
| Rematch.RematchRepository.DeleteUnlockedRelations | src/repositories/metadata-persistence.repository.ts:271-281 | exactly the unlocked relations of the title are emptied |
| Rematch.RematchRepository.InsertUnlessLocked | src/repositories/metadata-persistence.repository.ts:292-308 | one processor adds the provider's rows of its relation, or nothing when the relation is locked; the other relations do not change |
| Rematch.RematchRepository.InsertUnlockedRelations | src/repositories/metadata-persistence.repository.ts:284-331 | the processors, each skipped when its lock is set, add the provider's rows to every unlocked relation and touch no locked one |
| Rematch.RematchRepository.RematchProviderMetadata | src/repositories/metadata-persistence.repository.ts:83-156 | commits if and only if no files clash and the mixed identity is free; then all files of target and conflicts belong to the target, locked columns and relations keep their values, titles are unique and every constraint holds; otherwise nothing changed |
| Rematch.Run | src/repositories/metadata-persistence.repository.ts:83-156 | over any run of rematches, failed ones included, integrity and unique titles are kept, no file is lost and every file keeps path, flag and slot |
| CodeMask.MaskCode | scripts/mutation-test.script.ts:354-359 | the imperative masker computes the overlay of the scanned spans |
| CodeMask.MaskState.ScanCodeFrom | scripts/mutation-test.script.ts:371-408 | returns the end of the scanned code and overwrites exactly its spans, through the mutual recursion |
| CodeMask.MaskState.ScanLiteral | scripts/mutation-test.script.ts:419-432 | blanks a literal when one starts here, changes nothing otherwise |
| CodeMask.MaskState.ScanTemplateFrom | scripts/mutation-test.script.ts:435-452 | blanks template text, scans each substitution as code, returns where the template ends |
| CodeMask.MaskState.BlankRange | scripts/mutation-test.script.ts:455-462 | blanks one span, line breaks kept, literals only on request |
| CodeMask.CodeIsCovered | scripts/mutation-test.script.ts:371-408 | the spans lie in order inside the scanned range and everything they leave is plain code; a scan outside a substitution reaches the end of the source |
| CodeMask.MaskedCodeIsPlain | scripts/mutation-test.script.ts:349-359 | with literals blanked no quote, backtick or comment start is left anywhere |
| CodeMask.MaskedKeepsPositions | scripts/mutation-test.script.ts:349-353 | length and every line break are kept; each position is the source's or blank |
| CodeMask.OnlyCommentsAreBlanked | scripts/mutation-test.script.ts:292-294 | with literals kept, every changed position lies inside a comment found by the scan, which overlaps no literal |
| CodeMask.KeptIsInNoSpan | scripts/mutation-test.script.ts:455-462 | no visible text of a comment or literal is left when literals are blanked |
| CodeMask.BlankingLiteralsAddsBlanks | scripts/mutation-test.script.ts:349-359 | blanking literals too only adds blanks |
| CodeMask.UnblankedMatchIsSource | scripts/mutation-test.script.ts:517-529 | a blank-free stretch of the masked text is the source at the same place |
| CodeMask.PlainCodeIsKept | scripts/mutation-test.script.ts:371-408 | code without quotes, backticks and slashes is not touched |
| MaskLiterals.QuotedEndIsExact | scripts/mutation-test.script.ts:482-494 | a quoted literal runs from its quote to the first unescaped equal quote, newline or end of the source |
| MaskLiterals.QuotedEndsOnce | scripts/mutation-test.script.ts:482-494 | there is one such end |
| MaskLiterals.RegexEndIsExact | scripts/mutation-test.script.ts:496-509 | a regular expression ends past its first unescaped slash outside a class and the flags behind it, or at a newline or the end |
| MaskLiterals.RegexEndsOnce | scripts/mutation-test.script.ts:496-509 | there is one such end |
| MaskLiterals.TemplateIsExact | scripts/mutation-test.script.ts:435-452 | the stretches of a template run between backticks and substitutions, each ended by the first that stands unescaped |
| MaskLiterals.TextEndsOnce | scripts/mutation-test.script.ts:435-452 | each stretch has one end |
| MaskLiterals.SubstitutionCloses | scripts/mutation-test.script.ts:371-408 | a substitution ends past the first brace that closes more than was opened in its code |
| MaskLiterals.OnlyCommentsAndLiteralsAreBlanked | scripts/mutation-test.script.ts:349-359 | with literals blanked, every changed position lies in a comment, a quoted text, a regular expression where one may stand, or a stretch of a template |
| MaskLiterals.KeptSlashDivides | scripts/mutation-test.script.ts:419-432 | a slash that stays in place stands where no regular expression may |
| ImportReach.ReachedModules | scripts/mutation-test.script.ts:303-322 | reports exactly the production modules other than the start that imports reach, each with its shortest import chain, nearest first |
| ImportReach.Search | scripts/mutation-test.script.ts:305-314 | the loop over the growing queue terminates with every listed file expanded and hop counts rising |
| ImportReach.HopsAreDistances | scripts/mutation-test.script.ts:305-314 | a fully expanded hop map holds exactly the reachable files with their distances |
| ImportReach.NoShorterWalk | scripts/mutation-test.script.ts:307-313 | no import chain is shorter than the recorded hops |
| ImportReach.SubjectsAreReported | scripts/mutation-test.script.ts:316-319 | filtering keeps exactly the production modules other than the start |
| MutationSites.PatternSites | scripts/mutation-test.script.ts:517-529 | the finder returns the matches that are the source's own text, in order |
| MutationSites.PatternSitesAreReal | scripts/mutation-test.script.ts:522-524 | every site's `before` is the source slice at its index |
| MutationSites.UnblankedMatchesAreSites | scripts/mutation-test.script.ts:522-524 | a match without blanks in the masked text is always a site |
| MutationSites.ClosingParen | scripts/mutation-test.script.ts:546-558 | the counting loop returns the first parenthesis that closes the count |
| MutationSites.ClosingIsTheMatch | scripts/mutation-test.script.ts:546-558 | that parenthesis is the matching one, and none is returned only when there is none |
| MutationSites.ConditionIsBalanced | scripts/mutation-test.script.ts:531-541 | what lies between a parenthesis and its match is balanced |
| MutationSites.ConditionSites | scripts/mutation-test.script.ts:532-544 | the loop returns one negation per closed, non-blank condition |
| MutationSites.ConditionSitesAreExact | scripts/mutation-test.script.ts:532-544 | a site is found if and only if it negates the whole source text of a matched, non-blank condition |
| MutationSites.NegationIsExact | scripts/mutation-test.script.ts:535-540 | the site of one `if` is the one that negates all of its condition |
| MutationSites.SwapUndoesMutant | scripts/mutation-test.script.ts:611-614 | swapping before and after takes the mutant out again if and only if the site was real |
| MutationSites.MutantChangesText | scripts/mutation-test.script.ts:611-614 | a real mutant changes the text unless it replaces text by itself |
| MutationSites.LineStarts | scripts/mutation-test.script.ts:591-596 | the starts are all line starts, in order, one more than the newlines |
| MutationSites.LineIndexOf | scripts/lint/sequential-awaits.script.ts:213-224 | the binary search returns the last line start at or before the offset |
| MutationSites.LineIsNewlineCount | scripts/mutation-test.script.ts:598-609 | that line is the number of newlines before the index |
| SitePatterns.MatchesAreGenuine | scripts/mutation-test.script.ts:517-524 | every match is text of the source at its index on which the pattern fits with the full length of the match |
| SitePatterns.NoMatchIsMissed | scripts/mutation-test.script.ts:520 | wherever a pattern fits there is a match, or an earlier match covers the place |
| SitePatterns.MatchIsToken | scripts/mutation-test.script.ts:560-575 | a match of an operator or word pattern is one of its alternatives |
| SitePatterns.MatchIsNumber | scripts/mutation-test.script.ts:574 | a match of the number pattern is a run of digits |
| SitePatterns.MatchOpensParen | scripts/mutation-test.script.ts:534-535 | a match of the `if` pattern ends in an opening parenthesis |
| SitePatterns.TokenFitsIff | scripts/mutation-test.script.ts:560-575 | an operator or word fits if and only if its text stands between characters that may stand beside it |
| SitePatterns.NumberFitsIff | scripts/mutation-test.script.ts:574 | a number fits if and only if it is a whole run of digits and no part of a name or of another number |
| SitePatterns.IfFitsIff | scripts/mutation-test.script.ts:534 | the head of an `if` fits if and only if the word stands by itself with only blanks up to a parenthesis |
| MutationSites.StrictComparisonsFitIff | scripts/mutation-test.script.ts:564-566 | the strict comparisons are found wherever they stand outside arrows, shifts and other comparisons |
| MutationSites.ReadMutants | scripts/mutation-test.script.ts:580-589 | all sites of the sixteen finders in the masked source, numbered by line, sorted by index |
| MutationSites.MutantsAreReversible | scripts/mutation-test.script.ts:579-589 | every mutant read is the source's text at its index, carries its one-based line, can be taken out again, and comes in source order |
| MutationSites.MutantsLieInCode | scripts/mutation-test.script.ts:517-541 | what a mutant replaces lies in no comment and no literal; of a condition, the parenthesis that opens it |
| MutationSites.WordsAgree | scripts/mutation-test.script.ts:69 | the masker's words are made of the patterns' word characters and dollar signs |
| MutationSites.ReplacementsPairUp | scripts/mutation-test.script.ts:561-572 | comparisons, connectives and truth values are replaced in pairs |
| MutationSites.CallsPairUp | scripts/mutation-test.script.ts:575 | and so are the calls |
| Doubles.NearestIsClosest | scripts/mutation-test.script.ts:574 | a whole number is rounded to a double that no double is closer than |
| Doubles.OneIsLostIff | scripts/mutation-test.script.ts:574 | adding one to a double from 2^53 on gives it back if and only if it is at least 2^54 or a multiple of four |
| Doubles.PrintsExactly | scripts/mutation-test.script.ts:574 | up to 2^53 a number prints as its decimal digits |
| Doubles.PrintedReads | scripts/mutation-test.script.ts:574 | whatever is printed in digits reads as the number printed |
| Doubles.CountedUpIsSameIff | scripts/mutation-test.script.ts:574 | a run of digits is counted up to itself if and only if it is how its number prints and the number loses the one |
| Doubles.CountedUpExactly | scripts/mutation-test.script.ts:574 | below 2^53 counting up is exact |
| MutationSites.MutantIsAChangeIff | scripts/mutation-test.script.ts:560-577 | a mutant read leaves the module as it is if and only if it counts up a number that prints as it stands, is at least 2^53, and is at least 2^54 or a multiple of four |
| MutationSites.RoundedNumberStays | scripts/mutation-test.script.ts:574 | the module that is the number 2^53 has such a mutant |
| MutationSites.SampleEvenly | scripts/mutation-test.script.ts:651-661 | all mutants up to the limit, else one pick per slot |
| MutationSites.PickedAt | scripts/mutation-test.script.ts:655-658 | the pick of a slot is inside the list and is that mutant, so the sample has exactly `limit` entries |
| MutationSites.PicksAreEven | scripts/mutation-test.script.ts:650-658 | neighbouring picks are `count / limit` or one more apart |
| MutationSites.PicksIncrease | scripts/mutation-test.script.ts:655-658 | a sample smaller than the module takes distinct mutants in source order |
| CrashRecovery.MutationRun.JudgeMutant | scripts/mutation-test.script.ts:703-719 | without a fault all files are original again and the verdict is that of the first failing test; whatever throws, every instant is sound if the record could be written; if not, the file survives if and only if the exit hook's write finishes or leaves the source |
| CrashRecovery.VerdictIsFirstFailure | scripts/mutation-test.script.ts:708-713 | a mutant survives if and only if every test passes, and is killed with the timeout flag of the first that fails |
| CrashRecovery.MutationRun.SyncRecovery | scripts/mutation-test.script.ts:836-839 | the record names what is pending, or is removed; a write that throws leaves it unreadable |
| CrashRecovery.MutationRun.RestorePending | scripts/mutation-test.script.ts:829-833 | with the pending files named in the record every instant is sound; finished, every file is original; a write that throws leaves the files before it restored, the others untouched and the record in place |
| CrashRecovery.MutationRun.ClaimWorkspace | scripts/mutation-test.script.ts:880-891 | a claim is refused if and only if a readable record names another process that is alive, and fails if and only if, not refused, it restores a file whose write throws; otherwise every original is back; a refused or failed claim stays sound until its last instant, at which the exit hook removes the record; then it is sound if and only if every file the claim did not restore was original, and what the throwing write left is |
| CrashRecovery.MutationRun.ExitHoldingNothing | scripts/mutation-test.script.ts:220-226 | the exit hook of a process that holds nothing removes the record |
| CrashRecovery.RunUntilCrash | scripts/mutation-test.script.ts:703-719 | a run killed at any instant leaves a sound disk if the owner of the record it finds is dead or itself, no restoring write throws and its records can be written; otherwise the disk is unsound only without a readable record |
| CrashRecovery.RecoverAfter | scripts/mutation-test.script.ts:880-891 | after any number of runs, each chosen with the disk it finds in view, that no living owner and no throwing restoring or recording write hinders, each killed at any instant, the next claim leaves every file original |
| CrashRecovery.CrashIsRecovered | scripts/mutation-test.script.ts:880-891 | the ordinary crash: the record of a dead process with a mutant in place, and the next process has the original back |
| CrashRecovery.WithoutRecord | scripts/mutation-test.script.ts:858-867 | without a readable record the disk is sound if and only if nothing is mutated |
| CrashRecovery.NamedFileMayChange | scripts/mutation-test.script.ts:704-707 | while the record names a file its content may be anything |
| CrashRecovery.RefusalLosesOriginal | scripts/mutation-test.script.ts:880-885 | a concrete refused claim after which a mutated file has no record any more |
| CrashRecovery.FailedClaimLosesOriginal | scripts/mutation-test.script.ts:886-891 | a concrete claim whose restoring write throws, after which a mutated file has no record any more |
| CrashRecovery.FailedRecordLosesOriginal | scripts/mutation-test.script.ts:829-839 | a concrete judgement whose record cannot be written and whose exit hook cuts short a file that was never mutated |
| CrashRecovery.HaltedIsOriginalIff | scripts/mutation-test.script.ts:886-889 | after a restoring loop that stopped every file is original if and only if the files it did not reach were and the throwing write left the original |
| OpenAddressing.BigramTable.Insert | src/utils/media-match/bigram.utils.ts:59-78 | probing terminates while a slot is free, and one more copy of the code is in stock; a code outside 32 bits never finds its own cell |
| OpenAddressing.BigramTable.Consume | src/utils/media-match/bigram.utils.ts:80-97 | hits if and only if a copy is left, and takes it |
| OpenAddressing.BigramTable.Clear | src/utils/media-match/bigram.utils.ts:33 | clearing the used flags empties the table whatever keys and counts are left behind |
| OpenAddressing.BigramTable.Matches | scripts/benchmarks/micro.bench.ts:729-733 | with a slot to spare the hits are the multiset intersection of `a` with the stock of `b` |
| OpenAddressing.BigramTable.EnsureCapacity | src/utils/media-match/bigram.utils.ts:43-53 | a table with four slots per code stays as it is; a smaller one is doubled until it has, and no further |
| OpenAddressing.BigramTable.BigramDice | src/utils/media-match/bigram.utils.ts:28-41 | whatever an earlier call left in the table, the score is twice the codes the table finds in proportion to all codes, 0 for an empty list |
| OpenAddressing.ScoreIsAProportion | src/utils/media-match/bigram.utils.ts:27-41 | twice the shared codes in proportion to all codes: between 0 and 1, and 0 exactly when nothing is shared |
| OpenAddressing.FullScoreIff | src/utils/media-match/bigram.utils.ts:27-41 | codes that fit 32 bits score 1 if and only if both lists hold the same codes equally often |
| OpenAddressing.EqualTitlesScoreOne | src/utils/media-match/bigram.utils.ts:26-41 | a title with letters, all below U+8000, scores 1 against itself |
| OpenAddressing.NumericMatches | scripts/benchmarks/micro.bench.ts:641-651 | the frequency map counts the multiset intersection |
| OpenAddressing.WriteBigramCodes | src/utils/media-match/bigram.utils.ts:10-25 | the codes of adjacent non-space units, or the marker of a one-letter title |
| OpenAddressing.TakenIsIntersection | src/utils/media-match/bigram.utils.ts:37-38 | taking one copy per code takes exactly the multiset intersection |
| OpenAddressing.EverySlotIsReached | scripts/benchmarks/micro.bench.ts:704 | probing from any slot comes to any other |
| OpenAddressing.FittingStock | scripts/benchmarks/micro.bench.ts:687-706 | codes that fit 32 bits are stocked with their multiplicities |
| OpenAddressing.DistinctCodesTakeSlots | scripts/benchmarks/micro.bench.ts:681-706 | codes that fit take one slot per distinct code, so 255 distinct codes leave a slot of 256 free |
| OpenAddressing.TableRefinesMapIff | src/utils/media-match/bigram.utils.ts:28-41 | for any two titles the table finds as many matches as the map if and only if every pair they share starts below U+8000 and no pair of the second is taken for the marker of a one-letter first |
| OpenAddressing.ImpostorIff | src/utils/media-match/bigram.utils.ts:22-24 | an overflowing pair is taken for a code of the other title exactly when that title is one letter and the pair is U+FFFF with the unit that wraps to its marker |
| OpenAddressing.MistakenMarker | src/utils/media-match/bigram.utils.ts:80-97 | then the table finds one match where the map finds none |
| OpenAddressing.UnlikeTitlesMayMatch | src/utils/media-match/bigram.utils.ts:22-24 | so with the titles U+FF9E and U+FFFF a |
| OpenAddressing.EqualTitlesMayNotMatch | src/utils/media-match/bigram.utils.ts:17 | two equal titles of two letters from U+8000 on score zero in the table and share a pair in the map |
| ImageStore.ImageRepository.UpsertImageOnce | src/repositories/images.repository.ts:451-477 | writes the matching row or a new one; fails if and only if two rows match or the new id is taken |
| ImageStore.UpsertIsUniqueIff | src/repositories/images.repository.ts:455-467 | overwriting a match keeps path and stable key unique if and only if no second row matches |
| ImageStore.TwoRowsMayMatch | src/repositories/images.repository.ts:455-467 | concrete rows, one with the image's key and one with its path, on which the upsert is rejected |
| ImageStore.ImageRepository.DeleteImageIfUnreferenced | src/repositories/images.repository.ts:359-379 | deletes the row exactly when none of the six kinds of pointer names it |
| ImageStore.PurgeIsQuiet | src/repositories/images.repository.ts:376-378 | the delete's cascades find nothing to do |
| ImageStore.ImageRepository.PurgeStale | src/repositories/images.repository.ts:347-349 | the loop purges the listed rows but the one just stored |
| ImageStore.PurgeIsExact | src/repositories/images.repository.ts:347-349 | purging keeps every pointer and exactly the rows not listed, kept, or still pointed at |
| ImageStore.ReplacementIsSafe | src/repositories/images.repository.ts:337-357 | storing and repointing, then purging what the owner held: no pointer dangles, only unreferenced stale rows go, and a store without orphans still has none |
| ImageStore.ImageRepository.ReplaceReferencedImage | src/repositories/images.repository.ts:397-407 | a season, episode or person ends pointing at the stored row; missing owner and conflict change nothing |
| ImageStore.ImageRepository.ReplaceMetadataImage | src/repositories/images.repository.ts:183-202 | the slot of a title ends with exactly the stored row, other slots unchanged |
| ImageStore.ImageRepository.ReplaceProfileAvatar | src/repositories/images.repository.ts:268-304 | the avatar URL ends naming the stored row, other pointers unchanged |
| ImageStore.ImageRepository.FindForFileRead | src/repositories/images.repository.ts:58-71 | a cached row is answered unchecked; a fresh cache answers what the table says and stays fresh |
| ImageStore.ImageRepository.ForgetFiles | src/repositories/images.repository.ts:355-356 | the images the owner held leave the file cache |
| ImageStore.CacheIsFreshIff | src/repositories/images.repository.ts:355-356 | after a replacement the cache is fresh if and only if every cached row the upsert was going to reuse was the owner's before or already reads the same |
| ImageStore.CacheMayGoStale | src/repositories/images.repository.ts:355-356 | a cached read, a replacement that takes the row over for an owner without an image, and a read that still gives the old path |
| ImageStore.Run | src/repositories/images.repository.ts:183-304 | over any run of replacements no pointer dangles and a store without orphans stays without |
| MediaStats.StatsRepository.Group | src/repositories/media-stats.repository.ts:159-167 | the rows fold into one delta per library and one for the catalog |
| MediaStats.StatsRepository.ApplyMediaFileStats | src/repositories/media-stats.repository.ts:156-171 | the grouped update equals applying the rows one by one |
| MediaStats.StatsRepository.ApplyLibraryDelta | src/repositories/media-stats.repository.ts:110-125 | adds to the library row, creating it when missing |
| MediaStats.StatsRepository.ApplyCatalogDelta | src/repositories/media-stats.repository.ts:127-149 | adds to the catalog row, creating it when missing |
| MediaStats.StatsRepository.ApplyMediaFileSizeDelta | src/repositories/media-stats.repository.ts:174-179 | moves the size counter of both rows, nothing before the catalog row exists |
| MediaStats.StatsRepository.ApplyMediaFileQualityDelta | src/repositories/media-stats.repository.ts:182-187 | the same for the quality counter |
| MediaStats.StatsRepository.ApplyMediaFileFlagDelta | src/repositories/media-stats.repository.ts:190-200 | the same for the movie and episode counters |
| MediaStats.ApplyingIsOrderFree | src/repositories/media-stats.repository.ts:156-171 | the rows may come in any order |
| MediaStats.AddThenRemove | src/repositories/media-stats.repository.ts:151-155 | adding rows and removing them restores every counter |
| MediaStats.AppliedMoves | src/repositories/media-stats.repository.ts:40-57 | every counter of every scope moves by the sum of the rows' shares |
| MediaStats.StatsRepository.RebuildMediaStats | src/repositories/media-stats.repository.ts:203-222 | every counter becomes the SQL count, which is the delta count if and only if no file has an empty id or tag |
| MediaStats.StatsRepository.RebuildCatalogFromLibraries | src/repositories/media-stats.repository.ts:225-248 | the catalog row becomes the sum of the library rows |
| MediaStats.RebuildAgreesIff | src/repositories/media-stats.repository.ts:203-248 | a rebuild agrees with the incremental counters if and only if no file has an empty id or tag |
| MediaStats.RulesAgreeIff | src/repositories/media-stats.repository.ts:40-49 | counting truthy fields and counting non-null ones agree on every counter if and only if no file has an empty id or tag |
| MediaStats.RecountIs | src/repositories/media-stats.repository.ts:203-222 | what the counters of a scope are: the numbers of its files, and of those with a movie id, an episode id and a quality tag, and the sum of the sizes there are; the deltas leave out empty ids and tags |
| MediaStats.EmptyTagIsDrift | src/repositories/media-stats.repository.ts:47 | one file with an empty quality tag that a rebuild counts and the deltas do not |
| MediaStats.LibrariesAddUp | src/repositories/media-stats.repository.ts:224-237 | the library recounts add up to the catalog recount |
| MediaStats.LibraryDeletionAgrees | src/repositories/libraries/remove.writer.ts:33-53 | after a library deletion the sum of the remaining rows is the recount of the remaining files |
| MediaStats.StatsRepository.CreateFile | src/repositories/media-files/writes.writer.ts:203-250 | inserting a new file keeps the counters equal to a recount |
| MediaStats.StatsRepository.DeleteFiles | src/repositories/media-files/writes.writer.ts:358-389 | deleting listed ids, repeated or unknown ones included, keeps the agreement and returns the number deleted |
| MediaStats.StatsRepository.UpdateQualityTag | src/repositories/media-files/writes.writer.ts:29-59 | a quality edit with its delta keeps the agreement |
| MediaStats.StatsRepository.Reassign | src/repositories/media-files/writes.writer.ts:82-130 | a reassign with its flag deltas keeps the agreement |
| MediaStats.StatsRepository.ReplaceTechnicalData | src/repositories/media-files/writes.writer.ts:132-178 | a technical refresh with its two deltas keeps the agreement |
| MediaStats.StatsRepository.RemoveLibrary | src/repositories/libraries/remove.writer.ts:14-58 | removing a library keeps the agreement |
| MediaStats.Run | src/repositories/media-stats.repository.ts:151-248 | over any run of changes whose rebuilds find no empty id or tag, every library row is the recount of its files and the catalog row the recount of all; the deltas alone need no such condition |
| Downloads.DownloadsRepository.ClaimForProcessing | src/repositories/downloads.repository.ts:156-169 | starts a waiting download exactly while the named profile has a free slot; count and update are one step |
| Downloads.DownloadsRepository.CompleteProcessing | src/repositories/downloads.repository.ts:176-184 | completes exactly a processing row, with the reported size, and says so |
| Downloads.DownloadsRepository.FailIfActive | src/repositories/downloads.repository.ts:187-195 | fails exactly a pending or processing row and says so |
| Downloads.DownloadsRepository.CancelIfNotCompleted | src/repositories/downloads.repository.ts:198-207 | cancels exactly a row that has not completed and returns it |
| Downloads.DownloadsRepository.RequeueIfActive | src/repositories/downloads.repository.ts:210-218 | a pending or processing row is pending afterwards, with its error cleared, and says so; any other row stays |
| Downloads.DownloadsRepository.ReleaseClaim | src/repositories/downloads.repository.ts:221-227 | hands back exactly a processing row |
| Downloads.DownloadsRepository.DeleteRow | src/repositories/downloads.repository.ts:229-231 | exactly the named row is gone |
| Downloads.OtherRowsStay | src/repositories/downloads.repository.ts:156-231 | a step changes no row but the one it names, and never the owner or the media file of that |
| Downloads.RowsComeAndGo | src/repositories/downloads.repository.ts:156-231 | rows come by insertion and go by deletion only |
| Downloads.StartsIff | src/repositories/downloads.repository.ts:156-169 | a row becomes processing if and only if a claim names it while it waits and the named profile has a free slot |
| Downloads.CompletesIff | src/repositories/downloads.repository.ts:176-184 | a row becomes completed if and only if it is processing and a completion names it |
| Downloads.FailsIff | src/repositories/downloads.repository.ts:187-195 | a row becomes failed if and only if it is pending or processing and a failure names it |
| Downloads.CancelsIff | src/repositories/downloads.repository.ts:198-207 | a row becomes cancelled if and only if it has not completed and a cancellation names it |
| Downloads.WaitsAgainIff | src/repositories/downloads.repository.ts:210-227 | a processing row becomes pending if and only if it is requeued or released |
| Downloads.HandedBackCanStart | src/repositories/downloads.repository.ts:210-227 | after a requeue or release a free slot lets the next claim start the row |
| Downloads.DownloadsRepository.StorageUsedByProfile | src/repositories/downloads.repository.ts:110-118 | the sum of the sizes of the profile's completed rows |
| Downloads.RowAddsItsSize | src/repositories/downloads.repository.ts:110-118 | a row adds its size if it is a completed one of the profile and has a size, and nothing otherwise |
| Downloads.SlotsAreBounded | src/repositories/downloads.repository.ts:152-169 | under any interleaving whose claims name their row's profile and at most `max` slots, no profile ever has more than `max` processing rows |
| Downloads.ForeignClaimOverfills | src/repositories/downloads.repository.ts:157-166 | a claim that names another profile can overfill the row's own |
| Downloads.ClaimKeepsSlotsIff | src/repositories/downloads.repository.ts:156-169 | a successful claim keeps the row's own profile within `max` if and only if that profile had a slot free, whatever profile was named |
| Downloads.TerminalIsForGood | src/repositories/downloads.repository.ts:175-227 | completed rows never change; failed and cancelled rows never become pending or processing again |
| Downloads.CompletesAtMostOnce | src/repositories/downloads.repository.ts:175-184 | every successful completion uses up the one chance the row's insertion gave |
| Downloads.StorageIsConserved | src/repositories/downloads.repository.ts:110-118 | a profile's storage is what completions added less what deletions of completed rows freed |
| Downloads.StoredSizeWasReported | src/repositories/downloads.repository.ts:176-184 | a completed row holds the size the worker that finished it reported |
| SourceTraits.PluckValidIds | src/utils/array.utils.ts:75-85 | exactly the ids that are there and not blank, in row order |
| SourceTraits.CollectDirectors | src/repositories/metadata-recommendations.reader.ts:242-244 | a person is listed if and only if a director row names them with a valid id, in row order, once per row |
| SourceTraits.PickedInOrder | src/repositories/metadata-recommendations.reader.ts:242-249 | a collecting loop takes every row it picks something from, each once and in order, and no other row |
| SourceTraits.CollectTopCast | src/repositories/metadata-recommendations.reader.ts:245-258 | the people of the first five entries in billing order of the cast rows that count |
| SourceTraits.TopCastIsBestBilled | src/repositories/metadata-recommendations.reader.ts:251-257 | on the rows themselves: those that count, in order of their sort order, none counting as 0, and at equal order of the rows; the people of the first five |
| SourceTraits.CollectSimilarityTraits | src/repositories/metadata-recommendations.reader.ts:239-259 | the five lists of traits of the rows |
| SourceTraits.LoadSourceTraits | src/repositories/metadata-recommendations.reader.ts:119-164 | the loop over the union of the junction rows sorts them by where they come from; a title that is not stored has none |
| SourceTraits.LoadedTraitsAre | src/repositories/metadata-recommendations.reader.ts:119-164 | of a stored title a collection, genre or keyword that is not blank, or a director, is collected if and only if a junction row of that title names it |
| SourceTraits.LoadedTopCast | src/repositories/metadata-recommendations.reader.ts:135-163 | whoever is among the top cast has a cast row of that title as actor or without a role |
| SourceTraits.StoredTopCast | src/repositories/metadata-recommendations.reader.ts:135-163 | the same on the cast table: the top cast of a stored title are the people of its five best billed rows that count |
| SourceTraits.LoadedCastIs | src/repositories/metadata-recommendations.reader.ts:150-161 | the cast loaded for a title are its own cast rows that name a person, in table order |
| SourceTraits.KindOfIs | src/repositories/metadata-recommendations.reader.ts:120-125 | a title is loaded if and only if it is stored, with its own type |
| SimilarTitles.ScoreIsFormula | src/repositories/metadata-recommendations.reader.ts:176-222 | the grouped score over the trait union is 30 per genre row, 12 per keyword row, 15 per cast row, 100 off once for a shared collection, 80 once for a shared director |
| SimilarTitles.GroupedIffShared | src/repositories/metadata-recommendations.reader.ts:181-222 | a title has a score if and only if it shares a trait |
| SimilarTitles.StoredTitlesShare | src/repositories/metadata-recommendations.reader.ts:173-211 | a stored title shares a kind of trait with another if and only if both have the same non-blank collection, genre or keyword, or one person directs both |
| SimilarTitles.RankIsStrict | src/repositories/metadata-recommendations.reader.ts:283 | (score, id) tells any two rows apart |
| SimilarTitles.RankingIsOrdered | src/repositories/metadata-recommendations.reader.ts:262-286 | a higher score comes first, and at equal scores the id that is later in the order of text |
| Ordering.TextOrderIsExact | src/repositories/metadata-recommendations.reader.ts:283 | in the order of text the first character that differs decides and a proper prefix comes first |
| SimilarTitles.RankingIsUnique | src/repositories/metadata-recommendations.reader.ts:277-286 | however the rows come out of the table there is one way to rank them |
| SimilarTitles.RankingIsByFormula | src/repositories/metadata-recommendations.reader.ts:277-286 | a row is ranked if and only if another title of the type shares a trait, or the source has no traits, and has that score by the formula |
| SimilarTitles.RankingHasNoRepeats | src/repositories/metadata-recommendations.reader.ts:277-286 | no title is ranked twice |
| SimilarTitles.PageIds | src/repositories/metadata-recommendations.reader.ts:297-299 | the ids of the rows read, without the row read ahead |
| SimilarTitles.RankSimilarIds | src/repositories/metadata-recommendations.reader.ts:301-331 | for the rows of a source the page is the window of the ranking by its traits, and `total` the number of candidates at every offset |
| SimilarTitles.PagesConcatenate | src/repositories/metadata-recommendations.reader.ts:301-331 | consecutive pages concatenate to a prefix of the ranking, without gap or repeat |
| SimilarTitles.AllPages | src/repositories/metadata-recommendations.reader.ts:301-331 | enough pages are the whole ranking |
| SimilarTitles.RestoreOrder | src/repositories/metadata-recommendations.reader.ts:383-386 | the map lookup lists the fetched items in id order |
| SimilarTitles.RankOrderIsRestored | src/repositories/metadata-recommendations.reader.ts:376-386 | whatever order the fetch had, the data is the page in rank order |
| SimilarTitles.FreshPageIs | src/repositories/metadata-recommendations.reader.ts:350-371 | rows handed in are ranked as they are, else those of the stored title; the page has the ids from the offset on, as many as the limit allows, and an unknown title has an empty page |
| SimilarTitles.SimilarReader.FindPage | src/repositories/metadata-recommendations.reader.ts:350-371 | cached or not, the page is the fresh one on a catalog in force since the cache was last cleared, so the current one if every write clears it; the page of rows handed in, and nothing for an unknown title |
| SimilarTitles.SimilarReader.Write | src/repositories/metadata-recommendations.reader.ts:26-29 | a write that clears the cache leaves only the current catalog for pages to come from, one that does not adds it to those in force |
| Markers.MarkersRepository.ReplaceMarkersForMediaFile | src/repositories/media-markers.repository.ts:95-129 | the scoped delete and the chunked inserts leave the kept rows and one record per marker, returned sorted by start |
| Markers.MarkersRepository.ReplaceMarkersForMediaFiles | src/repositories/media-markers.repository.ts:137-195 | the batch leaves its specified markers and returns for every listed file all its prior rows and its inserted ones, each sorted by start |
| Markers.MarkersRepository.SelectChunked | src/repositories/media-markers.repository.ts:147-153 | the chunked sorted read holds every row of every listed file in start order |
| Markers.TakeSnapshots | src/repositories/media-markers.repository.ts:180-191 | one entry per listed file, even when empty |
| Markers.SinglesAreTheBatch | src/repositories/media-markers.repository.ts:131-195 | one scoped replacement per file, in batch order, leaves exactly what the batch leaves |
| Markers.BatchRefinesSingles | src/repositories/media-markers.repository.ts:131-195 | in any order of the files the singles leave the same markers |
| Markers.OthersStay | src/repositories/media-markers.repository.ts:155-162 | after the batch every marker occurs as often as it was inserted, and as before unless its file is listed and it is in the scope |
| Markers.SparedRows | src/repositories/media-markers.repository.ts:21-29 | a replacement spares the rows of other files, and in the listed ones those of another plugin or, for a producer known by its source only, of another source |
| Markers.RecordIs | src/repositories/media-markers.repository.ts:113-121 | a record says what the marker names itself, else what its producer names, else a manual marker of no plugin |
| Markers.RecordInScopeIff | src/repositories/media-markers.repository.ts:113-121 | a record falls into its producer's own scope if and only if it names no other plugin or source |
| Markers.RunAgainIff | src/repositories/media-markers.repository.ts:101-121 | a producer that runs again for the same files leaves only its second result if and only if its first named no other plugin or source |
| Markers.ForeignMarkerStays | src/repositories/media-markers.repository.ts:101-121 | a concrete marker that names another plugin and, sent again, is there twice |
| ValueCodecs.RoundTripIff | src/config/value-codecs.utils.ts:10-53 | a value of the field's type, numbers being doubles, reads back as itself if and only if it is trimmed and non-empty, in range, an option, or a list of trimmed non-empty texts |
| ValueCodecs.PaddedReads | src/config/value-codecs.utils.ts:12-30 | blank text around a text or a number is not read, a number out of range reads as nothing, and so does blank text |
| ValueCodecs.CommaListReads | src/config/value-codecs.utils.ts:36-45 | a list not stored as an array is read at its commas, each side by itself |
| ValueCodecs.SingleItemReads | src/config/value-codecs.utils.ts:36-45 | a side without a comma is one trimmed item, or none if it is blank |
| ValueCodecs.PaddedTextIsLost | src/config/value-codecs.utils.ts:12-30 | a padded text and any out-of-range number do not read back |
| Preferences.ReadAfterUpdateIff | src/repositories/profile-preferences.repository.ts:101-142 | reading after an update gives what the body asked, the default when cleared, if and only if the value was pruned or is storable |
| Preferences.UpdateIsPerField | src/repositories/profile-preferences.repository.ts:101-142 | a known field with a value loses its override if the value is null, the default, or blank text in a field that may be cleared, else it has that value's text; all other overrides stay |
| Preferences.OtherFieldsStay | src/repositories/profile-preferences.repository.ts:127-139 | fields the body does not mention read as before |
| Preferences.TwoUpdatesAreOne | src/repositories/profile-preferences.repository.ts:106-142 | two updates equal one with the later body laid over the earlier |
| Preferences.SparseStays | src/repositories/profile-preferences.repository.ts:101-105 | updates with storable values never leave an override that repeats its default |
| Preferences.DefaultShowsThroughIff | src/repositories/profile-preferences.repository.ts:37-53 | a changed default shows through exactly on the fields without an override, unless the override equals the new default |
| Preferences.MergeOverrides | src/repositories/profile-preferences.repository.ts:38-53 | the loop and the spread lay the parsed overrides over the defaults |
| Preferences.Split | src/repositories/profile-preferences.repository.ts:123-136 | the loop over the body divides its known, defined keys into upserts and removals |
| Preferences.PreferencesRepository.ListByProfileId | src/repositories/profile-preferences.repository.ts:68-92 | cached or not, inside a transaction or outside, the overrides are what the table holds; a read inside a transaction leaves the cache alone |
| Preferences.PreferencesRepository.ApplyUpdate | src/repositories/profile-preferences.repository.ts:106-142 | the profile's rows become the updated overrides, other profiles' rows stay, the cache stays coherent |
| Preferences.PreferencesRepository.Reset | src/repositories/profile-preferences.repository.ts:145-150 | the profile reads as the defaults |
| Preferences.PreferencesRepository.CopyFrom | src/repositories/profile-preferences.repository.ts:153-167 | the target reads as the source does, also when they are the same profile |
| Preferences.PreferencesRepository.DeleteMany | src/repositories/profile-preferences.repository.ts:190-206 | exactly the named rows go and the cache stays coherent |
| Preferences.PreferencesRepository.SetMany | src/repositories/profile-preferences.repository.ts:169-188 | exactly the given rows are written and the cache stays coherent |
| Secrets.ReadSecretsFile | src/config/env.config.ts:30-49 | the parsing loop collects what the lines say, later lines winning |
| Secrets.LinesOfEnded | src/config/env.config.ts:59 | splitting newline-ended lines gives those lines and an empty one |
| Secrets.LineSays | src/config/env.config.ts:51-56 | a written line says exactly its key and value, a placeholder line says nothing |
| Secrets.LineReadsIff | src/config/env.config.ts:34-45 | a line by any hand gives a value if and only if it is a known key, an equals sign and a non-empty value with blank text anywhere around them |
| Secrets.ReadIsStorable | src/config/env.config.ts:30-49 | whatever is read is trimmed, non-empty, of one line and under a known key |
| Secrets.RoundTripIff | src/config/env.config.ts:30-61 | reading what was written gives the same values if and only if they are all trimmed, non-empty and of one line |
| Secrets.PaddedSecretIsLost | src/config/env.config.ts:44-55 | a padded secret that does not survive the file |
| Secrets.Boot.BootstrapPersistedSecrets | src/config/env.config.ts:69-103 | the boot loop leaves the environment, the file and the generated keys of its specification |
| Secrets.FileAfterBoot | src/config/env.config.ts:98-102 | after a boot the file says what it said and the generated secrets, nothing copied from the environment |
| Secrets.QuietBootIff | src/config/env.config.ts:80-102 | a boot generates nothing, and leaves the file alone, if and only if every managed key is in the environment or the file |
| Secrets.EnvironmentAfterBoot | src/config/env.config.ts:63-96 | explicit values that are not blank win, then the file's, then fresh ones, and only those are generated; unmanaged keys are untouched |
| Secrets.SecretsAreStable | src/config/env.config.ts:63-103 | over any sequence of boots a persisted secret never changes and never disappears |
| Secrets.TokenOnlyWhenEnabled | src/config/env.config.ts:76-78 | with the setup token disabled a boot neither generates nor persists one |
| SettingsMemo.SettingsStore.GetWithMeta | src/config/system-settings.store.ts:73-93 | the override or the default, and which of the two |
| SettingsMemo.SettingsStore.SetRuntimeValue | src/config/system-settings.store.ts:95-101 | an accepted value starts a new revision, a refused one changes nothing |
| SettingsMemo.SettingsStore.SetParsedRuntimeValue | src/config/system-settings.store.ts:108-111 | the value is stored in a new revision |
| SettingsMemo.SettingsStore.SetRuntimeValues | src/config/system-settings.store.ts:113-120 | known, defined values in order up to the first refused one, and every change of the layer raises the revision |
| SettingsMemo.AllSetIs | src/config/system-settings.store.ts:113-120 | a list of writes takes effect up to its first refused entry and succeeds if and only if there is none; the last entry before it that writes a key decides its override |
| SettingsMemo.SettingsStore.DeleteRuntimeValues | src/config/system-settings.store.ts:122-128 | the keys go in one new revision, an empty list starts none |
| SettingsMemo.SettingsStore.ClearRuntimeValues | src/config/system-settings.store.ts:130-133 | no override is left, in a new revision |
| SettingsMemo.RevisionMemo.Read | src/config/settings-revision.cache.ts:11-22 | always what recomputing from the current store would give |
| SettingsMemo.Interleave | src/config/settings-revision.cache.ts:3-22 | for any interleaving of writes and reads the layer ends as the writes say, and the i-th read returns what a computation on the layer in force at that read gives |
| RateOverrides.ParseOverrides | src/config/rate-limit-overrides.utils.ts:48-58 | the map holds the parsed overrides |
| RateOverrides.ParsedIsFirst | src/config/rate-limit-overrides.utils.ts:52-54 | the map holds the first valid entry of every name |
| RateOverrides.TunedRouteMax | src/config/rate-limit-overrides.utils.ts:78-85 | the memoized lookup answers as a first-match scan of the current string |
| RateOverrides.TunedRouteMaxLegacy | scripts/benchmarks/micro.bench.ts:72-87 | the scan per call returns the first match, capped |
| RateOverrides.TunedBudgetIsBounded | src/config/rate-limit-overrides.utils.ts:27-28 | a tuned budget lies between one and ten times the built-in one |
| RateOverrides.TunedBudgetIsExact | src/config/rate-limit-overrides.utils.ts:78-85 | a configured maximum of up to ten times the built-in one is used as it is, a larger one becomes ten times the built-in one |
| RateOverrides.TunedIff | src/config/rate-limit-overrides.utils.ts:78-85 | a route has a tuned budget if and only if it is tunable and some entry gives it a whole number |
| RateOverrides.WholeNumberIff | src/config/rate-limit-overrides.utils.ts:52 | the value pattern fits exactly the printed positive whole numbers |
| RateOverrides.PaddedPairIsUsed | src/config/rate-limit-overrides.utils.ts:43-55 | a name and a positive whole number, with blank text anywhere around them, give the route that number, up to the cap, without an issue |
| RateOverrides.EarlierStringDecides | src/config/rate-limit-overrides.utils.ts:43-55 | of two strings joined by a comma the first that gives the route a budget decides |
| RateOverrides.RateLimitOverrideIssues | src/config/rate-limit-overrides.utils.ts:61-75 | the malformed entries and the untunable names, in order |
| RateOverrides.NoIssuesIff | src/config/rate-limit-overrides.utils.ts:61-75 | no issue is reported if and only if every entry is a well-formed pair with a tunable name |
| RateOverrides.SavedNamesAreTuned | src/config/rate-limit-overrides.utils.ts:60-85 | every name of a string without issues has a tuned budget |
| RateOverrides.ReportAgreesIff | src/config/rate-limit-overrides.utils.ts:51-67 | the report lists exactly the entries the lookups ignore if and only if no entry they use holds a second equals sign |
| RateOverrides.BudgetIsReportedIff | src/config/rate-limit-overrides.utils.ts:78-85 | every tuned budget rests on one entry, which was reported as malformed if and only if it holds a second equals sign |
| RateOverrides.ThreePartsAreLookedUp | src/config/rate-limit-overrides.utils.ts:51-67 | any `name=number=rest` is reported as malformed as a whole, and the route runs with its number |
| RateOverrides.ReportedBudgetApplies | src/config/rate-limit-overrides.utils.ts:51-67 | `subtitle-content=5=6` is reported and gives the route a budget of 5 |
| AwaitScan.ScanStatements | scripts/lint/sequential-awaits.script.ts:270-301 | the loop records the independent pairs with their markers and counts the rest |
| AwaitScan.RunMarkerIsFirst | scripts/lint/sequential-awaits.script.ts:281-292 | the marker carried by the loop is the first one above an await of the current run |
| AwaitScan.EveryPairIsCounted | scripts/lint/sequential-awaits.script.ts:293-299 | every adjacent pair of awaits is recorded or counted as dependent, once |
| AwaitScan.RecordedExactly | scripts/lint/sequential-awaits.script.ts:283-300 | a pair is recorded if and only if both statements await and the second does not depend on the first, with the file's marker or the run's |
| AwaitScan.UsedIffItExplains | scripts/lint/sequential-awaits.script.ts:257-268 | in one statement list a marker counts as used if and only if a recorded pair carries it |
| AwaitScan.AnalyzeFile | scripts/lint/sequential-awaits.script.ts:303-335 | all statement lists go into one report, which counts every pair of the file once; the unused markers are listed in line order |
| AwaitScan.EveryPairOfTheFile | scripts/lint/sequential-awaits.script.ts:270-301 | every adjacent pair of awaits of a file is recorded, dependent or in a transaction, and counted once |
| AwaitScan.StaleIffItExplainsNothing | scripts/lint/sequential-awaits.script.ts:329-333 | a marker is reported as stale if and only if no recorded pair anywhere in the file carries it |
| Ordering.SortSorts | scripts/mutation-test.script.ts:588 | `toSorted` with a total preorder sorts |
| Ordering.SortKeepsEntries | scripts/mutation-test.script.ts:588 | it loses and invents nothing |
| Ordering.SortIsStable | src/repositories/metadata-recommendations.reader.ts:251 | entries that compare equal keep their order |
| Ordering.SortMoves | src/repositories/metadata-recommendations.reader.ts:251 | sorting lists every position once, in the order of the entries and, where they tie, of the list |
| Ordering.SortedIsUnique | src/repositories/metadata-recommendations.reader.ts:283 | an order that tells rows apart sorts them in one way only |

## Left out

- Pre-states of merges and rematches are assumed to satisfy foreign keys, unique indexes and the fit of files to titles; rematch also assumes that stable keys encode the kind of their title, as they are built from it, and that a movie row key made from an id names the title of its row, which every call keeps.
- Unique indexes are checked once per statement; SQLite checks them row by row inside one, so a statement that passes through a violation it later repairs counts as accepted here.
- Columns no decision depends on: timestamps, `latestMediaCreatedAt`, external ids, provider links, popularity, stable keys of seasons and episodes, collection order.
- Title creation with its merge callback (`createProviderMetadata`); the new movie id is a parameter.
- People, genre, keyword and company rows behind the relations: a relation is a map from the linked row to one value.
- A JavaScript string is a sequence of UTF-16 units; the text models use Dafny characters, except the bigram codes, which are over units.
- Fractions and negative zero: doubles are modelled as whole numbers. A run of digits is read to the nearest double, though ECMAScript lets an engine drop digits after the twentieth, and is printed with the digits its note recommends.
- Transpiling, classifying mutants, choosing covering tests, spawning them and printing reports; a test's outcome is a parameter.
- Two mutation runs that start at the same moment: the record is checked and then written, not locked. One run at a time is modelled, with crashes, refused claims and writes that throw; in a claim only the removal of the record never throws.
- The hash of the bigram table is an arbitrary function of the wrapped code; overflow of the doubled capacity beyond 32 bits is not modelled.
- Floating point elsewhere: scores are exact reals, counters and sizes unbounded integers; fractional numeric preferences are not modelled.
- Image queries for optimization and orphan sweeps, the check constraints of `images`, and bounds or expiry of every cache.
- Rows that survive a process between transactions: each repository call is one atomic step, reads that race with a commit are not modelled.
- Media statistics of deletions by path and of cleanup reads: they build the same rows as deletion by ids.
- The generic download `update`, which may write any status, and the queries that only list downloads.
- The rating average of a title and the SQL text match on crew jobs; whether a row is a director or an actor is a flag.
- JSON, `Number` and the boolean token parser are functions known only on printed values.
- Cloning and serializing of settings values; a definition's acceptance of a value is a parameter.
- The parser of the awaits lint, its data-dependence and transaction predicates; each statement carries their answers.
- Generated ids, random secrets, file permissions, logging, HTTP and process plumbing.
- Thin repositories with single-statement reads and writes, which would add easy members only.
