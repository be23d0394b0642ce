# Unlock-Music reconciliation engine in Dafny

Unlock-Music's Python tools turn a folder of encrypted music files into
playable files in an `output` sub-folder. They then keep three things
consistent with one another: that folder, the source folder, and a large
archive store. This project models the file-level logic of those tools and
proves properties of it:

- **clean.py** (module `Clean`) repairs the output folder:
  - it removes or renames duplicate files named like `Song (1).mp3`;
  - it deletes temporary downloads;
  - it rewrites `processed.log` from the files actually present;
  - it prunes `failed.log`.
- **archive.py** (module `Archive`, with the pure matching logic in
  `Matching`):
  - it pairs every converted file with its encrypted original by a
    normalised stem;
  - it moves both to `Originals/` and `Converted/` in the store;
  - on request it also moves the unmatched ("orphan") converted files;
  - it appends what it moved to two `completed.log` files.
- **legacy/browser_unlock.py** (module `Resume`):
  - it decides which encrypted files still need converting, from the
    output folder, `completed.log`, `failed.log` and an optional retry;
  - it cuts the queue into batches of ten;
  - it decides whether a finished batch is recorded in `processed.log`;
  - after every batch it runs a quick in-place duplicate fix.

The shared pieces sit in three support modules:

- `Names`: Python's `lower`, `strip`, `endswith`, `os.path.splitext` and
  `os.path.basename`, the extension allow-list, and `line.split(" (")[0]`.
- `Variant`: the duplicate-name pattern `^(.+?)\s*\((\d+)\)(\.[^.]+)$`,
  parsed by hand and proved to match exactly the names it describes.
- `FileSystem`: a `Directory` class. Its files are a map from name to
  (size, lines). Its `locked` set names the files the operating system
  refuses to remove, rename, move or write. `os.listdir` is a method that
  returns some repeat-free listing of the current names, in no fixed order.

Each operation that changes a folder is a method on `Directory` objects.
Its `ensures` ties the new state to a function of the old state; the
lemmas about that function state what the scripts promise.

The duplicate pass of clean.py is not idempotent, although its banner
(clean.py:6) promises a folder with no duplicates left. When two larger
variants share one original, the first of them replaces the original and
the second stays; a second run then acts on the one left over. The model
follows the code, and `Clean.SecondDedupNotIdle` exhibits such a folder:
the duplicate pass over its sorted listing leaves a folder whose own plan
still queues a deletion.

## Model

| member | source | states |
|---|---|---|
| Names.EndsWithLower | clean.py:44 | a name ends case-insensitively with a suffix iff its last characters, lower-cased, are that suffix |
| Names.SourceFiles | clean.py:137-138 | the candidate list holds exactly the listed names with an encrypted-music extension (any case), each once |
| Names.Lower | clean.py:44 | `str.lower` keeps the length and lower-cases each ASCII capital, leaving every other character |
| Names.Strip | clean.py:161 | the result is the input without its leading and trailing whitespace, and starts and ends with a non-space |
| Names.StripIdempotent | clean.py:161 | stripping twice is stripping once |
| Names.BeforeParen | clean.py:161 | the result is the prefix before the first `" ("`, or the whole line when there is none |
| Names.NamePartOfStripped | clean.py:161-165 | a stripped log line has the same name part as the original line whenever that name part is non-blank |
| Names.BaseName | legacy/browser_unlock.py:268 | the base name holds no path separator |
| Names.SplitExt | clean.py:134 | stem and extension concatenate to the name; the extension is empty or one dot then no dot or separator |
| Names.SplitExtEmpty | clean.py:134 | the extension is empty exactly when the base name has no dot after its leading dots |
| Names.LexLeTotal | clean.py:33 | the order `files.sort()` uses is total |
| Names.LexLeAntisymmetric | clean.py:33 | the sort order is antisymmetric |
| Names.LexLeTransitive | clean.py:33 | the sort order is transitive |
| Variant.Parse | clean.py:37 | a name that parses is the composition of a well-formed variant with a lazily shortest base |
| Variant.ParseExact | clean.py:37 | every well-formed lazy variant parses back to itself |
| Variant.ParseIff | clean.py:37 | a name parses iff it is the composition of some well-formed variant |
| Variant.Sibling | clean.py:48-50 | the original's name (base plus extension) is at least three characters shorter than the variant's |
| Variant.LogEndingShared | clean.py:44 | a variant ends in `.log` (any case) iff its original does |
| FileSystem.Directory.Listing | clean.py:109 | the listing holds every current name exactly once |
| FileSystem.Directory.SortedListing | clean.py:32-33 | the listing holds every name once, in ascending order |
| FileSystem.Directory.Remove | clean.py:84 | a removal succeeds iff the file exists and is not locked, and then only that name goes |
| FileSystem.Directory.Rename | clean.py:95 | a rename succeeds iff the source exists, the target does not, and neither is locked |
| FileSystem.Directory.WriteLines | clean.py:149-151 | a write replaces the file with the given lines unless it is locked |
| FileSystem.Directory.AppendLine | archive.py:17-19 | writing a line in append mode puts it after the existing lines, creating the file when missing, unless it is locked |
| FileSystem.Move | archive.py:111 | a move across folders succeeds iff the source exists and neither name is locked; it overwrites the target |
| Clean.PlanForReasons | clean.py:43-75 | the plan for one name deletes or renames exactly what the size comparison calls for |
| Clean.PlanOfReasons | clean.py:43-75 | a name is queued for deletion or renaming iff some listed variant calls for it |
| Clean.PlanSkipsLogs | clean.py:44 | no `.log` name (any case) is ever queued for deletion or renaming |
| Clean.PlanRenamesShorten | clean.py:71-75 | every queued rename goes to a strictly shorter name |
| Clean.MakePlan | clean.py:39-75 | the two queues built by the loop are the specified plan |
| Clean.PlanTurn | clean.py:43-75 | one turn of the loop queues what the specified plan gives for that file |
| Clean.DeleteAllResult | clean.py:81-87 | the delete pass removes exactly the queued unlocked names and reports exactly the existing locked ones |
| Clean.ExecuteDeletes | clean.py:81-87 | the loop's new folder and failure list are the specified delete pass |
| Clean.RenameNeverClobbers | clean.py:90-98 | a rename pass never overwrites a file, and files that are not sources keep their content |
| Clean.AtMostOneOnto | clean.py:94-95 | at most one rename lands on any name that is not itself queued to be renamed away; none lands on a name that already existed |
| Clean.RenameOutcomes | clean.py:90-98 | every rename reported done or failed was queued; a done one touched no locked name, a failed one met a locked source or target, and none is reported twice |
| Clean.ExecuteRenames | clean.py:90-98 | the loop's new folder and failure list are the specified rename pass |
| Clean.SweepResult | clean.py:106-119 | the sweep removes exactly the unlocked temporary files and counts each of them once |
| Clean.SweepFailures | clean.py:111-119 | the sweep reports exactly the locked temporary files |
| Clean.SweepTemps | clean.py:108-119 | the loop's new folder, count and failures are the specified sweep |
| Clean.ProcessedFromMembers | clean.py:140-146 | the rebuilt list holds exactly the sources whose stem is among the valid stems, each once |
| Clean.ProcessedFromSplit | clean.py:140-146 | the list of a concatenation is the list of its first part followed by that of the rest, so processed.log keeps the listing order |
| Clean.CollectProcessed | clean.py:140-146 | the loop computes that list |
| Clean.RealFailuresMembers | clean.py:157-165 | a kept entry is a stripped line with a non-blank name whose stem is not valid, and every such line is kept |
| Clean.RealFailuresSplit | clean.py:157-165 | the kept lines of a concatenation are those of its first part followed by those of the rest, so failed.log keeps its original order and repeats |
| Clean.PurgeFailed | clean.py:158-165 | the loop computes the kept failures |
| Clean.PurgeIdempotent | clean.py:157-169 | pruning an already pruned `failed.log` changes nothing |
| Clean.PlanForLarger | clean.py:67-71 | a larger variant queues its original for deletion and itself for renaming onto it |
| Clean.SecondDedupNotIdle | clean.py:32-98 | over the sorted listing of a folder holding an original and two larger variants of it, the duplicate pass leaves the first variant's content under the original's name and the second variant in place, and over any listing of that folder the next pass still queues a deletion |
| Clean.DedupOfPair | clean.py:43-98 | when only two variants of one name queue anything, each deleting the name and renaming onto it, the sorted pass deletes the name, the first rename succeeds and the second is skipped because its target exists again |
| Clean.SortedPairPlan | clean.py:32-75 | over a sorted listing the variant that sorts first is planned first: the plan is two deletes of the name and the two renames in listing order |
| Clean.CleanAndSync | clean.py:19-170 | the source folder is untouched; the folder after dedup and sweep is the specified one over the sorted listing; the reported delete, rename and temp failures are exactly those of the specified loops; `processed.log` and `failed.log` are rebuilt as specified; a failed log write ends the run with the folder as it then is |
| Matching.NormalizeIsKey | archive.py:76-78 | a normalised stem is lower-case, has no underscore, and has single spaces only between words |
| Matching.WordsOfJoin | archive.py:78 | splitting words joined by single spaces gives the words back |
| Matching.Replace | archive.py:77 | `replace('_', ' ')` keeps the length and turns every `_` into a space, leaving every other character |
| Matching.Words | archive.py:78 | `split()` yields non-empty words free of whitespace, made of the string's own characters |
| Matching.WordsGap | archive.py:78 | `split()` reads any non-empty run of whitespace like a single space |
| Matching.NormalizeCollapsesGap | archive.py:76-78 | names that differ only in the length of a whitespace run normalise alike |
| Matching.NormalizeIdempotent | archive.py:76-78 | normalising twice is normalising once |
| Matching.NormalizeIgnoresCaseAndUnderscore | archive.py:77 | names that differ only in case and in `_` versus space normalise alike |
| Matching.EncMapLastWins | archive.py:81-83 | a key maps iff some encrypted file has it, and then to the last such file in listing order |
| Matching.LastWinsLookup | archive.py:81-83 | a dictionary filled in order keeps the last value written for every key |
| Matching.ConvertedFiles | archive.py:62 | the converted list holds exactly the names not ending in `.log` (case-sensitive), each once |
| Matching.OrphanFilesExact | archive.py:133-138 | a converted file is an orphan iff no encrypted file shares its normalised stem |
| Matching.OrphanMembers | archive.py:133-138 | the orphan list is the converted files whose key is missing from the map, each once |
| Archive.LogSetSnoc | archive.py:10-11 | reading one more line adds exactly its stripped form |
| Archive.LoadLog | archive.py:5-13 | the loaded set is the stripped lines of the log, empty when it is missing |
| Archive.AppendedLines | archive.py:15-21 | appending adds the items at the end of the log unless it is locked, and touches no other file |
| Archive.LoadAfterAppend | archive.py:5-21 | after an append, loading the log gives the old entries plus the stripped items |
| Archive.AppendLog | archive.py:15-21 | the loop's new folder is the specified append |
| Archive.MoveConvertedResult | archive.py:114-116 | the converted file moves, overwriting any copy in `Converted/`, iff it exists and nothing is locked |
| Archive.MoveConvertedFile | archive.py:114-116 | the method performs that move |
| Archive.PairStepLogsAfterBothMoves | archive.py:95-123 | a pair is logged iff both moves can happen; a missing or immovable original changes nothing; a failed second move leaves the original moved, the converted file in the output folder, and nothing logged |
| Archive.MatchAllOrphans | archive.py:92-125 | the orphan counter equals the number of orphan files |
| Archive.MatchAllCompleted | archive.py:92-123 | every completed item is a matched original that left the source and sits unchanged in `Originals/`, logged once; the source only shrinks |
| Archive.MatchAllFrame | archive.py:92-123 | the matching pass touches no output file outside the converted list |
| Archive.MatchAndMove | archive.py:85-125 | the loop's folders, counters and log list are the specified pass; moved equals the items logged |
| Archive.MoveOrphansResult | archive.py:147-159 | each logged orphan came from the output and now sits unchanged in `Converted/`; nothing else in the output changes |
| Archive.MoveOrphanFiles | archive.py:147-159 | the loop performs the specified orphan moves |
| Archive.HandleOrphans | archive.py:128-159 | orphans move only if there are some and the stripped, lower-cased answer is `y`; otherwise nothing changes |
| Archive.WriteHistory | archive.py:161-171 | both `completed.log` files get the completed items appended; when the destination is the output folder itself, its one log gets them twice |
| Archive.SharedLogTwice | archive.py:161-171 | appending the items to one unlocked log twice leaves its old lines followed by the items twice |
| Archive.ArchiveOfReport | archive.py:85-159 | the matched pairs are logged first, in matching order; orphans follow only after a `y`, each an orphan file and each once; the orphan count is the number of orphan files |
| Archive.ArchiveOfArchived | archive.py:92-159 | the source folder only loses files; each logged pair's source sits unchanged in `Originals`; each logged orphan has left the output folder for `Converted` |
| Archive.ArchiveOfLogs | archive.py:161-171 | both `completed.log` files keep their old lines and gain exactly the logged items, unless locked |
| Archive.ArchiveRun | archive.py:35-171 | the final source, output, `Originals` and `Converted` folders, the archive root, the log list and the counters are those of the specified run over the two listings; with no output folder nothing changes |
| Resume.SafeJoinPathsSplits | legacy/browser_unlock.py:13-14 | splitting the joined file list at line breaks gives the paths back |
| Resume.BaseNameOfJoin | legacy/browser_unlock.py:127 | the base name of a joined path is the joined file name |
| Resume.BaseNamesOfPaths | legacy/browser_unlock.py:266-268 | the names logged for a batch are the queued file names |
| Resume.ArchivedStemsMembers | legacy/browser_unlock.py:72-84 | the archived stems are exactly the stems of the non-blank stripped `completed.log` lines |
| Resume.FailedNamesMembers | legacy/browser_unlock.py:91-99 | the failed set is exactly the non-blank name parts of `failed.log` |
| Resume.LoadExistingStems | legacy/browser_unlock.py:67-82 | the loop computes the stems of every output entry plus the archived stems |
| Resume.LoadFailedSet | legacy/browser_unlock.py:91-99 | the loop computes the failed set |
| Resume.ResumePartition | legacy/browser_unlock.py:110-127 | the three outcomes partition the candidates; a file is queued iff its stem is new and it is not a skipped failure; no repeats; retrying skips no failure |
| Resume.ResumeSplit | legacy/browser_unlock.py:114-127 | the run over a concatenation is the run over its first part followed by the run over the rest, so the queue keeps listing order |
| Resume.ResumeCounts | legacy/browser_unlock.py:116-123 | `skipped_existing` counts exactly the candidates whose stem is present, `skipped_failed` exactly the failed ones not retried |
| Resume.ResumeFilter | legacy/browser_unlock.py:110-127 | the loop's queue of joined paths and its two counters are the specified filter |
| Resume.PlanResume | legacy/browser_unlock.py:57-127 | the queue holds exactly the encrypted files whose stem is absent from the output and archive and that are not skipped failures, in listing order; each skip counter counts exactly its own candidates |
| Resume.BatchesSizes | legacy/browser_unlock.py:141-150 | there are `ceil(n / 10)` batches of one to ten files each |
| Resume.BatchesSlices | legacy/browser_unlock.py:147-148 | batch `j` starts inside the queue and is its slice `[10j, min(10j + 10, n))` |
| Resume.BatchesFlatten | legacy/browser_unlock.py:147-148 | the batches, concatenated in order, are the whole queue |
| Resume.MaxWait | legacy/browser_unlock.py:229 | the wait is the larger of 60 seconds and 5 seconds per file |
| Resume.ShouldLogTolerance | legacy/browser_unlock.py:256 | a non-empty batch is recorded iff at least one file arrived and at most two are missing |
| Resume.FinishBatch | legacy/browser_unlock.py:199 | the batch's base names are appended to `processed.log` iff it counts as done; the duplicate fix then runs |
| Resume.MicroPairResult | legacy/browser_unlock.py:307-322 | a lone or smaller variant is left alone; a larger one takes over the original's name; an equal one is removed |
| Resume.MicroPairKeeps | legacy/browser_unlock.py:307-322 | the fix creates no name and no content, and the larger of the pair survives somewhere |
| Resume.MicroAllKeeps | legacy/browser_unlock.py:297-322 | over a whole listing, no name appears and every remaining file holds content that was there before |
| Resume.MicroCleanup | legacy/browser_unlock.py:290-324 | the loop's new folder is the specified fix over a listing of the old folder; a missing folder is a no-op |

## Left out

- Prompts, `print` output and the final "press Enter" are left out. The typed folders become `Directory` arguments; the typed answers become string arguments.
- Stripping quotes from a typed path is left out. So is the `os.path.join` of the sub-folders (`output`, `Originals`, `Converted`), which are passed as separate objects.
- `os.makedirs` of missing store folders and of a missing browser `output` folder is left out; those folders are assumed to exist.
- Operating-system failures are modelled only as the fixed `locked` set of each folder. Failures that depend on timing, permissions or disk space are not modelled.
- Reads of log files are assumed to succeed. The `except: pass` around a partial read in `load_log` and in the browser script is not modelled.
- Sizes are a number carried by each file. For files the scripts write, the size is the number of characters plus line breaks, not UTF-8 bytes.
- `str.lower`, `isspace` and `\d` are modelled for ASCII and the Python whitespace set only; Unicode case folding is left out.
- `shutil.move` is modelled as an atomic rename across folders. Its copy-then-delete fallback across devices is left out.
- `open(path, "a")` with no items creates an empty log file. The model does not create it.
- Resume.JoinPath: models `os.path.join` for a plain folder and file name. The drive-letter and absolute-name cases are left out.
- A failing write of `processed.log` or of `failed.log` in clean.py (lines 149 and 167) raises and ends the script. The model reports either one as `WriteFailed`.
- The browser script returns early when the typed source folder does not exist (legacy/browser_unlock.py:45-47). That path is not modelled: `Resume.PlanResume` always receives an existing `Directory`.
- Archive.ArchiveRun: requires the source, output, destination, `Originals` and `Converted` folders to be five different folders. archive.py:43-50 accepts any typed destination, and so does `Archive.WriteHistory` in the model. When the destination typed is the output or source folder, the run's moves and appends would act on one folder through two names. That aliasing is not captured, so the whole-run contract does not cover it. `Archive.SharedLogTwice` states what happens to the shared `completed.log`.
- `output_map` in archive.py (line 66) is built but never used; it is left out.
- Resume.FinishBatch: the polling loop with its clock is left out. The folder passed in is the state at the last poll.
- The Selenium session is left out: the browser, the page, the file input, the download button and the waits. So are the exception handler around it and the batch loop's wait times.
- unlock.py, legacy/batch_unlock.py and legacy/auto_clicker.py are not part of this model.
