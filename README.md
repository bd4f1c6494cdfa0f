# Scan station: verified model of the core

This project is a Dafny model of the logic at the heart of a laser-scanner
control station. The station has two hosts:

- The scanner host (`backend.py`) drives the scanner's web UI and reports the
  latest scan. It also runs the job bridge. The bridge is an in-memory FIFO
  work queue that a conversion worker polls for jobs.
- The conversion host (`windows_wrapper/wrapper.py`) picks safe file names,
  renames the converter's output so it never collides with an existing
  file, and serves downloads only from inside its export directory.

The model has six modules:

| module | file | what it models |
|---|---|---|
| `Common` | `common.dfy` | optional values, results, Python's `x or default` |
| `JobBridge` | `job_bridge.dfy` | job records and the class `Bridge` (`jobs` map and `queue` list, changed in place by submit, claim and complete) |
| `ScanSession` | `scan_session.dfy` | the pause/stop/active/paused flags and the class `Controller`, whose poll loop runs over a sequence of iterations |
| `ScanDirectory` | `scan_directory.dfy` | choosing the latest scan, the download name of an enclosure link, and how `download_file` matches a requested name |
| `ExportDownload` | `export_download.dfy` | the checks that `download` makes on `run` and `name`, with paths as lists of segments |
| `FileNames` | `file_names.dfy` | `safe_filename`, the stem/suffix split, decimal numerals and `maybe_rename_primary` over a set of names |

The caller supplies values the source draws from the outside world:

- job ids (`uuid4`) and timestamps;
- the outcome of every browser wait and click;
- the number of poll iterations that start before the deadline;
- the scan listing as read: parsed records, a refused reply or a raised request;
- the names already in a run directory.

## Behaviour worth knowing

- A second scan start while a session is active is accepted. The start
  simply resets the flags (`ScanSession.Start`).
- When the deadline runs out, the session still answers "Scan complete". The
  deadline exit happens exactly when every iteration continued
  (`ScanSession.RunLoopDeadline`), and it then completes like a finished scan
  (`ScanSession.Session`).
- A stop whose clicks fail is not retried. The request was already cleared,
  so the loop carries on as if no stop was asked (`ScanSession.StopConsumedOnce`).
- A driver error other than a timeout in the completion probe aborts the
  session with an error.
- A record whose `recordingTime` is missing, null or at most -1 is never
  chosen as the latest, not even when the listing has nothing else. A
  listing of only such records gives no name at all (`ScanDirectory.Latest`).
- A download whose listing is answered with a status other than 200 gets
  502. One whose listing request raises, or whose listing is not JSON, gets
  500 (`ScanDirectory.ResolveDownload`).

## Model

| member | source | states |
|---|---|---|
| JobBridge.Accepts | backend.py:338-339 | a submission is accepted exactly when `workspace` and `outdir` are both given and non-empty |
| JobBridge.Truncate | backend.py:395-396 | `s[:200000]`: the result is a prefix of the input, at most the cap long, the whole input when it fits and exactly the cap long when it does not |
| JobBridge.NewJob | backend.py:333-359 | a new job is untouched QUEUED work filed under its id, created and updated at the given time; its camera suffix is "50" when none was given and the given text otherwise; workspace, outdir and scan index are the submitted ones |
| JobBridge.Claimed | backend.py:376-378 | a claimed job is RUNNING, assigned to the worker and updated at the claim time; no other field changes |
| JobBridge.Completed | backend.py:393-400 | recording a report keeps the submitted fields and the worker; `ok` is true exactly when the report's `ok` is true; the state is DONE exactly then and FAILED otherwise; the exit code is the reported one; stdout and stderr are the reported text (empty when missing) cut to its first 200000 characters; the output files are the reported list, empty when missing; the update time is the report's; the state never moves back |
| JobBridge.IsQueued | backend.py:374-375 | an id names a job that is in the store and QUEUED |
| JobBridge.FirstQueued | backend.py:373-375 | the scan of the queue finds the first position whose job is QUEUED, and finds none exactly when no later position holds a QUEUED job |
| JobBridge.ClaimStep | backend.py:372-381 | a claim hands out no job exactly when no queued id names a QUEUED job, and then changes nothing; otherwise it hands out a RUNNING job assigned to the worker; no id is added or removed |
| JobBridge.WorkerName | backend.py:370 | a poll without a worker name claims for "unknown", one with a name for that name |
| JobBridge.ClaimStepPreserves | backend.py:373-378 | a claim keeps the store well formed (each job filed under its id, listed once in the queue, fields consistent with its state); it moves no job backwards and changes no submitted field; the job it hands out was QUEUED before |
| JobBridge.CompletePreserves | backend.py:388-400 | completing a known job keeps the store well formed, and it moves no job backwards |
| JobBridge.ClaimedNeverReclaimed | backend.py:373-379 | two successive claims, by any workers, never hand out the same job |
| JobBridge.ClaimAt | backend.py:373-379 | when position k holds the first QUEUED job, the claim flips exactly that job to RUNNING for the worker and changes no other job |
| JobBridge.ClaimedIds | backend.py:368-381 | a run of polls yields one answer per poll |
| JobBridge.Pending | backend.py:373-375 | the jobs waiting to be handed out: the QUEUED ones, in queue order; never more than the queue holds |
| JobBridge.PendingEmpty | backend.py:373-381 | nothing is waiting exactly when no queued id names a QUEUED job |
| JobBridge.AllWaiting | backend.py:361-363 | when every queued job is QUEUED, all of them are waiting, in queue order |
| JobBridge.PendingAppend | backend.py:363 | the waiting jobs of a queue extended at its tail are those of the queue followed by those of the extension |
| JobBridge.FifoOrder | backend.py:372-381 | the FIFO reference answers to a run of polls: one answer per poll |
| JobBridge.FifoOrderAt | backend.py:372-381 | the i-th FIFO answer is the i-th waiting job while any is left, and nothing after |
| JobBridge.ClaimTakesFirstPending | backend.py:372-381 | in a well-formed store, a claim with nothing waiting hands out nothing and changes nothing; otherwise it hands out the first waiting job and the waiting list loses exactly that job |
| JobBridge.DrainInOrder | backend.py:368-381 | FIFO from any well-formed store: successive polls by any workers receive exactly the FIFO reference answers, so they get the waiting jobs in queue order, each once, and nothing once none is left |
| JobBridge.SubmitEnqueues | backend.py:361-363 | a newly filed QUEUED job under a fresh id joins the waiting jobs at their tail |
| JobBridge.SubmitPreserves | backend.py:361-363 | filing a consistent job under a fresh id at the tail of the queue keeps the store well formed and moves nothing back |
| JobBridge.LastReportWins | backend.py:393-400 | a second completion report overwrites the first entirely, even turning DONE into FAILED |
| JobBridge.Bridge.constructor | backend.py:316-317 | the store starts with no jobs and an empty queue |
| JobBridge.Bridge.Submit | backend.py:329-365 | a submission missing `workspace` or `outdir` (or with either empty) is refused and changes nothing; otherwise the new job is `NewJob` of the submission, filed under its id and appended at the tail of the queue, every earlier job and queue entry is unchanged, and it joins the waiting jobs last |
| JobBridge.Bridge.Claim | backend.py:368-381 | the loop's result and new store are those of `ClaimStep` for the worker (default "unknown"); the queue is unchanged and the store stays well formed |
| JobBridge.Bridge.Complete | backend.py:384-402 | an unknown id fails with not-found and changes nothing; a known one is replaced by its completed record and nothing else changes |
| JobBridge.Bridge.Get | backend.py:405-411 | a lookup finds the job filed under the id, or fails with not-found exactly when there is none |
| ScanSession.Start | backend.py:86-90 | the start of a session clears both requests and the paused flag and sets the session active |
| ScanSession.PauseScan | backend.py:240-248 | a pause request is refused exactly when no session is active; an accepted one raises only the pause request |
| ScanSession.StopScan | backend.py:251-259 | a stop request is refused exactly when no session is active; an accepted one raises only the stop request |
| ScanSession.TearDown | backend.py:194-203 | every exit leaves the session inactive and unpaused with the driver cleared; pending requests are untouched |
| ScanSession.Arrive | backend.py:243-257 | requests between two iterations raise their flag exactly when a session is active |
| ScanSession.PollStep | backend.py:127-192 | one iteration consumes the stop request; it raises the pause request again exactly when a pending pause met an inactive button on an unpaused scan; it pauses exactly on a pending pause whose click succeeds; it ends as stopped exactly when a stop was pending and its clicks succeeded; completion and probe faults are seen only on an unpaused scan |
| ScanSession.RunLoop | backend.py:127-192 | the loop always ends with an exit; a paused scan stays paused and is never reported as finished; no iterations left means the deadline exit; the session stays coherent; which exit it takes is `RunLoopExit` and `RunLoopDeadline` |
| ScanSession.Steps | backend.py:127-192 | the iterations run one after another, one outcome per iteration, each from the state the previous one left |
| ScanSession.StepAt | backend.py:128-192 | the i-th iteration is the requests that arrived before it followed by one poll step, from the state after the iterations before it |
| ScanSession.RunLoopExit | backend.py:127-192 | the loop ends with the state and exit of the first iteration that does not continue |
| ScanSession.RunLoopDeadline | backend.py:127 | the loop ends at the deadline exactly when every iteration continued, and then in the state the last iteration left |
| ScanSession.ActiveWhileContinuing | backend.py:127-192 | while the loop continues, whether the session is active does not change |
| ScanSession.Reported | backend.py:210-222 | a missing or empty download name is reported as null, any other as itself |
| ScanSession.Session | backend.py:76-237 | every way out of a session leaves it inactive, unpaused and without a driver; the answer is "stopped" exactly when the setup succeeded and the loop ended by a user stop; it is an error exactly when the setup failed, the completion probe faulted, or the loop did not end by a stop and the listing failed; it is "complete" exactly when the setup succeeded, the listing was read and the loop ended finished or at the deadline; a "complete" answer names the latest scan of the listing ("unknown" without a name) and its download name |
| ScanSession.StopConsumedOnce | backend.py:128-156 | the loop tries to stop the scan at most once per stop request, plus once for a request pending at entry |
| ScanSession.InactivePauseKeptPending | backend.py:173-176 | while the pause button stays inactive, the pause request is re-armed every iteration, so it is still pending at any exit other than a user stop |
| ScanSession.StopEndsSession | backend.py:137-206 | a stop requested before the first iteration and whose clicks succeed ends the session as stopped |
| ScanSession.StopWhilePaused | backend.py:137-206 | a stop requested while the scan is paused, and whose clicks succeed, ends the session as stopped, inactive and unpaused |
| ScanSession.PauseThenStop | backend.py:158-206 | a pause clicked in the first iteration and a stop that succeeds in the second: the scan is paused before the second iteration and the session ends as stopped |
| ScanSession.Controller.constructor | backend.py:22-25 | the flags start cleared |
| ScanSession.Controller.RequestPause | backend.py:240-248 | the flags and the answer are those of `PauseScan`; a coherent state (paused or driver open only while active) stays coherent |
| ScanSession.Controller.RequestStop | backend.py:251-259 | the flags and the answer are those of `StopScan`; a coherent state stays coherent |
| ScanSession.Controller.PollOnce | backend.py:128-192 | the step-by-step flag updates of one iteration give the state and exit of `PollStep`; called on a coherent active session, the session stays coherent and active |
| ScanSession.Controller.TearDownSession | backend.py:194-203 | the flags after teardown are those of `TearDown`; a coherent state stays coherent |
| ScanSession.Controller.RunScan | backend.py:76-237 | the poll loop's final flags and the answer are those of `Session`; the session ends inactive, unpaused and without a driver |
| ScanDirectory.TimeOf | backend.py:53-55 | a missing or null recording time counts as -1, any other as itself |
| ScanDirectory.HrefOf | backend.py:283-284 | a missing enclosure link is read as the empty text, any other as itself |
| ScanDirectory.Latest | backend.py:49-58 | the chosen record has a time above -1; no record is later; every earlier record is strictly earlier, so the first wins ties; none is chosen exactly when every time is at most -1 |
| ScanDirectory.LastSegment | backend.py:68 | `split("/")[-1]`: a suffix of the link with no `/`, preceded by a `/` unless it is the whole link |
| ScanDirectory.DownloadName | backend.py:64-68 | no download name exactly when the link is missing or empty; otherwise the last segment of the link |
| ScanDirectory.LatestScanInfo | backend.py:35-69 | with no latest record (an empty listing, or every time at most -1) the answer is (None, None); otherwise it is the latest record's name and the download name of its enclosure link |
| ScanDirectory.FirstEnclosureMatch | backend.py:282-288 | the first record, in listing order, whose enclosure file name equals the requested name, or none when no record matches |
| ScanDirectory.ResolveDownload | backend.py:262-309 | a missing or empty name is refused with 400, exactly then; a listing answered with a status other than 200 gives 502, and one whose request raises gives 500, exactly then; a fetch uses the non-empty link of the first record whose file name is the requested name; not-found means no record's link has that file name |
| ScanDirectory.LatestIsDownloadable | backend.py:282-291 | the non-empty download name reported for the latest scan is always found again by the download lookup on the same listing |
| ScanDirectory.LatestOfThree | backend.py:49-68 | records A at time 5, B at time 9 and C with no time give B's name and `B.fls.zip` |
| ScanDirectory.FileNameOfB | backend.py:68 | the last segment of `/scans/B.fls.zip` is `B.fls.zip` |
| ScanDirectory.LastSegmentAfterSlash | backend.py:68 | the last segment of `dir/file` is `file` when `file` has no `/` |
| ExportDownload.IsPrefixPath | windows_wrapper/wrapper.py:178 | `base` is the path itself or one of its parents exactly when the path is `base` followed by more segments |
| ExportDownload.Segments | windows_wrapper/wrapper.py:177 | a path splits into at least one segment, none holding a separator; that the segments make up the path is `SegmentsJoin` |
| ExportDownload.Slashed | windows_wrapper/wrapper.py:177 | the path with every backslash read as `/` and every other character kept |
| ExportDownload.SegmentsJoin | windows_wrapper/wrapper.py:177 | joining the segments with `/` gives back the path with its backslashes read as `/`, so splitting loses nothing |
| ExportDownload.Named | windows_wrapper/wrapper.py:177 | the segments that name something: no empty or "." segment is kept |
| ExportDownload.Normalize | windows_wrapper/wrapper.py:177 | resolving yields a path with no empty, "." or ".." segment; what names, "." and ".." do is `NormalizeNoParent`, `NameThenParent`, `ParentOfDir` and `ParentOfRoot` |
| ExportDownload.NormalizeNoParent | windows_wrapper/wrapper.py:177 | without ".." segments, resolving appends exactly the named segments, in order, to the starting directory |
| ExportDownload.NameThenParent | windows_wrapper/wrapper.py:177 | a ".." right after a named segment cancels it |
| ExportDownload.ParentOfDir | windows_wrapper/wrapper.py:177 | ".." below any directory other than the root drops its last segment, whatever segments follow |
| ExportDownload.ParentOfRoot | windows_wrapper/wrapper.py:177 | ".." at the root stays at the root |
| ExportDownload.ResolveRun | windows_wrapper/wrapper.py:177 | `(base / run).resolve()` is a resolved path; that a rooted run replaces the base and a relative one is joined onto it is `ResolveRunNoParent` |
| ExportDownload.ResolveRunNoParent | windows_wrapper/wrapper.py:177 | without ".." segments, a rooted run resolves to its named segments and a relative one to the base followed by them |
| ExportDownload.SegmentsAppendSep | windows_wrapper/wrapper.py:177 | splitting `p/r` gives the segments of `p` followed by those of `r` |
| ExportDownload.ResolveParentRun | windows_wrapper/wrapper.py:177 | from a base below the root, `../r` with no ".." in `r` resolves to the base's parent followed by the named segments of `r` |
| ExportDownload.CheckDownload | windows_wrapper/wrapper.py:166-179 | an empty `run` or `name` is refused as a missing argument, exactly then; an accepted run directory is the base or lies below it and is the resolved `base / run`; the run is refused as invalid exactly when both arguments are given and the resolved directory is neither the base nor below it |
| ExportDownload.NormalizeDescends | windows_wrapper/wrapper.py:177-178 | without ".." segments, resolving never leaves the starting directory |
| ExportDownload.RelativeRunAccepted | windows_wrapper/wrapper.py:174-179 | a relative run with no ".." segment is always accepted |
| ExportDownload.ParentRunRefused | windows_wrapper/wrapper.py:177-179 | `run=..` below the root is refused as an invalid run directory |
| ExportDownload.SiblingRunRefused | windows_wrapper/wrapper.py:177-179 | from a base below the root, `../r` with no ".." in `r` is refused as an invalid run directory exactly when `r` does not lead back into the base's own last directory (it names a sibling, or nothing) |
| ExportDownload.SegmentsOfParent | windows_wrapper/wrapper.py:177 | the run `..` is the single segment ".." |
| FileNames.IsSpace | windows_wrapper/wrapper.py:26-30 | the characters Python's `str.isspace` accepts, which `strip()` and `split()` treat as whitespace |
| FileNames.IsForbidden | windows_wrapper/wrapper.py:27-28 | the backslash, `/`, the vertical bar and the characters `: * ? " < >` |
| FileNames.NameText | windows_wrapper/wrapper.py:26 | `name or ""`: a missing name is read as the empty text |
| FileNames.ReplaceForbidden | windows_wrapper/wrapper.py:27-29 | the text keeps its length, every separator and forbidden character becomes `_`, every other character is kept, and no forbidden character is left |
| FileNames.JoinUnderscore | windows_wrapper/wrapper.py:30 | `"_".join`: no words give the empty text; otherwise the result is the words in order with nothing before the first, exactly one `_` between each two and nothing after the last (the words interleaved with `JoinGaps`); so it starts with the first word and is as long as the words plus the separators |
| FileNames.JoinGaps | windows_wrapper/wrapper.py:30 | the gaps of a join of n words: empty at both ends and `_` between each two words |
| FileNames.WordEnd | windows_wrapper/wrapper.py:30 | the length of the leading run of non-whitespace characters, ending at whitespace or at the end |
| FileNames.Words | windows_wrapper/wrapper.py:30 | `split()` yields non-empty whitespace-free words whose concatenation is the input without its whitespace; words of a text without forbidden characters are clean; that they are the maximal runs of non-whitespace characters is `WordsSplit` and `WordsUnique` |
| FileNames.Gaps | windows_wrapper/wrapper.py:30 | the whitespace runs around the words: at least one, and the first is not empty when the text starts with whitespace |
| FileNames.WordsSplit | windows_wrapper/wrapper.py:30 | the text is its whitespace runs interleaved with its words, the runs between two words being non-empty; so the words are the maximal runs of non-whitespace characters |
| FileNames.WordsUnique | windows_wrapper/wrapper.py:30 | any way of writing the text as whitespace runs interleaved with non-empty words, with non-empty runs between words, has exactly the words `split()` returns |
| FileNames.DropSpacesEmpty | windows_wrapper/wrapper.py:30 | a text has no non-whitespace characters exactly when it is all whitespace |
| FileNames.JoinClean | windows_wrapper/wrapper.py:30 | joining clean words with `_` gives a clean name |
| FileNames.JoinEmpty | windows_wrapper/wrapper.py:30 | joining non-empty words gives the empty text exactly when there are none |
| FileNames.SafeFilename | windows_wrapper/wrapper.py:25-31 | the result is the words of the text, with forbidden characters replaced by `_`, joined by `_`; it has no forbidden character and no whitespace; it is empty exactly when the input is None, empty or whitespace only |
| FileNames.SafeFilenameIdempotent | windows_wrapper/wrapper.py:25-31 | sanitising a sanitised name returns it unchanged |
| FileNames.LastDot | windows_wrapper/wrapper.py:48-49 | `rfind('.')`: the position of a dot after which no dot follows, or -1 |
| FileNames.SplitSuffix | windows_wrapper/wrapper.py:48-49 | stem and suffix concatenate to the name; the suffix is empty or a dot followed by at least one non-dot character after a non-empty stem |
| FileNames.Decimal | windows_wrapper/wrapper.py:52 | `f"{k}"`: the numeral of a counter is a non-empty string of digits that starts with `0` exactly when the counter is 0, so a positive counter has no leading zero |
| FileNames.DecimalRoundTrip | windows_wrapper/wrapper.py:52 | reading a numeral back gives the counter it was written from |
| FileNames.DecimalInjective | windows_wrapper/wrapper.py:52 | two counters with the same numeral are equal |
| FileNames.CandidateParts | windows_wrapper/wrapper.py:52 | the candidate `f"{stem}_{k}{suffix}"` is the stem, then `_`, then the numeral of k, then the suffix |
| FileNames.CandidateInjective | windows_wrapper/wrapper.py:50-56 | different counters give different candidate names |
| FileNames.FreeCounter | windows_wrapper/wrapper.py:50-56 | the search stops at the smallest counter from 1 whose candidate name is not in the directory |
| FileNames.MaybeRenamePrimary | windows_wrapper/wrapper.py:33-59 | no result exactly when nothing was produced; with no usable requested name the first produced file keeps its name and nothing is renamed; a free sanitised name is taken as is; a taken one becomes `stem_k + suffix` for the smallest free k from 1; the result is never a name already present, and the directory afterwards has the primary file under its new name |

## Left out

- Flask routing, JSON encoding and decoding, CORS, `send_file` and `send_from_directory` are HTTP plumbing. A request body that does not parse is modelled as a body with every field missing.
- Selenium: creating the driver, loading the page, and the waits and clicks are outside the model. Each interaction is an outcome parameter. The whole setup (driver, page, start button with its fallback, alert) is one success flag.
- `requests.get` of the scan listing and of the enclosure are outside the model. For a session the listing is a parsed sequence of records, or `None` when the request or its parsing failed. For a download it is a parsed listing, a reply with a status other than 200, or a request that raised. The enclosure fetch and its own 502 answer are not part of this model.
- `subprocess.run` of the converter, `glob` and modification-time sorting, `mkdir`, config loading and the real `Path.rename` are filesystem and process I/O. A run directory is a set of names, and the file-exists check of `download` is not modelled.
- Threads and locks are outside the model. Requests and poll iterations are atomic steps in sequence, and requests arrive only between iterations.
- Clocks, sleeps, `uuid4` and `now_iso` are outside the model. Ids and times are parameters, and the deadline is the length of the iteration sequence. The source stamps `created_at` and `updated_at` with two separate clock reads; the model uses one time for both.
- JobBridge.NewJob: the camera suffix is taken as the text `str` makes of the given value; how `str` renders a non-string JSON value (null becomes "None") is left to the caller.
- JobBridge.Completed: only a boolean `ok` is modelled. The truthiness of other JSON values under `bool` is not. Non-string `stdout` or `stderr` and non-list `output_files` are not modelled.
- JobBridge.Bridge.Submit: the caller supplies a fresh id that is not already in the store. `workspace` and `outdir` are strings and `scan_index` an integer; other JSON values and their truthiness are not modelled.
- ScanDirectory.ResolveDownload: an enclosure link that is JSON null, or a `_links` value that is null, makes the source raise and answer 500. The model reads such a link as missing.
- ScanDirectory.LatestScanInfo: a null `_links` or a null enclosure on the latest record makes the source raise; the model reads it as a missing link and gives no download name. A null link itself gives no download name in both.
- ScanSession.Session: for a null `_links` or a null enclosure on the latest record the source answers 500 after the loop; the model answers "complete" without a download name.
- ScanDirectory.Latest: only integer recording times are modelled. The listing's keys are ignored, and records are taken in listing order.
- ExportDownload.CheckDownload: resolving does not follow symbolic links and does not model Windows drive letters, case-insensitive comparison or UNC paths. A run is rooted when it starts with a separator.
- FileNames.MaybeRenamePrimary: names are compared exactly, while the Windows `exists()` checks ignore letter case. With "Scan.e57" present, a request for "scan.e57" is renamed to "scan_1.e57" by the source but kept as "scan.e57" by the model. A sanitised name of "." or "..", which pathlib collapses into the directory itself, is treated as an ordinary name. A missing file raising on rename is not modelled.
- FileNames.SplitSuffix: it follows the classic CPython rule for `Path.suffix` (the last dot, unless it is the first or the last character).
- FileNames.Candidate: its shape is stated by `CandidateParts`, not by its own contract.
