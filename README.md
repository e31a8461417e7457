# WMA-to-MP3 converter: conversion core in Dafny

This project models the conversion logic of a small desktop tool. The tool lists the `.wma` and `.mp3` files of a chosen directory and converts each of them to MP3 with ffmpeg. Each conversion runs on a worker of a thread pool, and a progress bar counts the finished jobs. The model covers these parts of the main window (`src/main/python/main.py`):

- **`paths.dfy`** (module `PathNames`). POSIX `os.path.splitext` and `os.path.join`, and the input and output paths that `Ui.convert` builds from a directory entry. `SplitExt` is proved to match Python's definition of an extension, including the rule that a file name's leading dots do not start an extension.
- **`listing.dfy`** (module `Listing`). The file list of `Ui.open_button_pressed`.
  - The filter keeps names whose extension, without the dot, is exactly `wma` or `mp3`. The match is case-sensitive.
  - The list is then sorted with Python's string order, which is lexicographic by code point with a prefix first.
  - The sort is proved to give the unique sorted permutation of the filtered entries.
- **`worker.dfy`** (module `Worker`). `Worker.run`: it emits `error` or `result`, and then `finished` in every case.
- **`progress.dfy`** (module `Progress`). The progress state, as pure functions:
  - the progress bar's value and maximum;
  - whether the convert button is enabled;
  - the status-bar message.
  
  It defines what starting a batch, one completion and the delivery of a worker's signals do to that state. It also defines the invariant that holds while jobs of a batch are pending.
- **`process.dfy`** (module `ProcessPoll`). The ffmpeg process as a class with `poll`, `terminate` and `wait`, and the waiting loop of `Ui.convert`, proved to end with the process ended and to perform a fixed trace of steps.
- **`ui.dfy`** (module `MainWindow`). The `Ui` class.
  - Its fields are the state the widgets hold, the thread pool's queue of submitted entries, and the module-level `_QUIT` flag.
  - Its methods are proved against the functions of `Progress`, `Listing` and `PathNames`.
  - `RunNextJob` stands for the thread pool running the oldest queued job. The process handed to it is ffmpeg's, or null when ffmpeg could not be started.

Outside inputs are parameters:
- the directory chosen in a dialog (`""` when the dialog was cancelled);
- the result of `os.listdir`;
- the ffmpeg process, through how many one-second sleeps it still runs and its exit code.
- how many reads of `_QUIT` in a worker's waiting loop still find it clear (`quitAt`).

Python's `None` for an unset directory or entry list is modelled as the empty string or the empty sequence. Both are falsy in the source's guards, just as `None` is.

## Model

| member | source | states |
|---|---|---|
| PathNames.LastIndex | src/main/python/main.py:113 | the `str.rfind` inside `splitext`: the last position of the character, or -1, with no occurrence after it |
| PathNames.SplitExt | src/main/python/main.py:113 | root followed by extension gives back the path; a non-empty extension starts with a dot and holds no further dot or separator |
| PathNames.SplitExtSpec | src/main/python/main.py:113 | the extension is non-empty exactly when some position starts an extension (a dot after the last separator, preceded by a non-dot character of the file name), and the root ends exactly there |
| PathNames.DestinationName | src/main/python/main.py:113 | the destination name ends in ".mp3" after a prefix of the entry; an entry without extension gets ".mp3" appended; an entry without separators gives a name without separators |
| PathNames.OutputPath | src/main/python/main.py:113 | the output path ends in ".mp3"; for an entry without separators it is the destination name directly inside the output directory (one '/' between them unless the directory is empty) |
| PathNames.InputPath | src/main/python/main.py:112 | the input path ends with the entry; for an entry without separators it is the entry directly inside the chosen directory |
| PathNames.Join | src/main/python/main.py:112-113 | the joined path ends with the second component; an absolute second component replaces the first; otherwise an empty first component gives the second unchanged, a first component ending in '/' is followed directly by the second, and any other is followed by exactly one '/' and then the second |
| PathNames.ExtensionHasBaseName | src/main/python/main.py:113 | a non-empty extension is always preceded by a base name in the root |
| PathNames.DestinationReplacesExtension | src/main/python/main.py:113 | only the last extension is replaced: splitting the destination name gives the entry's root and ".mp3" |
| PathNames.DotOnlyEntryDestination | src/main/python/main.py:113 | for a name made only of dots the destination is the name followed by ".mp3", and it has no extension of its own |
| Listing.ExtensionOf | src/main/python/main.py:156 | the extension without its dot holds no dot or separator, and when non-empty the name ends in a dot followed by it |
| Listing.IsSourceName | src/main/python/main.py:156 | the filter of the comprehension: a listed name has a dot four characters from its end |
| Listing.SourceNameIff | src/main/python/main.py:156 | a name passes the filter exactly when it ends in ".wma" or ".mp3" preceded by a base name |
| Listing.SourceNameHasSuffix | src/main/python/main.py:156 | a name that passes the filter ends in a dot and "wma" or "mp3" after a base name |
| Listing.SuffixMakesSourceName | src/main/python/main.py:156 | a name ending in a dot and "wma" or "mp3" after a base name passes the filter |
| Listing.UpperCaseNotListed | src/main/python/main.py:156 | the match is case-sensitive: names ending in ".MP3" are not listed |
| Listing.SourceEntries | src/main/python/main.py:156 | the comprehension keeps exactly the names that pass the filter, each as often as listed, and drops every other name |
| Listing.LessEq | src/main/python/main.py:155 | Python's `<=` on strings: a prefix is at most the longer string, and a string is not at most its proper prefix |
| Listing.LessEqReflexive | src/main/python/main.py:155 | Python's string order is reflexive |
| Listing.LessEqTotal | src/main/python/main.py:155 | any two strings are comparable |
| Listing.LessEqTransitive | src/main/python/main.py:155 | the string order is transitive |
| Listing.LessEqAntisymmetric | src/main/python/main.py:155 | two strings that are each at most the other are equal |
| Listing.Insert | src/main/python/main.py:155 | insertion adds exactly the one element to the multiset |
| Listing.InsertSorted | src/main/python/main.py:155 | inserting into a sorted list keeps it sorted |
| Listing.HeadBoundsInsert | src/main/python/main.py:155 | the head of a sorted list bounds every element of an insertion into its tail when it bounds the inserted element |
| Listing.SortNames | src/main/python/main.py:155 | `sorted` returns a permutation of its input in ascending string order |
| Listing.SortedHeadLeast | src/main/python/main.py:155 | the head of a sorted list is at most each of its elements |
| Listing.SameHeadSameTail | src/main/python/main.py:155 | two permutations of each other with the same head have tails that are permutations of each other |
| Listing.SortedPermutationUnique | src/main/python/main.py:155 | two sorted permutations of each other are equal |
| Listing.ListEntries | src/main/python/main.py:155-156 | the entry list is sorted and holds exactly the directory's source names, each as often as listed |
| Listing.ListEntriesUnique | src/main/python/main.py:155-156 | every sorted arrangement of the filtered names is the entry list |
| Worker.Run | src/main/python/main.py:72-83 | two signals: `error` with the traceback exactly when the function raised, `result` exactly when it returned, then `finished` |
| Worker.RunSignalsOnce | src/main/python/main.py:72-83 | one run emits `finished` once and a report (`result` or `error`) once, and the report comes first |
| Worker.CountFinished | src/main/python/main.py:83 | the number of `finished` signals is at most the number of signals |
| Worker.CountReports | src/main/python/main.py:76-81 | reports and `finished` signals together make up all the signals |
| Worker.CountFinishedAppend | src/main/python/main.py:83 | appending a signal adds one `finished` exactly when it is `finished` |
| Progress.Started | src/main/python/main.py:143-146 | starting a batch of n >= 1 jobs gives the pending-batch invariant with n jobs pending |
| Progress.Completed | src/main/python/main.py:132-138 | one completion raises the value by one and keeps the maximum; the button is re-enabled and the final message shown when the new value equals the maximum, and otherwise they are unchanged |
| Progress.CompletedTimes | src/main/python/main.py:132-138 | k completions raise the value by k and keep the maximum |
| Progress.Deliver | src/main/python/main.py:148-149 | delivering signals to the window completes one job per `finished` signal among them; `result` and `error` have no slot |
| Progress.BatchProgress | src/main/python/main.py:132-146 | after k of n completions the value is k, and the button is enabled and "all converted" shown exactly when k equals n |
| Progress.CompletedInBatch | src/main/python/main.py:132-138 | a completion keeps the pending-batch invariant with one job fewer, and the last one shows the final message |
| Progress.FailedJobCounts | src/main/python/main.py:72-83 | whether the function returned or raised, a worker's signals advance the progress exactly once |
| Progress.DeliverRuns | src/main/python/main.py:132-149 | the signals of any sequence of workers advance the progress once per worker, whatever each function did |
| Progress.BatchEndsWhateverOutcomes | src/main/python/main.py:132-149 | whatever each job's outcome, a batch of n workers ends with value n, the button enabled and the final message shown |
| ProcessPoll.Process.constructor | src/main/python/main.py:119-124 | a started process is running exactly when it still has work to do, and nothing has been done to it yet |
| ProcessPoll.Process.Poll | src/main/python/main.py:125 | `poll` reports whether the process is running and changes nothing else |
| ProcessPoll.Process.Terminate | src/main/python/main.py:127 | `terminate` signals a running process and does nothing to an ended one |
| ProcessPoll.Process.Wait | src/main/python/main.py:128 | after `wait` the process has ended: by the signal if it was sent one, otherwise with its own exit code |
| ProcessPoll.Process.Sleep | src/main/python/main.py:130 | a one-second sleep brings a running process one second nearer its end |
| ProcessPoll.SleepRounds | src/main/python/main.py:125-130 | k rounds of a poll that finds the process running and a sleep are 2k steps |
| ProcessPoll.PollTrace | src/main/python/main.py:125-130 | the loop's steps end with the poll that finds the process ended |
| ProcessPoll.FinalState | src/main/python/main.py:125-130 | how the loop leaves the process: as it was if it had ended, terminated if the flag is seen first, otherwise as it ends by itself |
| ProcessPoll.AwaitExit | src/main/python/main.py:125-130 | the loop returns only once the process has ended: terminated if `_QUIT` is seen set before the process ends by itself (the flag is read again before each sleep), otherwise in the state it ends in by itself; the steps it takes are exactly `PollTrace` |
| ProcessPoll.QuitTerminatesThenWaits | src/main/python/main.py:125-130 | the loop terminates and reaps the process exactly when it is running and the flag is seen before it ends by itself; with the flag already set it never sleeps; each `terminate` is directly followed by `wait` |
| ProcessPoll.SleepRoundsShape | src/main/python/main.py:125-130 | those rounds alternate poll and sleep, starting with a poll |
| ProcessPoll.NoQuitSleepsUntilExit | src/main/python/main.py:125-130 | when the flag is not seen before the process ends, the loop never terminates or waits: it polls and sleeps once per remaining second, then polls once more |
| MainWindow.Ui.constructor | src/main/python/main.py:87-109 | no directory, entries or output directory; the button enabled, no message, nothing queued, the quit flag clear |
| MainWindow.Ui.OpenButtonPressed | src/main/python/main.py:152-158 | the chosen directory is stored; when one was chosen the entries become the sorted source names of its listing, otherwise they are kept |
| MainWindow.Ui.OutputButtonPressed | src/main/python/main.py:160-163 | the chosen output directory is stored |
| MainWindow.Ui.Ready | src/main/python/main.py:142 | the guard of `convert_button_pressed`: output directory, directory and entries all set |
| MainWindow.Ui.ConvertButtonPressed | src/main/python/main.py:140-150 | with all three inputs set: a batch of one job per entry starts and the entries are queued in order; otherwise only the message is cleared; an enabled button keeps the pending-batch invariant |
| MainWindow.Ui.ThreadComplete | src/main/python/main.py:132-138 | the progress state becomes `Completed` of the old one |
| MainWindow.Ui.Dispatch | src/main/python/main.py:148-149 | delivering a worker's signals changes the progress as `Deliver` says: only `finished` has a slot |
| MainWindow.Ui.Convert | src/main/python/main.py:111-130 | the input path is the entry joined to the directory, the output path the destination name joined to the output directory; the function raises only when ffmpeg cannot be started, and otherwise returns once the process has ended, having followed `PollTrace` |
| MainWindow.Ui.RunWorker | src/main/python/main.py:72-83 | a worker running `convert` emits the signals of `Run` for `convert`'s outcome, and the process has ended after the steps of `PollTrace` |
| MainWindow.Ui.TakeJob | src/main/python/main.py:150 | the thread pool takes the oldest queued entry |
| MainWindow.Ui.RunNextJob | src/main/python/main.py:147-150 | with a queued job, the oldest entry is run, the progress advances exactly once (also when ffmpeg could not be started), and the pending-batch invariant is kept; with none, nothing changes |
| MainWindow.Ui.Exit | src/main/python/main.py:165-168 | the queue is emptied and the quit flag raised |

A missing input file does not make a job fail: `convert` never looks at ffmpeg's exit status, so a missing file or a failed conversion still ends with `result`. Only a failure to start ffmpeg at all raises and gives `error`. `Ui.Convert` returns `Returned` whatever the process's exit code, and `Raised` only when there is no process.

`_QUIT` is read again on every pass of the waiting loop, and `exit` may set it while a worker is sleeping. The loop is therefore given `quitAt`, the number of its reads that still find the flag clear. Once the flag is set it stays set, so a worker started after `exit` sees it at its first read.

`convert_button_pressed` clears the status message before it checks its guard, so a click with a missing input clears the message and does nothing else. `Ui.ConvertButtonPressed` says so.

## Left out

- Qt widgets are reduced to the state they hold: the list widget's contents, the line edit's text, the dialogs and the `.ui` file (the bar's initial value and maximum are constructor parameters) are not modelled. Of the signal/slot machinery, only the one connection (`finished` to `thread_complete`) is modelled, by `Progress.Deliver` and `Ui.Dispatch`; Qt's queued delivery across threads is not.
- The thread pool is modelled as a first-in first-out queue whose jobs run one at a time through `Ui.RunNextJob`. Concurrent workers, the scheduling order, the maximum thread count (`os.cpu_count() - 1`), `QMutex`, and the visibility of `_QUIT` across threads are not modelled.
- The ffmpeg command line (`input`, `output` with format mp3, `overwrite_output`, `run_async`) is reduced to the two paths of `Job`, plus the process object. What ffmpeg writes is not modelled.
- Sleep durations and `time.sleep(1.5)` in `exit` are not modelled. The waiting loop's sleeps are steps in the process trace.
- `exit`'s `waitForDone` is left out. It blocks until running workers end, and running workers are not modelled concurrently.
- `os.listdir` is a parameter. Directory contents, file-system errors and the order of the listing (which `sorted` removes) are not modelled.
- Printing of the traceback (`traceback.print_exc`) is not modelled. The formatted traceback is a string.
- `QProgressBar.setValue` ignores values outside the range of the bar; the model stores the value as given, which matters only outside a batch.
- `ProcessPoll.Process.constructor`: every process ends after a finite number of one-second sleeps. A process that never ends, which would make the source's loop run forever, is not modelled.
- Path names are sequences of characters. Byte names and surrogate escapes are not modelled.
- `MainWindow.Ui.ConvertButtonPressed`: keeping the pending-batch invariant is stated only for a click while the button is enabled. Qt does not deliver clicks on a disabled button.
- `MainWindow.Ui.Exit`: only the queue clearing and the quit flag are stated.
- `ProcessPoll.AwaitExit`: the moment `_QUIT` is set is a parameter (`quitAt`) fixed before the loop starts, not a write by another thread during it. Any moment can be chosen, but the model does not connect it to a particular call of `Ui.Exit`.
- `MainWindow.Ui.Convert`: a failure to start ffmpeg always reports the same stand-in traceback (`SpawnFailure`), not the text of the exception that was raised.
