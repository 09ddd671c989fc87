# bigfix-log-tail, modelled in Dafny

bigfix-log-tail follows "the current log file" of a directory (the BigFix
client's log directory by default). The current file is the newest entry
that is not a directory: a plain file, but also a symbolic link, a FIFO or a
socket, since only `IsDir` is tested. When the directory rotates to a newer file, the tool switches to that
file. It prints the last ten lines of each file it starts on, then follows
the lines appended to it. This project models the sequential decision logic
under the Go program's goroutines and library calls, and proves what it
promises:

- `ranker.dfy` (module `Ranker`) is `getLatestFile`. `LatestFile` searches an
  array of directory entries for a newest non-directory entry. It is proved
  to return `Rank`, a function of the listing: `""` when every entry is a
  directory, otherwise the directory joined with the name of the first newest
  non-directory entry in listing order. `Rank` in turn meets the relational
  predicate `Selects`, which allows any newest entry. `SortThenScan` shows
  that the Go code's own algorithm also meets `Selects`: sort a copy newest
  first, then take the first non-directory entry. This holds whatever order
  the unstable sort leaves equal times in.
- `window.dfy` (module `Window`) is `printLastNLines`. The sliding window is a
  loop. It is proved to keep at most `n` lines and to print exactly
  `LastN(lines, n)`, the last `min(n, total)` lines in file order.
- `session.dfy` (module `Session`) is `tailFile`. The follow loop reads a
  sequence of events, each a line, a cancellation, or the close of the
  stream. It emits the error-free lines in order and skips lines that carry an
  error. It stops at the first cancellation or close. `TailFile` composes the
  history print and the loop, including the fatal paths.
- `rotation.dfy` (module `Rotation`) is `tailLatestFile` together with
  `LogTailer.cancelFunc`. Class `LogTailer` holds the current file, the cancel
  handle of the live session, the phase of the watch loop, and a ghost history
  of session starts and cancels. Its invariant `Valid` ties that history to
  `Handoffs(files)`: one session per file, each cancelled just before the next
  one starts. The lemmas about `Handoffs` give the two main facts. At most one
  session is ever left uncancelled. The old session's cancel comes before the
  new session's start. `SessionEnded` passes a session's fatal ending on to
  the tailer, which then stops as the dying process does.

Inputs the Go program reads from the operating system are parameters here.
The directory listing is a `DirRead`. The file's scanned lines are a
`Window.FileRead`. The follow stream, interleaved with the session's
cancellation, is a `Session.FollowStart`. Each watch notification is an
operation bitmask `Op` that is passed to `OnEvent`. Modification times are
integers. `Join(dir, name)` is `dir + "/" + name`.

Points of the Go code that shape the model:

- Ties. `sort.Slice` is not stable, and its comparator does not order equal
  times. So `Selects` allows any newest entry, and `SortThenScan` proves only
  that the Go answer is one of them. `LatestFile` and `Rank` break ties by
  listing order. `SelectsUnique` shows that, when no two entries tie, every
  allowed answer is the same path.
- History errors. Failing to open the file, or a scanner error, is fatal
  (`log.Fatal`). `PrintLastNLines` returns `fatal`, and on a scanner error it
  still prints what was scanned first.
- Cleanup at exit. `tailLatestFile` returns once the watch loop has cancelled
  the session. The process then exits without waiting for the session
  goroutine's deferred `Stop`/`Cleanup`. The model records the cancel only.
  `TailFile`'s `released` says that the deferred release runs exactly when
  the follow loop returns.
- Fatal paths. `log.Fatal` ends the whole process, and deferred functions
  do not run. The watch loop reaches phase `Failed` in two ways. One is a
  listing that cannot be read (main.go:154-164), in the constructor or in
  `OnEvent`. The other is a session's fatal error passed on by `SessionEnded`.
  A session fails when the follow stream cannot be opened (main.go:185-188),
  when the file cannot be opened (main.go:216-219), or on a scanner error
  (main.go:236-238). `Session.TailFile` reports these as ending `Fatal`. In
  phase `Failed` the live session is not cancelled, and `OnEvent` and
  `Shutdown` change nothing.

## Model

| member | source | states |
|---|---|---|
| Ranker.Join | main.go:171 | a joined path is never the empty "no file" answer |
| Ranker.JoinInjective | main.go:171 | entries with different names in one directory give different paths |
| Ranker.FirstNewestUnique | main.go:157-173 | at most one entry is the first newest non-directory entry, so a tie-break by listing order names one entry |
| Ranker.RankIndex | main.go:157-175 | -1 exactly when every entry is a directory; otherwise the index of a non-directory entry at least as new as every non-directory entry and strictly newer than every earlier one |
| Ranker.Rank | main.go:151-176 | "" exactly when no entry is a non-directory; otherwise an answer Selects allows: dir joined with the name of a newest non-directory entry |
| Ranker.LatestFile | main.go:151-176 | returns Rank of the listing: "" exactly when no entry is a non-directory; otherwise dir joined with the name of the first non-directory entry at least as new as every other non-directory entry (newer directories never win) |
| Ranker.SelectsUnique | main.go:157-167 | when one entry is strictly newest, every allowed answer is the same path, so re-ranking an unchanged directory is stable |
| Ranker.FirstNonDirectory | main.go:169-175 | the scan of the sorted listing answers "" exactly when no entry is a non-directory |
| Ranker.SortedScanSelects | main.go:157-175 | on a listing sorted newest first, the first non-directory entry is a newest non-directory entry |
| Ranker.PermutationSelects | main.go:157-167 | reordering the listing, as the in-place sort does, does not change which answers are allowed |
| Ranker.SortThenScan | main.go:152-175 | sorting the listing newest first in any order for equal times, then scanning for the first non-directory entry, gives an answer that Selects allows, the predicate LatestFile also meets |
| Window.LastN | main.go:224-234 | the window holds the last min(n, total) lines in file order: all lines of a file shorter than n, none of an empty file, none when n is not positive |
| Window.SlideStep | main.go:226-231 | one loop step, appending line i and dropping the head when more than n are held, turns the window of the last Kept(i, n) of the first i lines into that of the first i + 1 lines |
| Window.WindowIsLastN | main.go:224-234 | a window of Kept(total, n) lines, that is min(n, total) and none when n is not positive, that ends at the last scanned line is exactly LastN of the lines |
| Window.PrintLastNLines | main.go:215-239 | after every iteration the window holds the last min(i, n) of the i lines scanned so far; it prints exactly LastN of the scanned lines, in order; an unopenable file prints nothing and is fatal; a scanner error is fatal after printing |
| Session.StopIndex | main.go:197-205 | the loop runs over lines only and stops at the first cancellation or stream close, or consumes the whole input |
| Session.TextsAppend | main.go:201-210 | emitted output of a stream is the output of its first part followed by that of the rest: no reordering |
| Session.TextsOfCleanLines | main.go:206-210 | a stream of error-free lines is emitted whole, line k as the k-th output |
| Session.TextsFromCleanLines | main.go:206-210 | every emitted text is the text of an error-free line of the stream |
| Session.StopIndexAppend | main.go:197-205 | a stream prefix with no stop does not end the loop; the stop point of the rest is shifted by its length |
| Session.FollowIncremental | main.go:197-212 | after consuming a prefix without stopping, the rest of the stream appends its own output and nothing is emitted twice |
| Session.Follow | main.go:197-212 | emits the texts of the error-free lines before the first stop, in stream order, skipping error lines without stopping; reports whether it stopped by cancellation, by close, or still waits |
| Session.TailFile | main.go:178-213 | a session prints the last 10 lines and then exactly what Follow emits; failing to read the history or to open the follow stream is fatal; the follow stream is released exactly when the loop returns |
| Rotation.Relevant | main.go:118 | an event is acted on exactly when its op has the Create, Write or Chmod bit; pure Remove/Rename events are ignored |
| Rotation.Handoffs | main.go:93-134 | a history of k sessions has 2k - 1 actions (none for no session), starts at the even positions and cancels at the odd ones, so k starts and k - 1 cancels |
| Rotation.HandoffsSnoc | main.go:126-134 | a switch appends the cancel of the previous session (if any) and then the start of the new one |
| Rotation.HandoffsAt | main.go:93-134 | session k starts at position 2k and is cancelled at 2k + 1, immediately before session k + 1 starts |
| Rotation.OnlyLastLive | main.go:126-134 | every started session except the most recent has been cancelled, the most recent has not, and each session was started on its own file |
| Rotation.CancelBeforeNextStart | main.go:126-134 | the cancel of session k is issued strictly before session k + 1 starts |
| Rotation.ShutdownCancelsAll | main.go:109-115 | once shutdown cancels the live session, every session ever started is cancelled |
| Rotation.LogTailer.constructor | main.go:89-102 | start-up ranks the directory; the current file is Rank of the listing; if it holds a file, session 0 is started on it, else nothing is followed; a failed listing is fatal |
| Rotation.LogTailer.Handoff | main.go:126-134 | cancels the live session, if any, before starting the session on the new file, which becomes the current file |
| Rotation.LogTailer.OnEvent | main.go:116-136 | an irrelevant op or a stopped loop changes nothing; a relevant op re-ranks the whole listing, the current file becomes Rank of it when it holds a file, and the tailer switches exactly when that differs from the current file; a listing without files does not clear the current file; a listing whose Rank is already current causes no switch, ties included, so an unchanged directory never makes it alternate; a failed listing is fatal |
| Rotation.LogTailer.SessionEnded | main.go:181-188 | a session's fatal ending stops a running watch loop for good (phase Failed) with no cancel issued and no state changed besides the phase; any other ending, or a loop already stopped, changes nothing |
| Rotation.LogTailer.Shutdown | main.go:104-115 | the first shutdown cancels the live session and stops the loop; a repeated one changes nothing |

## Left out

- The fsnotify watcher, `watcher.Add` and its failure exit, and the Events and Errors channels. A watch error is only logged and changes no state. An event is the `Op` argument of `OnEvent`. The bit values Create=1, Write=2, Remove=4, Rename=8 and Chmod=16 follow fsnotify's `Op` constants, which are not part of this model.
- nxadm/tail `TailFile`, `Stop`, `Cleanup` and seek-to-end. The follow stream is an abstract event sequence. The lines written between the history print and the open at end of file are not modelled.
- `os.ReadDir`, `Info`, `os.Open` and `bufio.Scanner` are filesystem I/O. Their results are inputs. An `Info` failure is folded into `ReadFailed`, even for listings of one entry, where the sort never calls its comparator.
- The in-place `sort.Slice`. `LatestFile` finds a maximum instead and does not reorder its array. `SortThenScan` proves that sorting and scanning meet the same predicate `Selects`.
- Goroutines, channels, `select` and context propagation. A sequence of `Session.Event` fixes one interleaving of a session's cancellation and its lines. Cancelling the parent context also cancels every child context; the model records only the explicit calls to `cancelFunc`.
- The signal goroutine and `main`'s `defer cancel()`. `Shutdown` stands for the first signal. Later signals are ignored, which `Shutdown` states as a no-op.
- Log messages ("Now tailing", "Detected newer log file", the line-error diagnostic). They carry no decision. Only the lines printed from the file are modelled as output.
- Platform default paths, flag parsing, the unused `microsecDelay` knob, and the argument-count check in `main`.
- `filepath.Join` cleaning rules and the Windows separator. Real time values are integers.
- Ranker.LatestFile: among entries with equal modification times it returns the first in listing order. The Go code returns whichever of them the unstable `sort.Slice` leaves first. `SortThenScan` proves only that the Go answer satisfies `Selects`, not that it equals `Rank`.
