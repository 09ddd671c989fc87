/** The rotation supervisor: follows the newest file of a directory and hands
    over to a new tail session whenever a directory event reveals a different
    newest file. */
module Rotation {
  import opened Ranker
  import Session

  datatype Option<T> = None | Some(value: T)

  /** The operation bits of a directory notification. */
  type Op = bv32

  const Create: Op := 1
  const Write: Op := 2
  const Remove: Op := 4
  const Rename: Op := 8
  const Chmod: Op := 16

  /** Only creations, writes and attribute changes make the supervisor look again. */
  function Relevant(op: Op): (r: bool)
    ensures r <==> (op & Create != 0 || op & Write != 0 || op & Chmod != 0)
    ensures op & (Remove | Rename) == op ==> !r
  {
    op & (Create | Write | Chmod) != 0
  }

  /** What the supervisor does to tail sessions, which are numbered in the order they start. */
  datatype Action = Start(session: nat, file: string) | Cancel(session: nat)

  /** The history of a supervisor that started one session for each file in
      files, in order, cancelling each session just before starting the next. */
  ghost function Handoffs(files: seq<string>): (h: seq<Action>)
    ensures |h| == if files == [] then 0 else 2 * |files| - 1
    ensures forall i :: 0 <= i < |h| ==> (h[i].Start? <==> i % 2 == 0)
  {
    if files == [] then []
    else if |files| == 1 then [Start(0, files[0])]
    else Handoffs(files[..|files| - 1]) + [Cancel(|files| - 2), Start(|files| - 1, files[|files| - 1])]
  }

  /** One more session: cancel the previous one (if any), then start the new one. */
  lemma {:induction false} HandoffsSnoc(files: seq<string>, f: string)
    ensures Handoffs(files + [f]) ==
      Handoffs(files) + (if files == [] then [] else [Cancel(|files| - 1)]) + [Start(|files|, f)]
  {
    var fs := files + [f];
    if files == [] {
      assert fs == [f];
    } else {
      assert fs[..|fs| - 1] == files;
      assert fs[|fs| - 1] == f;
    }
  }

  /** Position by position: session k starts at 2k, and is cancelled at 2k + 1,
      right before session k + 1 starts. */
  lemma {:induction false} HandoffsAt(files: seq<string>, i: nat)
    requires i < |Handoffs(files)|
    ensures Handoffs(files)[i] == if i % 2 == 0 then Start(i / 2, files[i / 2]) else Cancel(i / 2)
  {
    var n := |files|;
    if n > 1 && i < 2 * n - 3 {
      var init := files[..n - 1];
      HandoffsAt(init, i);
      assert init[i / 2] == files[i / 2];
    }
  }

  /** Every session that was started has been cancelled except the most
      recent one, and every start is one of the files, in order. */
  lemma {:induction false} OnlyLastLive(files: seq<string>)
    ensures forall k :: 0 <= k < |files| - 1 ==> Cancel(k) in Handoffs(files)
    ensures files != [] ==> Cancel(|files| - 1) !in Handoffs(files)
    ensures forall a :: a in Handoffs(files) && a.Start? ==> a.session < |files| && a.file == files[a.session]
  {
    var h := Handoffs(files);
    forall k | 0 <= k < |files| - 1 ensures Cancel(k) in h {
      HandoffsAt(files, 2 * k + 1);
      assert h[2 * k + 1] == Cancel(k);
    }
    forall i | 0 <= i < |h| ensures h[i] != Cancel(|files| - 1) {
      HandoffsAt(files, i);
    }
    forall i | 0 <= i < |h| && h[i].Start? ensures h[i].session < |files| && h[i].file == files[h[i].session] {
      HandoffsAt(files, i);
    }
  }

  /** The cancellation of a session is issued strictly before its successor starts. */
  lemma CancelBeforeNextStart(files: seq<string>, k: nat, i: nat, j: nat)
    requires k + 1 < |files|
    requires i < |Handoffs(files)| && Handoffs(files)[i] == Cancel(k)
    requires j < |Handoffs(files)| && Handoffs(files)[j].Start? && Handoffs(files)[j].session == k + 1
    ensures i < j
  {
    HandoffsAt(files, i);
    HandoffsAt(files, j);
  }

  /** After shutdown has cancelled the live session, no session is left running. */
  lemma ShutdownCancelsAll(files: seq<string>)
    requires files != []
    ensures forall k :: 0 <= k < |files| ==> Cancel(k) in Handoffs(files) + [Cancel(|files| - 1)]
  {
    OnlyLastLive(files);
  }

  datatype Phase = Running | Stopped | Failed

  /** The tailer's state: the file being followed and the cancel handle of
      its session (the cancelFunc field of LogTailer), the count of sessions
      started, and whether the watch loop runs, has stopped on shutdown, or the
      process has died on a fatal error. Ghost fields record the file
      of every session and every start and cancel issued. */
  class LogTailer {
    const dir: string
    var currentFile: string
    var cancelFunc: Option<nat>
    var started: nat
    var phase: Phase
    ghost var files: seq<string>
    ghost var history: seq<Action>

    ghost predicate Valid()
      reads this
    {
      started == |files| &&
      (files == [] ==> cancelFunc == None && currentFile == "") &&
      (files != [] ==> cancelFunc == Some(|files| - 1) && currentFile == files[|files| - 1]) &&
      (forall k :: 0 <= k < |files| ==> files[k] != "") &&
      (forall k :: 0 < k < |files| ==> files[k - 1] != files[k]) &&
      history == if phase == Stopped && files != [] then Handoffs(files) + [Cancel(|files| - 1)] else Handoffs(files)
    }

    /** Start-up: rank the directory and, if it holds a file, start a session
        on it. A listing that cannot be read is fatal. */
    constructor (dir: string, read: DirRead)
      ensures Valid() && this.dir == dir
      ensures read.ReadFailed? ==> phase == Failed && files == [] && history == []
      ensures read.Listed? ==> phase == Running && currentFile == Rank(dir, read.entries)
      ensures read.Listed? ==> files == (if currentFile == "" then [] else [currentFile])
      ensures read.Listed? ==> history == (if currentFile == "" then [] else [Start(0, currentFile)])
    {
      this.dir := dir;
      currentFile := "";
      cancelFunc := None;
      started := 0;
      files := [];
      history := [];
      phase := Running;
      new;
      match read
      case ReadFailed =>
        phase := Failed;
      case Listed(entries) =>
        var listing := new Entry[|entries|](i requires 0 <= i < |entries| => entries[i]);
        assert listing[..] == entries;
        var latest := LatestFile(dir, listing);
        if latest != "" {
          Handoff(latest);
        }
    }

    /** The handoff to a new current file: cancel the live session, if there
        is one, strictly before the session for file starts. */
    method Handoff(file: string)
      requires Valid() && phase == Running
      requires file != "" && file != currentFile
      modifies this
      ensures Valid() && phase == Running && currentFile == file
      ensures files == old(files) + [file] && cancelFunc == Some(old(started)) && started == old(started) + 1
      ensures history == old(history) + (if old(cancelFunc).Some? then [Cancel(old(cancelFunc).value)] else []) +
        [Start(old(started), file)]
    {
      HandoffsSnoc(files, file);
      if cancelFunc.Some? {
        history := history + [Cancel(cancelFunc.value)];
      }
      cancelFunc := Some(started);
      history := history + [Start(started, file)];
      files := files + [file];
      started := started + 1;
      currentFile := file;
    }

    /** One directory event. Only a creation, write or attribute change makes
        the supervisor re-rank the whole directory; it switches only when the
        newest file is a file other than the current one, cancelling the old
        session before the new one starts. Re-ranking an unchanged listing
        switches no more, ties or not. When one file is strictly newest, any
        ranking that picks a newest file agrees. An empty listing clears
        nothing; a listing that cannot be read is fatal; after shutdown
        nothing happens. */
    method OnEvent(op: Op, read: DirRead) returns (switched: bool)
      requires Valid()
      modifies this
      ensures Valid()
      ensures old(phase) != Running || !Relevant(op) ==> !switched && phase == old(phase)
      ensures old(phase) == Running && Relevant(op) && read.ReadFailed? ==> !switched && phase == Failed
      ensures old(phase) == Running && Relevant(op) && read.Listed? ==>
        phase == Running && (HasNonDirectory(read.entries) ==> currentFile == Rank(dir, read.entries))
      ensures read.Listed? && !HasNonDirectory(read.entries) ==> !switched
      ensures read.Listed? && Rank(dir, read.entries) == old(currentFile) ==> !switched
      ensures read.Listed? && NoTie(read.entries) && Selects(dir, read.entries, old(currentFile)) ==> !switched
      ensures switched <==> currentFile != old(currentFile)
      ensures !switched ==>
        currentFile == old(currentFile) && cancelFunc == old(cancelFunc) &&
        started == old(started) && files == old(files) && history == old(history)
      ensures switched ==>
        files == old(files) + [currentFile] && cancelFunc == Some(old(started)) &&
        started == old(started) + 1 &&
        history == old(history) + (if old(cancelFunc).Some? then [Cancel(old(cancelFunc).value)] else []) +
          [Start(old(started), currentFile)]
    {
      switched := false;
      if phase != Running || !Relevant(op) {
        return;
      }
      match read
      case ReadFailed =>
        phase := Failed;
      case Listed(entries) =>
        var listing := new Entry[|entries|](i requires 0 <= i < |entries| => entries[i]);
        assert listing[..] == entries;
        var latestFile := LatestFile(dir, listing);
        if NoTie(entries) && Selects(dir, entries, currentFile) {
          SelectsUnique(dir, entries, latestFile, currentFile);
        }
        if latestFile != "" && latestFile != currentFile {
          Handoff(latestFile);
          switched := true;
        }
    }

    /** A session's goroutine returned with the given ending. A fatal ending
        (the history could not be read, or the follow stream not opened)
        calls log.Fatal, which ends the whole process whichever session it
        came from, live or already cancelled: the watch loop dies as it
        stands, with no cancel issued. Any other ending changes nothing here. */
    method SessionEnded(ending: Session.Ending)
      requires Valid()
      modifies this
      ensures Valid()
      ensures ending == Session.Fatal && old(phase) == Running ==> phase == Failed
      ensures ending != Session.Fatal || old(phase) != Running ==> phase == old(phase)
      ensures currentFile == old(currentFile) && cancelFunc == old(cancelFunc) && files == old(files) &&
        started == old(started) && history == old(history)
    {
      if ending == Session.Fatal && phase == Running {
        phase := Failed;
      }
    }

    /** Shutdown on the first termination signal: cancel the live session and
        stop the watch loop. Later signals change nothing. */
    method Shutdown()
      requires Valid()
      modifies this
      ensures Valid()
      ensures old(phase) != Running ==> phase == old(phase) && history == old(history)
      ensures old(phase) == Running ==>
        phase == Stopped &&
        history == old(history) + (if old(cancelFunc).Some? then [Cancel(old(cancelFunc).value)] else [])
      ensures currentFile == old(currentFile) && cancelFunc == old(cancelFunc) && files == old(files) && started == old(started)
    {
      if phase == Running {
        if cancelFunc.Some? {
          history := history + [Cancel(cancelFunc.value)];
        }
        phase := Stopped;
      }
    }
  }

  /** A session dies of a fatal error: the process ends, so a later newer
      file is never switched to and no session is cancelled. */
  method FatalSessionScenario(dir: string)
  {
    var a := Entry("app.1.log", 0, false);
    var b := Entry("app.2.log", 2, false);
    var t := new LogTailer(dir, Listed([a]));
    assert FirstNewest([a], 0);
    FirstNewestUnique([a], 0, RankIndex([a]));
    var h := t.history;
    t.SessionEnded(Session.Fatal);
    var s := t.OnEvent(Create, Listed([a, b]));
    t.Shutdown();
    assert !s && t.phase == Failed && t.history == h;
  }

  /** A directory holding app.1.log gains a newer app.2.log: the tailer
      cancels the first session and starts exactly one on the new file. */
  method RotationScenario(dir: string)
  {
    var a := Entry("app.1.log", 0, false);
    var b := Entry("app.2.log", 2, false);
    var t := new LogTailer(dir, Listed([a]));
    assert FirstNewest([a], 0);
    FirstNewestUnique([a], 0, RankIndex([a]));
    var s := t.OnEvent(Create, Listed([a, b]));
    assert FirstNewest([a, b], 1);
    FirstNewestUnique([a, b], 1, RankIndex([a, b]));
    assert Join(dir, "app.2.log") != Join(dir, "app.1.log") by {
      if Join(dir, "app.2.log") == Join(dir, "app.1.log") {
        JoinInjective(dir, "app.2.log", "app.1.log");
      }
    }
    assert s;
    assert t.history == [Start(0, Join(dir, "app.1.log")), Cancel(0), Start(1, Join(dir, "app.2.log"))];
  }

  /** Once app.2.log is followed, a write to an older file, a newer
      sub-directory, or a removal does not switch; shutdown then leaves no
      session running. */
  method OlderWriteScenario(dir: string)
  {
    var b := Entry("app.2.log", 2, false);
    var c := Entry("old.log", 1, false);
    var d := Entry("archive", 5, true);
    var t := new LogTailer(dir, Listed([b]));
    assert FirstNewest([b], 0);
    FirstNewestUnique([b], 0, RankIndex([b]));
    assert FirstNewest([b, c, d], 0);
    FirstNewestUnique([b, c, d], 0, RankIndex([b, c, d]));
    var s := t.OnEvent(Write | Chmod, Listed([b, c, d]));
    assert !s;
    s := t.OnEvent(Remove, ReadFailed);
    assert !s && t.phase == Running;
    t.Shutdown();
    ShutdownCancelsAll(t.files);
    assert forall k :: 0 <= k < |t.files| ==> Cancel(k) in t.history;
  }

  /** Two equally new files: repeated writes to an unchanged directory do not
      make the tailer alternate between them. */
  method TiedRescanScenario(dir: string)
  {
    var a := Entry("a.log", 3, false);
    var b := Entry("b.log", 3, false);
    var t := new LogTailer(dir, Listed([a, b]));
    var s1 := t.OnEvent(Write, Listed([a, b]));
    var s2 := t.OnEvent(Write, Listed([a, b]));
    assert !s1 && !s2;
    assert |t.history| == 1;
  }
}
