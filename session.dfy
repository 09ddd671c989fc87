/** One tail session: print the recent history of a file, then follow the
    lines appended to it until the session is cancelled or the stream closes. */
module Session {
  import Window

  /** The number of history lines a session prints before following. */
  const HistoryLines := 10

  /** What the session's loop observes next: its own cancellation, a line
      from the follow stream (which may carry a read error), or the end of
      the stream. A sequence of these fixes one interleaving of the two sources. */
  datatype Event = Cancelled | Line(text: string, failed: bool) | Closed

  /** How the follow loop ended, or that it is still waiting for input. */
  datatype Ending = StillFollowing | StoppedByCancel | StoppedByClose | Fatal

  /** Opening the follow stream at the end of the file: the events it and the
      cancellation produce, or a failure to open it. */
  datatype FollowStart = Tailing(events: seq<Event>) | TailFailed

  /** The position of the first event that ends the loop, or the length when none does. */
  function StopIndex(events: seq<Event>): (k: nat)
    ensures k <= |events|
    ensures forall j :: 0 <= j < k ==> events[j].Line?
    ensures k < |events| ==> !events[k].Line?
  {
    if events == [] || !events[0].Line? then 0
    else
      var k := 1 + StopIndex(events[1..]);
      assert forall j :: 0 < j < |events| ==> events[1..][j - 1] == events[j];
      k
  }

  /** The texts of the lines that carry no error, in stream order. */
  function Texts(events: seq<Event>): (texts: seq<string>)
    ensures |texts| <= |events|
  {
    if events == [] then []
    else (if events[0].Line? && !events[0].failed then [events[0].text] else []) + Texts(events[1..])
  }

  /** How a loop that has consumed events ends. */
  function EndingOf(events: seq<Event>): (ending: Ending)
  {
    var k := StopIndex(events);
    if k == |events| then StillFollowing
    else if events[k].Cancelled? then StoppedByCancel
    else StoppedByClose
  }

  /** Emitting is compositional: the texts of a stream are those of its parts, in order. */
  lemma {:induction false} TextsAppend(a: seq<Event>, b: seq<Event>)
    ensures Texts(a + b) == Texts(a) + Texts(b)
  {
    if a == [] {
      assert a + b == b;
    } else {
      assert (a + b)[1..] == a[1..] + b;
      TextsAppend(a[1..], b);
    }
  }

  /** A stream of error-free lines is emitted whole: nothing dropped, nothing reordered. */
  lemma {:induction false} TextsOfCleanLines(events: seq<Event>)
    requires forall j :: 0 <= j < |events| ==> events[j].Line? && !events[j].failed
    ensures |Texts(events)| == |events|
    ensures forall j :: 0 <= j < |events| ==> Texts(events)[j] == events[j].text
  {
    if events != [] {
      TextsOfCleanLines(events[1..]);
    }
  }

  /** Lines with a read error are dropped and nothing else: every emitted text
      belongs to an error-free line. */
  lemma {:induction false} TextsFromCleanLines(events: seq<Event>, t: string)
    requires t in Texts(events)
    ensures exists j :: 0 <= j < |events| && events[j] == Line(t, false)
  {
    if events[0] == Line(t, false) {
    } else {
      assert t in Texts(events[1..]);
      TextsFromCleanLines(events[1..], t);
      var j :| 0 <= j < |events[1..]| && events[1..][j] == Line(t, false);
      assert events[j + 1] == Line(t, false);
    }
  }

  /** Following is incremental: when a part of the stream has been consumed
      without stopping, what the rest emits is appended to what was already emitted. */
  lemma {:induction false} FollowIncremental(a: seq<Event>, b: seq<Event>)
    requires StopIndex(a) == |a|
    ensures StopIndex(a + b) == |a| + StopIndex(b)
    ensures Texts((a + b)[..StopIndex(a + b)]) == Texts(a) + Texts(b[..StopIndex(b)])
  {
    StopIndexAppend(a, b);
    assert (a + b)[..StopIndex(a + b)] == a + b[..StopIndex(b)];
    TextsAppend(a, b[..StopIndex(b)]);
  }

  /** A prefix that does not stop the loop shifts where the rest stops by its length. */
  lemma {:induction false} StopIndexAppend(a: seq<Event>, b: seq<Event>)
    requires StopIndex(a) == |a|
    ensures StopIndex(a + b) == |a| + StopIndex(b)
  {
    if a != [] {
      assert (a + b)[1..] == a[1..] + b;
      StopIndexAppend(a[1..], b);
    } else {
      assert a + b == b;
    }
  }

  /** The follow loop: emits each error-free line in stream order, logs and
      skips lines that carry an error, and returns at the first cancellation
      or end of stream. Events after that point are never looked at. */
  method Follow(events: seq<Event>) returns (emitted: seq<string>, ending: Ending)
    ensures emitted == Texts(events[..StopIndex(events)])
    ensures ending == EndingOf(events)
  {
    emitted := [];
    var i := 0;
    while i < |events|
      invariant i <= StopIndex(events)
      invariant emitted == Texts(events[..i])
    {
      match events[i]
      case Cancelled =>
        return emitted, StoppedByCancel;
      case Closed =>
        return emitted, StoppedByClose;
      case Line(text, failed) =>
        if !failed {
          emitted := emitted + [text];
        }
        assert events[..i + 1] == events[..i] + [events[i]];
        TextsAppend(events[..i], [events[i]]);
        i := i + 1;
    }
    assert events[..i] == events;
    ending := StillFollowing;
  }

  /** A whole session on one file: the last HistoryLines lines of the file,
      then the new lines of the follow stream. Failing to read the history
      or to open the stream is fatal. The follow stream's resources are
      released exactly when the loop returns, not when the process dies. */
  method TailFile(content: Window.FileRead, follow: FollowStart)
    returns (emitted: seq<string>, ending: Ending, released: bool)
    ensures content.OpenFailed? ==> emitted == [] && ending == Fatal
    ensures content.Opened? && (content.scanFailed || follow.TailFailed?) ==>
      emitted == Window.LastN(content.lines, HistoryLines) && ending == Fatal
    ensures content.Opened? && !content.scanFailed && follow.Tailing? ==>
      emitted == Window.LastN(content.lines, HistoryLines) + Texts(follow.events[..StopIndex(follow.events)]) &&
      ending == EndingOf(follow.events)
    ensures released <==> ending == StoppedByCancel || ending == StoppedByClose
  {
    var history, fatal := Window.PrintLastNLines(content, HistoryLines);
    if fatal {
      return history, Fatal, false;
    }
    match follow
    case TailFailed =>
      return history, Fatal, false;
    case Tailing(events) =>
      var lines;
      lines, ending := Follow(events);
      emitted := history + lines;
      released := ending != StillFollowing;
  }
}
