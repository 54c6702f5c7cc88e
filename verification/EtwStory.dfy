/**
 What the user of the ETW recorder is told, over every interleaving (crates/etw_tracing/etw_tracing.rs:83-229):
 the whole story of a recording, written out notice by notice.
 */
module EtwStory {
  import opened Options
  import opened EtwRecorder

  /** Notices about the recording itself, as opposed to answers to a command of the user. */
  predicate Milestone(n: Notice) {
    n !in {AlreadyRecording, NothingToStop, SendFailed, Stopping}
  }

  function Milestones(notices: seq<Notice>): seq<Notice> {
    if notices == [] then []
    else
      Milestones(notices[..|notices| - 1])
      + (if Milestone(notices[|notices| - 1]) then [notices[|notices| - 1]] else [])
  }

  lemma {:induction false} MilestonesAppend(notices: seq<Notice>, n: Notice)
    ensures Milestones(notices + [n]) == Milestones(notices) + if Milestone(n) then [n] else []
  {
    assert (notices + [n])[..|notices|] == notices;
  }

  /** `n` is what a user should be told about the status that ended the recording. */
  predicate Announces(status: StatusMessage, n: Notice) {
    || (status == Stopped && n == TraceSaved)
    || (status == TimedOut && n == TraceSavedOnTimeout)
    || (status == Cancelled && n == RecordingCancelled)
    || (status in {Started, Error} && n == EndedUnexpectedly)
  }

  /** The milestones told so far; `lost` if a second status went down with the first reader. */
  ghost predicate Story(w: World, lost: bool) {
    var told, r, e := Milestones(w.editor.notices), w.recorder, w.editor;
    && (lost ==> !e.stage.Waiting? && e.received == |r.delivered| == 2)
    && match e.stage
       case Waiting => told == []
       case Active => told == [RecordingStarted] && r.delivered != [] && r.delivered[0] == Started
                      && (!lost ==> e.received == 1)
       case Over =>
         || (told == [StartFailed] && if r.delivered == [] then r.phase.Exited? else r.delivered[0] != Started)
         || (told == [RecordingStarted, CompletionFailed] && r.delivered != [] && r.delivered[0] == Started
             && (lost || |r.delivered| == 1) && r.phase.Exited?)
         || (!lost && |r.delivered| == 2 && r.delivered[0] == Started
             && |told| == 2 && told[0] == RecordingStarted && Announces(r.delivered[1], told[1]))
  }

  /** The recorder's next call adds at most one delivery, and none to an exited recorder's. */
  lemma {:induction false} CallKeepsStory(w: World, lost: bool, c: Call)
    requires Inv(w) && Story(w, lost) && Ready(w.recorder, c)
    ensures Story(Step(w, Child(c)), lost)
  {
    var r' := Perform(w.recorder, w.inbox, c);
    PerformKeepsNotices(w.recorder, w.inbox, c, Stopping);
    PerformKeepsRecorderInv(w.recorder, w.inbox, c);
    if |w.recorder.delivered| >= 2 {
      NothingAfterTwo(w.recorder);
    }
    if |r'.delivered| >= 2 {
      SecondStatus(r');
    }
  }

  lemma {:induction false} FirstIsStarted(w: World, restLost: bool)
    requires Inv(w) && Story(w, false) && Possible(w, ReceiveStatus(restLost)) && w.editor.stage.Waiting?
    requires w.recorder.delivered[0] == Started
    ensures Story(Step(w, Parent(ReceiveStatus(restLost))), restLost)
  {
    var e := Step(w, Parent(ReceiveStatus(restLost))).editor;
    assert e.stage == Active && e.notices == w.editor.notices + [RecordingStarted];
    MilestonesAppend(w.editor.notices, RecordingStarted);
    if restLost {
      SecondStatus(w.recorder);
    }
  }

  lemma {:induction false} FirstIsOther(w: World, restLost: bool)
    requires Inv(w) && Story(w, false) && Possible(w, ReceiveStatus(restLost)) && w.editor.stage.Waiting?
    requires w.recorder.delivered[0] != Started
    ensures !restLost && Story(Step(w, Parent(ReceiveStatus(restLost))), false)
  {
    if restLost {
      SecondStatus(w.recorder);
    }
    var e := Step(w, Parent(ReceiveStatus(restLost))).editor;
    assert e.stage == Over && e.notices == w.editor.notices + [StartFailed];
    MilestonesAppend(w.editor.notices, StartFailed);
  }

  lemma {:induction false} SecondReceipt(w: World)
    requires Inv(w) && Story(w, false) && Possible(w, ReceiveStatus(false)) && w.editor.stage.Active?
    ensures Story(Step(w, Parent(ReceiveStatus(false))), false)
  {
    SecondStatus(w.recorder);
    MilestonesAppend(w.editor.notices, FinalNotice(w.recorder.delivered[1]));
  }

  lemma {:induction false} ReceiptKeepsStory(w: World, lost: bool, restLost: bool)
    requires Inv(w) && Story(w, lost) && Possible(w, ReceiveStatus(restLost))
    ensures Story(Step(w, Parent(ReceiveStatus(restLost))), lost || restLost)
  {
    if w.editor.stage.Waiting? && w.recorder.delivered[0] == Started {
      FirstIsStarted(w, restLost);
    } else if w.editor.stage.Waiting? {
      FirstIsOther(w, restLost);
    } else {
      SecondReceipt(w);
    }
  }

  lemma {:induction false} FailureKeepsStory(w: World, lost: bool)
    requires Inv(w) && Story(w, lost) && Possible(w, ReceiveFails)
    ensures Story(Step(w, Parent(ReceiveFails)), lost)
  {
    MilestonesAppend(w.editor.notices, StartFailed);
    MilestonesAppend(w.editor.notices, CompletionFailed);
  }

  lemma {:induction false} AnswerKeepsStory(w: World, lost: bool, a: Action)
    requires Story(w, lost) && (a.UserStart? || a.UserCommand?)
    ensures Story(Step(w, Parent(a)), lost)
  {
    MilestonesAppend(w.editor.notices, AlreadyRecording);
    MilestonesAppend(w.editor.notices, NothingToStop);
    MilestonesAppend(w.editor.notices, SendFailed);
    MilestonesAppend(w.editor.notices, Stopping);
  }

  lemma {:induction false} EveryRunKeepsStory(run: seq<Label>)
    ensures Story(Exec(INITIAL, run), StatusLost(run))
  {
    if run != [] {
      var init, last := run[..|run| - 1], run[|run| - 1];
      var w := Exec(INITIAL, init);
      EveryRunKeepsStory(init);
      EveryRunKeepsInv(init);
      match last {
        case Child(c) =>
          if Ready(w.recorder, c) {
            CallKeepsStory(w, StatusLost(init), c);
          }
        case Parent(ReceiveStatus(restLost)) =>
          if Possible(w, last.action) {
            ReceiptKeepsStory(w, StatusLost(init), restLost);
          }
        case Parent(ReceiveFails) =>
          if Possible(w, last.action) {
            FailureKeepsStory(w, StatusLost(init));
          }
        case Parent(a) =>
          AnswerKeepsStory(w, StatusLost(init), a);
      }
    }
  }

  /**
   The whole story of every run, told in this order: nothing while the editor waits; that recording started;
   and in the end either how it ended or that this could not be learned.
   */
  lemma {:induction false} StoryOfEveryRun(run: seq<Label>)
    ensures var w := Exec(INITIAL, run);
            var statuses := w.recorder.delivered;
            Milestones(w.editor.notices) ==
              if w.editor.stage.Waiting? then []
              else if statuses == [] || statuses[0] != Started then [StartFailed]
              else if w.editor.stage.Active? then [RecordingStarted]
              else if |statuses| == 1 || StatusLost(run) then [RecordingStarted, CompletionFailed]
              else if statuses[1] == Stopped then [RecordingStarted, TraceSaved]
              else if statuses[1] == TimedOut then [RecordingStarted, TraceSavedOnTimeout]
              else if statuses[1] == Cancelled then [RecordingStarted, RecordingCancelled]
              else [RecordingStarted, EndedUnexpectedly]
  {
    var w := Exec(INITIAL, run);
    EveryRunKeepsStory(run);
    EveryRunKeepsInv(run);
    if |w.recorder.delivered| >= 2 {
      SecondStatus(w.recorder);
    }
  }

  // ----- commands -----

  /** The editor's stage just before the action at `k`. */
  function StageAt(run: seq<Label>, k: nat): Stage
    requires k < |run|
  {
    Exec(INITIAL, run[..k]).editor.stage
  }

  /** What the user did at `k` calls for the answer `n`. */
  predicate AnsweredAt(run: seq<Label>, n: Notice, k: nat)
    requires k < |run|
  {
    match run[k]
    case Parent(UserStart) => n == AlreadyRecording && StageAt(run, k) == Active
    case Parent(UserCommand(_, ok, _)) =>
      n == if StageAt(run, k) != Active then NothingToStop else if ok then Stopping else SendFailed
    case _ => false
  }

  lemma {:induction false} AnsweredInPrefix(run: seq<Label>, n: Notice, k: nat)
    requires k < |run| - 1
    ensures AnsweredAt(run[..|run| - 1], n, k) <==> AnsweredAt(run, n, k)
  {
    assert run[..|run| - 1][..k] == run[..k];
  }

  /** Every command is answered, and nothing else is: each answer was called for by some action of the user. */
  lemma {:induction false} CommandsAreAnswered(run: seq<Label>, n: Notice)
    requires !Milestone(n)
    ensures n in Exec(INITIAL, run).editor.notices <==> exists k :: 0 <= k < |run| && AnsweredAt(run, n, k)
  {
    if run != [] {
      var init, last := run[..|run| - 1], |run| - 1;
      CommandsAreAnswered(init, n);
      forall k | 0 <= k < last ensures AnsweredAt(init, n, k) <==> AnsweredAt(run, n, k) {
        AnsweredInPrefix(run, n, k);
      }
      OneMoreAnswer(run, n);
    }
  }

  lemma {:induction false} InAppend(notices: seq<Notice>, x: Notice, n: Notice)
    ensures n in notices + [x] <==> n in notices || n == x
  {
    assert (notices + [x])[|notices|] == x;
  }

  /** Statuses and failures bring milestones only. */
  lemma {:induction false} NewsIsNoAnswer(w: World, a: Action, n: Notice)
    requires !Milestone(n) && (a.ReceiveStatus? || a.ReceiveFails?)
    ensures n in Step(w, Parent(a)).editor.notices <==> n in w.editor.notices
  {
    if Possible(w, a) {
      var notices := Step(w, Parent(a)).editor.notices;
      assert notices == w.editor.notices + [notices[|notices| - 1]];
      InAppend(w.editor.notices, notices[|notices| - 1], n);
    }
  }

  lemma {:induction false} CommandGetsAnswer(w: World, c: Command, ok: bool, left: Leftover, n: Notice)
    ensures n in Step(w, Parent(UserCommand(c, ok, left))).editor.notices <==>
              n in w.editor.notices
              || n == if w.editor.stage != Active then NothingToStop else if ok then Stopping else SendFailed
  {
    InAppend(w.editor.notices, NothingToStop, n);
    InAppend(w.editor.notices, Stopping, n);
    InAppend(w.editor.notices, SendFailed, n);
  }

  lemma {:induction false} OneMoreAnswer(run: seq<Label>, n: Notice)
    requires run != [] && !Milestone(n)
    ensures n in Exec(INITIAL, run).editor.notices <==>
              n in Exec(INITIAL, run[..|run| - 1]).editor.notices || AnsweredAt(run, n, |run| - 1)
  {
    var w := Exec(INITIAL, run[..|run| - 1]);
    match run[|run| - 1] {
      case Child(_) =>
      case Parent(UserStart) => InAppend(w.editor.notices, AlreadyRecording, n);
      case Parent(UserCommand(c, ok, left)) => CommandGetsAnswer(w, c, ok, left, n);
      case Parent(a) => NewsIsNoAnswer(w, a, n);
    }
  }

  /** The action at `k` puts `line` on the socket. */
  predicate WritesAt(run: seq<Label>, k: nat, line: CommandLine)
    requires k < |run|
  {
    match run[k]
    case Parent(UserCommand(c, ok, left)) =>
      StageAt(run, k) == Active
      && (if ok || left == WholeLine then line == Readable(c) else left == PartOfLine && line == Garbled)
    case _ => false
  }

  ghost predicate FirstWriteAt(run: seq<Label>, k: nat, line: CommandLine)
    requires k < |run|
  {
    WritesAt(run, k, line) && forall j, other :: 0 <= j < k ==> !WritesAt(run, j, other)
  }

  lemma {:induction false} WritesInPrefix(run: seq<Label>, k: nat, line: CommandLine)
    requires k < |run| - 1
    ensures WritesAt(run[..|run| - 1], k, line) <==> WritesAt(run, k, line)
  {
    assert run[..|run| - 1][..k] == run[..k];
  }

  lemma {:induction false} OneMoreWrite(run: seq<Label>, n: nat)
    requires |run| == n + 1
    ensures forall line :: WritesAt(run, n, line) <==> Written(run) == Written(run[..n]) + [line]
    ensures Written(run) == Written(run[..n]) <==> forall line :: !WritesAt(run, n, line)
  {
    var before := Written(run[..n]);
    assert forall x: CommandLine, y: CommandLine :: before + [x] == before + [y] <==> x == y by {
      forall x: CommandLine, y: CommandLine | before + [x] == before + [y] ensures x == y {
        assert (before + [x])[|before|] == (before + [y])[|before|];
      }
    }
  }

  /** The first line ever written is the first command that reached the socket, garbled or not. */
  lemma {:induction false} FirstLineIsFirstWrite(run: seq<Label>)
    ensures Written(run) == [] <==> forall k, line :: 0 <= k < |run| ==> !WritesAt(run, k, line)
    ensures Written(run) != [] ==> exists k: nat :: k < |run| && FirstWriteAt(run, k, Written(run)[0])
  {
    if run != [] {
      var init, n := run[..|run| - 1], |run| - 1;
      FirstLineIsFirstWrite(init);
      OneMoreWrite(run, n);
      forall k, line | 0 <= k < n ensures WritesAt(init, k, line) <==> WritesAt(run, k, line) {
        WritesInPrefix(run, k, line);
      }
      if Written(init) != [] {
        var k: nat :| k < |init| && FirstWriteAt(init, k, Written(init)[0]);
        assert FirstWriteAt(run, k, Written(run)[0]);
      } else if Written(run) != [] {
        assert FirstWriteAt(run, n, Written(run)[0]);
      }
    }
  }

  /** What the recorder read, and so whether it saved or cancelled, is the first command that reached the socket. */
  lemma {:induction false} FirstWriteDecides(run: seq<Label>)
    ensures var r := Exec(INITIAL, run).recorder;
            && (r.read.Some? && r.read.value.Some? ==>
                exists k: nat :: k < |run| && FirstWriteAt(run, k, Readable(r.read.value.value)))
            && (r.cancelled ==> exists k: nat :: k < |run| && FirstWriteAt(run, k, Readable(Cancel)))
            && (TraceSaved in Exec(INITIAL, run).editor.notices ==>
                exists k: nat :: k < |run| && FirstWriteAt(run, k, Readable(Save)))
  {
    ReadIsFirstWritten(run);
    FirstLineDecides(run);
    FirstLineIsFirstWrite(run);
  }
}
