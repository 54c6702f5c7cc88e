/**
 Recording an ETW trace (crates/etw_tracing/etw_tracing.rs): the editor and an elevated recorder process
 talk over a socket.  `World` is the state of both for one recording; every operating-system call succeeds
 or fails as its label says, and the steps of the two processes interleave freely.
 */
module EtwRecorder {
  import opened Options

  datatype Command = Save | Cancel

  datatype StatusMessage = Started | Stopped | TimedOut | Cancelled | Error

  /** A line on the socket to the recorder; a broken write can leave one that does not parse. */
  datatype CommandLine = Readable(command: Command) | Garbled

  /** Where the recorder is in its program. */
  datatype Phase =
    | Launched
    | Connected
    | Prepared
    | Armed
    | Listening
    | Reading
    | Acting(command: Command, timedOut: bool)
    | Reporting(status: StatusMessage)
    | Failing
    | Exited

  datatype Recorder = Recorder(
    phase: Phase,
    started: bool,                  // WPR accepted Start
    recording: bool,                // the kernel session exists
    guard: bool,                    // the cancel guard is armed
    guardTried: bool,
    saved: bool,
    cancelled: bool,
    read: Option<Option<Command>>,  // the result of the one read: a command, or nothing readable
    sent: seq<StatusMessage>,       // attempted sends, in order
    delivered: seq<StatusMessage>)

  datatype Notice =
    | AlreadyRecording | NothingToStop | SendFailed | Stopping
    | RecordingStarted | StartFailed | TraceSaved | TraceSavedOnTimeout | RecordingCancelled | EndedUnexpectedly
      | CompletionFailed

  /** `Active` is when the global session handle is set. */
  datatype Stage = Waiting | Active | Over
  datatype Editor = Editor(stage: Stage, received: nat, notices: seq<Notice>)

  datatype World = World(recorder: Recorder, inbox: seq<CommandLine>, editor: Editor)

  const INITIAL: World :=
    World(Recorder(Launched, false, false, false, false, false, false, None, [], []), [], Editor(Waiting, 0, []))

  /** The recorder's calls and how they turn out. */
  datatype Call =
    | Connect(ok: bool) | Prepare(ok: bool) | StartSession(ok: bool) | SendStarted(ok: bool) | SetTimeout(ok: bool)
    | ReadCommand | CancelSession(ok: bool) | SaveSession(ok: bool) | SendFinal(ok: bool) | DropGuard(ok: bool)
      | SendError(ok: bool)

  /** What a failed write leaves on the socket. */
  datatype Leftover = Nothing | PartOfLine | WholeLine

  /**
   What happens in the editor.  It reads `Started` through a buffered reader that it then takes apart: what
   the reader had already buffered of a following status is lost.
   */
  datatype Action =
    | UserStart | UserCommand(command: Command, ok: bool, left: Leftover) | ReceiveStatus(restLost: bool) | ReceiveFails

  datatype Label = Child(call: Call) | Parent(action: Action)

  // ----- the recorder -----

  predicate Ready(r: Recorder, c: Call) {
    match c
    case Connect(_) => r.phase.Launched?
    case Prepare(_) => r.phase.Connected?
    case StartSession(_) => r.phase.Prepared?
    case SendStarted(_) => r.phase.Armed?
    case SetTimeout(_) => r.phase.Listening?
    case ReadCommand => r.phase.Reading?
    case CancelSession(_) => r.phase.Acting? && r.phase.command.Cancel?
    case SaveSession(_) => r.phase.Acting? && r.phase.command.Save?
    case SendFinal(_) => r.phase.Reporting?
    case DropGuard(_) => r.phase.Failing? && r.guard
    case SendError(_) => r.phase.Failing? && !r.guard
  }

  function Send(r: Recorder, status: StatusMessage, ok: bool): Recorder {
    r.(sent := r.sent + [status], delivered := if ok then r.delivered + [status] else r.delivered)
  }

  /** The command on the first line; nothing readable is treated as a timed-out save. */
  function FirstCommand(inbox: seq<CommandLine>): Option<Command> {
    if inbox != [] && inbox[0].Readable? then Some(inbox[0].command) else None
  }

  function Perform(r: Recorder, inbox: seq<CommandLine>, c: Call): Recorder
    requires Ready(r, c)
  {
    match c
    case Connect(ok) => r.(phase := if ok then Connected else Exited)
    case Prepare(ok) => r.(phase := if ok then Prepared else Failing)
    case StartSession(ok) =>
      if ok then r.(phase := Armed, started := true, recording := true, guard := true) else r.(phase := Failing)
    case SendStarted(ok) => Send(r, Started, ok).(phase := if ok then Listening else Failing)
    case SetTimeout(ok) => r.(phase := if ok then Reading else Failing)
    case ReadCommand =>
      var first := FirstCommand(inbox);
      r.(phase := if first.Some? then Acting(first.value, false) else Acting(Save, true), read := Some(first))
    case CancelSession(ok) =>
      if ok then r.(phase := Reporting(Cancelled), recording := false, cancelled := true, guard := false)
      else r.(phase := Failing)
    case SaveSession(ok) =>
      if ok
      then r.(phase := Reporting(if r.phase.timedOut then TimedOut else Stopped),
              recording := false, saved := true, guard := false)
      else r.(phase := Failing)
    case SendFinal(ok) => Send(r, r.phase.status, ok).(phase := Exited)
    case DropGuard(ok) => r.(guard := false, guardTried := true, recording := if ok then false else r.recording)
    case SendError(ok) => Send(r, Error, ok).(phase := Exited)
  }

  // ----- the editor -----

  predicate Possible(w: World, a: Action) {
    match a
    case UserStart => true
    case UserCommand(_, _, _) => true
    case ReceiveStatus(restLost) =>
      && w.editor.received < |w.recorder.delivered| && !w.editor.stage.Over?
      && (restLost ==> w.editor.stage.Waiting? && w.editor.received + 1 < |w.recorder.delivered|)
    case ReceiveFails =>
      w.editor.received == |w.recorder.delivered| && w.recorder.phase.Exited? && !w.editor.stage.Over?
  }

  function FinalNotice(status: StatusMessage): Notice {
    match status
    case Stopped => TraceSaved
    case TimedOut => TraceSavedOnTimeout
    case Cancelled => RecordingCancelled
    case _ => EndedUnexpectedly
  }

  function Notify(e: Editor, n: Notice): Editor {
    e.(notices := e.notices + [n])
  }

  function Receive(e: Editor, status: StatusMessage, taken: nat): Editor {
    var e' := e.(received := taken);
    if e.stage.Waiting? then
      if status.Started? then Notify(e'.(stage := Active), RecordingStarted)
      else Notify(e'.(stage := Over), StartFailed)
    else Notify(e'.(stage := Over), FinalNotice(status))
  }

  /** The line a user's command puts on the socket, if any. */
  function LineWritten(e: Editor, a: Action): seq<CommandLine> {
    if !a.UserCommand? || !e.stage.Active? then []
    else if a.ok || a.left.WholeLine? then [Readable(a.command)]
    else if a.left.PartOfLine? then [Garbled]
    else []
  }

  function React(w: World, a: Action): (Editor, seq<CommandLine>)
    requires Possible(w, a)
  {
    match a
    case UserStart => (if w.editor.stage.Active? then Notify(w.editor, AlreadyRecording) else w.editor, w.inbox)
    case UserCommand(_, ok, _) =>
      if !w.editor.stage.Active? then (Notify(w.editor, NothingToStop), w.inbox)
      else (Notify(w.editor, if ok then Stopping else SendFailed), w.inbox + LineWritten(w.editor, a))
    case ReceiveStatus(restLost) =>
      var taken := if restLost then |w.recorder.delivered| else w.editor.received + 1;
      (Receive(w.editor, w.recorder.delivered[w.editor.received], taken), w.inbox)
    case ReceiveFails =>
      (Notify(w.editor, if w.editor.stage.Waiting? then StartFailed else CompletionFailed).(stage := Over), w.inbox)
  }

  function Step(w: World, l: Label): World {
    match l
    case Child(c) =>
      if !Ready(w.recorder, c) then w
      else
        World(Perform(w.recorder, w.inbox, c),
              if c.ReadCommand? && w.inbox != [] then w.inbox[1..] else w.inbox,
              w.editor)
    case Parent(a) =>
      if !Possible(w, a) then w
      else var (editor, inbox) := React(w, a); World(w.recorder, inbox, editor)
  }

  function Exec(w: World, run: seq<Label>): World {
    if run == [] then w else Step(Exec(w, run[..|run| - 1]), run[|run| - 1])
  }

  // ----- the invariant -----

  predicate IsFinal(s: StatusMessage) { s.Stopped? || s.TimedOut? || s.Cancelled? }

  /** The outcome the recorder reached decides which final status it may report. */
  predicate Reports(r: Recorder, s: StatusMessage) {
    match s
    case Cancelled => r.cancelled && r.read == Some(Some(Cancel))
    case Stopped => r.saved && r.read == Some(Some(Save))
    case TimedOut => r.saved && r.read == Some(None)
    case _ => false
  }

  /** What has been sent, phase by phase. */
  predicate SentSoFar(r: Recorder) {
    match r.phase
    case Launched => r.sent == []
    case Connected => r.sent == []
    case Prepared => r.sent == []
    case Armed => r.sent == []
    case Failing => r.sent == [] || r.sent == [Started]
    case Exited =>
      || r.sent == [] || r.sent == [Error] || r.sent == [Started, Error]
      || (|r.sent| == 2 && r.sent[0].Started? && IsFinal(r.sent[1]) && Reports(r, r.sent[1]))
    case _ => r.sent == [Started]
  }

  /** The kernel session is under guard from Start on, until it is saved or cancelled. */
  predicate Guarded(r: Recorder) {
    && (r.guard ==> r.recording && r.started && !r.guardTried)
    && (r.recording ==> r.guard || r.guardTried)
    && (r.started ==> r.guard || r.guardTried || r.saved || r.cancelled)
    && (r.saved || r.cancelled || r.guardTried ==> r.started)
    && (r.saved ==> !r.cancelled && !r.guardTried) && (r.cancelled ==> !r.guardTried)
    && (r.saved || r.cancelled ==> !r.recording)
    && (r.phase.Armed? || r.phase.Listening? || r.phase.Reading? || r.phase.Acting? ==> r.guard)
    && (r.phase.Launched? || r.phase.Connected? || r.phase.Prepared? ==> !r.started)
    && (r.phase.Reporting? || r.phase.Exited? ==> !r.guard)
    && (r.phase.Failing? ==> !r.saved && !r.cancelled)
  }

  predicate Decided(r: Recorder) {
    && (r.saved ==> r.read == Some(Some(Save)) || r.read == Some(None))
    && (r.cancelled ==> r.read == Some(Some(Cancel)))
    && (r.phase.Acting? ==> r.read == Some(if r.phase.timedOut then None else Some(r.phase.command))
                            && (r.phase.timedOut ==> r.phase.command.Save?))
    && (r.phase.Reporting? ==> Reports(r, r.phase.status))
    && (r.read.Some? ==> r.phase.Acting? || r.phase.Reporting? || r.phase.Failing? || r.phase.Exited?)
  }

  /** Deliveries are sends that succeeded; only an error can follow an undelivered `Started`. */
  predicate DeliveredSoFar(r: Recorder) {
    && (|| r.delivered == [] || r.delivered == r.sent
        || (r.sent != [] && r.sent[0].Started? && r.delivered == [Started])
        || (r.phase.Exited? && r.delivered == [Error]))
    && (r.phase.Listening? || r.phase.Reading? || r.phase.Acting? || r.phase.Reporting? ==> r.delivered == [Started])
  }

  predicate RecorderInv(r: Recorder) {
    SentSoFar(r) && Guarded(r) && Decided(r) && DeliveredSoFar(r)
  }

  /** Whether a notice is borne out by what the recorder did. */
  predicate True(n: Notice, r: Recorder) {
    match n
    case TraceSaved => Reports(r, Stopped)
    case TraceSavedOnTimeout => Reports(r, TimedOut)
    case RecordingCancelled => Reports(r, Cancelled)
    case _ => true
  }

  ghost predicate EditorInv(e: Editor, r: Recorder) {
    && e.received <= |r.delivered|
    && (e.stage.Waiting? ==> e.received == 0)
    && (e.stage.Active? ==> e.received >= 1 && r.delivered[0].Started?)
    && forall n :: n in e.notices ==> True(n, r)
  }

  ghost predicate Inv(w: World) {
    RecorderInv(w.recorder) && EditorInv(w.editor, w.recorder)
  }

  lemma {:induction false} PerformKeepsRecorderInv(r: Recorder, inbox: seq<CommandLine>, c: Call)
    requires RecorderInv(r) && Ready(r, c)
    ensures RecorderInv(Perform(r, inbox, c))
  {
  }

  /** Nothing the recorder does takes back a delivery or makes a true notice false. */
  lemma {:induction false} PerformKeepsNotices(r: Recorder, inbox: seq<CommandLine>, c: Call, n: Notice)
    requires RecorderInv(r) && Ready(r, c)
    ensures r.delivered <= Perform(r, inbox, c).delivered
    ensures True(n, r) ==> True(n, Perform(r, inbox, c))
  {
  }

  /** The second status an editor receives is a true final one, or an error. */
  lemma {:induction false} SecondStatus(r: Recorder)
    requires RecorderInv(r) && |r.delivered| >= 2
    ensures |r.delivered| == 2 && r.delivered[0].Started?
    ensures r.delivered[1].Error? || (IsFinal(r.delivered[1]) && Reports(r, r.delivered[1]))
  {
  }

  lemma {:induction false} ReceiveKeepsEditorInv(e: Editor, r: Recorder, taken: nat)
    requires RecorderInv(r) && EditorInv(e, r) && e.received < |r.delivered| && !e.stage.Over?
    requires e.received < taken <= |r.delivered|
    ensures EditorInv(Receive(e, r.delivered[e.received], taken), r)
  {
    if e.stage.Active? {
      SecondStatus(r);
    }
  }

  lemma {:induction false} ReactKeepsEditorInv(w: World, a: Action)
    requires Inv(w) && Possible(w, a)
    ensures EditorInv(React(w, a).0, w.recorder)
  {
    if a.ReceiveStatus? {
      ReceiveKeepsEditorInv(w.editor, w.recorder, if a.restLost then |w.recorder.delivered| else w.editor.received + 1);
    }
  }

  lemma {:induction false} StepKeepsInv(w: World, l: Label)
    requires Inv(w)
    ensures Inv(Step(w, l))
  {
    match l {
      case Child(c) =>
        if Ready(w.recorder, c) {
          PerformKeepsRecorderInv(w.recorder, w.inbox, c);
          PerformKeepsNotices(w.recorder, w.inbox, c, Stopping);
          forall n | n in w.editor.notices ensures True(n, Perform(w.recorder, w.inbox, c)) {
            PerformKeepsNotices(w.recorder, w.inbox, c, n);
          }
        }
      case Parent(a) =>
        if Possible(w, a) {
          ReactKeepsEditorInv(w, a);
        }
    }
  }

  lemma {:induction false} EveryRunKeepsInv(run: seq<Label>)
    ensures Inv(Exec(INITIAL, run))
  {
    if run != [] {
      EveryRunKeepsInv(run[..|run| - 1]);
      StepKeepsInv(Exec(INITIAL, run[..|run| - 1]), run[|run| - 1]);
    }
  }

  // ----- what it means, over every interleaving -----

  /**
   Once the recorder has exited, a started session was saved, cancelled, or had its guard try to cancel it:
   exactly one.
   */
  lemma {:induction false} SessionIsNeverForgotten(run: seq<Label>)
    ensures var r := Exec(INITIAL, run).recorder;
            r.phase.Exited? && r.started ==>
              && (r.saved || r.cancelled || r.guardTried)
              && !(r.saved && r.cancelled) && !(r.saved && r.guardTried) && !(r.cancelled && r.guardTried)
              && (r.recording ==> r.guardTried)
  {
    EveryRunKeepsInv(run);
  }

  /** At most one final status follows `Started`, and no error follows a final status. */
  lemma {:induction false} StatusesFollowTheProtocol(run: seq<Label>, i: nat, j: nat)
    requires var sent := Exec(INITIAL, run).recorder.sent; i < j < |sent|
    ensures var sent := Exec(INITIAL, run).recorder.sent;
            i == 0 && j == 1 && sent[0].Started? && (sent[1].Error? || IsFinal(sent[1]))
  {
    EveryRunKeepsInv(run);
  }

  /**
   What the user is told is what happened: a saved trace was saved, a cancelled recording cancelled, as first
   commanded.
   */
  lemma {:induction false} NoticesAreTrue(run: seq<Label>)
    ensures var w := Exec(INITIAL, run);
            var r := w.recorder;
            && (TraceSaved in w.editor.notices ==> r.saved && !r.cancelled && r.read == Some(Some(Save)))
            && (TraceSavedOnTimeout in w.editor.notices ==> r.saved && !r.cancelled && r.read == Some(None))
            && (RecordingCancelled in w.editor.notices ==> r.cancelled && !r.saved && r.read == Some(Some(Cancel)))
  {
    EveryRunKeepsInv(run);
  }

  /** In some step of the run, a second status went down with the reader that `Started` was read through. */
  predicate StatusLost(run: seq<Label>) {
    && run != []
    && var init, last := run[..|run| - 1], run[|run| - 1];
       StatusLost(init) || (last == Parent(ReceiveStatus(true)) && Possible(Exec(INITIAL, init), last.action))
  }

  predicate IsOutcome(n: Notice) {
    n in {TraceSaved, TraceSavedOnTimeout, RecordingCancelled, EndedUnexpectedly}
  }

  ghost predicate NoOutcome(notices: seq<Notice>) {
    forall n :: n in notices ==> !IsOutcome(n)
  }

  /** Why the editor stopped listening: nothing more will come, or the outcome was told. */
  ghost predicate Told(w: World) {
    && (w.editor.stage.Active? ==> w.editor.received == 1)
    && (w.editor.stage.Over? ==>
          || (w.recorder.phase.Exited? && |w.recorder.delivered| <= 1)
          || (|w.recorder.delivered| >= 2 && FinalNotice(w.recorder.delivered[1]) in w.editor.notices))
  }

  /** Once the second status is lost there is none left to receive, and the outcome is never told. */
  ghost predicate Missed(w: World) {
    !w.editor.stage.Waiting? && w.editor.received == |w.recorder.delivered| == 2 && NoOutcome(w.editor.notices)
  }

  ghost predicate ToldUnless(lost: bool, w: World) {
    && (w.editor.stage.Waiting? ==> NoOutcome(w.editor.notices))
    && if lost then Missed(w) else Told(w)
  }

  lemma {:induction false} OneMoreNotice(notices: seq<Notice>, n: Notice)
    ensures n in notices + [n]
    ensures NoOutcome(notices + [n]) <==> NoOutcome(notices) && !IsOutcome(n)
  {
    assert (notices + [n])[|notices|] == n;
    assert forall x :: x in notices ==> x in notices + [n];
  }

  lemma {:induction false} StepKeepsTold(w: World, l: Label)
    requires Inv(w) && ToldUnless(false, w) && l != Parent(ReceiveStatus(true))
    ensures ToldUnless(false, Step(w, l))
  {
    if l.Child? && Ready(w.recorder, l.call) {
      PerformKeepsNotices(w.recorder, w.inbox, l.call, Stopping);
    } else if l.Parent? && Possible(w, l.action) && l.action.ReceiveStatus? {
      ReceiveTells(w.editor, w.recorder);
    }
  }

  lemma {:induction false} ReceiveTells(e: Editor, r: Recorder)
    requires RecorderInv(r) && EditorInv(e, r) && e.received < |r.delivered| && !e.stage.Over?
    requires e.stage.Active? ==> e.received == 1
    ensures var e' := Receive(e, r.delivered[e.received], e.received + 1);
            && !e'.stage.Waiting?
            && (e'.stage.Active? ==> e'.received == 1)
            && (e'.stage.Over? ==>
                  || (r.phase.Exited? && |r.delivered| <= 1)
                  || (|r.delivered| >= 2 && FinalNotice(r.delivered[1]) in e'.notices))
  {
    if e.stage.Active? {
      OneMoreNotice(e.notices, FinalNotice(r.delivered[1]));
    }
  }

  /** Two delivered statuses are all there will be. */
  lemma {:induction false} NothingAfterTwo(r: Recorder)
    requires RecorderInv(r) && |r.delivered| >= 2
    ensures r.phase.Exited?
  {
  }

  lemma {:induction false} LosingMisses(w: World)
    requires Inv(w) && NoOutcome(w.editor.notices) && Possible(w, ReceiveStatus(true))
    ensures Missed(Step(w, Parent(ReceiveStatus(true))))
  {
    SecondStatus(w.recorder);
    OneMoreNotice(w.editor.notices, RecordingStarted);
  }

  lemma {:induction false} StepKeepsMissed(w: World, l: Label)
    requires Inv(w) && Missed(w)
    ensures Missed(Step(w, l))
  {
    NothingAfterTwo(w.recorder);
    match l {
      case Child(c) =>
      case Parent(a) =>
        forall n | n in {AlreadyRecording, NothingToStop, Stopping, SendFailed, CompletionFailed}
          ensures NoOutcome(w.editor.notices + [n])
        {
          OneMoreNotice(w.editor.notices, n);
        }
    }
  }

  lemma {:induction false} WaitingTellsNothing(w: World, l: Label)
    requires Inv(w) && (w.editor.stage.Waiting? ==> NoOutcome(w.editor.notices))
    ensures Step(w, l).editor.stage.Waiting? ==> NoOutcome(Step(w, l).editor.notices)
  {
    forall n | n in {AlreadyRecording, NothingToStop, Stopping, SendFailed}
      ensures NoOutcome(w.editor.notices) ==> NoOutcome(w.editor.notices + [n])
    {
      OneMoreNotice(w.editor.notices, n);
    }
  }

  lemma {:induction false} RunTellsUnlessLost(run: seq<Label>)
    ensures ToldUnless(StatusLost(run), Exec(INITIAL, run))
  {
    if run != [] {
      var init, last := run[..|run| - 1], run[|run| - 1];
      var w := Exec(INITIAL, init);
      RunTellsUnlessLost(init);
      EveryRunKeepsInv(init);
      WaitingTellsNothing(w, last);
      if StatusLost(init) {
        StepKeepsMissed(w, last);
      } else if last == Parent(ReceiveStatus(true)) {
        if Possible(w, last.action) {
          LosingMisses(w);
        }
      } else {
        StepKeepsTold(w, last);
      }
    }
  }

  /**
   Over every interleaving: an editor that has stopped listening to a recorder that delivered two statuses
   has told the outcome exactly when none was lost with the first reader.
   */
  lemma {:induction false} OutcomeIsToldExactlyWhen(run: seq<Label>)
    requires Exec(INITIAL, run).editor.stage.Over? && |Exec(INITIAL, run).recorder.delivered| >= 2
    ensures var w := Exec(INITIAL, run);
            var outcome :=
              match w.recorder.delivered[1]
              case Stopped => TraceSaved
              case TimedOut => TraceSavedOnTimeout
              case Cancelled => RecordingCancelled
              case _ => EndedUnexpectedly;
            outcome in w.editor.notices <==> !StatusLost(run)
  {
    RunTellsUnlessLost(run);
  }

  const SAVED_UNSEEN: seq<Label> := [
    Child(Connect(true)), Child(Prepare(true)), Child(StartSession(true)), Child(SendStarted(true)),
    Child(SetTimeout(true)), Child(ReadCommand), Child(SaveSession(true)), Child(SendFinal(true)),
    Parent(ReceiveStatus(true)), Parent(ReceiveFails)]

  lemma {:induction false} StepOfRun(run: seq<Label>, k: nat)
    requires k < |run|
    ensures Exec(INITIAL, run[..k + 1]) == Step(Exec(INITIAL, run[..k]), run[k])
  {
    assert run[..k + 1][..k] == run[..k];
  }

  lemma {:induction false} StartedUnseen()
    ensures Exec(INITIAL, SAVED_UNSEEN[..4]) ==
              World(Recorder(Listening, true, true, true, false, false, false, None, [Started], [Started]),
                    [], INITIAL.editor)
  {
    assert SAVED_UNSEEN[..0] == [];
    StepOfRun(SAVED_UNSEEN, 0);
    StepOfRun(SAVED_UNSEEN, 1);
    StepOfRun(SAVED_UNSEEN, 2);
    StepOfRun(SAVED_UNSEEN, 3);
  }

  lemma {:induction false} ReadUnseen()
    ensures Exec(INITIAL, SAVED_UNSEEN[..6]) ==
              World(Recorder(Acting(Save, true), true, true, true, false, false, false, Some(None),
                             [Started], [Started]),
                    [], INITIAL.editor)
  {
    StartedUnseen();
    StepOfRun(SAVED_UNSEEN, 4);
    StepOfRun(SAVED_UNSEEN, 5);
  }

  /** The recorder when its timed-out save has been sent. */
  lemma {:induction false} SavedUnseen()
    ensures var r := Exec(INITIAL, SAVED_UNSEEN[..8]).recorder;
            r.saved && r.phase.Exited? && r.delivered == [Started, TimedOut]
    ensures Exec(INITIAL, SAVED_UNSEEN[..8]).editor == INITIAL.editor
  {
    ReadUnseen();
    StepOfRun(SAVED_UNSEEN, 6);
    StepOfRun(SAVED_UNSEEN, 7);
  }

  /** If the last status was buffered together with `Started`, a saved trace is reported as a failure. */
  lemma {:induction false} BufferedStatusIsMissed()
    ensures var w := Exec(INITIAL, SAVED_UNSEEN);
            && w.recorder.saved && w.recorder.delivered == [Started, TimedOut]
            && w.editor.notices == [RecordingStarted, CompletionFailed]
  {
    SavedUnseen();
    StepOfRun(SAVED_UNSEEN, 8);
    StepOfRun(SAVED_UNSEEN, 9);
    assert SAVED_UNSEEN[..10] == SAVED_UNSEEN;
  }

  /** The read, once made, is never made again, whatever commands follow. */
  lemma {:induction false} ReadOnlyOnce(run: seq<Label>, more: seq<Label>)
    requires Exec(INITIAL, run).recorder.read.Some?
    ensures Exec(INITIAL, run + more).recorder.read == Exec(INITIAL, run).recorder.read
    decreases |more|
  {
    if more == [] {
      assert run + more == run;
    } else {
      var before := run + more[..|more| - 1];
      ReadOnlyOnce(run, more[..|more| - 1]);
      EveryRunKeepsInv(before);
      assert (run + more)[..|run + more| - 1] == before;
    }
  }

  /** Every line the editor has put on the socket, in order. */
  function Written(run: seq<Label>): seq<CommandLine> {
    if run == [] then []
    else
      var init, last := run[..|run| - 1], run[|run| - 1];
      Written(init) + if last.Parent? then LineWritten(Exec(INITIAL, init).editor, last.action) else []
  }

  /** One step of either process takes nothing but the first line, and puts nothing but the editor's line. */
  lemma {:induction false} StepInbox(w: World, l: Label)
    ensures Step(w, l).inbox ==
              (if l.Child? && Ready(w.recorder, l.call) && l.call.ReadCommand? && w.inbox != []
               then w.inbox[1..] else w.inbox)
              + (if l.Parent? then LineWritten(w.editor, l.action) else [])
    ensures Step(w, l).recorder.read ==
              if l.Child? && Ready(w.recorder, l.call) && l.call.ReadCommand? then Some(FirstCommand(w.inbox))
              else w.recorder.read
  {
    if l.Child? && Ready(w.recorder, l.call) {
      PerformReads(w.recorder, w.inbox, l.call);
    }
  }

  /** What was read is the first line ever written: later commands, in whatever interleaving, do not count. */
  lemma {:induction false} ReadIsFirstWritten(run: seq<Label>)
    ensures var read := Exec(INITIAL, run).recorder.read;
            && (read.None? ==> Exec(INITIAL, run).inbox == Written(run))
            && (read.Some? && read.value.Some? ==> Written(run) != [] && Written(run)[0] == Readable(read.value.value))
  {
    if run != [] {
      var init, last := run[..|run| - 1], run[|run| - 1];
      var w := Exec(INITIAL, init);
      ReadIsFirstWritten(init);
      EveryRunKeepsInv(init);
      StepInbox(w, last);
    }
  }

  /**
   A session is cancelled only if the first line written was a cancel, and saved without a timeout only if it
   was a save.
   */
  lemma {:induction false} FirstLineDecides(run: seq<Label>)
    ensures var w := Exec(INITIAL, run);
            && (w.recorder.cancelled ==> Written(run) != [] && Written(run)[0] == Readable(Cancel))
            && (TraceSaved in w.editor.notices ==> Written(run) != [] && Written(run)[0] == Readable(Save))
  {
    EveryRunKeepsInv(run);
    ReadIsFirstWritten(run);
  }

  /** Calls left to the recorder, at most. */
  function CallsLeft(r: Recorder): nat {
    match r.phase
    case Launched => 9
    case Connected => 8
    case Prepared => 7
    case Armed => 6
    case Listening => 5
    case Reading => 4
    case Acting(_, _) => 3
    case Reporting(_) => 1
    case Failing => if r.guard then 2 else 1
    case Exited => 0
  }

  /** How each call turns out. */
  datatype Outcomes = Outcomes(
    connect: bool, prepare: bool, start: bool, sendStarted: bool, setTimeout: bool,
    cancel: bool, save: bool, sendFinal: bool, guardCancel: bool, sendError: bool)

  const ALL_WELL: Outcomes := Outcomes(true, true, true, true, true, true, true, true, true, true)

  /** The recorder's next call. */
  function NextCall(r: Recorder, o: Outcomes): (c: Call)
    requires !r.phase.Exited?
    ensures Ready(r, c)
  {
    match r.phase
    case Launched => Connect(o.connect)
    case Connected => Prepare(o.prepare)
    case Prepared => StartSession(o.start)
    case Armed => SendStarted(o.sendStarted)
    case Listening => SetTimeout(o.setTimeout)
    case Reading => ReadCommand
    case Acting(c, _) => if c.Cancel? then CancelSession(o.cancel) else SaveSession(o.save)
    case Reporting(_) => SendFinal(o.sendFinal)
    case Failing => if r.guard then DropGuard(o.guardCancel) else SendError(o.sendError)
  }

  /** The recorder is never stuck: until it exits, it has a call to make. */
  lemma {:induction false} RecorderIsNeverStuck(r: Recorder)
    ensures r.phase.Exited? <==> forall c :: !Ready(r, c)
  {
    if !r.phase.Exited? {
      assert Ready(r, NextCall(r, ALL_WELL));
    }
  }

  /** Every call it makes, however it turns out, brings the exit closer. */
  lemma {:induction false} RecorderProgresses(r: Recorder, inbox: seq<CommandLine>, c: Call)
    requires Ready(r, c)
    ensures CallsLeft(Perform(r, inbox, c)) < CallsLeft(r)
  {
  }

  // ----- the recorder's program -----

  /** The recorder alone, making the calls of `cs` in order. */
  function PerformAll(inbox: seq<CommandLine>, cs: seq<Call>): Recorder {
    if cs == [] then INITIAL.recorder
    else
      var r := PerformAll(inbox, cs[..|cs| - 1]);
      if Ready(r, cs[|cs| - 1]) then Perform(r, inbox, cs[|cs| - 1]) else r
  }

  lemma {:induction false} OneMoreCall(inbox: seq<CommandLine>, cs: seq<Call>, c: Call)
    requires Ready(PerformAll(inbox, cs), c)
    ensures PerformAll(inbox, cs + [c]) == Perform(PerformAll(inbox, cs), inbox, c)
  {
    assert (cs + [c])[..|cs|] == cs;
  }

  /** Running the recorder to its end against a given socket. */
  function RunOn(r: Recorder, inbox: seq<CommandLine>, o: Outcomes): Recorder
    decreases CallsLeft(r)
  {
    if r.phase.Exited? then r
    else
      RecorderProgresses(r, inbox, NextCall(r, o));
      RunOn(Perform(r, inbox, NextCall(r, o)), inbox, o)
  }

  class Process {
    var r: Recorder
    ghost var calls: seq<Call>

    constructor ()
      ensures r == INITIAL.recorder && calls == []
    {
      r, calls := INITIAL.recorder, [];
    }

    /** The calls made so far lead to the state this process is in, and it is on its way to the program's end. */
    ghost predicate Follows(inbox: seq<CommandLine>, o: Outcomes)
      reads this
    {
      r == PerformAll(inbox, calls) && RunOn(r, inbox, o) == RunOn(INITIAL.recorder, inbox, o)
    }

    ghost method Made(inbox: seq<CommandLine>, o: Outcomes, before: Recorder)
      requires before == PerformAll(inbox, calls) && !before.phase.Exited?
      requires RunOn(before, inbox, o) == RunOn(INITIAL.recorder, inbox, o)
      requires r == Perform(before, inbox, NextCall(before, o))
      modifies this`calls
      ensures Follows(inbox, o)
    {
      OneMoreCall(inbox, calls, NextCall(before, o));
      calls := calls + [NextCall(before, o)];
    }

    method SendJson(status: StatusMessage, ok: bool)
      modifies this`r
      ensures r == Send(old(r), status, ok)
    {
      r := r.(sent := r.sent + [status]);
      if ok {
        r := r.(delivered := r.delivered + [status]);
      }
    }

    /** Waits for one line; an unreadable one counts as a timed-out save. */
    method ReadLine(inbox: seq<CommandLine>, ghost o: Outcomes)
      requires Follows(inbox, o) && r.phase.Reading?
      modifies this
      ensures Follows(inbox, o) && r.phase.Acting?
    {
      ghost var before := r;
      if inbox != [] && inbox[0].Readable? {
        r := r.(phase := Acting(inbox[0].command, false), read := Some(Some(inbox[0].command)));
      } else {
        r := r.(phase := Acting(Save, true), read := Some(None));
      }
      Made(inbox, o, before);
    }

    method ReceiveCommand(inbox: seq<CommandLine>, o: Outcomes) returns (ok: bool)
      requires Follows(inbox, o) && r.phase.Listening?
      modifies this
      ensures Follows(inbox, o) && if ok then r.phase.Acting? else r.phase.Failing?
    {
      ghost var before := r;
      r := r.(phase := if o.setTimeout then Reading else Failing);
      Made(inbox, o, before);
      ok := o.setTimeout;
      if ok {
        ReadLine(inbox, o);
      }
    }

    /** Saves or cancels the session; only success disarms the guard. */
    method CarryOut(inbox: seq<CommandLine>, o: Outcomes) returns (ok: bool)
      requires Follows(inbox, o) && r.phase.Acting?
      modifies this
      ensures Follows(inbox, o) && if ok then r.phase.Reporting? else r.phase.Failing?
    {
      ghost var before := r;
      match r.phase.command {
        case Cancel =>
          ok := o.cancel;
          if ok {
            r := r.(recording := false, cancelled := true, guard := false, phase := Reporting(Cancelled));
          } else {
            r := r.(phase := Failing);
          }
          Made(inbox, o, before);
        case Save =>
          ok := o.save;
          if ok {
            r := r.(recording := false, saved := true, guard := false,
                    phase := Reporting(if r.phase.timedOut then TimedOut else Stopped));
          } else {
            r := r.(phase := Failing);
          }
          Made(inbox, o, before);
      }
    }

    /** Once the session is started and guarded; a failure leaves the guard armed. */
    method RecordGuarded(inbox: seq<CommandLine>, o: Outcomes) returns (ok: bool)
      requires Follows(inbox, o) && r.phase.Armed?
      modifies this
      ensures Follows(inbox, o) && if ok then r.phase.Exited? else r.phase.Failing?
    {
      ghost var before := r;
      SendJson(Started, o.sendStarted);
      r := r.(phase := if o.sendStarted then Listening else Failing);
      Made(inbox, o, before);
      if !o.sendStarted {
        return false;
      }
      ok := ReceiveCommand(inbox, o);
      if !ok {
        return;
      }
      ok := CarryOut(inbox, o);
      if !ok {
        return;
      }
      before := r;
      SendJson(r.phase.status, o.sendFinal);
      r := r.(phase := Exited);
      Made(inbox, o, before);
    }

    /** The whole program: it exits on every path, having made only calls the protocol allows. */
    method RecordEtwTrace(inbox: seq<CommandLine>, o: Outcomes)
      requires r == INITIAL.recorder && calls == []
      modifies this
      ensures Follows(inbox, o) && r == RunOn(INITIAL.recorder, inbox, o)
    {
      ghost var before := r;
      r := r.(phase := if o.connect then Connected else Exited);
      Made(inbox, o, before);
      if !o.connect {
        return;
      }
      before := r;
      r := r.(phase := if o.prepare then Prepared else Failing);
      Made(inbox, o, before);
      if o.prepare {
        before := r;
        if o.start {
          r := r.(phase := Armed, started := true, recording := true, guard := true);
        } else {
          r := r.(phase := Failing);
        }
        Made(inbox, o, before);
        if o.start {
          var ok := RecordGuarded(inbox, o);
          if ok {
            return;
          }
        }
      }
      if r.guard {
        before := r;
        r := r.(guard := false, guardTried := true, recording := r.recording && !o.guardCancel);
        Made(inbox, o, before);
      }
      before := r;
      SendJson(Error, o.sendError);
      r := r.(phase := Exited);
      Made(inbox, o, before);
    }
  }

  lemma {:induction false} PerformAllKeepsInv(inbox: seq<CommandLine>, cs: seq<Call>)
    ensures RecorderInv(PerformAll(inbox, cs))
  {
    if cs != [] {
      PerformAllKeepsInv(inbox, cs[..|cs| - 1]);
      var r := PerformAll(inbox, cs[..|cs| - 1]);
      if Ready(r, cs[|cs| - 1]) {
        PerformKeepsRecorderInv(r, inbox, cs[|cs| - 1]);
      }
    }
  }

  /** Which outcome follows from which first line, when the recorder runs to its end undisturbed. */
  lemma {:induction false} ExitedRecorder(inbox: seq<CommandLine>, cs: seq<Call>)
    requires PerformAll(inbox, cs).phase.Exited?
    ensures var r := PerformAll(inbox, cs);
            && (r.started ==> r.saved || r.cancelled || r.guardTried)
            && (r.read.Some? ==> r.read == Some(FirstCommand(inbox)))
            && (r.cancelled ==> FirstCommand(inbox) == Some(Cancel))
            && (r.saved ==> FirstCommand(inbox) != Some(Cancel))
  {
    PerformAllKeepsInv(inbox, cs);
    ReadIsFirst(inbox, cs);
  }

  lemma {:induction false} PerformReads(r: Recorder, inbox: seq<CommandLine>, c: Call)
    requires Ready(r, c)
    ensures Perform(r, inbox, c).read == if c.ReadCommand? then Some(FirstCommand(inbox)) else r.read
  {
  }

  lemma {:induction false} ReadIsFirst(inbox: seq<CommandLine>, cs: seq<Call>)
    ensures PerformAll(inbox, cs).read.Some? ==> PerformAll(inbox, cs).read == Some(FirstCommand(inbox))
  {
    if cs != [] {
      var r := PerformAll(inbox, cs[..|cs| - 1]);
      ReadIsFirst(inbox, cs[..|cs| - 1]);
      if Ready(r, cs[|cs| - 1]) {
        PerformReads(r, inbox, cs[|cs| - 1]);
      }
    }
  }
}
