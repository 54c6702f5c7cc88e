/**
 What the recorder program comes to, for every first line and every way its calls can turn out
 (crates/etw_tracing/etw_tracing.rs:441-565), worked out backwards from its end.
 */
module EtwProgram {
  import opened Options
  import opened EtwRecorder

  predicate CancelCommanded(inbox: seq<CommandLine>) {
    inbox != [] && inbox[0] == Readable(Cancel)
  }

  /** The session, once started, can be announced and is saved or cancelled as commanded. */
  predicate Completes(inbox: seq<CommandLine>, o: Outcomes) {
    o.sendStarted && o.setTimeout && if CancelCommanded(inbox) then o.cancel else o.save
  }

  /** How a completed recording is reported. */
  function Conclusion(inbox: seq<CommandLine>): StatusMessage {
    if inbox == [] || inbox[0] == Garbled then TimedOut
    else if inbox[0] == Readable(Cancel) then Cancelled
    else Stopped
  }

  function If<T>(c: bool, x: T): seq<T> {
    if c then [x] else []
  }

  lemma {:induction false} FailingRun(r: Recorder, inbox: seq<CommandLine>, o: Outcomes)
    requires r.phase.Failing?
    ensures RunOn(r, inbox, o) ==
              r.(phase := Exited, guard := false, guardTried := r.guardTried || r.guard,
                 recording := r.recording && !(r.guard && o.guardCancel),
                 sent := r.sent + [Error], delivered := r.delivered + If(o.sendError, Error))
  {
    if r.guard {
      var r' := Perform(r, inbox, DropGuard(o.guardCancel));
      assert RunOn(r, inbox, o) == RunOn(r', inbox, o);
      FailingUnguarded(r', inbox, o);
    } else {
      FailingUnguarded(r, inbox, o);
    }
  }

  lemma {:induction false} FailingUnguarded(r: Recorder, inbox: seq<CommandLine>, o: Outcomes)
    requires r.phase.Failing? && !r.guard
    ensures RunOn(r, inbox, o) ==
              r.(phase := Exited, sent := r.sent + [Error], delivered := r.delivered + If(o.sendError, Error))
  {
  }

  lemma {:induction false} ReportingRun(r: Recorder, inbox: seq<CommandLine>, o: Outcomes)
    requires r.phase.Reporting?
    ensures RunOn(r, inbox, o) ==
              r.(phase := Exited, sent := r.sent + [r.phase.status],
                 delivered := r.delivered + If(o.sendFinal, r.phase.status))
  {
  }

  /** What is left to say of a run once its session is started and guarded. */
  ghost predicate Ends(r: Recorder, inbox: seq<CommandLine>, o: Outcomes, done: bool, started: bool) {
    var end := RunOn(r, inbox, o);
    && end.phase.Exited? && end.started && !end.guard
    && end.saved == (done && !CancelCommanded(inbox))
    && end.cancelled == (done && CancelCommanded(inbox))
    && end.guardTried == !done
    && end.recording == (!done && !o.guardCancel)
    && end.sent == r.sent + If(started, Started) + [if done then Conclusion(inbox) else Error]
    && end.delivered == r.delivered + If(started && o.sendStarted, Started)
                        + (if done then If(o.sendFinal, Conclusion(inbox)) else If(o.sendError, Error))
  }

  /** A session is running under guard, and nothing else has been decided. */
  predicate Guarding(r: Recorder) {
    r.started && r.recording && r.guard && !r.guardTried && !r.saved && !r.cancelled
  }

  lemma {:induction false} ActingRun(r: Recorder, inbox: seq<CommandLine>, o: Outcomes)
    requires Guarding(r) && r.phase.Acting?
    requires r.phase.command == (if CancelCommanded(inbox) then Cancel else Save)
    requires r.phase.timedOut == (inbox == [] || inbox[0] == Garbled)
    ensures Ends(r, inbox, o, if CancelCommanded(inbox) then o.cancel else o.save, false)
  {
    var r' := Perform(r, inbox, NextCall(r, o));
    assert RunOn(r, inbox, o) == RunOn(r', inbox, o);
    if r'.phase.Failing? {
      FailingRun(r', inbox, o);
    } else {
      ReportingRun(r', inbox, o);
    }
  }

  lemma {:induction false} ListeningRun(r: Recorder, inbox: seq<CommandLine>, o: Outcomes)
    requires Guarding(r) && r.phase.Listening?
    ensures Ends(r, inbox, o, o.setTimeout && if CancelCommanded(inbox) then o.cancel else o.save, false)
  {
    var r' := Perform(r, inbox, NextCall(r, o));
    assert RunOn(r, inbox, o) == RunOn(r', inbox, o);
    if r'.phase.Failing? {
      FailingRun(r', inbox, o);
    } else {
      var r'' := Perform(r', inbox, NextCall(r', o));
      assert RunOn(r', inbox, o) == RunOn(r'', inbox, o);
      ActingRun(r'', inbox, o);
    }
  }

  lemma {:induction false} ArmedRun(r: Recorder, inbox: seq<CommandLine>, o: Outcomes)
    requires Guarding(r) && r.phase.Armed?
    ensures Ends(r, inbox, o, Completes(inbox, o), true)
  {
    var r' := Perform(r, inbox, NextCall(r, o));
    assert RunOn(r, inbox, o) == RunOn(r', inbox, o);
    if r'.phase.Failing? {
      FailingRun(r', inbox, o);
    } else {
      ListeningRun(r', inbox, o);
    }
  }

  lemma {:induction false} RunToStart(inbox: seq<CommandLine>, o: Outcomes) returns (r: Recorder)
    ensures RunOn(INITIAL.recorder, inbox, o) == RunOn(r, inbox, o)
    ensures r == if !o.connect then INITIAL.recorder.(phase := Exited)
                 else if !o.prepare || !o.start then INITIAL.recorder.(phase := Failing)
                 else INITIAL.recorder.(phase := Armed, started := true, recording := true, guard := true)
  {
    r := Perform(INITIAL.recorder, inbox, Connect(o.connect));
    if o.connect {
      r := Perform(r, inbox, Prepare(o.prepare));
      if o.prepare {
        r := Perform(r, inbox, StartSession(o.start));
      }
    }
  }

  /**
   The program's end: what was started is saved or cancelled as the first line commands, if every call on
   the way succeeds, and that is what is reported; otherwise the guard tries to cancel it and an error is
   reported.
   */
  lemma {:induction false} EndOfEveryRun(inbox: seq<CommandLine>, o: Outcomes)
    ensures var r := RunOn(INITIAL.recorder, inbox, o);
            var started := o.connect && o.prepare && o.start;
            var done := started && Completes(inbox, o);
            && r.phase.Exited? && !r.guard
            && r.started == started
            && r.saved == (done && !CancelCommanded(inbox))
            && r.cancelled == (done && CancelCommanded(inbox))
            && r.guardTried == (started && !done)
            && r.recording == (started && !done && !o.guardCancel)
            && r.sent == If(started, Started)
                         + (if done then [Conclusion(inbox)] else If(o.connect, Error))
            && r.delivered == If(started && o.sendStarted, Started)
                              + (if done then If(o.sendFinal, Conclusion(inbox))
                                 else If(o.connect && o.sendError, Error))
  {
    var r := RunToStart(inbox, o);
    if r.phase.Armed? {
      ArmedRun(r, inbox, o);
    } else if r.phase.Failing? {
      FailingRun(r, inbox, o);
    }
  }
}
