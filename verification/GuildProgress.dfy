/** Bounded progress of the guild board's sweep: abandoned issues are cleared in time. */
module GuildProgress {
  import opened Options
  import opened Seqs
  import opened GuildBoard

  /** The last activity of `a` on a typed In Progress issue with no PR and no hold. */
  function AbandonedSince(s: Issue, a: Login): Option<Time> {
    if && !s.archived && s.isIssue && s.status == Some(InProgress)
       && !OnHold(s) && !s.openPr && StatusForType(s.issueType).Some?
    then LastActivity(s, a) else None
  }

  ghost predicate Abandoned(s: Issue, a: Login, since: Time) {
    AbandonedSince(s, a) == Some(since)
  }

  /** Whatever else happens, people leave the abandoned issue abandoned, and `a` its only guild assignee. */
  ghost predicate LeftAlone(s: Issue, run: seq<Timed>, a: Login, since: Time) {
    forall k :: 0 <= k < |run| ==> LeftAloneBy(s, run, a, since, k)
  }

  /** An event leaves an abandoned issue abandoned; a sweep, until it has cleared the issue, finds `a` alone. */
  ghost predicate LeftAloneBy(s: Issue, run: seq<Timed>, a: Login, since: Time, k: nat)
    requires k < |run|
  {
    Abandoned(After(s, run, k), a, since) ==>
      if run[k].event.Sweep? then GuildAssignees(After(s, run, k), run[k].guild) == [a]
      else Abandoned(After(s, run, k + 1), a, since)
  }

  ghost predicate SweepWithin(run: seq<Timed>, from: Time, gap: Time) {
    exists k :: 0 <= k < |run| && run[k].event.Sweep? && from <= run[k].at <= from + gap
  }

  lemma {:induction false} FirstSweepFrom(run: seq<Timed>, clock: Time, from: Time, gap: Time) returns (k: nat)
    requires InOrder(clock, run) && SweepWithin(run, from, gap)
    ensures k < |run| && run[k].event.Sweep? && from <= run[k].at <= from + gap
    ensures forall i :: 0 <= i < k && run[i].event.Sweep? ==> run[i].at < from
  {
    var j :| 0 <= j < |run| && run[j].event.Sweep? && from <= run[j].at <= from + gap;
    k := j;
    var i := j;
    while i > 0
      invariant 0 <= i <= k <= j
      invariant run[k].event.Sweep? && from <= run[k].at
      invariant forall x :: i <= x < k && run[x].event.Sweep? ==> run[x].at < from
    {
      i := i - 1;
      if run[i].event.Sweep? && from <= run[i].at {
        k := i;
      }
    }
  }

  /** When the next sweep will act on an abandoned issue. */
  function Due(checkIn: Option<Time>, since: Time): Time {
    if NudgeOutstanding(checkIn, since) then checkIn.value + AUTO_CLEAR_AFTER_DAYS * DAY
    else since + CHECK_IN_AFTER_DAYS * DAY
  }

  lemma {:induction false} AbandonedOutcome(s: Issue, guild: set<Login>, a: Login, since: Time, now: Time)
    requires Abandoned(s, a, since) && GuildAssignees(s, guild) == [a]
    ensures var checkIn := LatestCheckIn(s.comments);
            Decide(s, guild, now) == if now < Due(checkIn, since) then Untouched
                                     else if NudgeOutstanding(checkIn, since) then Cleared([a])
                                     else Nudged(a)
  {
  }

  /** A step that is not a due sweep neither posts nor answers a check-in. */
  lemma {:induction false} QuietStep(s: Issue, a: Login, since: Time, e: Timed)
    requires Abandoned(s, a, since)
    requires e.event.Sweep? ==> GuildAssignees(s, e.guild) == [a] && e.at < Due(LatestCheckIn(s.comments), since)
    requires !e.event.Sweep? ==> Abandoned(Step(s, e), a, since)
    ensures Abandoned(Step(s, e), a, since)
    ensures LatestCheckIn(Step(s, e).comments) == LatestCheckIn(s.comments)
  {
    if e.event.Sweep? {
      AbandonedOutcome(s, e.guild, a, since, e.at);
    } else {
      StepShape(s, e);
      if e.event.Commented? {
        AppendComment(s, Comment(e.event.author, e.at, Text), a);
      }
    }
  }

  /** The two clocks of an issue that `a` has abandoned: the last activity and the latest check-in. */
  ghost function Clocks(s: Issue, a: Login): Option<(Time, Option<Time>)> {
    match AbandonedSince(s, a)
    case None => None
    case Some(since) => Some((since, LatestCheckIn(s.comments)))
  }

  ghost function ClocksAfter(s: Issue, run: seq<Timed>, a: Login, k: nat): Option<(Time, Option<Time>)>
    requires k <= |run|
  {
    Clocks(After(s, run, k), a)
  }

  /** An event before the next sweep is due leaves both clocks as they are. */
  lemma {:induction false} QuietStepOfRun(s: Issue, run: seq<Timed>, a: Login, since: Time, k: nat, next: nat,
          checkIn: Option<Time>)
    requires next == k + 1 <= |run| && LeftAlone(s, run, a, since)
    requires run[k].event.Sweep? ==> run[k].at < Due(checkIn, since)
    ensures ClocksAfter(s, run, a, k) == Some((since, checkIn)) ==>
        ClocksAfter(s, run, a, next) == Some((since, checkIn))
  {
    if ClocksAfter(s, run, a, k) == Some((since, checkIn)) {
      assert LeftAloneBy(s, run, a, since, k);
      QuietStep(After(s, run, k), a, since, run[k]);
    }
  }

  ghost function AllClocks(s: Issue, run: seq<Timed>, a: Login): (clocks: seq<Option<(Time, Option<Time>)>>)
    ensures |clocks| == |run| + 1
  {
    seq(|run| + 1, k requires 0 <= k <= |run| => ClocksAfter(s, run, a, k))
  }

  lemma {:induction false} QuietSteps(s: Issue, run: seq<Timed>, a: Login, since: Time, i: nat, j: nat,
          checkIn: Option<Time>)
    requires i <= j <= |run| && LeftAlone(s, run, a, since)
    requires forall k :: i <= k < j && run[k].event.Sweep? ==> run[k].at < Due(checkIn, since)
    ensures forall k :: i <= k < j ==> Carries(AllClocks(s, run, a), Some((since, checkIn)), k)
  {
    forall k | i <= k < j ensures Carries(AllClocks(s, run, a), Some((since, checkIn)), k) {
      QuietStepOfRun(s, run, a, since, k, k + 1, checkIn);
    }
  }

  lemma {:induction false} QuietUntilDue(s: Issue, run: seq<Timed>, a: Login, since: Time, i: nat, j: nat,
          checkIn: Option<Time>)
    requires i <= j <= |run| && LeftAlone(s, run, a, since)
    requires forall k :: i <= k < j && run[k].event.Sweep? ==> run[k].at < Due(checkIn, since)
    ensures ClocksAfter(s, run, a, i) == Some((since, checkIn)) ==>
        ClocksAfter(s, run, a, j) == Some((since, checkIn))
  {
    if ClocksAfter(s, run, a, i) == Some((since, checkIn)) {
      QuietSteps(s, run, a, since, i, j, checkIn);
      StaysAt(AllClocks(s, run, a), Some((since, checkIn)), i, j);
    }
  }

  lemma {:induction false} NudgeLeavesAbandoned(s: Issue, a: Login, since: Time, now: Time)
    requires Abandoned(s, a, since) && !NudgeOutstanding(LatestCheckIn(s.comments), since) && since <= now
    ensures var s' := Apply(s, Nudged(a), now);
            Abandoned(s', a, since) && LatestCheckIn(s'.comments) == Some(now)
  {
    AppendComment(s, Comment(Some(BOT), now, CheckIn(a)), a);
  }

  lemma {:induction false} DueSweepNudges(s: Issue, a: Login, since: Time, e: Timed)
    requires Abandoned(s, a, since) && !NudgeOutstanding(LatestCheckIn(s.comments), since)
    requires e.event.Sweep? && GuildAssignees(s, e.guild) == [a] && since + CHECK_IN_AFTER_DAYS * DAY <= e.at
    ensures Abandoned(Step(s, e), a, since)
    ensures LatestCheckIn(Step(s, e).comments) == Some(e.at)
  {
    AbandonedOutcome(s, e.guild, a, since, e.at);
    NudgeLeavesAbandoned(s, a, since, e.at);
  }

  lemma {:induction false} DueSweepClears(s: Issue, a: Login, since: Time, e: Timed)
    requires Abandoned(s, a, since) && NudgeOutstanding(LatestCheckIn(s.comments), since)
    requires e.event.Sweep? && GuildAssignees(s, e.guild) == [a]
    requires LatestCheckIn(s.comments).value + AUTO_CLEAR_AFTER_DAYS * DAY <= e.at
    ensures Decide(s, e.guild, e.at) == Cleared([a])
    ensures a !in Step(s, e).assignees
    ensures Step(s, e).status == StatusForType(s.issueType) && Step(s, e).status.Some?
  {
    AbandonedOutcome(s, e.guild, a, since, e.at);
  }

  /** The assignment was cleared by the sweep at `k`, which moved the issue to its type's column. */
  ghost predicate ClearedAt(s: Issue, run: seq<Timed>, a: Login, k: nat)
    requires k < |run|
  {
    var before, after := After(s, run, k), After(s, run, k + 1);
    && run[k].event.Sweep?
    && Decide(before, run[k].guild, run[k].at) == Cleared([a])
    && a !in after.assignees
    && after.status == StatusForType(before.issueType) && after.status.Some?
  }

  /** The first sweep once two weeks have passed since `since` posts the check-in. */
  lemma {:induction false} FirstSweepNudges(s: Issue, run: seq<Timed>, a: Login, since: Time, i: nat)
    requires Abandoned(s, a, since) && !NudgeOutstanding(LatestCheckIn(s.comments), since)
    requires LeftAlone(s, run, a, since)
    requires i < |run| && run[i].event.Sweep? && since + CHECK_IN_AFTER_DAYS * DAY <= run[i].at
    requires forall k :: 0 <= k < i && run[k].event.Sweep? ==> run[k].at < since + CHECK_IN_AFTER_DAYS * DAY
    ensures ClocksAfter(s, run, a, i + 1) == Some((since, Some(run[i].at)))
  {
    QuietUntilDue(s, run, a, since, 0, i, LatestCheckIn(s.comments));
    assert LeftAloneBy(s, run, a, since, i);
    DueSweepNudges(After(s, run, i), a, since, run[i]);
  }

  lemma {:induction false} DueSweepOfRunClears(s: Issue, run: seq<Timed>, a: Login, since: Time, k: nat, checkIn: Time)
    requires k < |run| && run[k].event.Sweep? && LeftAlone(s, run, a, since)
    requires ClocksAfter(s, run, a, k) == Some((since, Some(checkIn))) && since <= checkIn
    requires checkIn + AUTO_CLEAR_AFTER_DAYS * DAY <= run[k].at
    ensures ClearedAt(s, run, a, k)
  {
    assert LeftAloneBy(s, run, a, since, k);
    DueSweepClears(After(s, run, k), a, since, run[k]);
  }

  /** The first sweep a week after an unanswered check-in clears the assignment. */
  lemma {:induction false} NextSweepClears(s: Issue, run: seq<Timed>, a: Login, since: Time, i: nat, k: nat)
    requires LeftAlone(s, run, a, since) && i < k < |run| && run[k].event.Sweep?
    requires ClocksAfter(s, run, a, i + 1) == Some((since, Some(run[i].at))) && since <= run[i].at
    requires run[i].at + AUTO_CLEAR_AFTER_DAYS * DAY <= run[k].at
    requires forall j :: 0 <= j < k && run[j].event.Sweep? ==> run[j].at < run[i].at + AUTO_CLEAR_AFTER_DAYS * DAY
    ensures ClearedAt(s, run, a, k)
  {
    QuietUntilDue(s, run, a, since, i + 1, k, Some(run[i].at));
    DueSweepOfRunClears(s, run, a, since, k, run[i].at);
  }

  function Later(a: Time, b: Time): Time {
    if a < b then b else a
  }

  /** When an issue found abandoned at `now` is cleared at the latest, with sweeps at most `gap` apart. */
  function ClearedBy(checkIn: Option<Time>, since: Time, now: Time, gap: Time): Time {
    if NudgeOutstanding(checkIn, since) then Later(checkIn.value + AUTO_CLEAR_AFTER_DAYS * DAY, now) + gap
    else Later(since + CHECK_IN_AFTER_DAYS * DAY, now) + gap + AUTO_CLEAR_AFTER_DAYS * DAY + gap
  }

  lemma {:induction false} OutstandingIsCleared(s: Issue, run: seq<Timed>, a: Login, since: Time, now: Time, gap: Time)
      returns (k: nat)
    requires Abandoned(s, a, since) && NudgeOutstanding(LatestCheckIn(s.comments), since)
    requires InOrder(now, run) && LeftAlone(s, run, a, since) && 0 <= gap
    requires SweepWithin(run, Later(LatestCheckIn(s.comments).value + AUTO_CLEAR_AFTER_DAYS * DAY, now), gap)
    ensures k < |run| && ClearedAt(s, run, a, k) && run[k].at <= ClearedBy(LatestCheckIn(s.comments), since, now, gap)
  {
    var checkIn := LatestCheckIn(s.comments).value;
    k := FirstSweepFrom(run, now, Later(checkIn + AUTO_CLEAR_AFTER_DAYS * DAY, now), gap);
    QuietUntilDue(s, run, a, since, 0, k, Some(checkIn));
    DueSweepOfRunClears(s, run, a, since, k, checkIn);
  }

  /**
   Bounded progress over whole runs: with sweeps at most `gap` apart, an issue found abandoned at any time
   is cleared and back in its column, if a check-in is outstanding, within a week of it plus one gap, and
   otherwise within 21 days plus two gaps of the last activity; if that much of the time has already
   passed, the count starts now.
   */
  lemma {:induction false} AbandonedIsClearedInTime(s: Issue, run: seq<Timed>, a: Login, since: Time, now: Time,
          gap: Time)
    requires Abandoned(s, a, since) && since <= now
    requires InOrder(now, run) && LeftAlone(s, run, a, since)
    requires 0 <= gap
    requires forall from :: now <= from <= ClearedBy(LatestCheckIn(s.comments), since, now, gap) - gap ==>
               SweepWithin(run, from, gap)
    ensures exists k :: 0 <= k < |run| && ClearedAt(s, run, a, k)
              && run[k].at <= ClearedBy(LatestCheckIn(s.comments), since, now, gap)
  {
    if NudgeOutstanding(LatestCheckIn(s.comments), since) {
      var k := OutstandingIsCleared(s, run, a, since, now, gap);
    } else {
      var i := FirstSweepFrom(run, now, Later(since + CHECK_IN_AFTER_DAYS * DAY, now), gap);
      FirstSweepNudges(s, run, a, since, i);
      var k := FirstSweepFrom(run, now, run[i].at + AUTO_CLEAR_AFTER_DAYS * DAY, gap);
      NextSweepClears(s, run, a, since, i, k);
    }
  }
}
