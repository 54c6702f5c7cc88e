/**
 The guild board's promise of three quiet weeks: when an assignment may be cleared, over whole runs, and
 exactly when the promise is kept.
 */
module GuildPromise {
  import opened Options
  import opened Seqs
  import opened GuildBoard

  ghost predicate SoleGuildAssignee(s: Issue, guild: set<Login>) {
    forall a, b :: a in s.assignees && b in s.assignees && a in guild && b in guild ==> a == b
  }

  predicate NudgesAt(s: Issue, run: seq<Timed>, k: nat)
    requires k < |run|
  {
    run[k].event.Sweep? && DecisionAt(s, run, k).Nudged?
  }

  predicate ClearsAt(s: Issue, run: seq<Timed>, k: nat)
    requires k < |run|
  {
    run[k].event.Sweep? && DecisionAt(s, run, k).Cleared?
  }

  /** A sweep that acts finds only one guild member assigned. */
  ghost predicate OneAt(s: Issue, run: seq<Timed>, k: nat)
    requires k < |run|
  {
    NudgesAt(s, run, k) || ClearsAt(s, run, k) ==> SoleGuildAssignee(After(s, run, k), run[k].guild)
  }

  ghost predicate OneAtATime(s: Issue, run: seq<Timed>) {
    forall k :: 0 <= k < |run| ==> OneAt(s, run, k)
  }

  /** The event at `k` is a comment or an assignment with the timestamp of the check-in before it. */
  predicate TiesAt(s: Issue, run: seq<Timed>, k: nat)
    requires k < |run|
  {
    (run[k].event.Commented? || run[k].event.Assigned?) && LatestCheckIn(After(s, run, k).comments) == Some(run[k].at)
  }

  ghost predicate Untied(s: Issue, run: seq<Timed>) {
    forall k :: 0 <= k < |run| ==> !TiesAt(s, run, k)
  }

  /** At every check-in before `k`, back to when `a` was last assigned, `a` was in the guild. */
  predicate MemberAtNudges(s: Issue, run: seq<Timed>, k: nat, a: Login)
    requires k <= |run|
  {
    k == 0 || run[k - 1].event == Assigned(a)
    || (MemberAtNudges(s, run, k - 1, a) && (NudgesAt(s, run, k - 1) ==> a in run[k - 1].guild))
  }

  /**
   Nobody joins the guild between a check-in and the clearing that follows from it, having been assigned all
   along.
   */
  ghost predicate NobodyJoinsAssigned(s: Issue, run: seq<Timed>) {
    forall k, a :: 0 <= k < |run| && ClearsAt(s, run, k) && a in DecisionAt(s, run, k).removed ==>
        MemberAtNudges(s, run, k, a)
  }

  /** A check-in not answered since was posted to someone already quiet for the whole check-in window. */
  ghost predicate NudgeWasDue(s: Issue, members: Login -> bool) {
    var checkIn := LatestCheckIn(s.comments);
    checkIn.Some? ==>
      forall a, t :: a in s.assignees && members(a) && LastActivity(s, a) == Some(t) ==>
        checkIn.value < t || t + CHECK_IN_AFTER_DAYS * DAY <= checkIn.value
  }

  lemma {:induction false} CommentKeepsNudgeDue(s: Issue, s': Issue, members: Login -> bool, clock: Time, c: Comment)
    requires Logged(s, clock) && clock <= c.createdAt && c.body.Text? && NudgeWasDue(s, members)
    requires LatestCheckIn(s.comments) != Some(c.createdAt)
    requires s'.comments == s.comments + [c] && s'.assignments == s.assignments && s'.assignees == s.assignees
    ensures NudgeWasDue(s', members)
  {
    LatestCheckInIsMax(s.comments);
    AppendComment(s, c, "");
    forall a, t | a in s'.assignees && members(a) && LastActivity(s', a) == Some(t) && LatestCheckIn(s'.comments).Some?
      ensures LatestCheckIn(s'.comments).value < t || t + CHECK_IN_AFTER_DAYS * DAY <= LatestCheckIn(s'.comments).value
    {
      AppendComment(s, c, a);
    }
  }

  lemma {:induction false} AssignmentKeepsNudgeDue(s: Issue, s': Issue, before: Login -> bool, after: Login -> bool,
          clock: Time, x: Assignment)
    requires Logged(s, clock) && clock <= x.at && NudgeWasDue(s, before) && LatestCheckIn(s.comments) != Some(x.at)
    requires s'.comments == s.comments && s'.assignments == s.assignments + [x]
    requires forall a :: a in s'.assignees ==> a in s.assignees || a == x.login
    requires forall a :: after(a) ==> before(a) || a == x.login
    ensures NudgeWasDue(s', after)
  {
    LatestCheckInIsMax(s.comments);
    forall a, t | a in s'.assignees && after(a) && LastActivity(s', a) == Some(t) && LatestCheckIn(s'.comments).Some?
      ensures LatestCheckIn(s'.comments).value < t || t + CHECK_IN_AFTER_DAYS * DAY <= LatestCheckIn(s'.comments).value
    {
      AssignmentResetsClock(s, s', clock, x, a);
    }
  }

  lemma {:induction false} NudgeIsDue(s: Issue, s': Issue, guild: set<Login>, clock: Time, now: Time)
    requires Logged(s, clock) && clock <= now && SoleGuildAssignee(s, guild)
    requires Decide(s, guild, now).Nudged?
    requires s'.comments == s.comments + [Comment(Some(BOT), now, CheckIn(Decide(s, guild, now).assignee))]
    requires s'.assignments == s.assignments && forall x :: x in s'.assignees ==> x in s.assignees
    ensures NudgeWasDue(s', a => a in guild)
  {
    var nudged := Decide(s, guild, now).assignee;
    var c := Comment(Some(BOT), now, CheckIn(nudged));
    FirstIsMember(s, guild);
    LatestCheckInIsMax(s.comments);
    AppendComment(s, c, nudged);
    forall a, t | a in s'.assignees && a in guild && LastActivity(s', a) == Some(t)
      ensures t + CHECK_IN_AFTER_DAYS * DAY <= now
    {
      assert a == nudged;
    }
  }

  lemma {:induction false} FewerMembers(s: Issue, more: Login -> bool, fewer: Login -> bool)
    requires NudgeWasDue(s, more) && forall a :: fewer(a) ==> more(a)
    ensures NudgeWasDue(s, fewer)
  {
  }

  /** The invariant is kept, for members who stay members, by every step that finds at most one of them assigned. */
  lemma {:induction false} StepKeepsNudgeDue(s: Issue, clock: Time, e: Timed, before: Login -> bool,
          after: Login -> bool)
    requires Logged(s, clock) && clock <= e.at && NudgeWasDue(s, before)
    requires e.event.Commented? || e.event.Assigned? ==> LatestCheckIn(s.comments) != Some(e.at)
    requires e.event.Sweep? && Decide(s, e.guild, e.at).Nudged? ==>
               SoleGuildAssignee(s, e.guild) && forall a :: after(a) ==> a in e.guild
    requires forall a :: after(a) ==> e.event == Assigned(a) || before(a)
    ensures NudgeWasDue(Step(s, e), after)
  {
    StepShape(s, e);
    var s' := Step(s, e);
    if e.event.Assigned? {
      AssignmentKeepsNudgeDue(s, s', before, after, clock, Assignment(e.event.login, e.at));
    } else if e.event.Commented? {
      CommentKeepsNudgeDue(s, s', before, clock, Comment(e.event.author, e.at, Text));
      FewerMembers(s', before, after);
    } else if e.event.Sweep? && Decide(s, e.guild, e.at).Nudged? {
      NudgeIsDue(s, s', e.guild, clock, e.at);
      FewerMembers(s', a => a in e.guild, after);
    } else {
      assert NudgeWasDue(s', before);
      FewerMembers(s', before, after);
    }
  }

  function Members(s: Issue, run: seq<Timed>, k: nat): Login -> bool
    requires k <= |run|
  {
    a => MemberAtNudges(s, run, k, a)
  }

  lemma {:induction false} NudgeDueAfterStep(s: Issue, clock: Time, run: seq<Timed>, k: nat, next: nat)
    requires Initial(s, clock) && InOrder(clock, run) && Untied(s, run) && OneAtATime(s, run) && next == k + 1 <= |run|
    ensures DueAfter(s, run, k) ==> DueAfter(s, run, next)
  {
    if DueAfter(s, run, k) {
      RunKeepsLog(s, clock, run, k);
      assert OneAt(s, run, k) && !TiesAt(s, run, k);
      StepKeepsNudgeDue(After(s, run, k), ClockAfter(clock, run, k), run[k], Members(s, run, k), Members(s, run, next));
    }
  }

  ghost predicate DueAfter(s: Issue, run: seq<Timed>, k: nat)
    requires k <= |run|
  {
    NudgeWasDue(After(s, run, k), Members(s, run, k))
  }

  ghost function AllDue(s: Issue, run: seq<Timed>): (due: seq<bool>)
    ensures |due| == |run| + 1
  {
    seq(|run| + 1, i requires 0 <= i <= |run| => DueAfter(s, run, i))
  }

  lemma {:induction false} DueCarries(s: Issue, clock: Time, run: seq<Timed>, i: nat)
    requires Initial(s, clock) && InOrder(clock, run) && Untied(s, run) && OneAtATime(s, run) && i < |run|
    ensures Carries(AllDue(s, run), true, i)
  {
    NudgeDueAfterStep(s, clock, run, i, i + 1);
  }

  lemma {:induction false} RunKeepsNudgeDue(s: Issue, clock: Time, run: seq<Timed>, k: nat)
    requires Initial(s, clock) && InOrder(clock, run) && Untied(s, run) && OneAtATime(s, run) && k <= |run|
    ensures DueAfter(s, run, k)
  {
    var due := AllDue(s, run);
    assert due[0];
    forall i | 0 <= i < k ensures Carries(due, true, i) {
      DueCarries(s, clock, run, i);
    }
    StaysAt(due, true, 0, k);
  }

  /**
   Safety over whole runs, with guild membership changing as it likes except that nobody joins while
   assigned: with one guild assignee at a time, and no activity in the very instant of a check-in, whoever
   a sweep unassigns has done nothing on the issue for at least 14 + 7 days.
   */
  lemma {:induction false} ClearedOnlyAfterThreeQuietWeeks(s: Issue, clock: Time, run: seq<Timed>, k: nat, a: Login,
          t: Time)
    requires Initial(s, clock) && InOrder(clock, run) && Untied(s, run)
    requires OneAtATime(s, run) && NobodyJoinsAssigned(s, run)
    requires k < |run| && ClearsAt(s, run, k) && a in DecisionAt(s, run, k).removed
    requires Active(After(s, run, k), a, t)
    ensures run[k].at - t >= 21 * DAY
  {
    RunKeepsNudgeDue(s, clock, run, k);
    assert OneAt(s, run, k) && MemberAtNudges(s, run, k, a);
    ClearedWhenDue(s, run, k, a, t);
  }

  lemma {:induction false} ClearedWhenDue(s: Issue, run: seq<Timed>, k: nat, a: Login, t: Time)
    requires k < |run| && DueAfter(s, run, k) && OneAt(s, run, k) && MemberAtNudges(s, run, k, a)
    requires ClearsAt(s, run, k) && a in DecisionAt(s, run, k).removed && Active(After(s, run, k), a, t)
    ensures run[k].at - t >= 21 * DAY
  {
    ClearedAfterDueNudge(After(s, run, k), run[k].guild, Members(s, run, k), run[k].at, a, t);
  }

  lemma {:induction false} ClearedAfterDueNudge(s: Issue, guild: set<Login>, members: Login -> bool, now: Time,
          a: Login, t: Time)
    requires SoleGuildAssignee(s, guild) && NudgeWasDue(s, members) && members(a)
    requires Decide(s, guild, now).Cleared? && a in Decide(s, guild, now).removed
    requires Active(s, a, t)
    ensures now - t >= (CHECK_IN_AFTER_DAYS + AUTO_CLEAR_AFTER_DAYS) * DAY
  {
    FirstIsMember(s, guild);
    assert a == GuildAssignees(s, guild)[0];
    LastActivityIsLatest(s, a);
  }

  /**
   With no limit on the number of guild assignees, the assignee the sweep looks at (the first) still
   has the whole grace period.
   */
  lemma {:induction false} FirstAssigneeKeepsGracePeriod(s: Issue, guild: set<Login>, now: Time, t: Time)
    requires Decide(s, guild, now).Cleared?
    requires Active(s, GuildAssignees(s, guild)[0], t)
    ensures now - t >= 7 * DAY
  {
    LastActivityIsLatest(s, GuildAssignees(s, guild)[0]);
  }

  // ----- no condition can be dropped -----

  /** A bug assigned to two people at time 0. */
  function SharedIssue(x: Login, y: Login): Issue {
    Issue(false, true, false, Some(InProgress), Some("Bug"), [x, y], [], false, [],
          [Assignment(x, 0), Assignment(y, 0)])
  }

  /** The issue after a check-in to `x` and a comment by `y`, the check-in first or second. */
  function Answered(x: Login, y: Login, nudge: Time, reply: Time, nudgeFirst: bool): Issue {
    var c, r := Comment(Some(BOT), nudge, CheckIn(x)), Comment(Some(y), reply, Text);
    SharedIssue(x, y).(comments := if nudgeFirst then [c] + [r] else [r] + [c])
  }

  lemma {:induction false} SharedIsInitial(x: Login, y: Login)
    requires x != y
    ensures Initial(SharedIssue(x, y), 0) && InOrder(0, SharedRun(x, y)) && InOrder(0, RotationRun(x, y))
  {
    SharedClocks(x, y);
  }

  lemma {:induction false} SharedClocks(x: Login, y: Login)
    requires x != y
    ensures var s := SharedIssue(x, y);
            LastActivity(s, x) == Some(0) && LastActivity(s, y) == Some(0) && LatestCheckIn(s.comments) == None
  {
    var log := SharedIssue(x, y).assignments;
    assert log[..1] == [Assignment(x, 0)] && log[..1][..0] == [];
    assert LatestAssignment(log[..1], x) == Some(0) && LatestAssignment(log[..1], y) == None;
  }

  lemma {:induction false} OneCommentClocks(x: Login, y: Login, c: Comment, a: Login)
    requires x != y && (a == x || a == y)
    ensures var s := SharedIssue(x, y).(comments := [c]);
            && LastActivity(s, a) == Some(if OwnComment(c, a) && c.createdAt > 0 then c.createdAt else 0)
            && LatestCheckIn(s.comments) == if c.body.CheckIn? then Some(c.createdAt) else None
  {
    SharedClocks(x, y);
    AppendComment(SharedIssue(x, y), c, a);
    assert [] + [c] == [c];
  }

  lemma {:induction false} AnsweredClocks(x: Login, y: Login, nudge: Time, reply: Time, nudgeFirst: bool, a: Login)
    requires x != y && 0 < reply && (a == x || a == y)
    ensures var s := Answered(x, y, nudge, reply, nudgeFirst);
            LastActivity(s, a) == Some(if a == x then 0 else reply) && LatestCheckIn(s.comments) == Some(nudge)
  {
    var c, r := Comment(Some(BOT), nudge, CheckIn(x)), Comment(Some(y), reply, Text);
    var first, second := if nudgeFirst then c else r, if nudgeFirst then r else c;
    OneCommentClocks(x, y, first, a);
    AppendComment(SharedIssue(x, y).(comments := [first]), second, a);
  }

  lemma {:induction false} AnsweredIsActive(x: Login, y: Login, nudge: Time, reply: Time, nudgeFirst: bool)
    ensures Active(Answered(x, y, nudge, reply, nudgeFirst), y, reply)
  {
    var s, r := Answered(x, y, nudge, reply, nudgeFirst), Comment(Some(y), reply, Text);
    assert s.comments[if nudgeFirst then 1 else 0] == r && OwnComment(r, y);
  }

  /** Whoever of the two is then in the guild is cleared a week after the check-in. */
  lemma {:induction false} AnsweredIsCleared(x: Login, y: Login, nudge: Time, reply: Time, nudgeFirst: bool,
          guild: set<Login>)
    requires x != y && 0 < reply && y in guild && (x in guild || reply <= nudge) && 0 <= nudge
    ensures var s := Answered(x, y, nudge, reply, nudgeFirst);
            Decide(s, guild, nudge + 7 * DAY) == Cleared(if x in guild then [x, y] else [y])
  {
    var s := Answered(x, y, nudge, reply, nudgeFirst);
    AnsweredClocks(x, y, nudge, reply, nudgeFirst, x);
    AnsweredClocks(x, y, nudge, reply, nudgeFirst, y);
    SharedAssignees(s, x, y, guild);
  }

  lemma {:induction false} SharedAssignees(s: Issue, x: Login, y: Login, guild: set<Login>)
    requires s.assignees == [x, y] && x != y
    ensures GuildAssignees(s, guild) == (if x in guild then [x] else []) + (if y in guild then [y] else [])
  {
    assert FirstN(s.assignees, 10) == s.assignees;
    assert s.assignees[1..] == [y] && [y][1..] == [];
    assert Filter([y], guild) == if y in guild then [y] else [];
  }

  /** Two guild members on one issue: one is nudged after two weeks, the other comments on day 20. */
  function SharedRun(x: Login, y: Login): seq<Timed> {
    var guild := {x, y};
    [Timed(14 * DAY, Sweep, guild), Timed(20 * DAY, Commented(Some(y)), guild), Timed(21 * DAY, Sweep, guild)]
  }

  /**
   Two guild assignees at once: `y` is unassigned a day after commenting, although nobody ever joins or
   leaves the guild.
   */
  lemma {:induction false} SecondAssigneeClearedEarly(x: Login, y: Login)
    requires x != y
    ensures Initial(SharedIssue(x, y), 0) && InOrder(0, SharedRun(x, y))
    ensures Untied(SharedIssue(x, y), SharedRun(x, y)) && forall k :: 0 <= k < 3 ==> SharedRun(x, y)[k].guild == {x, y}
    ensures var run := SharedRun(x, y);
            && ClearsAt(SharedIssue(x, y), run, 2) && DecisionAt(SharedIssue(x, y), run, 2) == Cleared([x, y])
            && Active(After(SharedIssue(x, y), run, 2), y, 20 * DAY)
  {
    SharedIsInitial(x, y);
    SharedRunStates(x, y);
    AnsweredIsCleared(x, y, 14 * DAY, 20 * DAY, true, {x, y});
    AnsweredIsActive(x, y, 14 * DAY, 20 * DAY, true);
  }

  lemma {:induction false} SharedRunStates(x: Login, y: Login)
    requires x != y
    ensures After(SharedIssue(x, y), SharedRun(x, y), 2) == Answered(x, y, 14 * DAY, 20 * DAY, true)
  {
    var s0, run := SharedIssue(x, y), SharedRun(x, y);
    SharedClocks(x, y);
    SharedAssignees(s0, x, y, {x, y});
    assert After(s0, run, 0) == s0;
    var c := Comment(Some(BOT), 14 * DAY, CheckIn(x));
    assert [] + [c] == [c];
    assert After(s0, run, 1) == s0.(comments := [c]);
  }

  /** The cohort rotates: `x` is the only member at the nudge, `y` at the end. */
  function RotationRun(x: Login, y: Login): seq<Timed> {
    [Timed(13 * DAY, Commented(Some(y)), {x}), Timed(14 * DAY, Sweep, {x}), Timed(21 * DAY, Sweep, {y})]
  }

  /**
   Someone joins while assigned: with never more than one guild member assigned, `y` is unassigned eight
   days after commenting, for a check-in addressed to `x`.
   */
  lemma {:induction false} JoinerClearedEarly(x: Login, y: Login)
    requires x != y
    ensures Initial(SharedIssue(x, y), 0) && InOrder(0, RotationRun(x, y))
    ensures Untied(SharedIssue(x, y), RotationRun(x, y)) && OneAtATime(SharedIssue(x, y), RotationRun(x, y))
    ensures var run := RotationRun(x, y);
            && ClearsAt(SharedIssue(x, y), run, 2) && DecisionAt(SharedIssue(x, y), run, 2) == Cleared([y])
            && Active(After(SharedIssue(x, y), run, 2), y, 13 * DAY)
  {
    var s0, run := SharedIssue(x, y), RotationRun(x, y);
    SharedIsInitial(x, y);
    RotationRunStates(x, y);
    SharedAssignees(After(s0, run, 1), x, y, {x});
    AnsweredIsCleared(x, y, 14 * DAY, 13 * DAY, false, {y});
    AnsweredIsActive(x, y, 14 * DAY, 13 * DAY, false);
  }

  lemma {:induction false} RotationRunStates(x: Login, y: Login)
    requires x != y
    ensures After(SharedIssue(x, y), RotationRun(x, y), 1).assignees == [x, y]
    ensures After(SharedIssue(x, y), RotationRun(x, y), 2) == Answered(x, y, 14 * DAY, 13 * DAY, false)
  {
    var s0, run := SharedIssue(x, y), RotationRun(x, y);
    SharedClocks(x, y);
    var r := Comment(Some(y), 13 * DAY, Text);
    assert [] + [r] == [r];
    assert After(s0, run, 0) == s0;
    var s1 := s0.(comments := [r]);
    assert After(s0, run, 1) == s1;
    OneCommentClocks(x, y, r, x);
    SharedAssignees(s1, x, y, {x});
    assert DecisionAt(s0, run, 1) == Nudged(x);
  }

  /** A bug of one assignee, and a reply in the instant of the check-in. */
  function LoneIssue(x: Login): Issue {
    Issue(false, true, false, Some(InProgress), Some("Bug"), [x], [], false, [], [Assignment(x, 0)])
  }

  function TieRun(x: Login): seq<Timed> {
    [Timed(14 * DAY, Sweep, {x}), Timed(14 * DAY, Commented(Some(x)), {x}), Timed(21 * DAY, Sweep, {x})]
  }

  lemma {:induction false} LoneFacts(x: Login, s: Issue)
    requires s.assignees == [x] && s.assignments == [Assignment(x, 0)]
    ensures GuildAssignees(s, {x}) == [x] && LatestAssignment(s.assignments, x) == Some(0)
  {
    assert FirstN(s.assignees, 10) == s.assignees && s.assignees[1..] == [];
    assert Filter([x], {x}) == [x] + Filter([], {x});
    assert s.assignments[..0] == [];
  }

  lemma {:induction false} TieRunStates(x: Login)
    ensures var c, r := Comment(Some(BOT), 14 * DAY, CheckIn(x)), Comment(Some(x), 14 * DAY, Text);
            After(LoneIssue(x), TieRun(x), 2) == LoneIssue(x).(comments := [c] + [r])
  {
    var s0, run := LoneIssue(x), TieRun(x);
    LoneFacts(x, s0);
    assert After(s0, run, 0) == s0;
    var c := Comment(Some(BOT), 14 * DAY, CheckIn(x));
    assert [] + [c] == [c];
    assert After(s0, run, 1) == s0.(comments := [c]);
  }

  lemma {:induction false} TieClocks(x: Login)
    ensures var s := After(LoneIssue(x), TieRun(x), 2);
            LastActivity(s, x) == LatestCheckIn(s.comments) == Some(14 * DAY) && Active(s, x, 14 * DAY)
  {
    var s0 := LoneIssue(x);
    var c, r := Comment(Some(BOT), 14 * DAY, CheckIn(x)), Comment(Some(x), 14 * DAY, Text);
    LoneFacts(x, s0);
    TieRunStates(x);
    AppendComment(s0, c, x);
    assert [] + [c] == [c];
    AppendComment(s0.(comments := [c]), r, x);
    assert ([c] + [r])[1] == r && OwnComment(r, x);
  }

  /**
   A check-in counts as unanswered by a reply that carries its own timestamp: the only member there ever
   is, assigned alone, is unassigned a week after replying.
   */
  lemma {:induction false} SameInstantReplyIgnored(x: Login)
    ensures Initial(LoneIssue(x), 0) && InOrder(0, TieRun(x)) && OneAtATime(LoneIssue(x), TieRun(x))
    ensures var run := TieRun(x);
            && TiesAt(LoneIssue(x), run, 1)
            && ClearsAt(LoneIssue(x), run, 2) && DecisionAt(LoneIssue(x), run, 2) == Cleared([x])
            && Active(After(LoneIssue(x), run, 2), x, 14 * DAY)
  {
    TieClocks(x);
    TieRunStates(x);
    TieIsInitial(x);
    LoneFacts(x, After(LoneIssue(x), TieRun(x), 2));
  }

  lemma {:induction false} TieIsInitial(x: Login)
    ensures Initial(LoneIssue(x), 0) && InOrder(0, TieRun(x)) && TiesAt(LoneIssue(x), TieRun(x), 1)
    ensures OneAtATime(LoneIssue(x), TieRun(x))
  {
    var s0, run := LoneIssue(x), TieRun(x);
    LoneFacts(x, s0);
    assert After(s0, run, 0) == s0;
    var c := Comment(Some(BOT), 14 * DAY, CheckIn(x));
    assert [] + [c] == [c];
    AppendComment(s0, c, x);
    forall k | 0 <= k < 3 ensures OneAt(s0, run, k) {
      OnlyXAssigned(x, k);
    }
  }

  lemma {:induction false} OnlyXAssigned(x: Login, k: nat)
    requires k < 3
    ensures SoleGuildAssignee(After(LoneIssue(x), TieRun(x), k), TieRun(x)[k].guild)
  {
  }

  /** The promise of three quiet weeks, for one sweep of one run. */
  ghost predicate QuietWhenCleared(s: Issue, run: seq<Timed>, k: nat, a: Login, t: Time)
    requires k < |run|
  {
    ClearsAt(s, run, k) && a in DecisionAt(s, run, k).removed && Active(After(s, run, k), a, t) ==>
      run[k].at - t >= 21 * DAY
  }

  /**
   The promise for everything that can happen to any issue while only `people` are ever in the guild, with
   or without activity in the very instant of a check-in.
   */
  ghost predicate Promise(people: set<Login>, ties: bool) {
    forall s: Issue, clock: Time, run: seq<Timed>, k: nat, a: Login, t: Time ::
      Initial(s, clock) && InOrder(clock, run) && (ties || Untied(s, run)) && k < |run| && GuildWithin(run, people) ==>
        QuietWhenCleared(s, run, k, a, t)
  }

  ghost predicate GuildWithin(run: seq<Timed>, people: set<Login>) {
    forall i :: 0 <= i < |run| ==> run[i].guild <= people
  }

  /** A lone member is nudged whenever anyone is. */
  lemma {:induction false} LoneMemberAtNudges(s: Issue, run: seq<Timed>, k: nat, a: Login, people: set<Login>)
    requires k <= |run| && GuildWithin(run, people) && a in people
    requires forall x, y :: x in people && y in people ==> x == y
    ensures MemberAtNudges(s, run, k, a)
  {
    if k > 0 {
      LoneMemberAtNudges(s, run, k - 1, a, people);
      if NudgesAt(s, run, k - 1) {
        FirstIsMember(After(s, run, k - 1), run[k - 1].guild);
      }
    }
  }

  lemma {:induction false} LoneMemberIsPromised(s: Issue, clock: Time, run: seq<Timed>, k: nat, a: Login, t: Time,
          people: set<Login>)
    requires Initial(s, clock) && InOrder(clock, run) && Untied(s, run) && k < |run| && GuildWithin(run, people)
    requires forall x, y :: x in people && y in people ==> x == y
    ensures QuietWhenCleared(s, run, k, a, t)
  {
    forall i, b | 0 <= i < |run| && ClearsAt(s, run, i) && b in DecisionAt(s, run, i).removed
      ensures MemberAtNudges(s, run, i, b)
    {
      LoneMemberAtNudges(s, run, i, b, people);
    }
    if ClearsAt(s, run, k) && a in DecisionAt(s, run, k).removed && Active(After(s, run, k), a, t) {
      ClearedOnlyAfterThreeQuietWeeks(s, clock, run, k, a, t);
    }
  }

  /** Apart from ties, the promise of three quiet weeks is kept exactly by a guild of at most one person. */
  lemma {:induction false} PromiseExactlyForOne(people: set<Login>)
    ensures Promise(people, false) <==> forall x, y :: x in people && y in people ==> x == y
  {
    if forall x, y :: x in people && y in people ==> x == y {
      forall s: Issue, clock: Time, run: seq<Timed>, k: nat, a: Login, t: Time |
        Initial(s, clock) && InOrder(clock, run) && Untied(s, run) && k < |run| && GuildWithin(run, people)
        ensures QuietWhenCleared(s, run, k, a, t)
      {
        LoneMemberIsPromised(s, clock, run, k, a, t, people);
      }
    } else {
      var x, y :| x in people && y in people && x != y;
      SecondAssigneeClearedEarly(x, y);
      assert !QuietWhenCleared(SharedIssue(x, y), SharedRun(x, y), 2, y, 20 * DAY);
    }
  }

  /** With ties it is kept by no guild that has a member. */
  lemma {:induction false} PromiseWithTiesExactlyForNobody(people: set<Login>)
    ensures Promise(people, true) <==> people == {}
  {
    if people == {} {
      forall s: Issue, clock: Time, run: seq<Timed>, k: nat, a: Login, t: Time |
        Initial(s, clock) && InOrder(clock, run) && k < |run| && GuildWithin(run, people)
        ensures QuietWhenCleared(s, run, k, a, t)
      {
        if ClearsAt(s, run, k) {
          FirstIsMember(After(s, run, k), run[k].guild);
        }
      }
    } else {
      var x :| x in people;
      SameInstantReplyIgnored(x);
      assert !QuietWhenCleared(LoneIssue(x), TieRun(x), 2, x, 14 * DAY);
    }
  }
}
