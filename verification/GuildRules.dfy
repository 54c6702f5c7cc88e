/**
 The guild board's rules (script/github-guild-board.py:436-677), said of the issue's own fields: what exactly
 a sweep does to an issue, what pauses it, and where handlers move an issue.
 */
module GuildRules {
  import opened Options
  import opened Seqs
  import opened GuildBoard

  // ----- what keeps a sweep away -----

  /** Not a live issue in progress, or one with a hold, an open pull request or nobody of the guild assigned. */
  ghost predicate HandsOff(s: Issue, guild: set<Login>) {
    || s.archived || !s.isIssue || s.openPr || s.status != Some(InProgress)
    || (exists i :: 0 <= i < |s.labels| && i < 20 && s.labels[i] == "guild hold")
    || (forall i :: 0 <= i < |s.assignees| && i < 10 ==> s.assignees[i] !in guild)
  }

  /** `s.assignees[i]` is the first guild member of the ten assignees that are listed. */
  ghost predicate WatchedAt(s: Issue, guild: set<Login>, i: nat) {
    && i < |s.assignees| && i < 10 && s.assignees[i] in guild
    && forall j :: 0 <= j < i ==> s.assignees[j] !in guild
  }

  lemma {:induction false} FilterFirst(logins: seq<Login>, guild: set<Login>, i: nat)
    requires i < |logins| && logins[i] in guild && forall j :: 0 <= j < i ==> logins[j] !in guild
    ensures Filter(logins, guild) != [] && Filter(logins, guild)[0] == logins[i]
  {
    if i > 0 {
      FilterFirst(logins[1..], guild, i - 1);
    }
  }

  lemma {:induction false} WatchedIsFirst(s: Issue, guild: set<Login>, i: nat)
    requires WatchedAt(s, guild, i)
    ensures GuildAssignees(s, guild) != [] && GuildAssignees(s, guild)[0] == s.assignees[i]
  {
    var listed := FirstN(s.assignees, 10);
    assert listed[i] == s.assignees[i] && forall j :: 0 <= j < i ==> listed[j] == s.assignees[j];
    FilterFirst(listed, guild, i);
  }

  lemma {:induction false} SweptExactlyWhen(s: Issue, guild: set<Login>)
    ensures Swept(s, guild) <==> !HandsOff(s, guild)
  {
    var listed, labels := FirstN(s.assignees, 10), FirstN(s.labels, 20);
    assert forall i :: 0 <= i < |listed| ==> listed[i] == s.assignees[i];
    if GuildAssignees(s, guild) != [] {
      assert GuildAssignees(s, guild)[0] in GuildAssignees(s, guild);
    }
    assert forall i :: 0 <= i < |listed| && listed[i] in guild ==> listed[i] in GuildAssignees(s, guild);
    assert forall i :: 0 <= i < |labels| ==> labels[i] == s.labels[i];
  }

  /** A sweep leaves such an issue exactly as it is. */
  lemma {:induction false} SweepKeepsHandsOff(s: Issue, e: Timed)
    requires e.event.Sweep? && HandsOff(s, e.guild)
    ensures Step(s, e) == s
  {
    SweptExactlyWhen(s, e.guild);
  }

  // ----- what a sweep does otherwise -----

  /** The latest moment at which `a` was assigned or wrote a comment that is not a check-in. */
  ghost predicate LastActiveAt(s: Issue, a: Login, t: Time) {
    Active(s, a, t) && forall u :: Active(s, a, u) ==> u <= t
  }

  /** Some check-in is no earlier than `t`. */
  ghost predicate CheckedInSince(s: Issue, t: Time) {
    exists c :: c in s.comments && c.body.CheckIn? && t <= c.createdAt
  }

  /** All check-ins are at least a week old. */
  ghost predicate CheckInsWeekOld(s: Issue, now: Time) {
    forall c :: c in s.comments && c.body.CheckIn? ==> c.createdAt + 7 * 86_400_000_000 <= now
  }

  /** The comment that nudges `a`. */
  function CheckInFor(a: Login, now: Time): Comment {
    Comment(Some("zed-community-bot[bot]"), now, CheckIn(a))
  }

  /** `s'` is `s` without the guild members listed among its assignees, in the column its type calls for. */
  ghost predicate ClearedTo(s: Issue, guild: set<Login>, s': Issue) {
    && s' == s.(assignees := s'.assignees, status := s'.status)
    && (forall x :: x in s'.assignees <==>
          x in s.assignees && !(x in guild && x in s.assignees[..Min(10, |s.assignees|)]))
    && s'.status ==
         if s.issueType == Some("Feature") then Some(ShipFeature)
         else if s.issueType in {Some("Bug"), Some("Docs"), Some("Crash")} then Some(BugBashers)
         else s.status
  }

  lemma {:induction false} ClocksOf(s: Issue, a: Login, t: Time)
    requires LastActiveAt(s, a, t) && LatestAssignment(s.assignments, a).Some?
    ensures LastActivity(s, a) == Some(t)
    ensures NudgeOutstanding(LatestCheckIn(s.comments), t) <==> CheckedInSince(s, t)
    ensures LatestCheckIn(s.comments).Some? ==>
              forall now :: LatestCheckIn(s.comments).value + 7 * 86_400_000_000 <= now <==> CheckInsWeekOld(s, now)
  {
    LastActivityIsLatest(s, a);
    LatestCheckInIsMax(s.comments);
  }

  lemma {:induction false} WholeDays(now: Time, t: Time)
    ensures DaysSince(now, t) < 14 <==> now < t + 14 * 86_400_000_000
    ensures DaysSince(now, t) < 7 <==> now < t + 7 * 86_400_000_000
  {
  }

  /**
   The sweep, exactly: if no check-in is outstanding, the watched assignee is nudged once inactive for two
   weeks; if one is, all listed guild members are unassigned once it is a week old; else nothing happens.
   */
  lemma {:induction false} SweepActsExactlyWhen(s: Issue, e: Timed, i: nat, t: Time)
    requires e.event.Sweep? && !HandsOff(s, e.guild) && WatchedAt(s, e.guild, i)
    requires LastActiveAt(s, s.assignees[i], t) && exists u :: Assignment(s.assignees[i], u) in s.assignments
    ensures var s' := Step(s, e);
            if !CheckedInSince(s, t) then
              if e.at < t + 14 * 86_400_000_000 then s' == s
              else s' == s.(comments := s.comments + [CheckInFor(s.assignees[i], e.at)])
            else if CheckInsWeekOld(s, e.at) then ClearedTo(s, e.guild, s')
            else s' == s
  {
    var a := s.assignees[i];
    SweptExactlyWhen(s, e.guild);
    WatchedIsFirst(s, e.guild, i);
    LatestAssignmentIsMax(s.assignments, a);
    ClocksOf(s, a, t);
    WholeDays(e.at, t);
    if CheckedInSince(s, t) {
      WholeDays(e.at, LatestCheckIn(s.comments).value);
    }
  }

  lemma {:induction false} RaisesForWatched(s: Issue, guild: set<Login>, now: Time, i: nat)
    requires WatchedAt(s, guild, i)
    ensures Decide(s, guild, now).Raised? <==>
              !HandsOff(s, guild) && forall u :: Assignment(s.assignees[i], u) !in s.assignments
  {
    SweptExactlyWhen(s, guild);
    WatchedIsFirst(s, guild, i);
    LatestAssignmentIsMax(s.assignments, s.assignees[i]);
  }

  /** The sweep fails on an issue exactly if the watched assignee has no assignment on the timeline. */
  lemma {:induction false} SweepRaisesExactlyWhen(s: Issue, guild: set<Login>, now: Time)
    ensures Decide(s, guild, now).Raised? <==>
              !HandsOff(s, guild)
              && exists i: nat :: WatchedAt(s, guild, i) && forall u :: Assignment(s.assignees[i], u) !in s.assignments
  {
    SweptExactlyWhen(s, guild);
    if !HandsOff(s, guild) {
      var i := FirstMember(s.assignees, guild);
      RaisesForWatched(s, guild, now, i);
      assert forall k: nat :: WatchedAt(s, guild, k) ==> k == i;
    }
  }

  lemma {:induction false} FirstMember(logins: seq<Login>, guild: set<Login>) returns (i: nat)
    requires exists k :: 0 <= k < |logins| && k < 10 && logins[k] in guild
    ensures i < |logins| && i < 10 && logins[i] in guild && forall j :: 0 <= j < i ==> logins[j] !in guild
  {
    i := 0;
    while logins[i] !in guild
      invariant i < |logins| && i < 10
      invariant forall j :: 0 <= j < i ==> logins[j] !in guild
      decreases |logins| - i
    {
      i := i + 1;
    }
  }

  // ----- over whole runs -----

  function WithoutSweeps(run: seq<Timed>): seq<Timed> {
    if run == [] then []
    else WithoutSweeps(run[..|run| - 1]) + (if run[|run| - 1].event.Sweep? then [] else [run[|run| - 1]])
  }

  lemma {:induction false} AfterPrefix(s: Issue, a: seq<Timed>, b: seq<Timed>, k: nat)
    requires k <= |a| && k <= |b| && a[..k] == b[..k]
    ensures After(s, a, k) == After(s, b, k)
  {
    if k > 0 {
      assert a[..k][..k - 1] == a[..k - 1] && b[..k][..k - 1] == b[..k - 1];
      assert a[..k][k - 1] == a[k - 1] && b[..k][k - 1] == b[k - 1];
      AfterPrefix(s, a, b, k - 1);
    }
  }

  lemma {:induction false} AfterOneMore(s: Issue, run: seq<Timed>, e: Timed)
    ensures After(s, run + [e], |run| + 1) == Step(After(s, run, |run|), e)
  {
    AfterPrefix(s, run + [e], run, |run|);
  }

  /** If something keeps every sweep of the run away, the issue ends up as if there had been no sweeps. */
  lemma {:induction false} SweepsKeptAway(s: Issue, run: seq<Timed>)
    requires forall k :: 0 <= k < |run| && run[k].event.Sweep? ==> HandsOff(After(s, run, k), run[k].guild)
    ensures After(s, run, |run|) == After(s, WithoutSweeps(run), |WithoutSweeps(run)|)
  {
    if run != [] {
      var init, last := run[..|run| - 1], run[|run| - 1];
      assert run == init + [last];
      forall k | 0 <= k <= |init| ensures After(s, init, k) == After(s, run, k) {
        AfterPrefix(s, init, run, k);
      }
      SweepsKeptAway(s, init);
      if last.event.Sweep? {
        SweepKeepsHandsOff(After(s, run, |init|), last);
        assert WithoutSweeps(run) == WithoutSweeps(init);
      } else {
        AfterOneMore(s, WithoutSweeps(init), last);
      }
    }
  }

  /** Putting an issue on hold, linking an open pull request, archiving it, or moving it out of progress. */
  ghost predicate Pauses(e: Event) {
    match e
    case Labelled(labels) => exists i :: 0 <= i < |labels| && i < 20 && labels[i] == "guild hold"
    case LinkedPrs(open) => open
    case Archived(archived) => archived
    case Moved(status) => status != Some(InProgress)
    case _ => false
  }

  /** The event that sets back what `e` has set on `s`. */
  function Undo(s: Issue, e: Event): Event {
    match e
    case Labelled(_) => Labelled(s.labels)
    case LinkedPrs(_) => LinkedPrs(s.openPr)
    case Archived(_) => Archived(s.archived)
    case Moved(_) => Moved(s.status)
    case _ => e
  }

  lemma {:induction false} SweepsWhilePaused(s: Issue, e: Event, at: Time, guild: set<Login>, sweeps: seq<Timed>)
    requires Pauses(e) && forall k :: 0 <= k < |sweeps| ==> sweeps[k].event.Sweep?
    ensures var paused := Step(s, Timed(at, e, guild));
            After(paused, sweeps, |sweeps|) == paused && Step(paused, Timed(at, Undo(s, e), guild)) == s
  {
    if sweeps != [] {
      var init, last := sweeps[..|sweeps| - 1], sweeps[|sweeps| - 1];
      SweepsWhilePaused(s, e, at, guild, init);
      assert sweeps == init + [last];
      AfterOneMore(Step(s, Timed(at, e, guild)), init, last);
      SweepKeepsHandsOff(Step(s, Timed(at, e, guild)), last);
    }
  }

  /** A pause is invisible: any number of sweeps between it and its undoing leave the issue as it was. */
  lemma {:induction false} PauseIsInvisible(s: Issue, pause: Timed, sweeps: seq<Timed>, resume: Timed)
    requires Pauses(pause.event) && resume.event == Undo(s, pause.event)
    requires forall k :: 0 <= k < |sweeps| ==> sweeps[k].event.Sweep?
    ensures Step(After(Step(s, pause), sweeps, |sweeps|), resume) == s
  {
    SweepsWhilePaused(s, pause.event, pause.at, pause.guild, sweeps);
  }

  // ----- the handlers -----

  /** The issue is in the column its type calls for. */
  predicate InItsColumn(s: Issue) {
    || (s.issueType == Some("Feature") && s.status == Some(ShipFeature))
    || (s.issueType in {Some("Bug"), Some("Docs"), Some("Crash")} && s.status == Some(BugBashers))
  }

  lemma {:induction false} WithoutLast(logins: seq<Login>, a: Login)
    requires a !in logins
    ensures Without(logins + [a], [a]) == logins
  {
    if logins != [] {
      assert (logins + [a])[1..] == logins[1..] + [a];
      WithoutLast(logins[1..], a);
    }
  }

  /**
   Taking an open issue moves it to In Progress and giving it back moves it home, leaving no trace but the
   entry on the timeline; if a bot takes it back, it stays In Progress.
   */
  lemma {:induction false} TakenAndGivenBack(s: Issue, a: Login, take: Timed, give: Timed)
    requires !s.closed && InItsColumn(s) && a !in s.assignees
    requires take.event == Assigned(a) && a in take.guild && a in give.guild
    requires give.event.Unassigned? && give.event.login == a
    ensures Step(s, take).status == Some(InProgress)
    ensures Step(Step(s, take), give) ==
              s.(assignments := s.assignments + [Assignment(a, take.at)],
                 status := if give.event.byBot then Some(InProgress) else s.status)
  {
    WithoutLast(s.assignees, a);
  }

  /** Handlers move nothing for people outside the guild, on closed issues, or from another column or type. */
  lemma {:induction false} HandlersMoveNothingElse(s: Issue, e: Timed)
    requires match e.event
             case Assigned(a) => a !in e.guild || s.closed
             case Unassigned(a, byBot) =>
               || byBot || a !in e.guild || s.status != Some(InProgress)
               || s.issueType !in {Some("Feature"), Some("Bug"), Some("Docs"), Some("Crash")}
             case _ => false
    ensures Step(s, e) == s.(assignees := Step(s, e).assignees, assignments := Step(s, e).assignments)
  {
  }

  /** Handlers go by the issue as it is: one just closed does not move, and one just retyped moves by its new type. */
  lemma {:induction false} HandlersSeeTheIssue(s: Issue, a: Login, at: Time, guild: set<Login>,
          issueType: Option<string>)
    requires a in guild && s.status == Some(InProgress)
    ensures Step(Step(s.(status := None), Timed(at, Closed(true), guild)), Timed(at, Assigned(a), guild)).status == None
    ensures Step(Step(s.(status := None), Timed(at, Closed(false), guild)), Timed(at, Assigned(a), guild)).status
         == Some(InProgress)
    ensures Step(Step(s, Timed(at, Retyped(issueType), guild)), Timed(at, Unassigned(a, false), guild)).status
         == if issueType == Some("Feature") then Some(ShipFeature)
            else if issueType in {Some("Bug"), Some("Docs"), Some("Crash")} then Some(BugBashers)
            else Some(InProgress)
  {
  }
}
