/**
 The stale-assignment protocol of the guild board (script/github-guild-board.py).

 One board item is a value of `Issue`; the append-only comment list and assignment timeline are the
 event log from which every sweep recomputes its clocks.  `SweepIssue` is what one sweep does to one
 item, and `After` runs sweeps interleaved with everything people may do to the issue in between.
 */
module GuildBoard {
  import opened Options
  import opened Seqs

  type Login = string
  /** Microseconds since an arbitrary origin. */
  type Time = int

  const DAY: int := 86_400_000_000
  const CHECK_IN_AFTER_DAYS: int := 14
  const AUTO_CLEAR_AFTER_DAYS: int := 7
  const NUDGE_HOLD_LABEL := "guild hold"

  datatype Status = InProgress | BugBashers | ShipFeature | OtherStatus(name: string)

  /** A comment body: the bot's check-in marker naming the nudged assignee, or anything else. */
  datatype Body = Text | CheckIn(assignee: Login)
  datatype Comment = Comment(author: Option<Login>, createdAt: Time, body: Body)
  datatype Assignment = Assignment(login: Login, at: Time)

  datatype Issue = Issue(
    archived: bool,
    isIssue: bool,
    closed: bool,
    status: Option<Status>,
    issueType: Option<string>,
    assignees: seq<Login>,
    labels: seq<string>,
    openPr: bool,
    comments: seq<Comment>,
    assignments: seq<Assignment>)

  function StatusForType(issueType: Option<string>): Option<Status> {
    if issueType == Some("Feature") then Some(ShipFeature)
    else if issueType == Some("Bug") || issueType == Some("Docs") || issueType == Some("Crash") then Some(BugBashers)
    else None
  }

  function Filter(logins: seq<Login>, guild: set<Login>): (kept: seq<Login>)
    ensures forall x :: x in kept <==> x in logins && x in guild
  {
    if logins == [] then []
    else (if logins[0] in guild then [logins[0]] else []) + Filter(logins[1..], guild)
  }

  /** The guild members among the assignees; the board query returns at most ten assignees. */
  function GuildAssignees(issue: Issue, guild: set<Login>): seq<Login> {
    Filter(FirstN(issue.assignees, 10), guild)
  }

  predicate OnHold(issue: Issue) {
    NUDGE_HOLD_LABEL in FirstN(issue.labels, 20)
  }

  /** Whole days elapsed, rounded down, as `timedelta.days` gives them. */
  function DaysSince(now: Time, t: Time): int {
    (now - t) / DAY
  }

  // ----- the clocks a sweep reads off the log -----

  function LatestAssignment(log: seq<Assignment>, a: Login): Option<Time> {
    if log == [] then None
    else
      var last := log[|log| - 1];
      var rest := LatestAssignment(log[..|log| - 1], a);
      if last.login == a && (rest.None? || last.at > rest.value) then Some(last.at) else rest
  }

  function LatestCheckIn(comments: seq<Comment>): Option<Time> {
    if comments == [] then None
    else
      var last := comments[|comments| - 1];
      var rest := LatestCheckIn(comments[..|comments| - 1]);
      if last.body.CheckIn? && (rest.None? || last.createdAt > rest.value) then Some(last.createdAt) else rest
  }

  predicate OwnComment(c: Comment, a: Login) {
    c.body.Text? && c.author == Some(a)
  }

  /** The latest of `base` and the times of `a`'s own comments. */
  function LatestOwnComment(comments: seq<Comment>, a: Login, base: Time): Time {
    if comments == [] then base
    else
      var last := comments[|comments| - 1];
      var rest := LatestOwnComment(comments[..|comments| - 1], a, base);
      if OwnComment(last, a) && last.createdAt > rest then last.createdAt else rest
  }

  /** The assignee's last activity, or `None` where the source raises for want of an assignment event. */
  function LastActivity(issue: Issue, a: Login): Option<Time> {
    match LatestAssignment(issue.assignments, a)
    case None => None
    case Some(t) => Some(LatestOwnComment(issue.comments, a, t))
  }

  // The same clocks, said without reference to the scan.

  /** `a` did something on the issue at `t`: was assigned, or commented. */
  ghost predicate Active(issue: Issue, a: Login, t: Time) {
    Assignment(a, t) in issue.assignments || Comment(Some(a), t, Text) in issue.comments
  }

  lemma {:induction false} LatestAssignmentIsMax(log: seq<Assignment>, a: Login)
    ensures var r := LatestAssignment(log, a);
            && (r.Some? ==> Assignment(a, r.value) in log)
            && (forall t :: Assignment(a, t) in log ==> r.Some? && t <= r.value)
  {
    if log != [] {
      LatestAssignmentIsMax(log[..|log| - 1], a);
      assert log == log[..|log| - 1] + [log[|log| - 1]];
    }
  }

  lemma {:induction false} LatestCheckInIsMax(comments: seq<Comment>)
    ensures var r := LatestCheckIn(comments);
            && (r.Some? ==> exists c :: c in comments && c.body.CheckIn? && c.createdAt == r.value)
            && (forall c :: c in comments && c.body.CheckIn? ==> r.Some? && c.createdAt <= r.value)
  {
    if comments != [] {
      LatestCheckInIsMax(comments[..|comments| - 1]);
      assert comments == comments[..|comments| - 1] + [comments[|comments| - 1]];
    }
  }

  lemma {:induction false} LatestOwnCommentIsMax(comments: seq<Comment>, a: Login, base: Time)
    ensures var r := LatestOwnComment(comments, a, base);
            && base <= r
            && (r == base || exists c :: c in comments && OwnComment(c, a) && c.createdAt == r)
            && (forall c :: c in comments && OwnComment(c, a) ==> c.createdAt <= r)
  {
    if comments != [] {
      LatestOwnCommentIsMax(comments[..|comments| - 1], a, base);
      assert comments == comments[..|comments| - 1] + [comments[|comments| - 1]];
    }
  }

  /** The scan's `last_activity` is the latest moment at which the assignee was active. */
  lemma {:induction false} LastActivityIsLatest(issue: Issue, a: Login)
    ensures var r := LastActivity(issue, a);
            && (r.Some? ==> Active(issue, a, r.value) && forall t :: Active(issue, a, t) ==> t <= r.value)
            && (r.None? ==> forall t :: Assignment(a, t) !in issue.assignments)
  {
    LatestAssignmentIsMax(issue.assignments, a);
    var start := LatestAssignment(issue.assignments, a);
    if start.Some? {
      LatestOwnCommentIsMax(issue.comments, a, start.value);
    }
  }

  // ----- one sweep over one item -----

  datatype Outcome =
    | Untouched
    | Nudged(assignee: Login)
    | Cleared(removed: seq<Login>)
    | Raised

  /** The item is one the sweep looks at: a live In Progress issue with a guild assignee, no hold, no open PR. */
  predicate Swept(issue: Issue, guild: set<Login>) {
    && !issue.archived
    && issue.isIssue
    && issue.status == Some(InProgress)
    && GuildAssignees(issue, guild) != []
    && !OnHold(issue)
    && !issue.openPr
  }

  predicate NudgeOutstanding(checkIn: Option<Time>, lastActivity: Time) {
    checkIn.Some? && checkIn.value >= lastActivity
  }

  function Decide(issue: Issue, guild: set<Login>, now: Time): Outcome {
    if !Swept(issue, guild) then Untouched
    else
      var assignee := GuildAssignees(issue, guild)[0];
      match LastActivity(issue, assignee)
      case None => Raised
      case Some(lastActivity) =>
        var checkIn := LatestCheckIn(issue.comments);
        if !NudgeOutstanding(checkIn, lastActivity) then
          if DaysSince(now, lastActivity) < CHECK_IN_AFTER_DAYS then Untouched else Nudged(assignee)
        else if DaysSince(now, checkIn.value) < AUTO_CLEAR_AFTER_DAYS then Untouched
        else Cleared(GuildAssignees(issue, guild))
  }

  function Without(logins: seq<Login>, removed: seq<Login>): (kept: seq<Login>)
    ensures forall x :: x in kept <==> x in logins && x !in removed
  {
    if logins == [] then []
    else (if logins[0] in removed then [] else [logins[0]]) + Without(logins[1..], removed)
  }

  const BOT: Login := "zed-community-bot[bot]"

  function Apply(issue: Issue, outcome: Outcome, now: Time): Issue {
    match outcome
    case Untouched => issue
    case Raised => issue
    case Nudged(a) => issue.(comments := issue.comments + [Comment(Some(BOT), now, CheckIn(a))])
    case Cleared(removed) =>
      var column := StatusForType(issue.issueType);
      issue.(assignees := Without(issue.assignees, removed),
             status := if column.Some? then column else issue.status)
  }

  function SweepIssue(issue: Issue, guild: set<Login>, now: Time): Issue {
    Apply(issue, Decide(issue, guild, now), now)
  }

  // ----- the webhook handlers -----

  function HandleAssignment(issue: Issue, login: Login, guild: set<Login>): Issue {
    if issue.closed || login !in guild then issue else issue.(status := Some(InProgress))
  }

  function HandleUnassignment(issue: Issue, removed: Login, byBot: bool, guild: set<Login>): Issue {
    if byBot || removed !in guild || issue.status != Some(InProgress) then issue
    else
      var column := StatusForType(issue.issueType);
      if column.Some? then issue.(status := column) else issue
  }

  // ----- runs -----

  /** Everything that may happen to an issue; only `Sweep` writes the check-in marker. */
  datatype Event =
    | Commented(author: Option<Login>)
    | Assigned(login: Login)
    | Unassigned(login: Login, byBot: bool)
    | Labelled(labels: seq<string>)
    | LinkedPrs(open: bool)
    | Moved(status: Option<Status>)
    | Retyped(issueType: Option<string>)
    | Archived(archived: bool)
    | Closed(closed: bool)
    | Sweep

  /** An event, when it happens, and who is in the guild just then: every script run asks anew. */
  datatype Timed = Timed(at: Time, event: Event, guild: set<Login>)

  function Step(s: Issue, e: Timed): Issue {
    match e.event
    case Commented(author) => s.(comments := s.comments + [Comment(author, e.at, Text)])
    case Assigned(a) =>
      HandleAssignment(
        s.(assignees := if a in s.assignees then s.assignees else s.assignees + [a],
           assignments := s.assignments + [Assignment(a, e.at)]),
        a, e.guild)
    case Unassigned(a, byBot) => HandleUnassignment(s.(assignees := Without(s.assignees, [a])), a, byBot, e.guild)
    case Labelled(labels) => s.(labels := labels)
    case LinkedPrs(open) => s.(openPr := open)
    case Moved(status) => s.(status := status)
    case Retyped(issueType) => s.(issueType := issueType)
    case Archived(archived) => s.(archived := archived)
    case Closed(closed) => s.(closed := closed)
    case Sweep => SweepIssue(s, e.guild, e.at)
  }

  /** The issue after the first `k` events of the run. */
  function After(s: Issue, run: seq<Timed>, k: nat): Issue
    requires k <= |run|
  {
    if k == 0 then s else Step(After(s, run, k - 1), run[k - 1])
  }

  /** Events happen in order, from `clock` on; several may share a timestamp. */
  ghost predicate InOrder(clock: Time, run: seq<Timed>) {
    && (forall i :: 0 <= i < |run| ==> clock <= run[i].at)
    && (forall i, j :: 0 <= i < j < |run| ==> run[i].at <= run[j].at)
  }

  function ClockAfter(clock: Time, run: seq<Timed>, k: nat): Time
    requires k <= |run|
  {
    if k == 0 then clock else run[k - 1].at
  }

  /** An issue as it first reaches the board: logged no later than `clock`, never nudged. */
  ghost predicate Initial(s: Issue, clock: Time) {
    && Logged(s, clock)
    && LatestCheckIn(s.comments).None?
  }

  ghost predicate Logged(s: Issue, clock: Time) {
    && (forall c :: c in s.comments ==> c.createdAt <= clock)
    && (forall x :: x in s.assignments ==> x.at <= clock)
    && (forall a :: a in s.assignees ==> LatestAssignment(s.assignments, a).Some?)
  }

  /** What the sweep at `k` would decide. */
  function DecisionAt(s: Issue, run: seq<Timed>, k: nat): Outcome
    requires k < |run|
  {
    Decide(After(s, run, k), run[k].guild, run[k].at)
  }

  // ----- what a step does to the logs -----

  lemma {:induction false} AppendComment(s: Issue, c: Comment, a: Login)
    ensures LatestCheckIn(s.comments + [c])
         == if c.body.CheckIn? && (LatestCheckIn(s.comments).None? || c.createdAt > LatestCheckIn(s.comments).value)
            then Some(c.createdAt) else LatestCheckIn(s.comments)
    ensures var s' := s.(comments := s.comments + [c]);
            LastActivity(s', a) == match LastActivity(s, a)
                                   case None => None
                                   case Some(t) => Some(if OwnComment(c, a) && c.createdAt > t then c.createdAt else t)
  {
    assert (s.comments + [c])[..|s.comments|] == s.comments;
  }

  lemma {:induction false} AppendAssignment(s: Issue, x: Assignment, a: Login)
    ensures LatestAssignment(s.assignments + [x], a)
         == if x.login == a
               && (LatestAssignment(s.assignments, a).None? || x.at > LatestAssignment(s.assignments, a).value)
            then Some(x.at) else LatestAssignment(s.assignments, a)
  {
    assert (s.assignments + [x])[..|s.assignments|] == s.assignments;
  }

  /** All that a step can do to the logs and to the list of assignees. */
  lemma {:induction false} StepShape(s: Issue, e: Timed)
    ensures var s' := Step(s, e);
            match e.event
            case Commented(author) =>
              s'.comments == s.comments + [Comment(author, e.at, Text)]
              && s'.assignments == s.assignments && s'.assignees == s.assignees
            case Assigned(a) =>
              s'.comments == s.comments && s'.assignments == s.assignments + [Assignment(a, e.at)]
              && forall x :: x in s'.assignees <==> x in s.assignees || x == a
            case Sweep =>
              s'.assignments == s.assignments && (forall x :: x in s'.assignees ==> x in s.assignees)
              && (if Decide(s, e.guild, e.at).Nudged?
                  then s'.comments ==
                         s.comments + [Comment(Some(BOT), e.at, CheckIn(Decide(s, e.guild, e.at).assignee))]
                  else s'.comments == s.comments)
            case _ =>
              s'.comments == s.comments && s'.assignments == s.assignments
              && forall x :: x in s'.assignees ==> x in s.assignees
  {
  }

  lemma {:induction false} GrowingKeepsLog(s: Issue, s': Issue, clock: Time, at: Time)
    requires Logged(s, clock) && clock <= at
    requires s'.comments == s.comments || exists c: Comment :: c.createdAt == at && s'.comments == s.comments + [c]
    requires || (s'.assignments == s.assignments && forall x :: x in s'.assignees ==> x in s.assignees)
             || (exists a :: s'.assignments == s.assignments + [Assignment(a, at)]
                             && forall x :: x in s'.assignees <==> x in s.assignees || x == a)
    ensures Logged(s', at)
  {
    if s'.assignments != s.assignments {
      var a :| s'.assignments == s.assignments + [Assignment(a, at)]
               && forall x :: x in s'.assignees <==> x in s.assignees || x == a;
      forall x | x in s'.assignees ensures LatestAssignment(s'.assignments, x).Some? {
        AppendAssignment(s, Assignment(a, at), x);
      }
    }
  }

  lemma {:induction false} StepKeepsLog(s: Issue, clock: Time, e: Timed)
    requires Logged(s, clock) && clock <= e.at
    ensures Logged(Step(s, e), e.at)
  {
    StepShape(s, e);
    GrowingKeepsLog(s, Step(s, e), clock, e.at);
  }

  /** Activity is never forgotten: the logs only grow. */
  lemma {:induction false} GrowingKeepsActivity(s: Issue, s': Issue, a: Login, t: Time)
    requires s.comments <= s'.comments && s.assignments <= s'.assignments
    requires Active(s, a, t)
    ensures Active(s', a, t)
  {
    if Assignment(a, t) in s.assignments {
      assert Assignment(a, t) in s'.assignments;
    } else {
      var c :| c in s.comments && OwnComment(c, a) && c.createdAt == t;
      assert c in s'.comments;
    }
  }

  lemma {:induction false} AssignmentResetsClock(s: Issue, s': Issue, clock: Time, x: Assignment, a: Login)
    requires Logged(s, clock) && clock <= x.at
    requires s'.comments == s.comments && s'.assignments == s.assignments + [x]
    ensures LastActivity(s', a) == if x.login == a then Some(x.at) else LastActivity(s, a)
  {
    AppendAssignment(s, x, a);
    LastActivityIsLatest(s', a);
    LatestAssignmentIsMax(s'.assignments, a);
    LatestOwnCommentIsMax(s'.comments, a, x.at);
  }

  lemma {:induction false} FirstIsMember(s: Issue, guild: set<Login>)
    requires GuildAssignees(s, guild) != []
    ensures GuildAssignees(s, guild)[0] in s.assignees && GuildAssignees(s, guild)[0] in guild
  {
    assert GuildAssignees(s, guild)[0] in GuildAssignees(s, guild);
  }

  lemma {:induction false} RunKeepsLog(s: Issue, clock: Time, run: seq<Timed>, k: nat)
    requires Logged(s, clock) && InOrder(clock, run) && k <= |run|
    ensures Logged(After(s, run, k), ClockAfter(clock, run, k))
  {
    if k > 0 {
      RunKeepsLog(s, clock, run, k - 1);
      StepKeepsLog(After(s, run, k - 1), ClockAfter(clock, run, k - 1), run[k - 1]);
    }
  }

  /** No sweep of any run ever raises for a missing assignment event. */
  lemma {:induction false} SweepNeverRaises(s: Issue, clock: Time, run: seq<Timed>, k: nat)
    requires Logged(s, clock) && InOrder(clock, run) && k < |run|
    ensures !DecisionAt(s, run, k).Raised?
  {
    RunKeepsLog(s, clock, run, k);
    LoggedNeverRaises(After(s, run, k), run[k].guild, ClockAfter(clock, run, k), run[k].at);
  }

  lemma {:induction false} LoggedNeverRaises(s: Issue, guild: set<Login>, clock: Time, now: Time)
    requires Logged(s, clock)
    ensures !Decide(s, guild, now).Raised?
  {
    if Swept(s, guild) {
      FirstIsMember(s, guild);
    }
  }
}
