/**
 Deriving an issue's triage status and its aging anchor (script/triage_project_sync.py).  The two are
 computed by separate scans over the comments; the lemmas show that they agree.
 */
module TriageDerivation {
  import opened Options
  import Text

  type Login = string
  /** Microseconds since an arbitrary origin. */
  type Time = int

  const DAY: int := 86_400_000_000
  const SUBSTANTIVE_COMMENT_MIN_LEN: nat := 50

  datatype Status =
    | NeedsLabels | NeedsReproAttempt | NeedsAsk | UserReplied | AwaitingUser | RespondedNoRepro
    | Reproducible | Handoff | HandoffIncomplete | ClaimedCommunity | Closed | Unknown

  datatype Rule = R0 | R1 | R2a | R2b | R2c | R3 | R4a | R4b | R4c | R5a | R5b | R6

  datatype User = User(login: Login, botType: bool)
  /** A missing or empty timestamp is `None`. */
  datatype Comment = Comment(user: User, createdAt: Option<Time>, body: string)

  datatype IssueData = IssueData(
    closedAt: Option<Time>,
    createdAt: Time,
    reporter: Login,
    assignees: seq<Login>,
    labels: seq<string>,
    comments: seq<Comment>)

  predicate EndsWith(s: string, suffix: string) {
    |suffix| <= |s| && s[|s| - |suffix|..] == suffix
  }

  predicate IsBot(u: User) {
    u.botType || EndsWith(u.login, "[bot]")
  }

  const MEDIA: seq<string> :=
    ["user-attachments/assets", ".png", ".jpg", ".jpeg", ".gif", ".mp4", ".webm", ".mov"]

  predicate Substantive(c: Comment, staff: set<Login>) {
    && c.user.login in staff && !IsBot(c.user)
    && (|c.body| >= SUBSTANTIVE_COMMENT_MIN_LEN || exists m :: m in MEDIA && Text.Contains(c.body, m))
  }

  predicate NonStaff(c: Comment, staff: set<Login>) {
    c.user.login !in staff && !IsBot(c.user)
  }

  // ----- the scans -----

  /** The position of the last comment satisfying `p`. */
  function LastIndex(comments: seq<Comment>, p: Comment -> bool): (r: Option<nat>)
    ensures r.Some? ==>
              && r.value < |comments| && p(comments[r.value])
              && forall j :: r.value < j < |comments| ==> !p(comments[j])
    ensures r.None? ==> forall j :: 0 <= j < |comments| ==> !p(comments[j])
  {
    if comments == [] then None
    else if p(comments[|comments| - 1]) then Some(|comments| - 1)
    else LastIndex(comments[..|comments| - 1], p)
  }

  function LastSubstantive(comments: seq<Comment>, staff: set<Login>): (r: Option<nat>)
    ensures r.Some? ==> r.value < |comments|
  {
    LastIndex(comments, (c: Comment) => Substantive(c, staff))
  }

  function LastNonStaff(comments: seq<Comment>, staff: set<Login>): (r: Option<nat>)
    ensures r.Some? ==> r.value < |comments|
  {
    LastIndex(comments, (c: Comment) => NonStaff(c, staff))
  }

  function LatestReporterActivity(issue: IssueData, n: nat): (t: Time)
    requires n <= |issue.comments|
    ensures issue.createdAt <= t
  {
    if n == 0 then issue.createdAt
    else
      var t := LatestReporterActivity(issue, n - 1);
      var c := issue.comments[n - 1];
      if c.user.login == issue.reporter && c.createdAt.Some? && c.createdAt.value > t then c.createdAt.value else t
  }

  function ReporterCutoff(issue: IssueData): Time {
    LatestReporterActivity(issue, |issue.comments|)
  }

  /** Some substantive staff comment came after the reporter last spoke. */
  predicate AnsweredReporter(issue: IssueData, staff: set<Login>) {
    exists i :: 0 <= i < |issue.comments|
      && issue.comments[i].createdAt.Some? && issue.comments[i].createdAt.value > ReporterCutoff(issue)
      && Substantive(issue.comments[i], staff)
  }

  /** The last comment is a non-staff reply, timed after the last substantive staff comment. */
  predicate LastWordIsUsers(issue: IssueData, staff: set<Login>) {
    var ask := LastSubstantive(issue.comments, staff);
    && ask.Some?
    && var last, st := issue.comments[|issue.comments| - 1], issue.comments[ask.value].createdAt;
       NonStaff(last, staff) && last.createdAt.Some? && st.Some? && last.createdAt.value > st.value
  }

  function DeriveStatus(issue: IssueData, staff: set<Login>): (Status, Rule) {
    if issue.closedAt.Some? then (Closed, R1)
    else if "state:claimed by community" in issue.labels then (ClaimedCommunity, R0)
    else if "state:reproducible" in issue.labels then
      if issue.assignees != [] then (Reproducible, R2a)
      else if LastSubstantive(issue.comments, staff).Some? then (Handoff, R2b)
      else (HandoffIncomplete, R2c)
    else if "state:needs info" in issue.labels then
      if LastSubstantive(issue.comments, staff).None? then (NeedsAsk, R4c)
      else if LastWordIsUsers(issue, staff) then (UserReplied, R4b)
      else (AwaitingUser, R4a)
    else if "state:needs repro" in issue.labels then
      if AnsweredReporter(issue, staff) then (RespondedNoRepro, R5b) else (NeedsReproAttempt, R5a)
    else if "state:needs triage" in issue.labels then (NeedsLabels, R3)
    else (Unknown, R6)
  }

  predicate TerminalOrResting(s: Status) {
    s in {Reproducible, Handoff, Closed, RespondedNoRepro, ClaimedCommunity}
  }

  function DeriveStaleSince(issue: IssueData, status: Status, staff: set<Login>): Option<Time> {
    if TerminalOrResting(status) || status.Unknown? then None
    else match status
      case NeedsReproAttempt => Some(ReporterCutoff(issue))
      case AwaitingUser =>
        (match LastSubstantive(issue.comments, staff)
         case Some(i) => issue.comments[i].createdAt
         case None => Some(issue.createdAt))
      case UserReplied =>
        (match LastNonStaff(issue.comments, staff)
         case Some(i) => issue.comments[i].createdAt
         case None => None)
      case _ => Some(issue.createdAt)
  }

  function ThresholdDays(status: Status): Option<int> {
    match status
    case NeedsLabels => Some(7)
    case NeedsReproAttempt => Some(7)
    case AwaitingUser => Some(14)
    case UserReplied => Some(3)
    case _ => None
  }

  function DeriveAged(status: Status, staleSince: Option<Time>, now: Time): bool {
    if status.HandoffIncomplete? || status.NeedsAsk? then true
    else if TerminalOrResting(status) || status.Unknown? then false
    else if staleSince.None? || ThresholdDays(status).None? then false
    else now - staleSince.value > ThresholdDays(status).value * DAY
  }

  // ----- the scans as the script runs them -----

  method FindSubstantive(comments: seq<Comment>, staff: set<Login>) returns (found: Option<nat>)
    ensures found == LastSubstantive(comments, staff)
  {
    found := None;
    for i := 0 to |comments|
      invariant found == LastSubstantive(comments[..i], staff)
    {
      assert comments[..i + 1][..i] == comments[..i];
      if Substantive(comments[i], staff) {
        found := Some(i);
      }
    }
    assert comments[..|comments|] == comments;
  }

  method FindReporterCutoff(issue: IssueData) returns (cutoff: Time)
    ensures cutoff == ReporterCutoff(issue)
  {
    cutoff := issue.createdAt;
    for i := 0 to |issue.comments|
      invariant cutoff == LatestReporterActivity(issue, i)
    {
      var c := issue.comments[i];
      if c.user.login == issue.reporter && c.createdAt.Some? && c.createdAt.value > cutoff {
        cutoff := c.createdAt.value;
      }
    }
  }

  /** The cascade for a needs-repro issue: a scan from the last comment back. */
  method FindAnswer(issue: IssueData, staff: set<Login>) returns (answered: bool)
    ensures answered == AnsweredReporter(issue, staff)
  {
    var cutoff := FindReporterCutoff(issue);
    for i := |issue.comments| downto 0
      invariant forall j :: i <= j < |issue.comments| ==>
                  !(issue.comments[j].createdAt.Some? && issue.comments[j].createdAt.value > cutoff
                    && Substantive(issue.comments[j], staff))
    {
      var c := issue.comments[i];
      if c.createdAt.Some? && c.createdAt.value > cutoff && Substantive(c, staff) {
        return true;
      }
    }
    return false;
  }

  method DeriveStatusByScan(issue: IssueData, staff: set<Login>) returns (status: Status, rule: Rule)
    ensures (status, rule) == DeriveStatus(issue, staff)
  {
    if issue.closedAt.Some? {
      return Closed, R1;
    }
    if "state:claimed by community" in issue.labels {
      return ClaimedCommunity, R0;
    }
    if "state:reproducible" in issue.labels {
      if issue.assignees != [] {
        return Reproducible, R2a;
      }
      var substantive := FindSubstantive(issue.comments, staff);
      if substantive.Some? {
        return Handoff, R2b;
      }
      return HandoffIncomplete, R2c;
    }
    if "state:needs info" in issue.labels {
      var ask := FindSubstantive(issue.comments, staff);
      if ask.None? {
        return NeedsAsk, R4c;
      }
      var last := issue.comments[|issue.comments| - 1];
      if NonStaff(last, staff) {
        var ct, st := last.createdAt, issue.comments[ask.value].createdAt;
        if ct.Some? && st.Some? && ct.value > st.value {
          return UserReplied, R4b;
        }
      }
      return AwaitingUser, R4a;
    }
    if "state:needs repro" in issue.labels {
      var answered := FindAnswer(issue, staff);
      if answered {
        return RespondedNoRepro, R5b;
      }
      return NeedsReproAttempt, R5a;
    }
    if "state:needs triage" in issue.labels {
      return NeedsLabels, R3;
    }
    return Unknown, R6;
  }

  method FindNonStaff(comments: seq<Comment>, staff: set<Login>) returns (found: Option<nat>)
    ensures found == LastNonStaff(comments, staff)
  {
    found := None;
    for i := 0 to |comments|
      invariant found == LastNonStaff(comments[..i], staff)
    {
      assert comments[..i + 1][..i] == comments[..i];
      if NonStaff(comments[i], staff) {
        found := Some(i);
      }
    }
    assert comments[..|comments|] == comments;
  }

  method DeriveStaleSinceByScan(issue: IssueData, status: Status, staff: set<Login>) returns (since: Option<Time>)
    ensures since == DeriveStaleSince(issue, status, staff)
  {
    if TerminalOrResting(status) || status.Unknown? {
      return None;
    }
    match status {
      case NeedsReproAttempt =>
        var cutoff := FindReporterCutoff(issue);
        since := Some(cutoff);
      case AwaitingUser =>
        var ask := FindSubstantive(issue.comments, staff);
        since := if ask.Some? then issue.comments[ask.value].createdAt else Some(issue.createdAt);
      case UserReplied =>
        var reply := FindNonStaff(issue.comments, staff);
        since := if reply.Some? then issue.comments[reply.value].createdAt else None;
      case _ =>
        since := Some(issue.createdAt);
    }
  }

  // ----- what each status says about the issue -----

  /** Not a bot by account type or by name. */
  predicate Human(u: User) {
    !u.botType && !(|u.login| >= 5 && u.login[|u.login| - 5..] == "[bot]")
  }

  /** `m` stands somewhere in `s`. */
  ghost predicate Mentions(s: string, m: string) {
    exists i :: 0 <= i <= |s| && m <= s[i..]
  }

  /** A human of the staff wrote at least fifty characters, or attached a picture or a recording. */
  ghost predicate StaffSpoke(c: Comment, staff: set<Login>) {
    && c.user.login in staff && Human(c.user)
    && (|| |c.body| >= 50
        || Mentions(c.body, "user-attachments/assets") || Mentions(c.body, ".png") || Mentions(c.body, ".jpg")
        || Mentions(c.body, ".jpeg") || Mentions(c.body, ".gif") || Mentions(c.body, ".mp4")
        || Mentions(c.body, ".webm") || Mentions(c.body, ".mov"))
  }

  ghost predicate UserSpoke(c: Comment, staff: set<Login>) {
    c.user.login !in staff && Human(c.user)
  }

  lemma {:induction false} ContainsExactlyWhen(s: string, m: string)
    ensures Text.Contains(s, m) <==> Mentions(s, m)
  {
    Text.FindIsFirst(s, m);
  }

  lemma {:induction false} SubstantiveExactlyWhen(c: Comment, staff: set<Login>)
    ensures Substantive(c, staff) <==> StaffSpoke(c, staff)
    ensures NonStaff(c, staff) <==> UserSpoke(c, staff)
  {
    forall m ensures Text.Contains(c.body, m) <==> Mentions(c.body, m) {
      ContainsExactlyWhen(c.body, m);
    }
    assert MEDIA[0] == "user-attachments/assets" && MEDIA[1] == ".png" && MEDIA[2] == ".jpg" && MEDIA[3] == ".jpeg";
    assert MEDIA[4] == ".gif" && MEDIA[5] == ".mp4" && MEDIA[6] == ".webm" && MEDIA[7] == ".mov";
  }

  /** Some comment is a substantive one by staff. */
  ghost predicate StaffHasSpoken(issue: IssueData, staff: set<Login>) {
    exists c :: c in issue.comments && StaffSpoke(c, staff)
  }

  /** The last comment is a user's, and timed after the last substantive staff comment. */
  ghost predicate UserAnswered(issue: IssueData, staff: set<Login>) {
    exists i: nat ::
      && i < |issue.comments| && StaffSpoke(issue.comments[i], staff)
      && (forall j :: i < j < |issue.comments| ==> !StaffSpoke(issue.comments[j], staff))
      && var last := issue.comments[|issue.comments| - 1];
         && UserSpoke(last, staff) && last.createdAt.Some? && issue.comments[i].createdAt.Some?
         && issue.comments[i].createdAt.value < last.createdAt.value
  }

  /** Some substantive staff comment is later than the creation and than every comment of the reporter. */
  ghost predicate ReporterAnswered(issue: IssueData, staff: set<Login>) {
    exists c :: c in issue.comments && StaffSpoke(c, staff) && c.createdAt.Some? && issue.createdAt < c.createdAt.value
      && forall d :: d in issue.comments && d.user.login == issue.reporter && d.createdAt.Some? ==>
           d.createdAt.value < c.createdAt.value
  }

  lemma {:induction false} SpokenExactlyWhen(issue: IssueData, staff: set<Login>)
    ensures LastSubstantive(issue.comments, staff).Some? <==> StaffHasSpoken(issue, staff)
    ensures LastWordIsUsers(issue, staff) <==> UserAnswered(issue, staff)
    ensures AnsweredReporter(issue, staff) <==> ReporterAnswered(issue, staff)
  {
    forall c ensures Substantive(c, staff) <==> StaffSpoke(c, staff)
             ensures NonStaff(c, staff) <==> UserSpoke(c, staff)
    {
      SubstantiveExactlyWhen(c, staff);
    }
    AnsweredExactlyWhen(issue, staff);
  }

  lemma {:induction false} AnsweredExactlyWhen(issue: IssueData, staff: set<Login>)
    requires forall c :: Substantive(c, staff) <==> StaffSpoke(c, staff)
    ensures AnsweredReporter(issue, staff) <==> ReporterAnswered(issue, staff)
  {
    ReporterActivityIsMax(issue, |issue.comments|);
    assert forall d :: d in issue.comments && d.user.login == issue.reporter && d.createdAt.Some? ==>
      d.createdAt.value <= ReporterCutoff(issue);
  }

  /** Each status and its rule, exactly, from the issue's own labels, assignees and comments. */
  lemma {:induction false} StatusExactlyWhen(issue: IssueData, staff: set<Login>)
    ensures var status := DeriveStatus(issue, staff);
            var open := issue.closedAt.None?;
            var claimed := "state:claimed by community" in issue.labels;
            var reproducible := "state:reproducible" in issue.labels;
            var info, repro := "state:needs info" in issue.labels, "state:needs repro" in issue.labels;
            var triage, taken := "state:needs triage" in issue.labels, issue.assignees != [];
            var asked, replied := StaffHasSpoken(issue, staff), UserAnswered(issue, staff);
            var answered := ReporterAnswered(issue, staff);
            && (status == (Closed, R1) <==> !open)
            && (status == (ClaimedCommunity, R0) <==> open && claimed)
            && (status == (Reproducible, R2a) <==> open && !claimed && reproducible && taken)
            && (status == (Handoff, R2b) <==> open && !claimed && reproducible && !taken && asked)
            && (status == (HandoffIncomplete, R2c) <==> open && !claimed && reproducible && !taken && !asked)
            && var open' := open && !claimed && !reproducible;
            && (status == (NeedsAsk, R4c) <==> open' && info && !asked)
            && (status == (UserReplied, R4b) <==> open' && info && replied)
            && (status == (AwaitingUser, R4a) <==> open' && info && asked && !replied)
            && (status == (RespondedNoRepro, R5b) <==> open' && !info && repro && answered)
            && (status == (NeedsReproAttempt, R5a) <==> open' && !info && repro && !answered)
            && (status == (NeedsLabels, R3) <==> open' && !info && !repro && triage)
            && (status == (Unknown, R6) <==> open' && !info && !repro && !triage)
  {
    SpokenExactlyWhen(issue, staff);
  }

  // ----- status and anchor agree -----

  function Anchor(issue: IssueData, staff: set<Login>): Option<Time> {
    DeriveStaleSince(issue, DeriveStatus(issue, staff).0, staff)
  }

  ghost predicate LastSubstantiveAt(comments: seq<Comment>, staff: set<Login>, i: nat) {
    && i < |comments| && Substantive(comments[i], staff)
    && forall j :: i < j < |comments| ==> !Substantive(comments[j], staff)
  }

  /**
   Awaiting user: the anchor is the last substantive staff comment; falling back to the creation time never
   happens.
   */
  lemma {:induction false} AwaitingUserAnchor(issue: IssueData, staff: set<Login>) returns (i: nat)
    requires DeriveStatus(issue, staff).0 == AwaitingUser
    ensures LastSubstantiveAt(issue.comments, staff, i)
    ensures Anchor(issue, staff) == issue.comments[i].createdAt
  {
    i := LastSubstantive(issue.comments, staff).value;
  }

  /**
   User replied: the anchor is the very last comment, by a user, strictly later than the last substantive staff
   one.
   */
  lemma {:induction false} UserRepliedAnchor(issue: IssueData, staff: set<Login>) returns (i: nat)
    requires DeriveStatus(issue, staff).0 == UserReplied
    ensures LastSubstantiveAt(issue.comments, staff, i)
    ensures var last := issue.comments[|issue.comments| - 1];
            && NonStaff(last, staff)
            && last.createdAt.Some? && Anchor(issue, staff) == last.createdAt
            && issue.comments[i].createdAt.Some? && issue.comments[i].createdAt.value < last.createdAt.value
  {
    i := LastSubstantive(issue.comments, staff).value;
    assert LastNonStaff(issue.comments, staff) == Some(|issue.comments| - 1);
  }

  predicate TimedByReporter(issue: IssueData, c: Comment) {
    c.user.login == issue.reporter && c.createdAt.Some?
  }

  lemma {:induction false} ReporterActivityIsMax(issue: IssueData, n: nat)
    requires n <= |issue.comments|
    ensures var t := LatestReporterActivity(issue, n);
            && (t == issue.createdAt
                || exists i :: 0 <= i < n
                     && TimedByReporter(issue, issue.comments[i]) && issue.comments[i].createdAt.value == t)
            && (forall i :: 0 <= i < n && TimedByReporter(issue, issue.comments[i]) ==>
                  issue.comments[i].createdAt.value <= t)
  {
    if n > 0 {
      ReporterActivityIsMax(issue, n - 1);
    }
  }

  /**
   Needs repro attempt: the anchor is the last thing the reporter did (or the creation of the issue), and
   no substantive staff comment comes after it.
   */
  lemma {:induction false} NeedsReproAnchor(issue: IssueData, staff: set<Login>) returns (t: Time)
    requires DeriveStatus(issue, staff).0 == NeedsReproAttempt
    ensures Anchor(issue, staff) == Some(t)
    ensures forall i :: 0 <= i < |issue.comments| && issue.comments[i].createdAt.Some? ==>
              (issue.comments[i].user.login == issue.reporter ==> issue.comments[i].createdAt.value <= t)
              && (Substantive(issue.comments[i], staff) ==> issue.comments[i].createdAt.value <= t)
    ensures t == issue.createdAt
            || exists i :: 0 <= i < |issue.comments| && issue.comments[i].user.login == issue.reporter
                           && issue.comments[i].createdAt == Some(t)
  {
    t := ReporterCutoff(issue);
    ReporterActivityIsMax(issue, |issue.comments|);
  }

  ghost predicate Timestamped(issue: IssueData) {
    forall i :: 0 <= i < |issue.comments| ==> issue.comments[i].createdAt.Some?
  }

  /**
   With timestamps present, every status that has an aging threshold has an anchor, so nothing tracked goes
   unaged.
   */
  lemma {:induction false} TrackedStatusesHaveAnchors(issue: IssueData, staff: set<Login>)
    requires Timestamped(issue)
    ensures ThresholdDays(DeriveStatus(issue, staff).0).Some? ==> Anchor(issue, staff).Some?
    ensures Anchor(issue, staff).Some? && ThresholdDays(DeriveStatus(issue, staff).0).None? ==>
              DeriveStatus(issue, staff).0 in {NeedsAsk, HandoffIncomplete}
  {
    if DeriveStatus(issue, staff).0.UserReplied? {
      var i := UserRepliedAnchor(issue, staff);
    }
  }

  /** Waiting for labels, an ask or a loop closure counts from the creation; what is at rest has no anchor. */
  lemma {:induction false} OtherAnchors(issue: IssueData, staff: set<Login>)
    ensures var status := DeriveStatus(issue, staff).0;
            && (status in {NeedsLabels, NeedsAsk, HandoffIncomplete} ==> Anchor(issue, staff) == Some(issue.createdAt))
            && (status in {Closed, ClaimedCommunity, Reproducible, Handoff, RespondedNoRepro, Unknown} ==>
                Anchor(issue, staff) == None)
  {
  }

  /** More than `days` have passed since `t`; with no timestamp that is never known. */
  predicate LongSince(t: Option<Time>, days: int, now: Time) {
    t.Some? && t.value + days * 86_400_000_000 < now
  }

  /** Everything the reporter did, opening the issue included, was more than `days` ago. */
  ghost predicate ReporterQuiet(issue: IssueData, days: int, now: Time) {
    && LongSince(Some(issue.createdAt), days, now)
    && forall c :: c in issue.comments && c.user.login == issue.reporter && c.createdAt.Some? ==>
         LongSince(c.createdAt, days, now)
  }

  /**
   When an issue nobody touches is overdue, read off its comments: awaiting the user, 14 days after the last
   substantive staff comment; after the user's reply, three days after that last comment; waiting to be
   reproduced, once the reporter has been quiet for seven days; waiting for labels, seven days after it was
   opened; and always, while it waits for a staff member to ask or to close the loop.
   */
  lemma {:induction false} OverdueExactlyWhen(issue: IssueData, staff: set<Login>, now: Time)
    ensures var status := DeriveStatus(issue, staff).0;
            DeriveAged(status, Anchor(issue, staff), now) <==>
              match status
              case AwaitingUser =>
                exists i: nat :: LastSubstantiveAt(issue.comments, staff, i)
                  && LongSince(issue.comments[i].createdAt, 14, now)
              case UserReplied =>
                issue.comments != [] && LongSince(issue.comments[|issue.comments| - 1].createdAt, 3, now)
              case NeedsReproAttempt => ReporterQuiet(issue, 7, now)
              case NeedsLabels => LongSince(Some(issue.createdAt), 7, now)
              case NeedsAsk => true
              case HandoffIncomplete => true
              case _ => false
  {
    match DeriveStatus(issue, staff).0 {
      case AwaitingUser =>
        var i := AwaitingUserAnchor(issue, staff);
        assert forall k :: LastSubstantiveAt(issue.comments, staff, k) ==> k == i;
      case UserReplied =>
        var i := UserRepliedAnchor(issue, staff);
      case NeedsReproAttempt =>
        QuietSinceLatest(issue, ReporterCutoff(issue), now);
      case _ =>
    }
  }

  /** The reporter has been quiet exactly since the latest thing the reporter did. */
  lemma {:induction false} QuietSinceLatest(issue: IssueData, t: Time, now: Time)
    requires t == ReporterCutoff(issue)
    ensures ReporterQuiet(issue, 7, now) <==> LongSince(Some(t), 7, now)
  {
    ReporterActivityIsMax(issue, |issue.comments|);
    assert issue.createdAt <= t;
  }

  // ----- what "awaiting user" really says -----

  /** A user replied at some point after the last substantive staff comment. */
  ghost predicate RepliedSince(comments: seq<Comment>, staff: set<Login>) {
    exists i: nat, j: nat :: LastSubstantiveAt(comments, staff, i) && i < j < |comments| && NonStaff(comments[j], staff)
  }

  /** Open, labelled as needing information and nothing stronger, and someone did ask. */
  ghost predicate Asked(issue: IssueData, staff: set<Login>) {
    && issue.closedAt.None?
    && "state:claimed by community" !in issue.labels && "state:reproducible" !in issue.labels
    && "state:needs info" in issue.labels
    && LastSubstantive(issue.comments, staff).Some?
  }

  /**
   The status "awaiting user", explained as "no non-staff reply since", is right about that exactly when
   nobody replied or the last comment is a reply that is timed after the ask.  So a reply is overlooked if
   staff or a bot has the last word, and also if it has no timestamp or the ask's own.
   */
  lemma {:induction false} AwaitingUserIsRightExactlyWhen(issue: IssueData, staff: set<Login>)
    requires Asked(issue, staff)
    ensures (DeriveStatus(issue, staff).0 == AwaitingUser <==> !RepliedSince(issue.comments, staff))
       <==> (RepliedSince(issue.comments, staff) ==> LastWordIsUsers(issue, staff))
  {
    if LastWordIsUsers(issue, staff) {
      var i := LastSubstantive(issue.comments, staff).value;
      assert LastSubstantiveAt(issue.comments, staff, i);
      assert i < |issue.comments| - 1;
      assert RepliedSince(issue.comments, staff);
    }
  }

  const ASK: Comment := Comment(User("mia", false), Some(1), "Please attach a log, for example a screenshot shot.png")
  const THANKS: Comment := Comment(User("mia", false), Some(3), "thanks")

  function Reply(at: Option<Time>): Comment {
    Comment(User("user", false), at, "here it is")
  }

  function Thread(comments: seq<Comment>): IssueData {
    IssueData(None, 0, "user", [], ["state:needs info"], comments)
  }

  lemma {:induction false} ThreadFacts(at: Option<Time>)
    ensures Substantive(ASK, {"mia"}) && NonStaff(Reply(at), {"mia"}) && !Substantive(Reply(at), {"mia"})
  {
    assert |"mia"| == 3 && |"user"| == 4 && |ASK.body| >= 50;
    assert !IsBot(User("mia", false)) && !IsBot(User("user", false));
    assert "user"[0] != "mia"[0];
  }

  lemma {:induction false} ThanksFacts()
    ensures !Substantive(THANKS, {"mia"}) && !NonStaff(THANKS, {"mia"})
  {
    assert |THANKS.body| == 6;
    forall m | m in MEDIA ensures !Text.Contains(THANKS.body, m) {
      Text.FindIsFirst(THANKS.body, m);
      assert m[0] == '.' || |m| > 6;
    }
  }

  /** A staff member's short thanks after the user's reply turns the issue back to awaiting the user. */
  lemma {:induction false} ThanksHidesReply()
    ensures var issue := Thread([ASK, Reply(Some(2)), THANKS]);
            && Asked(issue, {"mia"})
            && DeriveStatus(issue, {"mia"}).0 == AwaitingUser && RepliedSince(issue.comments, {"mia"})
  {
    var issue := Thread([ASK, Reply(Some(2)), THANKS]);
    ThreadFacts(Some(2));
    ThanksFacts();
    assert LastSubstantiveAt(issue.comments, {"mia"}, 0) && NonStaff(issue.comments[1], {"mia"});
    AwaitingUserIsRightExactlyWhen(issue, {"mia"});
  }

  /** A reply in the same second as the ask, or without a timestamp, is not seen although it is the last word. */
  lemma {:induction false} UntimedReplyIsOverlooked(at: Option<Time>)
    requires at == Some(1) || at == None
    ensures var issue := Thread([ASK, Reply(at)]);
            && Asked(issue, {"mia"}) && NonStaff(issue.comments[1], {"mia"})
            && DeriveStatus(issue, {"mia"}).0 == AwaitingUser && RepliedSince(issue.comments, {"mia"})
  {
    var issue := Thread([ASK, Reply(at)]);
    ThreadFacts(at);
    assert LastSubstantiveAt(issue.comments, {"mia"}, 0) && NonStaff(issue.comments[1], {"mia"});
    AwaitingUserIsRightExactlyWhen(issue, {"mia"});
  }
}
