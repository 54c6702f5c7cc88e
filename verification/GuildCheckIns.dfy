/** How often the guild board's sweep checks in: never again without renewed activity. */
module GuildCheckIns {
  import opened Options
  import opened GuildBoard

  /** The comment at `j` is a check-in that answers an activity of its addressee, after all earlier check-ins. */
  ghost predicate Earned(s: Issue, j: nat, t: Time)
    requires j < |s.comments| && s.comments[j].body.CheckIn?
  {
    && Active(s, s.comments[j].body.assignee, t)
    && t + CHECK_IN_AFTER_DAYS * DAY <= s.comments[j].createdAt
    && forall i :: 0 <= i < j && s.comments[i].body.CheckIn? ==> s.comments[i].createdAt < t
  }

  ghost predicate CheckInsEarned(s: Issue) {
    forall j :: 0 <= j < |s.comments| && s.comments[j].body.CheckIn? ==> exists t :: Earned(s, j, t)
  }

  lemma {:induction false} GrowingKeepsEarned(s: Issue, s': Issue, j: nat)
    requires s.comments <= s'.comments && s.assignments <= s'.assignments
    requires j < |s.comments| && s.comments[j].body.CheckIn?
    requires exists t :: Earned(s, j, t)
    ensures exists t :: Earned(s', j, t)
  {
    var t :| Earned(s, j, t);
    GrowingKeepsActivity(s, s', s.comments[j].body.assignee, t);
    assert Earned(s', j, t);
  }

  lemma {:induction false} NudgeIsEarned(s: Issue, s': Issue, guild: set<Login>, now: Time)
    requires Decide(s, guild, now).Nudged? && s'.assignments == s.assignments
    requires s'.comments == s.comments + [Comment(Some(BOT), now, CheckIn(Decide(s, guild, now).assignee))]
    ensures exists t :: Earned(s', |s.comments|, t)
  {
    var a := Decide(s, guild, now).assignee;
    var t := LastActivity(s, a).value;
    LastActivityIsLatest(s, a);
    LatestCheckInIsMax(s.comments);
    GrowingKeepsActivity(s, s', a, t);
    assert forall i :: 0 <= i < |s.comments| ==> s'.comments[i] in s.comments;
    assert Earned(s', |s.comments|, t);
  }

  lemma {:induction false} StepKeepsCheckInsEarned(s: Issue, e: Timed)
    requires CheckInsEarned(s)
    ensures CheckInsEarned(Step(s, e))
  {
    StepShape(s, e);
    var s' := Step(s, e);
    forall j | 0 <= j < |s'.comments| && s'.comments[j].body.CheckIn? ensures exists t :: Earned(s', j, t) {
      if j < |s.comments| {
        GrowingKeepsEarned(s, s', j);
      } else {
        NudgeIsEarned(s, s', e.guild, e.at);
      }
    }
  }

  /**
   Over every run, with any number of assignees: each check-in comes at least 14 days after an activity
   of the person it names, and that activity comes after every earlier check-in.
   */
  lemma {:induction false} EveryCheckInIsEarned(s: Issue, clock: Time, run: seq<Timed>, k: nat)
    requires Initial(s, clock) && k <= |run|
    ensures CheckInsEarned(After(s, run, k))
  {
    if k == 0 {
      LatestCheckInIsMax(s.comments);
    } else {
      EveryCheckInIsEarned(s, clock, run, k - 1);
      StepKeepsCheckInsEarned(After(s, run, k - 1), run[k - 1]);
    }
  }

  function CountCheckIns(comments: seq<Comment>): nat {
    if comments == [] then 0
    else CountCheckIns(comments[..|comments| - 1]) + (if comments[|comments| - 1].body.CheckIn? then 1 else 0)
  }

  lemma {:induction false} NoCheckInsCounted(comments: seq<Comment>)
    ensures CountCheckIns(comments) == 0 <==> forall c :: c in comments ==> !c.body.CheckIn?
  {
    if comments != [] {
      NoCheckInsCounted(comments[..|comments| - 1]);
      assert comments == comments[..|comments| - 1] + [comments[|comments| - 1]];
    }
  }

  lemma {:induction false} CheckInsSpanTime(s: Issue, n: nat, first: Time, last: Time)
    requires CheckInsEarned(s) && n <= |s.comments|
    requires forall i :: 0 <= i < n && s.comments[i].body.CheckIn? ==> first <= s.comments[i].createdAt <= last
    ensures CountCheckIns(s.comments[..n]) >= 1 ==>
              (CountCheckIns(s.comments[..n]) - 1) * (CHECK_IN_AFTER_DAYS * DAY) <= last - first
  {
    if n > 0 {
      assert s.comments[..n][..n - 1] == s.comments[..n - 1];
      if s.comments[n - 1].body.CheckIn? {
        var t :| Earned(s, n - 1, t);
        CheckInsSpanTime(s, n - 1, first, t);
      } else {
        CheckInsSpanTime(s, n - 1, first, last);
      }
    }
  }

  /**
   Rate of nudging over every run: `n` check-ins take more than `n - 1` check-in windows, however many
   sweeps there were and whoever was assigned.
   */
  lemma {:induction false} NudgesAreRare(s: Issue, clock: Time, run: seq<Timed>, k: nat)
    requires Initial(s, clock) && InOrder(clock, run) && k <= |run|
    ensures var n := CountCheckIns(After(s, run, k).comments);
            n >= 1 ==> (n - 1) * (CHECK_IN_AFTER_DAYS * DAY) <= ClockAfter(clock, run, k) - clock
  {
    var r := After(s, run, k);
    EveryCheckInIsEarned(s, clock, run, k);
    RunKeepsLog(s, clock, run, k);
    CheckInsAfterStart(s, clock, run, k);
    assert forall i :: 0 <= i < |r.comments| ==> r.comments[i] in r.comments;
    CheckInsSpanTime(r, |r.comments|, clock, ClockAfter(clock, run, k));
    assert r.comments[..|r.comments|] == r.comments;
  }

  lemma {:induction false} CheckInsAfterStart(s: Issue, clock: Time, run: seq<Timed>, k: nat)
    requires Initial(s, clock) && InOrder(clock, run) && k <= |run|
    ensures forall c :: c in After(s, run, k).comments && c.body.CheckIn? ==> clock <= c.createdAt
  {
    if k == 0 {
      LatestCheckInIsMax(s.comments);
    } else {
      CheckInsAfterStart(s, clock, run, k - 1);
      StepShape(After(s, run, k - 1), run[k - 1]);
    }
  }
}
