/** The sweep as the script runs it, over the whole board (script/github-guild-board.py:591-677). */
module GuildSweep {
  import opened Options
  import opened GuildBoard

  /** How many of the outcomes are nudges, and how many are clearings. */
  function Tallies(outcomes: seq<Outcome>): (nat, nat) {
    if outcomes == [] then (0, 0)
    else
      var last := outcomes[|outcomes| - 1];
      var (nudged, cleared) := Tallies(outcomes[..|outcomes| - 1]);
      (nudged + (if last.Nudged? then 1 else 0), cleared + (if last.Cleared? then 1 else 0))
  }

  /** Each item that has an outcome is as that outcome leaves it, and the others are untouched. */
  ghost predicate SweptSoFar(before: seq<Issue>, after: seq<Issue>, outcomes: seq<Outcome>,
                             guild: set<Login>, now: Time)
  {
    && |outcomes| <= |after| == |before|
    && (forall i :: 0 <= i < |outcomes| ==> outcomes[i] == Decide(before[i], guild, now))
    && (forall i :: 0 <= i < |outcomes| ==> after[i] == Apply(before[i], outcomes[i], now))
    && (forall i :: |outcomes| <= i < |after| ==> after[i] == before[i])
  }

  lemma {:induction false} OneMoreItem(before: seq<Issue>, after: seq<Issue>, outcomes: seq<Outcome>,
                                       guild: set<Login>, now: Time, outcome: Outcome)
    requires SweptSoFar(before, after, outcomes, guild, now) && |outcomes| < |after|
    requires outcome == Decide(before[|outcomes|], guild, now)
    ensures SweptSoFar(before, after[|outcomes| := Apply(before[|outcomes|], outcome, now)],
                       outcomes + [outcome], guild, now)
  {
  }

  lemma {:induction false} TalliesAppend(outcomes: seq<Outcome>, outcome: Outcome)
    ensures Tallies(outcomes + [outcome])
         == (Tallies(outcomes).0 + (if outcome.Nudged? then 1 else 0),
             Tallies(outcomes).1 + (if outcome.Cleared? then 1 else 0))
  {
    assert (outcomes + [outcome])[..|outcomes|] == outcomes;
  }

  /** The places of the items that were nudged, and of those that were cleared. */
  function NudgedItems(outcomes: seq<Outcome>): set<int> {
    set i | 0 <= i < |outcomes| && outcomes[i].Nudged?
  }

  function ClearedItems(outcomes: seq<Outcome>): set<int> {
    set i | 0 <= i < |outcomes| && outcomes[i].Cleared?
  }

  lemma {:induction false} OneMoreNudged(outcomes: seq<Outcome>, outcome: Outcome)
    ensures |NudgedItems(outcomes + [outcome])| == |NudgedItems(outcomes)| + if outcome.Nudged? then 1 else 0
  {
    var before, after := NudgedItems(outcomes), NudgedItems(outcomes + [outcome]);
    var last := if outcome.Nudged? then {|outcomes|} else {};
    forall i ensures i in after <==> i in before + last {
      if 0 <= i < |outcomes| {
        assert (outcomes + [outcome])[i] == outcomes[i];
      }
    }
    assert after == before + last;
  }

  lemma {:induction false} OneMoreCleared(outcomes: seq<Outcome>, outcome: Outcome)
    ensures |ClearedItems(outcomes + [outcome])| == |ClearedItems(outcomes)| + if outcome.Cleared? then 1 else 0
  {
    var before, after := ClearedItems(outcomes), ClearedItems(outcomes + [outcome]);
    var last := if outcome.Cleared? then {|outcomes|} else {};
    forall i ensures i in after <==> i in before + last {
      if 0 <= i < |outcomes| {
        assert (outcomes + [outcome])[i] == outcomes[i];
      }
    }
    assert after == before + last;
  }

  /** The tallies count the items nudged and the items cleared. */
  lemma {:induction false} TalliesAreCounts(outcomes: seq<Outcome>)
    ensures Tallies(outcomes) == (|NudgedItems(outcomes)|, |ClearedItems(outcomes)|)
  {
    if outcomes != [] {
      var init, last := outcomes[..|outcomes| - 1], outcomes[|outcomes| - 1];
      TalliesAreCounts(init);
      OneMoreNudged(init, last);
      OneMoreCleared(init, last);
      assert outcomes == init + [last];
    }
  }

  class Board {
    var items: seq<Issue>

    constructor (items: seq<Issue>)
      ensures this.items == items
    {
      this.items := items;
    }

    /** A single loop finds the two moments on which the decision rests. */
    static method ScanComments(comments: seq<Comment>, assignee: Login, assignedAt: Time)
      returns (lastActivity: Time, checkInAt: Option<Time>)
      ensures lastActivity == LatestOwnComment(comments, assignee, assignedAt)
      ensures checkInAt == LatestCheckIn(comments)
    {
      lastActivity := assignedAt;
      checkInAt := None;
      for i := 0 to |comments|
        invariant lastActivity == LatestOwnComment(comments[..i], assignee, assignedAt)
        invariant checkInAt == LatestCheckIn(comments[..i])
      {
        var comment := comments[i];
        assert comments[..i + 1][..i] == comments[..i];
        if comment.body.CheckIn? {
          if checkInAt.None? || comment.createdAt > checkInAt.value {
            checkInAt := Some(comment.createdAt);
          }
        } else if comment.author == Some(assignee) {
          if comment.createdAt > lastActivity {
            lastActivity := comment.createdAt;
          }
        }
      }
      assert comments[..|comments|] == comments;
    }

    /** The body of the loop: what the sweep does to one item. */
    method SweepItem(i: nat, guild: set<Login>, now: Time) returns (outcome: Outcome)
      requires i < |items|
      modifies this
      ensures outcome == Decide(old(items)[i], guild, now)
      ensures items == old(items)[i := Apply(old(items)[i], outcome, now)]
    {
      var item := items[i];
      if item.archived || !item.isIssue || item.status != Some(InProgress) {
        return Untouched;
      }
      var guildAssignees := GuildAssignees(item, guild);
      if guildAssignees == [] || OnHold(item) || item.openPr {
        return Untouched;
      }
      var assignee := guildAssignees[0];
      var assignedAt := LatestAssignment(item.assignments, assignee);
      if assignedAt.None? {
        return Raised;
      }
      var lastActivity, checkInAt := ScanComments(item.comments, assignee, assignedAt.value);
      if checkInAt.None? || checkInAt.value < lastActivity {
        if DaysSince(now, lastActivity) < CHECK_IN_AFTER_DAYS {
          return Untouched;
        }
        items := items[i := item.(comments := item.comments + [Comment(Some(BOT), now, CheckIn(assignee))])];
        return Nudged(assignee);
      }
      if DaysSince(now, checkInAt.value) < AUTO_CLEAR_AFTER_DAYS {
        return Untouched;
      }
      var left := item.(assignees := Without(item.assignees, guildAssignees));
      var column := StatusForType(item.issueType);
      if column.Some? {
        left := left.(status := column);
      }
      items := items[i := left];
      return Cleared(guildAssignees);
    }

    /**
     The whole sweep.  Items are swept in order and independently; the script stops at the first item
     that raises, leaving the rest of the board as it was.
     */
    method RunStale(guild: set<Login>, now: Time) returns (checkedIn: nat, cleared: nat, outcomes: seq<Outcome>)
      modifies this
      ensures |outcomes| <= |items| == |old(items)|
      ensures forall i :: 0 <= i < |outcomes| ==>
                outcomes[i] == Decide(old(items)[i], guild, now) && items[i] == SweepIssue(old(items)[i], guild, now)
      ensures forall i :: |outcomes| <= i < |items| ==> items[i] == old(items)[i]
      ensures forall i :: 0 <= i < |outcomes| - 1 ==> !outcomes[i].Raised?
      ensures |outcomes| < |items| ==> outcomes != [] && outcomes[|outcomes| - 1].Raised?
      ensures checkedIn == |NudgedItems(outcomes)| && cleared == |ClearedItems(outcomes)|
    {
      ghost var before := items;
      checkedIn, cleared, outcomes := 0, 0, [];
      while |outcomes| < |items|
        invariant SweptSoFar(before, items, outcomes, guild, now)
        invariant forall i :: 0 <= i < |outcomes| ==> !outcomes[i].Raised?
        invariant (checkedIn, cleared) == Tallies(outcomes)
        decreases |items| - |outcomes|
      {
        ghost var items0 := items;
        var outcome := SweepItem(|outcomes|, guild, now);
        OneMoreItem(before, items0, outcomes, guild, now, outcome);
        TalliesAppend(outcomes, outcome);
        outcomes := outcomes + [outcome];
        if outcome.Raised? {
          TalliesAreCounts(outcomes);
          return;
        } else if outcome.Nudged? {
          checkedIn := checkedIn + 1;
        } else if outcome.Cleared? {
          cleared := cleared + 1;
        }
      }
      TalliesAreCounts(outcomes);
    }
  }
}
