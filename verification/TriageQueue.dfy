/**
 The triage queue (script/github-triage-queue-board.py): a project whose membership tracks the open
 issues created in a window of business days.  Days are whole calendar days; day 0 is a Monday.
 */
module TriageQueue {
  import opened Options
  import opened Seqs

  type Day = int
  type NodeId = string

  datatype Window = Window(start: Day, end: Day) {
    predicate Contains(d: Day) {
      start <= d <= end
    }
  }

  function IsoWeekday(d: Day): int {
    d % 7 + 1
  }

  function EligibilityWindow(today: Day): Window {
    var weekday := IsoWeekday(today);
    var (day, weekday) := if weekday >= 6 then (today - (weekday - 5), 5) else (today, weekday);
    var thisMonday := day - (weekday - 1);
    Window(thisMonday - 4, day - (if weekday <= 2 then 4 else 2))
  }

  // ----- what the window means -----

  predicate IsBusinessDay(d: Day) {
    IsoWeekday(d) <= 5
  }

  ghost predicate LastBusinessDayBefore(b: Day, d: Day) {
    b < d && IsBusinessDay(b) && forall x :: b < x < d ==> !IsBusinessDay(x)
  }

  /** The day a sync acts for: today, or the Friday before a weekend. */
  ghost predicate EffectiveDay(e: Day, today: Day) {
    LastBusinessDayBefore(e, today + 1)
  }

  /** Every window is nonempty and ends two business days before the effective day. */
  lemma {:induction false} WindowEndsTwoBusinessDaysBack(today: Day, e: Day, yesterday: Day)
    requires EffectiveDay(e, today) && LastBusinessDayBefore(yesterday, e)
    ensures var w := EligibilityWindow(today);
            w.start <= w.end && LastBusinessDayBefore(w.end, yesterday)
  {
    LastBusinessDay(today + 1, e);
    LastBusinessDay(e, yesterday);
    LastBusinessDay(yesterday, EligibilityWindow(today).end);
    WindowInDays(today);
  }

  lemma {:induction false} WindowInDays(today: Day)
    ensures var w := EligibilityWindow(today);
            w.start <= w.end == BusinessDayBefore(BusinessDayBefore(BusinessDayBefore(today + 1)))
  {
  }

  /** The business day before any day, computed; it is the only one. */
  function BusinessDayBefore(d: Day): Day {
    if IsoWeekday(d) == 1 then d - 3 else if IsoWeekday(d) == 7 then d - 2 else d - 1
  }

  lemma {:induction false} LastBusinessDay(d: Day, b: Day)
    ensures LastBusinessDayBefore(b, d) <==> b == BusinessDayBefore(d)
  {
    var p := BusinessDayBefore(d);
    assert IsBusinessDay(p);
    forall x | p < x < d ensures !IsBusinessDay(x) {
      assert x == d - 1 || x == d - 2;
    }
  }

  /** A full business day lies strictly between the creation of an issue and the effective day. */
  ghost predicate BusinessDayElapsed(created: Day, e: Day) {
    exists b :: created < b < e && IsBusinessDay(b)
  }

  lemma {:induction false} ElapsedMeansBeforeYesterday(created: Day, e: Day)
    ensures BusinessDayElapsed(created, e) <==> created < BusinessDayBefore(e)
  {
    LastBusinessDay(e, BusinessDayBefore(e));
    assert created < BusinessDayBefore(e) ==> created < BusinessDayBefore(e) < e && IsBusinessDay(BusinessDayBefore(e));
  }

  /** Nothing enters the queue before a full business day has elapsed since its creation. */
  lemma {:induction false} EligibleOnlyOnceABusinessDayElapsed(today: Day, e: Day, created: Day)
    requires EffectiveDay(e, today) && created <= EligibilityWindow(today).end
    ensures BusinessDayElapsed(created, e)
  {
    LastBusinessDay(today + 1, e);
    ElapsedMeansBeforeYesterday(created, e);
  }

  /** On a Tuesday, issues created on the weekend just past: Monday has elapsed, yet they wait for Wednesday. */
  predicate WeekendBeforeTuesday(created: Day, today: Day) {
    IsoWeekday(today) == 2 && today - 3 <= created <= today - 2
  }

  /**
   The rule "eligible once a full business day has elapsed since creation" is what the window's end
   implements, except for exactly the weekend issues on the Tuesday after.
   */
  lemma {:induction false} ElapsedRuleExactlyWhen(today: Day, e: Day, created: Day)
    requires EffectiveDay(e, today)
    ensures (created <= EligibilityWindow(today).end <==> BusinessDayElapsed(created, e))
       <==> !WeekendBeforeTuesday(created, today)
  {
    LastBusinessDay(today + 1, e);
    ElapsedMeansBeforeYesterday(created, e);
  }

  /** An issue of Sunday, day 6, is not eligible on Tuesday, day 8, although all of Monday has passed. */
  lemma {:induction false} SundayIssueWaits()
    ensures EffectiveDay(8, 8) && BusinessDayElapsed(6, 8) && !(6 <= EligibilityWindow(8).end)
  {
    LastBusinessDay(9, 8);
    ElapsedMeansBeforeYesterday(6, 8);
  }

  /** The window's start is the Thursday before the week of `today`, weekend included. */
  lemma {:induction false} WindowStartsPriorThursday(today: Day)
    ensures EligibilityWindow(today).start == today / 7 * 7 - 4
    ensures IsoWeekday(EligibilityWindow(today).start) == 4
  {
  }

  lemma {:induction false} WindowIsMonotone(d: Day, d': Day)
    requires d <= d'
    ensures EligibilityWindow(d).start <= EligibilityWindow(d').start
    ensures EligibilityWindow(d).end <= EligibilityWindow(d').end
  {
    assert d / 7 <= d' / 7;
  }

  function FirstEligibleDay(created: Day): Day {
    created + (if 4 <= IsoWeekday(created) <= 6 then 4 else if IsoWeekday(created) == 7 then 3 else 2)
  }

  /** The Sunday ending the week in which the issue is looked at; the following Monday drops it. */
  function LastEligibleDay(created: Day): Day {
    (created - 3) / 7 * 7 + 13
  }

  /** The days on which an issue is eligible form one nonempty unbroken run. */
  lemma {:induction false} EligibleDaysAreARun(created: Day, d: Day)
    ensures FirstEligibleDay(created) <= LastEligibleDay(created)
    ensures EligibilityWindow(d).Contains(created) <==> FirstEligibleDay(created) <= d <= LastEligibleDay(created)
  {
    var w := created / 7;
    assert (created - 3) / 7 == if created % 7 >= 3 then w else w - 1;
    WindowStartsPriorThursday(d);
  }

  // ----- the sync -----

  datatype OpenIssue = OpenIssue(node: NodeId, created: Day)

  const PAGE_SIZE: nat := 100
  const MAX_PAGES: nat := 10
  const MAX_RESULTS: nat := PAGE_SIZE * MAX_PAGES

  /** The node ids of the open issues created in the window, in the order the search returns them. */
  function Matching(open: seq<OpenIssue>, w: Window): (nodes: seq<NodeId>)
    ensures forall x :: x in nodes <==> exists i :: i in open && i.node == x && w.Contains(i.created)
  {
    if open == [] then []
    else
      assert open == [open[0]] + open[1..];
      (if w.Contains(open[0].created) then [open[0].node] else []) + Matching(open[1..], w)
  }

  function EligibleNodes(open: seq<OpenIssue>, w: Window): set<NodeId> {
    set i | i in open && w.Contains(i.created) :: i.node
  }

  lemma {:induction false} MatchingIsEligible(open: seq<OpenIssue>, w: Window)
    ensures ToSet(Matching(open, w)) == EligibleNodes(open, w)
  {
  }

  /** Reads the search result page by page, giving up after ten pages of one hundred. */
  method EligibleIssues(matching: seq<NodeId>) returns (issues: seq<NodeId>)
    ensures issues == FirstN(matching, 1000)
  {
    issues := [];
    var page := 1;
    while true
      invariant 1 <= page <= MAX_PAGES
      invariant (page - 1) * PAGE_SIZE <= |matching|
      invariant issues == matching[..(page - 1) * PAGE_SIZE]
      decreases MAX_PAGES - page
    {
      var batch := matching[(page - 1) * PAGE_SIZE..Min(page * PAGE_SIZE, |matching|)];
      issues := issues + batch;
      if |batch| < PAGE_SIZE || page >= MAX_PAGES {
        return;
      }
      page := page + 1;
    }
  }

  ghost predicate Distinct(s: seq<NodeId>) {
    forall i, j :: 0 <= i < j < |s| ==> s[i] != s[j]
  }

  function ToSet(s: seq<NodeId>): (r: set<NodeId>)
    ensures forall x :: x in r <==> x in s
  {
    set x | x in s
  }

  datatype Item = Item(id: nat, content: Option<NodeId>)

  /** The issues on the board; drafts and pull requests have no issue content. */
  function Issues(items: seq<Item>): (r: set<NodeId>) {
    set i | i in items && i.content.Some? :: i.content.value
  }

  function Others(items: seq<Item>): seq<Item> {
    if items == [] then []
    else Others(items[..|items| - 1]) + (if items[|items| - 1].content.None? then [items[|items| - 1]] else [])
  }

  function RemoveId(items: seq<Item>, id: nat): (r: seq<Item>)
    ensures forall i :: i in r <==> i in items && i.id != id
  {
    if items == [] then []
    else RemoveId(items[..|items| - 1], id) + (if items[|items| - 1].id != id then [items[|items| - 1]] else [])
  }

  lemma {:induction false} RemoveIdKeepsOthers(items: seq<Item>, id: nat)
    requires forall i :: i in items && i.id == id ==> i.content.Some?
    ensures Others(RemoveId(items, id)) == Others(items)
  {
    if items != [] {
      var init, last := items[..|items| - 1], items[|items| - 1];
      RemoveIdKeepsOthers(init, id);
      if last.id != id {
        assert (RemoveId(init, id) + [last])[..|RemoveId(init, id)|] == RemoveId(init, id);
      } else {
        assert RemoveId(items, id) == RemoveId(init, id);
      }
    }
  }

  lemma {:induction false} AppendIssue(items: seq<Item>, item: Item)
    requires item.content.Some?
    ensures Issues(items + [item]) == Issues(items) + {item.content.value}
    ensures Others(items + [item]) == Others(items)
  {
    assert (items + [item])[..|items|] == items;
    assert item in items + [item];
    assert forall i :: i in items ==> i in items + [item];
  }

  /** Items have been appended for the issues `added`, as far as they were missing. */
  ghost predicate Extends(before: seq<Item>, after: seq<Item>, added: set<NodeId>) {
    && before <= after
    && Others(after) == Others(before)
    && Issues(after) == Issues(before) + added
    && forall i :: i in after && i !in before ==> i.content.Some? && i.content.value in added
  }

  lemma {:induction false} ExtendsByOne(before: seq<Item>, after: seq<Item>, added: set<NodeId>, item: Item)
    requires Extends(before, after, added) && item.content.Some?
    ensures Extends(before, after + [item], added + {item.content.value})
  {
    AppendIssue(after, item);
  }

  lemma {:induction false} MatchingIsDistinct(open: seq<OpenIssue>, w: Window)
    requires forall i, j :: 0 <= i < j < |open| ==> open[i].node != open[j].node
    ensures Distinct(Matching(open, w))
  {
    if open != [] {
      MatchingIsDistinct(open[1..], w);
      var rest := Matching(open[1..], w);
      assert forall i :: i in open[1..] ==> i.node != open[0].node;
      assert open[0].node !in rest;
      assert forall j :: 0 <= j < |rest| ==> rest[j] in rest;
    }
  }

  /** The results a search hands to the sync. */
  function Retrieved(open: seq<OpenIssue>, today: Day): set<NodeId> {
    var matching := Matching(open, EligibilityWindow(today));
    ToSet(FirstN(matching, MAX_RESULTS))
  }

  /**
   What one sync makes of the issues on the board: the missing are added, then those listed before and not
   retrieved removed.
   */
  function SyncStep(board: set<NodeId>, retrieved: set<NodeId>): set<NodeId> {
    var added := board + (retrieved - board);
    added - (board - retrieved)
  }

  class Project {
    var items: seq<Item>
    var nextId: nat

    ghost predicate Valid()
      reads this
    {
      && (forall i :: i in items ==> i.id < nextId)
      && (forall i, j :: i in items && j in items && i.id == j.id ==> i == j)
    }

    constructor ()
      ensures Valid() && items == []
    {
      items, nextId := [], 0;
    }

    method Add(node: NodeId)
      requires Valid()
      modifies this
      ensures Valid()
      ensures exists id :: items == old(items) + [Item(id, Some(node))]
                           && forall i :: i in old(items) ==> i.id != id
    {
      items := items + [Item(nextId, Some(node))];
      nextId := nextId + 1;
    }

    method Remove(id: nat)
      requires Valid()
      modifies this
      ensures Valid() && items == RemoveId(old(items), id)
    {
      items := RemoveId(items, id);
    }

    /** Adds the eligible issues that are missing. */
    method AddMissing(eligible: seq<NodeId>)
      requires Valid() && Distinct(eligible)
      modifies this
      ensures Valid() && Extends(old(items), items, ToSet(eligible))
    {
      var onBoard := Issues(items);
      for k := 0 to |eligible|
        invariant Valid() && Extends(old(items), items, ToSet(eligible[..k]))
      {
        assert ToSet(eligible[..k + 1]) == ToSet(eligible[..k]) + {eligible[k]};
        if eligible[k] !in onBoard {
          ghost var before := items;
          Add(eligible[k]);
          ExtendsByOne(old(items), before, ToSet(eligible[..k]), items[|items| - 1]);
        }
      }
      assert eligible[..|eligible|] == eligible;
    }

    /** Removes the issues listed in `current` that are not eligible. */
    method RemoveStale(current: seq<Item>, eligible: seq<NodeId>)
      requires Valid()
      requires forall i :: i in current ==> i in items
      modifies this
      ensures Valid()
      ensures Others(items) == Others(old(items))
      ensures forall i :: i in items <==>
                i in old(items) && !(i in current && i.content.Some? && i.content.value !in eligible)
    {
      for k := 0 to |current|
        invariant Valid()
        invariant Others(items) == Others(old(items))
        invariant forall i :: i in items <==>
                    i in old(items) && !(i in current[..k] && i.content.Some? && i.content.value !in eligible)
      {
        var item := current[k];
        assert forall i :: i in current[..k + 1] <==> i in current[..k] || i == item;
        if item.content.Some? && item.content.value !in eligible {
          assert forall i :: i in items && i.id == item.id ==> i == item by {
            assert item in old(items);
            assert forall i, j :: i in old(items) && j in old(items) && i.id == j.id ==> i == j;
          }
          RemoveIdKeepsOthers(items, item.id);
          Remove(item.id);
        }
      }
    }

    /**
     One sync.  Afterwards the issues on the board are exactly the retrieved ones, and items without
     issue content are as they were; a dry run changes nothing.  When the search was complete, those are
     exactly the open issues created in the window.
     */
    method SyncProject(today: Day, open: seq<OpenIssue>, dryRun: bool) returns (eligible: seq<NodeId>)
      requires Valid()
      requires forall i, j :: 0 <= i < j < |open| ==> open[i].node != open[j].node
      modifies this
      ensures Valid()
      ensures var matching := Matching(open, EligibilityWindow(today));
              eligible == FirstN(matching, MAX_RESULTS)
      ensures dryRun ==> items == old(items)
      ensures !dryRun ==> Issues(items) == SyncStep(Issues(old(items)), Retrieved(open, today))
      ensures !dryRun ==> Issues(items) == ToSet(eligible) && Others(items) == Others(old(items))
      ensures !dryRun && |Matching(open, EligibilityWindow(today))| <= MAX_RESULTS ==>
                Issues(items) == EligibleNodes(open, EligibilityWindow(today))
    {
      MatchingIsDistinct(open, EligibilityWindow(today));
      eligible := EligibleIssues(Matching(open, EligibilityWindow(today)));
      var current := items;
      if !dryRun {
        AddMissing(eligible);
        label added:
        RemoveStale(current, eligible);
        forall x ensures x in Issues(items) <==> x in eligible {
          KeptExactly(current, old@added(items), items, eligible, x);
        }
        MatchingIsEligible(open, EligibilityWindow(today));
        RetrievesAllIff(Matching(open, EligibilityWindow(today)));
      }
    }
  }

  lemma {:induction false} KeptExactly(before: seq<Item>, added: seq<Item>, after: seq<Item>, eligible: seq<NodeId>,
          x: NodeId)
    requires before <= added && Issues(added) == Issues(before) + ToSet(eligible)
    requires forall i :: i in after <==> i in added && !(i in before && i.content.Some? && i.content.value !in eligible)
    requires forall i :: i in added && i !in before && i.content.Some? ==> i.content.value in eligible
    ensures x in Issues(after) <==> x in eligible
  {
    if x in eligible {
      assert x in Issues(added);
      var i :| i in added && i.content == Some(x);
      assert i in after;
    }
  }

  /** The search cap is the only way the board can miss an eligible issue: the sync is exact iff at most 1000 match. */
  lemma {:induction false} RetrievesAllIff(matching: seq<NodeId>)
    requires Distinct(matching)
    ensures ToSet(FirstN(matching, MAX_RESULTS)) == ToSet(matching) <==> |matching| <= 1000
  {
    if |matching| <= MAX_RESULTS {
      assert matching[..|matching|] == matching;
    } else {
      assert matching[MAX_RESULTS] in ToSet(matching);
      assert matching[MAX_RESULTS] !in matching[..MAX_RESULTS];
    }
  }

  // ----- whole runs of syncs -----

  /** A sync: its day, and the open issues in the order the search returns them. */
  datatype Sync = Sync(today: Day, open: seq<OpenIssue>)

  function Matches(sync: Sync): seq<NodeId> {
    Matching(sync.open, EligibilityWindow(sync.today))
  }

  /** The issues on the board after the first `k` syncs of the run. */
  function BoardAfter(initial: set<NodeId>, run: seq<Sync>, k: nat): set<NodeId>
    requires k <= |run|
  {
    if k == 0 then initial else SyncStep(BoardAfter(initial, run, k - 1), Retrieved(run[k - 1].open, run[k - 1].today))
  }

  lemma {:induction false} BoardIsRetrieved(initial: set<NodeId>, run: seq<Sync>, k: nat)
    requires k < |run|
    ensures BoardAfter(initial, run, k + 1) == Retrieved(run[k].open, run[k].today)
  {
  }

  ghost predicate AddedBy(initial: set<NodeId>, run: seq<Sync>, x: NodeId, k: nat)
    requires k < |run|
  {
    x !in BoardAfter(initial, run, k) && x in BoardAfter(initial, run, k + 1)
  }

  /** The syncs come in order, and list each open issue once with its own creation day. */
  ghost predicate Proper(created: NodeId -> Day, run: seq<Sync>) {
    && (forall i, j :: 0 <= i < j < |run| ==> run[i].today <= run[j].today)
    && (forall k, i :: 0 <= k < |run| && 0 <= i < |run[k].open| ==>
        created(run[k].open[i].node) == run[k].open[i].created)
    && (forall k, i, j :: 0 <= k < |run| && 0 <= i < j < |run[k].open| ==> run[k].open[i].node != run[k].open[j].node)
  }

  /** No search of the run matches more than `n` issues. */
  ghost predicate MatchAtMost(run: seq<Sync>, n: nat) {
    forall k :: 0 <= k < |run| ==> |Matches(run[k])| <= n
  }

  predicate IsOpen(sync: Sync, x: NodeId) {
    exists i :: i in sync.open && i.node == x
  }

  ghost predicate StaysOpen(run: seq<Sync>, x: NodeId, i: nat, j: nat) {
    forall k :: i <= k <= j && k < |run| ==> IsOpen(run[k], x)
  }

  /** A sync with a complete search leaves an open issue on the board exactly if it is in the window. */
  lemma {:induction false} OnBoardExactlyWhen(created: NodeId -> Day, initial: set<NodeId>, run: seq<Sync>,
          x: NodeId, k: nat)
    requires Proper(created, run) && MatchAtMost(run, MAX_RESULTS) && k < |run| && IsOpen(run[k], x)
    ensures x in BoardAfter(initial, run, k + 1) <==>
        FirstEligibleDay(created(x)) <= run[k].today <= LastEligibleDay(created(x))
  {
    BoardIsRetrieved(initial, run, k);
    var w := EligibilityWindow(run[k].today);
    assert |Matches(run[k])| <= MAX_RESULTS && Matches(run[k])[..|Matches(run[k])|] == Matches(run[k]);
    var o :| o in run[k].open && o.node == x;
    assert forall i :: i in run[k].open && i.node == x ==> i.created == created(x);
    assert x in Matching(run[k].open, w) <==> w.Contains(created(x));
    EligibleDaysAreARun(created(x), run[k].today);
  }

  /** Over every run of complete syncs, an issue that stays open is added at most once. */
  lemma {:induction false} AddedAtMostOnce(created: NodeId -> Day, initial: set<NodeId>, run: seq<Sync>, x: NodeId,
          i: nat, j: nat)
    requires Proper(created, run) && MatchAtMost(run, MAX_RESULTS) && i < j < |run| && StaysOpen(run, x, i, j)
    requires AddedBy(initial, run, x, i)
    ensures !AddedBy(initial, run, x, j)
  {
    assert IsOpen(run[i], x) && IsOpen(run[j - 1], x) && IsOpen(run[j], x);
    OnBoardExactlyWhen(created, initial, run, x, i);
    OnBoardExactlyWhen(created, initial, run, x, j - 1);
    OnBoardExactlyWhen(created, initial, run, x, j);
    assert i < j - 1 ==> run[i].today <= run[j - 1].today;
  }

  /** Once a sync has taken it off the board while open, no later complete sync puts it back. */
  lemma {:induction false} NeverReadded(created: NodeId -> Day, initial: set<NodeId>, run: seq<Sync>, x: NodeId,
          i: nat, k: nat, j: nat)
    requires Proper(created, run) && MatchAtMost(run, MAX_RESULTS) && i < k < j < |run|
    requires IsOpen(run[i], x) && IsOpen(run[k], x) && IsOpen(run[j], x)
    requires x in BoardAfter(initial, run, i + 1) && x !in BoardAfter(initial, run, k + 1)
    ensures x !in BoardAfter(initial, run, j + 1)
  {
    OnBoardExactlyWhen(created, initial, run, x, i);
    OnBoardExactlyWhen(created, initial, run, x, k);
    OnBoardExactlyWhen(created, initial, run, x, j);
  }

  // ----- the search cap is what the promise depends on -----

  ghost predicate OnlyOnce(initial: set<NodeId>, run: seq<Sync>, x: NodeId, i: nat, j: nat)
    requires i < j < |run|
  {
    AddedBy(initial, run, x, i) ==> !AddedBy(initial, run, x, j)
  }

  /** "Added at most once", for every run whose searches match at most `n` issues. */
  ghost predicate AddsOnlyOnce(n: nat) {
    forall created: NodeId -> Day, initial: set<NodeId>, run: seq<Sync>, x: NodeId, i: nat, j: nat ::
      Proper(created, run) && MatchAtMost(run, n) && i < j < |run| && StaysOpen(run, x, i, j) ==>
        OnlyOnce(initial, run, x, i, j)
  }

  /** Distinct names, told apart by their length. */
  function Name(i: nat): (name: NodeId)
    ensures |name| == i
  {
    seq(i, _ => 'n')
  }

  /** `n` issues created on Monday, day 0, the newest name last. */
  function Backlog(n: nat): (open: seq<OpenIssue>)
    ensures |open| == n && forall i :: 0 <= i < n ==> open[i] == OpenIssue(Name(i), 0)
  {
    seq(n, i requires 0 <= i < n => OpenIssue(Name(i), 0))
  }

  lemma {:induction false} AllMatch(open: seq<OpenIssue>, w: Window)
    requires forall i :: 0 <= i < |open| ==> w.Contains(open[i].created)
    ensures |Matching(open, w)| == |open|
    ensures forall i :: 0 <= i < |open| ==> Matching(open, w)[i] == open[i].node
  {
    if open != [] {
      AllMatch(open[1..], w);
    }
  }

  const LATE: NodeId := Name(MAX_RESULTS)

  /** Wednesday, three syncs: a thousand older matches push the last issue off the board in between. */
  function CrowdedRun(): seq<Sync> {
    var late := OpenIssue(LATE, 0);
    [Sync(2, [late]), Sync(2, Backlog(MAX_RESULTS + 1)), Sync(2, [late])]
  }

  lemma {:induction false} CrowdedMatches()
    ensures var run := CrowdedRun();
            && Matches(run[0]) == [LATE] == Matches(run[2])
            && |Matches(run[1])| == MAX_RESULTS + 1 && LATE !in Retrieved(run[1].open, 2)
  {
    var run, w := CrowdedRun(), EligibilityWindow(2);
    assert w.Contains(0);
    AllMatch(run[0].open, w);
    AllMatch(run[1].open, w);
    assert Matches(run[0]) == [LATE];
    forall i | 0 <= i < MAX_RESULTS ensures Matches(run[1])[i] != LATE {
      assert |Matches(run[1])[i]| == i;
    }
  }

  lemma {:induction false} BacklogIsDistinct(n: nat)
    ensures forall i, j :: 0 <= i < j < n ==> Backlog(n)[i].node != Backlog(n)[j].node
  {
    forall i, j | 0 <= i < j < n ensures Backlog(n)[i].node != Backlog(n)[j].node {
      assert |Backlog(n)[i].node| == i && |Backlog(n)[j].node| == j;
    }
  }

  lemma {:induction false} CrowdedIsProper()
    ensures Proper(_ => 0, CrowdedRun())
  {
    BacklogIsDistinct(MAX_RESULTS + 1);
  }

  lemma {:induction false} CrowdedStaysOpen()
    ensures StaysOpen(CrowdedRun(), LATE, 0, 2) && MatchAtMost(CrowdedRun(), MAX_RESULTS + 1)
  {
    CrowdedMatches();
    var run := CrowdedRun();
    assert run[0].open[0].node == LATE && run[1].open[MAX_RESULTS].node == LATE && run[2].open[0].node == LATE;
  }

  /** One match too many, and an issue that was open and eligible all along is added, dropped and added again. */
  lemma {:induction false} CrowdedIssueIsReadded()
    ensures AddedBy({}, CrowdedRun(), LATE, 0) && AddedBy({}, CrowdedRun(), LATE, 2)
  {
    CrowdedMatches();
    var run := CrowdedRun();
    BoardIsRetrieved({}, run, 0);
    BoardIsRetrieved({}, run, 1);
    BoardIsRetrieved({}, run, 2);
    assert [LATE][..1] == [LATE] && LATE in [LATE];
  }

  /** The promise holds for runs of any length exactly as long as no search matches more than the cap. */
  lemma {:induction false} AddsOnlyOnceExactlyUpTo(n: nat)
    ensures AddsOnlyOnce(n) <==> n <= 1000
  {
    if n <= MAX_RESULTS {
      forall created: NodeId -> Day, initial: set<NodeId>, run: seq<Sync>, x: NodeId, i: nat, j: nat |
        Proper(created, run) && MatchAtMost(run, n) && i < j < |run| && StaysOpen(run, x, i, j)
        ensures OnlyOnce(initial, run, x, i, j)
      {
        if AddedBy(initial, run, x, i) {
          AddedAtMostOnce(created, initial, run, x, i, j);
        }
      }
    } else {
      CrowdedIsProper();
      CrowdedStaysOpen();
      CrowdedIssueIsReadded();
      assert !OnlyOnce({}, CrowdedRun(), LATE, 0, 2);
    }
  }
}
