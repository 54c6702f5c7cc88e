/**
 Which candidates reach the model and the author (script/github-check-new-issue-for-duplicates.py:831-1071),
 said of the candidates' own fields.
 */
module SlateRules {
  import opened Options
  import opened Seqs
  import opened CandidateSelection
  import opened MatchPipeline

  function Count(cs: seq<Candidate>, p: Candidate -> bool): nat {
    if cs == [] then 0 else Count(cs[..|cs| - 1], p) + if p(cs[|cs| - 1]) then 1 else 0
  }

  lemma {:induction false} CountFront(cs: seq<Candidate>, p: Candidate -> bool)
    requires cs != []
    ensures Count(cs, p) == (if p(cs[0]) then 1 else 0) + Count(cs[1..], p)
  {
    if |cs| > 1 {
      var init := cs[..|cs| - 1];
      CountFront(init, p);
      assert init[1..] == cs[1..][..|cs| - 2];
    }
  }

  /** The `n`th candidate that satisfies `p` is in place `n` of those that do. */
  lemma {:induction false} WhereAt(cs: seq<Candidate>, p: Candidate -> bool, i: nat)
    requires i < |cs| && p(cs[i])
    ensures Count(cs[..i], p) < |Where(cs, p)| && Where(cs, p)[Count(cs[..i], p)] == cs[i]
  {
    if i > 0 {
      WhereAt(cs[1..], p, i - 1);
      CountFront(cs[..i], p);
      assert cs[..i][1..] == cs[1..][..i - 1];
    }
  }

  // ----- the slate -----

  /** The first ten magnets open the slate, in their order. */
  lemma {:induction false} FirstTenMagnets(cs: seq<Candidate>, i: nat)
    requires i < |cs| && cs[i].isMagnet
    ensures var before := Count(cs[..i], (c: Candidate) => c.isMagnet);
            before < 10 ==> before < |Slate(cs)| && Slate(cs)[before] == cs[i]
  {
    WhereAt(cs, (c: Candidate) => c.isMagnet, i);
  }

  /** The first ten open discussions are on the slate. */
  lemma {:induction false} FirstTenDiscussions(cs: seq<Candidate>, i: nat)
    requires i < |cs| && !cs[i].isIssue && cs[i].state == "open"
    requires Count(cs[..i], (c: Candidate) => !c.isIssue && c.state == "open") < 10
    ensures cs[i] in Slate(cs)
  {
    var n := Count(cs[..i], (c: Candidate) => !c.isIssue && c.state == "open");
    WhereAt(cs, (c: Candidate) => !c.isIssue && c.state == "open", i);
    assert FirstN(OpenDiscussions(cs), 10)[n] == cs[i];
    assert cs[i] in FirstN(OpenDiscussions(cs), 10);
  }

  /** `k` is the key of a magnet. */
  predicate MagnetKey(cs: seq<Candidate>, k: Key) {
    exists m :: m in cs && m.isMagnet && m.key == k
  }

  /** The keys of the issues of `xs` in one state, but for magnets of `cs`. */
  function IssueKeys(xs: seq<Candidate>, cs: seq<Candidate>, state: string): set<Key> {
    set x | x in xs && x.isIssue && x.state == state && !MagnetKey(cs, x.key) :: x.key
  }

  lemma {:induction false} IssueKeysOnSlate(cs: seq<Candidate>, open: seq<Candidate>, closed: seq<Candidate>)
    requires Slate(cs) == FirstN(Magnets(cs), 10) + open + closed + FirstN(OpenDiscussions(cs), 10)
    requires forall c :: c in open ==> c.isIssue && c.state == "open" && c.key !in Keys(Magnets(cs))
    requires forall c :: c in closed ==> c.isIssue && c.state == "closed" && c.key !in Keys(Magnets(cs))
    ensures IssueKeys(Slate(cs), cs, "open") == Keys(open)
    ensures IssueKeys(Slate(cs), cs, "closed") == Keys(closed)
  {
    assert "open" != "closed" by {
      assert |"open"| == 4 && |"closed"| == 6;
    }
    var magnets, talks := FirstN(Magnets(cs), 10), FirstN(OpenDiscussions(cs), 10);
    assert forall c :: c in magnets ==> c in Magnets(cs);
    assert forall c :: c in talks ==> c in OpenDiscussions(cs);
    assert forall k :: MagnetKey(cs, k) <==> k in Keys(Magnets(cs));
    assert forall c :: c in Slate(cs) <==> c in magnets || c in open || c in closed || c in talks;
  }

  /** As many distinct issues as fit are offered: thirty open ones and ten closed ones. */
  lemma {:induction false} IssuesOffered(cs: seq<Candidate>)
    ensures var open, offered := IssueKeys(cs, cs, "open"), IssueKeys(Slate(cs), cs, "open");
            offered <= open && |offered| == if |open| < 30 then |open| else 30
    ensures var closed, offered := IssueKeys(cs, cs, "closed"), IssueKeys(Slate(cs), cs, "closed");
            offered <= closed && |offered| == if |closed| < 10 then |closed| else 10
  {
    var open, closed := SlateIsFull(cs);
    IssueKeysOnSlate(cs, open, closed);
    DistinctKeysCount(open);
    DistinctKeysCount(closed);
    assert forall k :: MagnetKey(cs, k) <==> k in Keys(Magnets(cs));
    assert IssueKeys(cs, cs, "open") == Keys(IssuesIn(cs, "open"));
    assert IssueKeys(cs, cs, "closed") == Keys(IssuesIn(cs, "closed"));
  }

  lemma {:induction false} SubsetOfSameSize<T>(a: set<T>, b: set<T>)
    requires a <= b && |a| == |b|
    ensures a == b
  {
    if x :| x in b && x !in a {
      SubsetSize(a, b - {x});
    }
  }

  /** An issue that is no magnet is offered, unless the places for its state are all taken by others. */
  lemma {:induction false} IssueIsOffered(cs: seq<Candidate>, c: Candidate)
    requires c in cs && c.isIssue && c.state in {"open", "closed"}
    requires forall m :: m in cs && m.isMagnet ==> m.key != c.key
    ensures c.key in Keys(Slate(cs))
            || |IssueKeys(Slate(cs), cs, c.state)| == if c.state == "open" then 30 else 10
  {
    IssuesOffered(cs);
    var given, offered := IssueKeys(cs, cs, c.state), IssueKeys(Slate(cs), cs, c.state);
    assert c.key in given;
    if |offered| == |given| {
      SubsetOfSameSize(offered, given);
    }
  }

  /** Nothing but candidates is offered, and of these no closed discussion that is no magnet. */
  lemma {:induction false} NothingElseIsOffered(cs: seq<Candidate>, c: Candidate)
    requires c in Slate(cs)
    ensures c in cs && |Slate(cs)| <= 60
    ensures c.isMagnet || (c.isIssue && c.state in {"open", "closed"}) || (!c.isIssue && c.state == "open")
  {
    var open, closed := SlateIsFull(cs);
    assert forall x :: x in FirstN(Magnets(cs), 10) ==> x in Magnets(cs);
    assert forall x :: x in FirstN(OpenDiscussions(cs), 10) ==> x in OpenDiscussions(cs);
  }

  // ----- what becomes of an answer -----

  /** `c` is the only candidate on the slate with its key. */
  ghost predicate OnSlate(candidates: seq<Candidate>, referenced: set<Key>, c: Candidate) {
    && c in Slate(Drop(candidates, referenced))
    && forall d :: d in Slate(Drop(candidates, referenced)) && d.key == c.key ==> d == c
  }

  lemma {:induction false} OfferedByKey(candidates: seq<Candidate>, referenced: set<Key>, c: Candidate)
    requires OnSlate(candidates, referenced, c)
    ensures var offered := ByKey(Slate(Drop(candidates, referenced))); c.key in offered && offered[c.key] == c
  {
  }

  lemma {:induction false} ProposedResolves(candidates: seq<Candidate>, referenced: set<Key>, answer: Answer,
          x: Resolved)
    requires var (likely, possible) := Proposed(candidates, referenced, answer); x in likely || x in possible
    ensures Resolves(x, ByKey(Slate(Drop(candidates, referenced))), "open")
  {
    var offered := ByKey(Slate(Drop(candidates, referenced)));
    ResolveIsExact(answer.likely, offered, "open");
    ResolveIsExact(answer.possible, offered, "open");
  }

  /**
   An open candidate the model matches, giving a root cause if it is an issue, is proposed: as likely if the
   model said so.  If the second opinion keeps everything, that is how it is shown.
   */
  lemma {:induction false} MatchIsShown(candidates: seq<Candidate>, referenced: set<Key>, answer: Answer,
          verdicts: nat -> Verdict, m: Match, c: Candidate)
    returns (x: Resolved)
    requires OnSlate(candidates, referenced, c) && c.state == "open"
    requires m.key == Some(c.key) && (c.isIssue ==> m.rootCause != "")
    requires (m in answer.likely || m in answer.possible) && forall n :: verdicts(n) == Keep
    ensures x.candidate == c && x.proposal.key == m.key
    ensures var (likely, possible) := Proposed(candidates, referenced, answer);
            if m in answer.likely then JudgedAs(likely, verdicts, 0, Keep, x)
            else JudgedAs(likely, verdicts, 0, Keep, x) || JudgedAs(possible, verdicts, |likely|, Keep, x)
  {
    OfferedByKey(candidates, referenced, c);
    x := NothingKeptIsLost(candidates, referenced, answer, verdicts, m);
    ProposedResolves(candidates, referenced, answer, x);
  }

  /** A closed candidate the model relates is shown as related, with or without a root cause. */
  lemma {:induction false} RelatedIsShown(candidates: seq<Candidate>, referenced: set<Key>, matches: seq<Match>,
          m: Match, c: Candidate)
    returns (x: Resolved)
    requires OnSlate(candidates, referenced, c) && c.state == "closed" && m.key == Some(c.key) && m in matches
    ensures x in Resolve(matches, ByKey(Slate(Drop(candidates, referenced))), "closed")
    ensures x.candidate == c && x.proposal.key == m.key
  {
    assert "open" != "closed" by {
      assert |"open"| == 4 && |"closed"| == 6;
    }
    var offered := ByKey(Slate(Drop(candidates, referenced)));
    OfferedByKey(candidates, referenced, c);
    ResolveIsExact(matches, offered, "closed");
    x :| x in Resolve(matches, offered, "closed") && x.proposal.key == m.key;
  }

  /** Of several acceptable matches for one key the first counts. */
  lemma {:induction false} FirstMatchCounts(matches: seq<Match>, offered: map<Key, Candidate>, state: string, i: nat)
    requires i < |matches| && matches[i].key.Some? && matches[i].key.value in offered
    requires offered[matches[i].key.value].state == state
    requires offered[matches[i].key.value].isIssue && state == "open" ==> matches[i].rootCause != ""
    requires forall j :: 0 <= j < i && matches[j].key == matches[i].key ==>
               state == "open" && offered[matches[i].key.value].isIssue && matches[j].rootCause == ""
    ensures Resolved(matches[i], offered[matches[i].key.value]) in Resolve(matches, offered, state)
  {
    var init, last := matches[..|matches| - 1], |matches| - 1;
    if i < last {
      FirstMatchCounts(init, offered, state, i);
    } else {
      ResolveIsExact(init, offered, state);
      assert matches[i].key !in MatchKeys(Resolve(init, offered, state));
    }
  }

  // ----- order -----

  /** Dropping what the author mentions keeps the others in order. */
  lemma {:induction false} DropIsWhere(cs: seq<Candidate>, referenced: set<Key>)
    ensures Drop(cs, referenced) == Where(cs, (c: Candidate) => c.key !in referenced)
  {
    if cs != [] {
      DropIsWhere(cs[1..], referenced);
    }
  }

  /** The resolved matches are in the order in which the model gave them. */
  lemma {:induction false} ResolvedInOrder(matches: seq<Match>, offered: map<Key, Candidate>, state: string)
    returns (at: seq<nat>)
    ensures |at| == |Resolve(matches, offered, state)|
    ensures forall i :: 0 <= i < |at| ==>
              at[i] < |matches| && Resolve(matches, offered, state)[i].proposal == matches[at[i]]
    ensures forall i, j :: 0 <= i < j < |at| ==> at[i] < at[j]
  {
    at := [];
    if matches != [] {
      at := ResolvedInOrder(matches[..|matches| - 1], offered, state);
      if |Resolve(matches, offered, state)| > |at| {
        at := at + [|matches| - 1];
      }
    }
  }

  /** Leaving out the keys already proposed as likely keeps the others in order. */
  lemma {:induction false} WithoutInOrder(rs: seq<Resolved>, n: nat, keys: set<Option<Key>>) returns (at: seq<nat>)
    requires n <= |rs|
    ensures Picks(Without(rs[..n], keys), rs, at) && forall i :: 0 <= i < |at| ==> at[i] < n
  {
    if n == 0 {
      at := [];
    } else {
      at := WithoutInOrder(rs, n - 1, keys);
      assert rs[..n][..n - 1] == rs[..n - 1] && rs[..n][n - 1] == rs[n - 1];
      if rs[n - 1].proposal.key !in keys {
        at := at + [n - 1];
      }
    }
  }
}
