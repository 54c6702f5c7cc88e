/**
 From candidates to the matches a comment may show (script/github-check-new-issue-for-duplicates.py):
 author-referenced candidates are dropped, a slate is offered to the model, its answer is resolved against
 the slate, and a second call judges every resolved match.  The model's answers are arbitrary values here.
 */
module MatchPipeline {
  import opened Options
  import opened Seqs
  import opened CandidateSelection

  /** One match as the model reports it; a missing key is `None`, a missing root cause is empty. */
  datatype Match = Match(key: Option<Key>, rootCause: string)

  datatype Answer = Answer(likely: seq<Match>, possible: seq<Match>, relatedClosed: seq<Match>)

  /** A failed call counts as `Omit`. */
  datatype Verdict = Keep | Downgrade | Omit

  datatype Resolved = Resolved(proposal: Match, candidate: Candidate)

  function Drop(cs: seq<Candidate>, referenced: set<Key>): (r: seq<Candidate>)
    ensures forall c :: c in r <==> c in cs && c.key !in referenced
  {
    if cs == [] then []
    else (if cs[0].key in referenced then [] else [cs[0]]) + Drop(cs[1..], referenced)
  }

  function Where(cs: seq<Candidate>, p: Candidate -> bool): (r: seq<Candidate>)
    ensures forall c :: c in r <==> c in cs && p(c)
  {
    if cs == [] then [] else (if p(cs[0]) then [cs[0]] else []) + Where(cs[1..], p)
  }

  function Magnets(cs: seq<Candidate>): seq<Candidate> {
    Where(cs, (c: Candidate) => c.isMagnet)
  }

  /** The issues in one state that are not also magnets. */
  function IssuesIn(cs: seq<Candidate>, state: string): seq<Candidate> {
    var magnetKeys := Keys(Magnets(cs));
    Where(cs, (c: Candidate) => c.isIssue && c.state == state && c.key !in magnetKeys)
  }

  function OpenDiscussions(cs: seq<Candidate>): seq<Candidate> {
    Where(cs, (c: Candidate) => !c.isIssue && c.state == "open")
  }

  /** The slate offered to the model. */
  function Slate(cs: seq<Candidate>): seq<Candidate> {
    FirstN(Magnets(cs), 10) + Select(IssuesIn(cs, "open"), 30) + Select(IssuesIn(cs, "closed"), 10)
    + FirstN(OpenDiscussions(cs), 10)
  }

  /**
   The slate: the first ten magnets, as many as thirty open and ten closed issues that are not magnets, no
   key twice among either, and the first ten open discussions; it is shorter only for want of candidates.
   */
  lemma {:induction false} SlateIsFull(cs: seq<Candidate>) returns (open: seq<Candidate>, closed: seq<Candidate>)
    ensures Slate(cs) == FirstN(Magnets(cs), 10) + open + closed + FirstN(OpenDiscussions(cs), 10)
    ensures DistinctKeys(open) && |open| == Min(30, |Keys(IssuesIn(cs, "open"))|)
    ensures DistinctKeys(closed) && |closed| == Min(10, |Keys(IssuesIn(cs, "closed"))|)
    ensures forall c :: c in open ==> c in cs && c.isIssue && c.state == "open" && c.key !in Keys(Magnets(cs))
    ensures forall c :: c in closed ==> c in cs && c.isIssue && c.state == "closed" && c.key !in Keys(Magnets(cs))
    ensures |Slate(cs)| <= 60
  {
    open, closed := Select(IssuesIn(cs, "open"), 30), Select(IssuesIn(cs, "closed"), 10);
    SelectionIsFull(IssuesIn(cs, "open"), 30);
    SelectionIsFull(IssuesIn(cs, "closed"), 10);
  }

  lemma {:induction false} SlateIsOffered(cs: seq<Candidate>, c: Candidate)
    requires c in Slate(cs)
    ensures c in cs
  {
    var open, closed := SlateIsFull(cs);
  }

  /** The slate indexed by key; a later candidate replaces an earlier one with the same key. */
  function ByKey(cs: seq<Candidate>): (m: map<Key, Candidate>)
    ensures forall k :: k in m ==> m[k] in cs && m[k].key == k
    ensures forall c :: c in cs ==> c.key in m
    ensures forall i :: 0 <= i < |cs| && (forall j :: i < j < |cs| ==> cs[j].key != cs[i].key) ==> m[cs[i].key] == cs[i]
  {
    if cs == [] then map[]
    else
      assert cs == cs[..|cs| - 1] + [cs[|cs| - 1]];
      ByKey(cs[..|cs| - 1])[cs[|cs| - 1].key := cs[|cs| - 1]]
  }

  // ----- resolving the model's answer -----

  /** The match names an offered candidate in the expected state, with a root cause if it is an open issue. */
  predicate Acceptable(m: Match, offered: map<Key, Candidate>, state: string) {
    && m.key.Some? && m.key.value in offered
    && var c := offered[m.key.value];
       && c.state == state
       && (c.isIssue && state == "open" ==> m.rootCause != "")
  }

  ghost predicate Resolves(r: Resolved, offered: map<Key, Candidate>, state: string) {
    && Acceptable(r.proposal, offered, state)
    && r.candidate == offered[r.proposal.key.value]
  }

  ghost predicate DistinctMatches(rs: seq<Resolved>) {
    forall i, j :: 0 <= i < j < |rs| ==> rs[i].proposal.key != rs[j].proposal.key
  }

  function MatchKeys(rs: seq<Resolved>): set<Option<Key>> {
    set r | r in rs :: r.proposal.key
  }

  lemma {:induction false} MatchKeysAppend(rs: seq<Resolved>, r: Resolved)
    ensures MatchKeys(rs + [r]) == MatchKeys(rs) + {r.proposal.key}
  {
    assert r in rs + [r];
    assert forall x :: x in rs ==> x in rs + [r];
  }

  /** One entry for each key with an acceptable match: the first such match. */
  function Resolve(matches: seq<Match>, offered: map<Key, Candidate>, state: string): seq<Resolved> {
    if matches == [] then []
    else
      var resolved := Resolve(matches[..|matches| - 1], offered, state);
      var m := matches[|matches| - 1];
      if Acceptable(m, offered, state) && m.key !in MatchKeys(resolved)
      then resolved + [Resolved(m, offered[m.key.value])] else resolved
  }

  method ResolveMatches(matches: seq<Match>, offered: map<Key, Candidate>, state: string)
    returns (resolved: seq<Resolved>)
    ensures resolved == Resolve(matches, offered, state)
  {
    resolved := [];
    var seen: set<Option<Key>> := {};
    for n := 0 to |matches|
      invariant resolved == Resolve(matches[..n], offered, state) && seen == MatchKeys(resolved)
    {
      var m := matches[n];
      assert matches[..n + 1][..n] == matches[..n];
      if m.key.None? || m.key.value !in offered || offered[m.key.value].state != state || m.key in seen {
        continue;
      }
      var candidate := offered[m.key.value];
      if candidate.isIssue && state == "open" && m.rootCause == "" {
        continue;
      }
      MatchKeysAppend(resolved, Resolved(m, candidate));
      seen := seen + {m.key};
      resolved := resolved + [Resolved(m, candidate)];
    }
    assert matches[..|matches|] == matches;
  }

  /** Resolution is sound, names no candidate twice, and loses no key that has an acceptable match. */
  lemma {:induction false} ResolveIsExact(matches: seq<Match>, offered: map<Key, Candidate>, state: string)
    ensures var rs := Resolve(matches, offered, state);
            && (forall r :: r in rs ==> Resolves(r, offered, state) && r.proposal in matches)
            && DistinctMatches(rs)
            && (forall m :: m in matches && Acceptable(m, offered, state) ==> m.key in MatchKeys(rs))
  {
    if matches != [] {
      var init, m := matches[..|matches| - 1], matches[|matches| - 1];
      ResolveIsExact(init, offered, state);
      var rs := Resolve(init, offered, state);
      assert matches == init + [m];
      if Acceptable(m, offered, state) {
        MatchKeysAppend(rs, Resolved(m, offered[m.key.value]));
      }
      assert forall i :: 0 <= i < |rs| ==> rs[i].proposal.key in MatchKeys(rs) by {
        assert forall i :: 0 <= i < |rs| ==> rs[i] in rs;
      }
    }
  }

  function Without(rs: seq<Resolved>, keys: set<Option<Key>>): (r: seq<Resolved>)
    ensures forall x :: x in r <==> x in rs && x.proposal.key !in keys
  {
    if rs == [] then []
    else
      assert rs == rs[..|rs| - 1] + [rs[|rs| - 1]];
      Without(rs[..|rs| - 1], keys) + (if rs[|rs| - 1].proposal.key in keys then [] else [rs[|rs| - 1]])
  }

  lemma {:induction false} WithoutKeepsDistinct(rs: seq<Resolved>, keys: set<Option<Key>>)
    requires DistinctMatches(rs)
    ensures DistinctMatches(Without(rs, keys))
  {
    if rs != [] {
      var init, last := rs[..|rs| - 1], rs[|rs| - 1];
      WithoutKeepsDistinct(init, keys);
      var kept := Without(init, keys);
      assert forall i :: 0 <= i < |kept| ==> kept[i] in init && kept[i].proposal.key != last.proposal.key by {
        assert forall i :: 0 <= i < |kept| ==> kept[i] in kept;
      }
    }
  }

  // ----- the second opinion -----

  /** The matches whose verdict is `v`; the verdict on `rs[i]` is `verdicts(base + i)`. */
  function Given(rs: seq<Resolved>, verdicts: nat -> Verdict, base: nat, v: Verdict): (r: seq<Resolved>)
    ensures forall x :: x in r ==> x in rs
  {
    if rs == [] then []
    else
      assert rs == rs[..|rs| - 1] + [rs[|rs| - 1]];
      Given(rs[..|rs| - 1], verdicts, base, v)
      + (if verdicts(base + |rs| - 1) == v then [rs[|rs| - 1]] else [])
  }

  /** `x` is an entry of `rs` whose own verdict is `v`. */
  ghost predicate JudgedAs(rs: seq<Resolved>, verdicts: nat -> Verdict, base: nat, v: Verdict, x: Resolved) {
    exists i :: 0 <= i < |rs| && rs[i] == x && verdicts(base + i) == v
  }

  /** Exactly the matches with that verdict. */
  lemma {:induction false} GivenExactly(rs: seq<Resolved>, verdicts: nat -> Verdict, base: nat, v: Verdict, x: Resolved)
    ensures x in Given(rs, verdicts, base, v) <==> JudgedAs(rs, verdicts, base, v, x)
  {
    if rs != [] {
      var init, n := rs[..|rs| - 1], |rs| - 1;
      GivenExactly(init, verdicts, base, v, x);
      assert forall i :: 0 <= i < n ==> init[i] == rs[i];
      if JudgedAs(init, verdicts, base, v, x) {
        var i :| 0 <= i < n && init[i] == x && verdicts(base + i) == v;
        assert rs[i] == x;
      }
    }
  }

  /** Judges the likely matches, then the possible ones; a likely match may be downgraded, never the reverse. */
  method CritiqueProposedMatches(likely: seq<Resolved>, possible: seq<Resolved>, verdicts: nat -> Verdict)
    returns (keptLikely: seq<Resolved>, keptPossible: seq<Resolved>)
    ensures keptLikely == Given(likely, verdicts, 0, Keep)
    ensures keptPossible == Given(likely, verdicts, 0, Downgrade) + Given(possible, verdicts, |likely|, Keep)
  {
    keptLikely, keptPossible := [], [];
    for i := 0 to |likely|
      invariant keptLikely == Given(likely[..i], verdicts, 0, Keep)
      invariant keptPossible == Given(likely[..i], verdicts, 0, Downgrade)
    {
      assert likely[..i + 1][..i] == likely[..i];
      match verdicts(i) {
        case Keep => keptLikely := keptLikely + [likely[i]];
        case Downgrade => keptPossible := keptPossible + [likely[i]];
        case Omit =>
      }
    }
    assert likely[..|likely|] == likely;
    for i := 0 to |possible|
      invariant keptLikely == Given(likely, verdicts, 0, Keep)
      invariant keptPossible == Given(likely, verdicts, 0, Downgrade) + Given(possible[..i], verdicts, |likely|, Keep)
    {
      assert possible[..i + 1][..i] == possible[..i];
      if verdicts(|likely| + i) == Keep {
        keptPossible := keptPossible + [possible[i]];
      }
    }
    assert possible[..|possible|] == possible;
  }

  /** `sub` picks entries of `rs` at increasing positions, so it repeats nothing that `rs` does not. */
  ghost predicate Picks(sub: seq<Resolved>, rs: seq<Resolved>, at: seq<nat>) {
    && |at| == |sub|
    && (forall i :: 0 <= i < |at| ==> at[i] < |rs| && sub[i] == rs[at[i]])
    && (forall i, j :: 0 <= i < j < |at| ==> at[i] < at[j])
  }

  lemma {:induction false} GivenPicks(rs: seq<Resolved>, n: nat, verdicts: nat -> Verdict, base: nat, v: Verdict)
    returns (at: seq<nat>)
    requires n <= |rs|
    ensures Picks(Given(rs[..n], verdicts, base, v), rs, at)
    ensures forall i :: 0 <= i < |at| ==> at[i] < n && verdicts(base + at[i]) == v
  {
    if n == 0 {
      at := [];
    } else {
      at := GivenPicks(rs, n - 1, verdicts, base, v);
      assert rs[..n][..n - 1] == rs[..n - 1];
      if verdicts(base + n - 1) == v {
        at := at + [n - 1];
      }
    }
  }

  lemma {:induction false} PicksOfDistinct(a: seq<Resolved>, b: seq<Resolved>, rs: seq<Resolved>, atA: seq<nat>,
          atB: seq<nat>)
    requires DistinctMatches(rs) && Picks(a, rs, atA) && Picks(b, rs, atB)
    requires forall i, j :: 0 <= i < |atA| && 0 <= j < |atB| ==> atA[i] != atB[j]
    ensures DistinctMatches(a + b)
  {
    forall i, j | 0 <= i < j < |a + b| ensures (a + b)[i].proposal.key != (a + b)[j].proposal.key {
      var p := if i < |a| then atA[i] else atB[i - |a|];
      var q := if j < |a| then atA[j] else atB[j - |a|];
      assert p != q;
    }
  }

  lemma {:induction false} DistinctUnion(a: seq<Resolved>, b: seq<Resolved>)
    requires DistinctMatches(a) && DistinctMatches(b)
    requires forall x, y :: x in a && y in b ==> x.proposal.key != y.proposal.key
    ensures DistinctMatches(a + b)
  {
    forall i, j | 0 <= i < j < |a + b| ensures (a + b)[i].proposal.key != (a + b)[j].proposal.key {
      if i < |a| <= j {
        assert a[i] in a && b[j - |a|] in b;
      }
    }
  }

  // ----- the whole pipeline, for every answer and every verdict -----

  /** What may be shown: an open candidate the author did not mention, with a root cause if it is an issue. */
  ghost predicate Showable(r: Resolved, candidates: seq<Candidate>, referenced: set<Key>) {
    && r.candidate in candidates
    && r.candidate.key !in referenced
    && r.candidate.state == "open"
    && r.proposal.key == Some(r.candidate.key)
    && (r.candidate.isIssue ==> r.proposal.rootCause != "")
  }

  lemma {:induction false} ShownWereProposed(likely: seq<Resolved>, possible: seq<Resolved>, l: seq<Resolved>,
          p: seq<Resolved>)
    requires forall x :: x in likely ==> x in l
    requires forall x :: x in possible ==> x in l || x in p
    ensures forall x :: x in likely + possible ==> x in l + p
  {
  }

  lemma {:induction false} ResolvedIsShowable(candidates: seq<Candidate>, referenced: set<Key>, r: Resolved)
    requires Resolves(r, ByKey(Slate(Drop(candidates, referenced))), "open")
    ensures Showable(r, candidates, referenced)
  {
    SlateIsOffered(Drop(candidates, referenced), r.candidate);
  }

  /** The likely and possible matches handed to the critique. */
  function Proposed(candidates: seq<Candidate>, referenced: set<Key>, answer: Answer): (seq<Resolved>, seq<Resolved>) {
    var offered := ByKey(Slate(Drop(candidates, referenced)));
    var likely := Resolve(answer.likely, offered, "open");
    (likely, Without(Resolve(answer.possible, offered, "open"), MatchKeys(likely)))
  }

  lemma {:induction false} ProposedIsDistinct(candidates: seq<Candidate>, referenced: set<Key>, answer: Answer)
    ensures var (likely, possible) := Proposed(candidates, referenced, answer);
            && DistinctMatches(likely + possible)
            && (forall r :: r in likely ==> Showable(r, candidates, referenced) && r.proposal in answer.likely)
            && (forall r :: r in possible ==> Showable(r, candidates, referenced) && r.proposal in answer.possible)
            && (forall r :: r in likely + possible ==> Resolves(r, ByKey(Slate(Drop(candidates, referenced))), "open"))
  {
    var offered := ByKey(Slate(Drop(candidates, referenced)));
    var (likely, possible) := Proposed(candidates, referenced, answer);
    ResolveIsExact(answer.likely, offered, "open");
    ResolveIsExact(answer.possible, offered, "open");
    WithoutKeepsDistinct(Resolve(answer.possible, offered, "open"), MatchKeys(likely));
    DistinctUnion(likely, possible);
    forall r | r in likely + possible ensures Showable(r, candidates, referenced) {
      ResolvedIsShowable(candidates, referenced, r);
    }
  }

  /** What may be shown as related: a closed candidate the author did not mention. */
  ghost predicate Related(r: Resolved, candidates: seq<Candidate>, referenced: set<Key>) {
    && r.candidate in candidates
    && r.candidate.key !in referenced
    && r.candidate.state == "closed"
    && r.proposal.key == Some(r.candidate.key)
  }

  /** A key resolves to one candidate, so nothing is both an open match and a closed one. */
  lemma {:induction false} ClosedIsApart(candidates: seq<Candidate>, referenced: set<Key>, open: seq<Resolved>,
          matches: seq<Match>)
    requires forall r :: r in open ==> Resolves(r, ByKey(Slate(Drop(candidates, referenced))), "open")
    requires DistinctMatches(open)
    ensures var closed := Resolve(matches, ByKey(Slate(Drop(candidates, referenced))), "closed");
            && DistinctMatches(open + closed)
            && (forall r :: r in closed ==> Related(r, candidates, referenced) && r.proposal in matches)
  {
    var offered := ByKey(Slate(Drop(candidates, referenced)));
    var closed := Resolve(matches, offered, "closed");
    ResolveIsExact(matches, offered, "closed");
    forall r | r in closed ensures Related(r, candidates, referenced) {
      SlateIsOffered(Drop(candidates, referenced), r.candidate);
    }
    forall x, y | x in open && y in closed ensures x.proposal.key != y.proposal.key {
      assert Resolves(x, offered, "open") && Resolves(y, offered, "closed");
    }
    DistinctUnion(open, closed);
  }

  lemma {:induction false} PartsOfDistinct(a: seq<Resolved>, b: seq<Resolved>)
    requires DistinctMatches(a + b)
    ensures DistinctMatches(a) && DistinctMatches(b)
    ensures forall x, y :: x in a && y in b ==> x.proposal.key != y.proposal.key
  {
    var ab := a + b;
    forall i, j | 0 <= i < j < |a| ensures a[i].proposal.key != a[j].proposal.key {
      assert ab[i] == a[i] && ab[j] == a[j];
    }
    forall i, j | 0 <= i < j < |b| ensures b[i].proposal.key != b[j].proposal.key {
      assert ab[|a| + i] == b[i] && ab[|a| + j] == b[j];
    }
    forall x, y | x in a && y in b ensures x.proposal.key != y.proposal.key {
      var i :| 0 <= i < |a| && a[i] == x;
      var j :| 0 <= j < |b| && b[j] == y;
      assert ab[i] == x && ab[|a| + j] == y;
    }
  }

  /** No match is both kept and downgraded. */
  lemma {:induction false} SplitIsDistinct(rs: seq<Resolved>, verdicts: nat -> Verdict)
    requires DistinctMatches(rs)
    ensures DistinctMatches(Given(rs, verdicts, 0, Keep) + Given(rs, verdicts, 0, Downgrade))
  {
    assert rs[..|rs|] == rs;
    var atKept := GivenPicks(rs, |rs|, verdicts, 0, Keep);
    var atDown := GivenPicks(rs, |rs|, verdicts, 0, Downgrade);
    assert forall i, j :: 0 <= i < |atKept| && 0 <= j < |atDown| ==> verdicts(0 + atKept[i]) != verdicts(0 + atDown[j]);
    PicksOfDistinct(Given(rs, verdicts, 0, Keep), Given(rs, verdicts, 0, Downgrade), rs, atKept, atDown);
  }

  lemma {:induction false} GivenIsDistinct(rs: seq<Resolved>, verdicts: nat -> Verdict, base: nat, v: Verdict)
    requires DistinctMatches(rs)
    ensures DistinctMatches(Given(rs, verdicts, base, v))
  {
    assert rs[..|rs|] == rs;
    var at := GivenPicks(rs, |rs|, verdicts, base, v);
    PicksOfDistinct(Given(rs, verdicts, base, v), [], rs, at, []);
    assert Given(rs, verdicts, base, v) + [] == Given(rs, verdicts, base, v);
  }

  lemma {:induction false} ConcatAssociates(a: seq<Resolved>, b: seq<Resolved>, c: seq<Resolved>)
    ensures a + b + c == a + (b + c)
  {
  }

  /** Judging distinct matches leaves distinct matches, whatever the verdicts. */
  lemma {:induction false} JudgedIsDistinct(likely: seq<Resolved>, possible: seq<Resolved>, verdicts: nat -> Verdict)
    requires DistinctMatches(likely + possible)
    ensures DistinctMatches(Given(likely, verdicts, 0, Keep)
                            + (Given(likely, verdicts, 0, Downgrade) + Given(possible, verdicts, |likely|, Keep)))
  {
    var kept := Given(likely, verdicts, 0, Keep);
    var down := Given(likely, verdicts, 0, Downgrade);
    var rest := Given(possible, verdicts, |likely|, Keep);
    PartsOfDistinct(likely, possible);
    SplitIsDistinct(likely, verdicts);
    GivenIsDistinct(possible, verdicts, |likely|, Keep);
    DistinctUnion(kept + down, rest);
    ConcatAssociates(kept, down, rest);
  }

  /** Every key with an acceptable match is proposed: as likely if the model said so anywhere, else as possible. */
  lemma {:induction false} ProposedIsComplete(candidates: seq<Candidate>, referenced: set<Key>, answer: Answer,
          m: Match)
    requires Acceptable(m, ByKey(Slate(Drop(candidates, referenced))), "open")
    ensures var (likely, possible) := Proposed(candidates, referenced, answer);
            && (m in answer.likely ==> m.key in MatchKeys(likely))
            && (m in answer.possible ==> m.key in MatchKeys(likely) || m.key in MatchKeys(possible))
  {
    var offered := ByKey(Slate(Drop(candidates, referenced)));
    ResolveIsExact(answer.likely, offered, "open");
    ResolveIsExact(answer.possible, offered, "open");
    var resolved := Resolve(answer.possible, offered, "open");
    if m in answer.possible && m.key !in MatchKeys(Resolve(answer.likely, offered, "open")) {
      var r :| r in resolved && r.proposal.key == m.key;
      assert r in Proposed(candidates, referenced, answer).1;
    }
  }

  /**
   Whatever the model answers and however it then judges, the three lists are repetition-free and disjoint,
   hold only candidates that may be shown there, and promote nothing the model called merely possible; and
   a proposed match is shown exactly if its own verdict allows it.
   */
  method FindMatches(candidates: seq<Candidate>, referenced: set<Key>, answer: Answer, verdicts: nat -> Verdict)
    returns (likely: seq<Resolved>, possible: seq<Resolved>, relatedClosed: seq<Resolved>)
    ensures var (l, p) := Proposed(candidates, referenced, answer);
            && (forall x :: x in likely <==> JudgedAs(l, verdicts, 0, Keep, x))
            && (forall x :: x in possible <==>
                  JudgedAs(l, verdicts, 0, Downgrade, x) || JudgedAs(p, verdicts, |l|, Keep, x))
    ensures relatedClosed == Resolve(answer.relatedClosed, ByKey(Slate(Drop(candidates, referenced))), "closed")
    ensures forall r :: r in likely + possible ==> Showable(r, candidates, referenced)
    ensures forall r :: r in relatedClosed ==> Related(r, candidates, referenced) && r.proposal in answer.relatedClosed
    ensures DistinctMatches(likely + possible + relatedClosed)
    ensures forall r :: r in likely ==> r.proposal in answer.likely
    ensures forall r :: r in possible ==> r.proposal in answer.likely || r.proposal in answer.possible
  {
    var offered := ByKey(Slate(Drop(candidates, referenced)));
    var l := ResolveMatches(answer.likely, offered, "open");
    var p := ResolveMatches(answer.possible, offered, "open");
    p := Without(p, MatchKeys(l));
    relatedClosed := ResolveMatches(answer.relatedClosed, offered, "closed");
    ProposedIsDistinct(candidates, referenced, answer);
    JudgedIsDistinct(l, p, verdicts);
    likely, possible := CritiqueProposedMatches(l, p, verdicts);
    JudgedExactly(l, p, verdicts);
    ShownWereProposed(likely, possible, l, p);
    ClosedIsApart(candidates, referenced, likely + possible, answer.relatedClosed);
  }

  lemma {:induction false} JudgedExactly(l: seq<Resolved>, p: seq<Resolved>, verdicts: nat -> Verdict)
    ensures forall x :: x in Given(l, verdicts, 0, Keep) <==> JudgedAs(l, verdicts, 0, Keep, x)
    ensures forall x :: x in Given(l, verdicts, 0, Downgrade) + Given(p, verdicts, |l|, Keep) <==>
              JudgedAs(l, verdicts, 0, Downgrade, x) || JudgedAs(p, verdicts, |l|, Keep, x)
  {
    forall x ensures x in Given(l, verdicts, 0, Keep) <==> JudgedAs(l, verdicts, 0, Keep, x) {
      GivenExactly(l, verdicts, 0, Keep, x);
    }
    forall x ensures x in Given(l, verdicts, 0, Downgrade) + Given(p, verdicts, |l|, Keep) <==>
                       JudgedAs(l, verdicts, 0, Downgrade, x) || JudgedAs(p, verdicts, |l|, Keep, x)
    {
      GivenExactly(l, verdicts, 0, Downgrade, x);
      GivenExactly(p, verdicts, |l|, Keep, x);
    }
  }

  /**
   If the second opinion keeps everything, every key with an acceptable match is kept, and as likely if so
   answered.
   */
  lemma {:induction false} NothingKeptIsLost(candidates: seq<Candidate>, referenced: set<Key>, answer: Answer,
          verdicts: nat -> Verdict, m: Match)
    returns (x: Resolved)
    requires Acceptable(m, ByKey(Slate(Drop(candidates, referenced))), "open") && forall n :: verdicts(n) == Keep
    requires m in answer.likely || m in answer.possible
    ensures x.proposal.key == m.key
    ensures var (l, p) := Proposed(candidates, referenced, answer);
            if m in answer.likely then JudgedAs(l, verdicts, 0, Keep, x)
            else JudgedAs(l, verdicts, 0, Keep, x) || JudgedAs(p, verdicts, |l|, Keep, x)
  {
    var (l, p) := Proposed(candidates, referenced, answer);
    ProposedIsComplete(candidates, referenced, answer, m);
    if m.key in MatchKeys(l) {
      x :| x in l && x.proposal.key == m.key;
      var i :| 0 <= i < |l| && l[i] == x;
    } else {
      x :| x in p && x.proposal.key == m.key;
      var i :| 0 <= i < |p| && p[i] == x;
    }
  }
}
