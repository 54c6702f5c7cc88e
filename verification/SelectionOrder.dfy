/**
 The order in which candidates are selected (script/github-check-new-issue-for-duplicates.py:613-638): whose
 key comes first among the offers has the first claim to a place.
 */
module SelectionOrder {
  import opened Seqs
  import opened CandidateSelection

  /** The first candidate with each key, in order. */
  function FirstOfEach(cs: seq<Candidate>): (r: seq<Candidate>)
    ensures forall c :: c in r ==> c in cs
  {
    if cs == [] then []
    else
      var r := FirstOfEach(cs[..|cs| - 1]);
      if cs[|cs| - 1].key in Keys(r) then r else r + [cs[|cs| - 1]]
  }

  lemma {:induction false} FirstOfEachKeys(cs: seq<Candidate>)
    ensures DistinctKeys(FirstOfEach(cs)) && Keys(FirstOfEach(cs)) == Keys(cs)
  {
    if cs != [] {
      var init, last := cs[..|cs| - 1], cs[|cs| - 1];
      FirstOfEachKeys(init);
      assert cs == init + [last];
      KeysAppend(init, last);
      KeysAppend(FirstOfEach(init), last);
      if last.key !in Keys(FirstOfEach(init)) {
        DistinctAppend(FirstOfEach(init), last);
      }
    }
  }

  /** No candidate before place `i` has the key `k`. */
  ghost predicate NoneBefore(cs: seq<Candidate>, k: Key, i: nat)
    requires i <= |cs|
  {
    forall j :: 0 <= j < i ==> cs[j].key != k
  }

  lemma {:induction false} NoneBeforeMeansNoKey(cs: seq<Candidate>, k: Key)
    ensures NoneBefore(cs, k, |cs|) <==> k !in Keys(cs)
  {
    if k in Keys(cs) {
      var d :| d in cs && d.key == k;
      var j :| 0 <= j < |cs| && cs[j] == d;
    }
    assert forall j :: 0 <= j < |cs| ==> cs[j] in cs;
  }

  /** Kept are the candidates that come before all others with their key. */
  lemma {:induction false} FirstOfEachExactly(cs: seq<Candidate>, c: Candidate)
    ensures c in FirstOfEach(cs) <==> exists i: nat :: i < |cs| && cs[i] == c && NoneBefore(cs, c.key, i)
  {
    if cs != [] {
      var init, last, n := cs[..|cs| - 1], cs[|cs| - 1], |cs| - 1;
      FirstOfEachExactly(init, c);
      FirstOfEachKeys(init);
      NoneBeforeMeansNoKey(init, last.key);
      assert forall i: nat :: i < n ==> init[i] == cs[i];
      assert forall i: nat :: i <= n ==> (NoneBefore(init, c.key, i) <==> NoneBefore(cs, c.key, i));
      assert c in FirstOfEach(cs) <==> c in FirstOfEach(init) || (c == last && NoneBefore(cs, c.key, n));
    }
  }

  lemma {:induction false} AddAllConcat(selected: seq<Candidate>, a: seq<Candidate>, b: seq<Candidate>, limit: nat)
    ensures AddAll(selected, a + b, limit) == AddAll(AddAll(selected, a, limit), b, limit)
  {
    if b == [] {
      assert a + b == a;
    } else {
      assert (a + b)[..|a + b| - 1] == a + b[..|b| - 1];
      AddAllConcat(selected, a, b[..|b| - 1], limit);
    }
  }

  lemma {:induction false} AddAllIsPrefix(cs: seq<Candidate>, limit: nat)
    ensures AddAll([], cs, limit) == FirstN(FirstOfEach(cs), limit)
  {
    if cs != [] {
      AddAllIsPrefix(cs[..|cs| - 1], limit);
      var r := FirstOfEach(cs[..|cs| - 1]);
      if |r| < limit {
        assert FirstN(r, limit) == r;
      } else {
        assert FirstN(r + [cs[|cs| - 1]], limit) == FirstN(r, limit);
      }
    }
  }

  /** The `n`th match of a channel is in place `n` among its matches. */
  lemma {:induction false} MatchingAt(cs: seq<Candidate>, channel: Channel, i: nat)
    requires i < |cs| && channel in cs[i].searches
    ensures var n := |Matching(cs[..i], channel)|;
            n < |Matching(cs, channel)| && Matching(cs, channel)[n] == cs[i]
  {
    if i > 0 {
      MatchingAt(cs[1..], channel, i - 1);
      assert cs[..i][1..] == cs[1..][..i - 1];
    }
  }

  /** Everything in the order in which it is offered a place: each channel's reserved matches, then all. */
  function Offers(cs: seq<Candidate>, limit: nat): seq<Candidate> {
    FirstN(Matching(cs, SemanticQuery), if limit / 3 < 2 then 2 else limit / 3)
    + FirstN(Matching(cs, ErrorPattern), if limit / 10 < 1 then 1 else limit / 10)
    + FirstN(Matching(cs, TitleKeywords), if limit / 6 < 1 then 1 else limit / 6)
    + FirstN(Matching(cs, PopularArea), if limit / 5 < 1 then 1 else limit / 5)
    + FirstN(Matching(cs, AreaLabel), if limit / 6 < 1 then 1 else limit / 6)
    + cs
  }

  lemma {:induction false} OneMoreReservation(cs: seq<Candidate>, limit: nat, n: nat, before: seq<Candidate>,
          offer: seq<Candidate>, after: seq<Candidate>)
    requires n < |CHANNELS| && offer == Reserved(cs, CHANNELS[n], limit) && after == before + offer
    requires AddReserved(cs, n, limit) == AddAll([], before, limit)
    ensures AddReserved(cs, n + 1, limit) == AddAll([], after, limit)
  {
    AddAllConcat([], before, offer, limit);
  }

  lemma {:induction false} ThreeReservations(cs: seq<Candidate>, limit: nat, a: seq<Candidate>, b: seq<Candidate>,
          c: seq<Candidate>)
    requires a == Reserved(cs, SemanticQuery, limit) && b == Reserved(cs, ErrorPattern, limit)
    requires c == Reserved(cs, TitleKeywords, limit)
    ensures AddReserved(cs, 3, limit) == AddAll([], a + b + c, limit)
  {
    OneMoreReservation(cs, limit, 0, [], a, a);
    OneMoreReservation(cs, limit, 1, a, b, a + b);
    OneMoreReservation(cs, limit, 2, a + b, c, a + b + c);
  }

  lemma {:induction false} FiveReservations(cs: seq<Candidate>, limit: nat, abc: seq<Candidate>, d: seq<Candidate>,
          e: seq<Candidate>)
    requires AddReserved(cs, 3, limit) == AddAll([], abc, limit)
    requires d == Reserved(cs, PopularArea, limit) && e == Reserved(cs, AreaLabel, limit)
    ensures AddReserved(cs, 5, limit) == AddAll([], abc + d + e, limit)
  {
    OneMoreReservation(cs, limit, 3, abc, d, abc + d);
    OneMoreReservation(cs, limit, 4, abc + d, e, abc + d + e);
  }

  lemma {:induction false} OffersAre(cs: seq<Candidate>, limit: nat)
    ensures Offers(cs, limit) ==
              Reserved(cs, SemanticQuery, limit) + Reserved(cs, ErrorPattern, limit)
              + Reserved(cs, TitleKeywords, limit) + Reserved(cs, PopularArea, limit)
              + Reserved(cs, AreaLabel, limit) + cs
  {
    assert Quota(SemanticQuery, limit) == if limit / 3 < 2 then 2 else limit / 3;
    assert Quota(ErrorPattern, limit) == if limit / 10 < 1 then 1 else limit / 10;
    assert Quota(PopularArea, limit) == if limit / 5 < 1 then 1 else limit / 5;
    assert Quota(TitleKeywords, limit) == Quota(AreaLabel, limit) == if limit / 6 < 1 then 1 else limit / 6;
  }

  lemma {:induction false} SelectIsPrefix(cs: seq<Candidate>, limit: nat, reserved: seq<Candidate>)
    requires AddReserved(cs, 5, limit) == AddAll([], reserved, limit)
    ensures Select(cs, limit) == FirstN(FirstOfEach(reserved + cs), limit)
  {
    AddAllConcat([], reserved, cs, limit);
    AddAllIsPrefix(reserved + cs, limit);
  }

  /** The selection is the first `limit` distinct keys of the offers, in the order of the offers. */
  lemma {:induction false} SelectedInOrder(cs: seq<Candidate>, limit: nat)
    ensures Select(cs, limit) == FirstN(FirstOfEach(Offers(cs, limit)), limit)
  {
    var a, b := Reserved(cs, SemanticQuery, limit), Reserved(cs, ErrorPattern, limit);
    var c, d := Reserved(cs, TitleKeywords, limit), Reserved(cs, PopularArea, limit);
    var e := Reserved(cs, AreaLabel, limit);
    ThreeReservations(cs, limit, a, b, c);
    FiveReservations(cs, limit, a + b + c, d, e);
    SelectIsPrefix(cs, limit, a + b + c + d + e);
    OffersAre(cs, limit);
  }
}
