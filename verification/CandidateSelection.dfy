/**
 Choosing which search results to show the model: `select_search_candidates` of
 script/github-check-new-issue-for-duplicates.py, which fills a limited slate while reserving room for
 each retrieval channel.
 */
module CandidateSelection {
  import opened Seqs

  type Key = string

  datatype Channel = SemanticQuery | ErrorPattern | TitleKeywords | PopularArea | AreaLabel

  /** `state` is GitHub's own word for it, "open" or "closed" for the candidates the script fetches. */
  datatype Candidate = Candidate(key: Key, isIssue: bool, state: string, isMagnet: bool, searches: set<Channel>)

  function Quota(channel: Channel, limit: nat): nat {
    match channel
    case SemanticQuery => Max(2, limit / 3)
    case ErrorPattern => Max(1, limit / 10)
    case TitleKeywords => Max(1, limit / 6)
    case PopularArea => Max(1, limit / 5)
    case AreaLabel => Max(1, limit / 6)
  }

  const CHANNELS: seq<Channel> := [SemanticQuery, ErrorPattern, TitleKeywords, PopularArea, AreaLabel]

  function Keys(cs: seq<Candidate>): (ks: set<Key>) {
    set c | c in cs :: c.key
  }

  function Matching(cs: seq<Candidate>, channel: Channel): seq<Candidate> {
    if cs == [] then []
    else (if channel in cs[0].searches then [cs[0]] else []) + Matching(cs[1..], channel)
  }

  lemma {:induction false} MatchingMembers(cs: seq<Candidate>, channel: Channel)
    ensures forall c :: c in Matching(cs, channel) <==> c in cs && channel in c.searches
  {
    if cs != [] {
      MatchingMembers(cs[1..], channel);
      assert cs == [cs[0]] + cs[1..];
    }
  }

  /** A channel's reserved candidates: its first `Quota` matches. */
  function Reserved(cs: seq<Candidate>, channel: Channel, limit: nat): seq<Candidate> {
    FirstN(Matching(cs, channel), Quota(channel, limit))
  }

  // ----- the selection as a fold -----

  function Add(selected: seq<Candidate>, c: Candidate, limit: nat): seq<Candidate> {
    if c.key !in Keys(selected) && |selected| < limit then selected + [c] else selected
  }

  function AddAll(selected: seq<Candidate>, cs: seq<Candidate>, limit: nat): seq<Candidate> {
    if cs == [] then selected
    else Add(AddAll(selected, cs[..|cs| - 1], limit), cs[|cs| - 1], limit)
  }

  /** The slate after the reservations of the first `n` channels. */
  function AddReserved(cs: seq<Candidate>, n: nat, limit: nat): seq<Candidate>
    requires n <= |CHANNELS|
  {
    if n == 0 then []
    else AddAll(AddReserved(cs, n - 1, limit), Reserved(cs, CHANNELS[n - 1], limit), limit)
  }

  function Select(cs: seq<Candidate>, limit: nat): seq<Candidate> {
    AddAll(AddReserved(cs, |CHANNELS|, limit), cs, limit)
  }

  method SelectSearchCandidates(cs: seq<Candidate>, limit: nat) returns (selected: seq<Candidate>)
    ensures selected == Select(cs, limit)
  {
    selected := [];
    var selectedKeys: set<Key> := {};
    for n := 0 to |CHANNELS|
      invariant selected == AddReserved(cs, n, limit) && selectedKeys == Keys(selected)
    {
      var reserved := Reserved(cs, CHANNELS[n], limit);
      for i := 0 to |reserved|
        invariant selected == AddAll(AddReserved(cs, n, limit), reserved[..i], limit)
        invariant selectedKeys == Keys(selected)
      {
        assert reserved[..i + 1][..i] == reserved[..i];
        if reserved[i].key !in selectedKeys && |selected| < limit {
          KeysAppend(selected, reserved[i]);
          selected := selected + [reserved[i]];
          selectedKeys := selectedKeys + {reserved[i].key};
        }
      }
      assert reserved[..|reserved|] == reserved;
    }
    for i := 0 to |cs|
      invariant selected == AddAll(AddReserved(cs, |CHANNELS|, limit), cs[..i], limit)
      invariant selectedKeys == Keys(selected)
    {
      assert cs[..i + 1][..i] == cs[..i];
      if cs[i].key !in selectedKeys && |selected| < limit {
        KeysAppend(selected, cs[i]);
        selected := selected + [cs[i]];
        selectedKeys := selectedKeys + {cs[i].key};
      }
    }
    assert cs[..|cs|] == cs;
  }

  // ----- what it guarantees -----

  ghost predicate DistinctKeys(cs: seq<Candidate>) {
    forall i, j :: 0 <= i < j < |cs| ==> cs[i].key != cs[j].key
  }

  lemma {:induction false} KeysAppend(cs: seq<Candidate>, c: Candidate)
    ensures Keys(cs + [c]) == Keys(cs) + {c.key}
  {
    assert c in cs + [c];
    assert forall x :: x in cs ==> x in cs + [c];
  }

  lemma {:induction false} LastKeyIsNew(cs: seq<Candidate>)
    requires cs != [] && DistinctKeys(cs)
    ensures cs[|cs| - 1].key !in Keys(cs[..|cs| - 1])
  {
    var init := cs[..|cs| - 1];
    forall c | c in init ensures c.key != cs[|cs| - 1].key {
      var i :| 0 <= i < |init| && init[i] == c;
      assert cs[i] == c;
    }
  }

  lemma {:induction false} DistinctKeysCount(cs: seq<Candidate>)
    requires DistinctKeys(cs)
    ensures |Keys(cs)| == |cs|
  {
    if cs != [] {
      var init, last := cs[..|cs| - 1], cs[|cs| - 1];
      DistinctKeysCount(init);
      KeysAppend(init, last);
      LastKeyIsNew(cs);
      assert cs == init + [last];
    }
  }

  lemma {:induction false} DistinctAppend(cs: seq<Candidate>, c: Candidate)
    requires DistinctKeys(cs) && c.key !in Keys(cs)
    ensures DistinctKeys(cs + [c])
  {
    forall i | 0 <= i < |cs| ensures cs[i].key != c.key {
      assert cs[i] in cs;
    }
  }

  /** What adding the offers `cs` to `selected` has done, given that it led to `r`. */
  ghost predicate Offered(selected: seq<Candidate>, cs: seq<Candidate>, limit: nat, r: seq<Candidate>) {
    && DistinctKeys(r) && selected <= r
    && |r| <= Min(limit, |selected| + |cs|)
    && (forall c :: c in r ==> c in selected || c in cs)
    && (|r| < limit ==> Keys(r) == Keys(selected) + Keys(cs))
  }

  lemma {:induction false} OneMoreOffer(selected: seq<Candidate>, cs: seq<Candidate>, limit: nat, r: seq<Candidate>,
          c: Candidate)
    requires Offered(selected, cs, limit, r)
    ensures Offered(selected, cs + [c], limit, Add(r, c, limit))
  {
    KeysAppend(cs, c);
    KeysAppend(r, c);
    if c.key !in Keys(r) {
      DistinctAppend(r, c);
    }
    assert forall x :: x in cs ==> x in cs + [c];
    assert c in cs + [c];
  }

  /** Adding keeps keys distinct and the limit, takes only what it is offered, and drops a key only once full. */
  lemma {:induction false} AddAllInvariant(selected: seq<Candidate>, cs: seq<Candidate>, limit: nat)
    requires DistinctKeys(selected) && |selected| <= limit
    ensures Offered(selected, cs, limit, AddAll(selected, cs, limit))
  {
    if cs != [] {
      var init, last := cs[..|cs| - 1], cs[|cs| - 1];
      var r := AddAll(selected, init, limit);
      assert cs == init + [last] && AddAll(selected, cs, limit) == Add(r, last, limit);
      AddAllInvariant(selected, init, limit);
      OneMoreOffer(selected, init, limit, r, last);
    }
  }

  /** While there is room for every offer, every offered key is on the slate. */
  lemma {:induction false} AddAllWithRoom(selected: seq<Candidate>, cs: seq<Candidate>, limit: nat)
    requires |selected| + |cs| <= limit
    ensures Keys(cs) <= Keys(AddAll(selected, cs, limit))
    ensures |AddAll(selected, cs, limit)| <= |selected| + |cs|
  {
    if cs != [] {
      var init, last := cs[..|cs| - 1], cs[|cs| - 1];
      AddAllWithRoom(selected, init, limit);
      KeysAppend(init, last);
      KeysAppend(AddAll(selected, init, limit), last);
      assert cs == init + [last];
    }
  }

  lemma {:induction false} KeysGrow(a: seq<Candidate>, b: seq<Candidate>)
    requires a <= b
    ensures Keys(a) <= Keys(b)
  {
    assert forall c :: c in a ==> c in b;
  }

  lemma {:induction false} ReservedInvariant(cs: seq<Candidate>, n: nat, limit: nat)
    requires n <= |CHANNELS|
    ensures var r := AddReserved(cs, n, limit);
            DistinctKeys(r) && |r| <= limit && forall c :: c in r ==> c in cs
  {
    if n > 0 {
      ReservedInvariant(cs, n - 1, limit);
      AddAllInvariant(AddReserved(cs, n - 1, limit), Reserved(cs, CHANNELS[n - 1], limit), limit);
      var offer := Reserved(cs, CHANNELS[n - 1], limit);
      MatchingMembers(cs, CHANNELS[n - 1]);
      assert forall c :: c in offer ==> c in Matching(cs, CHANNELS[n - 1]);
    }
  }

  /**
   For every limit and every list of candidates: no key twice, nothing invented, and the slate is as
   full as the number of distinct keys allows.
   */
  lemma {:induction false} SelectionIsFull(cs: seq<Candidate>, limit: nat)
    ensures var r := Select(cs, limit);
            && DistinctKeys(r)
            && (forall c :: c in r ==> c in cs)
            && |r| == Min(limit, |Keys(cs)|)
  {
    var reserved := AddReserved(cs, |CHANNELS|, limit);
    ReservedInvariant(cs, |CHANNELS|, limit);
    AddAllInvariant(reserved, cs, limit);
    var r := Select(cs, limit);
    DistinctKeysCount(r);
    assert Keys(reserved) <= Keys(cs);
    assert Keys(r) <= Keys(cs);
    assert |r| < limit ==> Keys(r) == Keys(cs);
    SubsetSize(Keys(r), Keys(cs));
  }

  lemma {:induction false} SubsetSize<T>(a: set<T>, b: set<T>)
    requires a <= b
    ensures |a| <= |b|
  {
    if a != {} {
      var x :| x in a;
      SubsetSize(a - {x}, b - {x});
    }
  }

  // ----- the reservations -----

  /** Every channel's reserved candidates made it onto the slate. */
  ghost predicate ReservationsHonoured(cs: seq<Candidate>, limit: nat) {
    forall channel :: Keys(Reserved(cs, channel, limit)) <= Keys(Select(cs, limit))
  }

  function QuotaSum(n: nat, limit: nat): nat
    requires n <= |CHANNELS|
  {
    if n == 0 then 0 else QuotaSum(n - 1, limit) + Quota(CHANNELS[n - 1], limit)
  }

  lemma {:induction false} QuotasFit(limit: nat)
    ensures QuotaSum(|CHANNELS|, limit) <= limit <==> limit >= 6
  {
    assert QuotaSum(5, limit)
        == Quota(SemanticQuery, limit) + Quota(ErrorPattern, limit) + Quota(TitleKeywords, limit)
           + Quota(PopularArea, limit) + Quota(AreaLabel, limit) by {
      assert QuotaSum(1, limit) == Quota(SemanticQuery, limit);
      assert QuotaSum(2, limit) == QuotaSum(1, limit) + Quota(ErrorPattern, limit);
      assert QuotaSum(4, limit) == QuotaSum(2, limit) + Quota(TitleKeywords, limit) + Quota(PopularArea, limit);
    }
  }

  lemma {:induction false} QuotaSumGrows(n: nat, m: nat, limit: nat)
    requires n <= m <= |CHANNELS|
    ensures QuotaSum(n, limit) <= QuotaSum(m, limit)
  {
    if n < m {
      QuotaSumGrows(n, m - 1, limit);
    }
  }

  /** One channel's reservation: nothing offered is lost, nothing selected before is lost. */
  lemma {:induction false} ReserveWithRoom(before: seq<Candidate>, offer: seq<Candidate>, limit: nat)
    requires DistinctKeys(before) && |before| + |offer| <= limit
    ensures var after := AddAll(before, offer, limit);
            |after| <= |before| + |offer| && Keys(offer) <= Keys(after) && Keys(before) <= Keys(after)
  {
    AddAllWithRoom(before, offer, limit);
    AddAllInvariant(before, offer, limit);
    KeysGrow(before, AddAll(before, offer, limit));
  }

  lemma {:induction false} ReservedSize(cs: seq<Candidate>, n: nat, limit: nat)
    requires n <= |CHANNELS| && QuotaSum(|CHANNELS|, limit) <= limit
    ensures |AddReserved(cs, n, limit)| <= QuotaSum(n, limit)
  {
    if n > 0 {
      ReservedSize(cs, n - 1, limit);
      QuotaSumGrows(n, |CHANNELS|, limit);
      ReservedInvariant(cs, n - 1, limit);
      ReserveWithRoom(AddReserved(cs, n - 1, limit), Reserved(cs, CHANNELS[n - 1], limit), limit);
    }
  }

  lemma {:induction false} ReservedKept(cs: seq<Candidate>, k: nat, n: nat, limit: nat)
    requires k < n <= |CHANNELS| && QuotaSum(|CHANNELS|, limit) <= limit
    ensures Keys(Reserved(cs, CHANNELS[k], limit)) <= Keys(AddReserved(cs, n, limit))
  {
    ReservedSize(cs, n - 1, limit);
    QuotaSumGrows(n, |CHANNELS|, limit);
    ReservedInvariant(cs, n - 1, limit);
    ReserveWithRoom(AddReserved(cs, n - 1, limit), Reserved(cs, CHANNELS[n - 1], limit), limit);
    if k < n - 1 {
      ReservedKept(cs, k, n - 1, limit);
    }
  }

  lemma {:induction false} ReservationsFitFromSix(cs: seq<Candidate>, limit: nat)
    requires limit >= 6
    ensures ReservationsHonoured(cs, limit)
  {
    QuotasFit(limit);
    var reserved := AddReserved(cs, |CHANNELS|, limit);
    ReservedInvariant(cs, |CHANNELS|, limit);
    AddAllInvariant(reserved, cs, limit);
    KeysGrow(reserved, Select(cs, limit));
    forall channel ensures Keys(Reserved(cs, channel, limit)) <= Keys(Select(cs, limit)) {
      var k := match channel
        case SemanticQuery => 0
        case ErrorPattern => 1
        case TitleKeywords => 2
        case PopularArea => 3
        case AreaLabel => 4;
      ReservedKept(cs, k, |CHANNELS|, limit);
    }
  }

  /** A distinct candidate for each of six places. */
  function Sample(i: nat): Candidate
    requires i < 6
  {
    Candidate(["123456"[i]], true, "open", false, {CHANNELS[if i == 0 then 0 else i - 1]})
  }

  /** Two semantic matches and one of each other channel: six reserved candidates. */
  function Crowd(n: nat): (cs: seq<Candidate>)
    requires n <= 6
    ensures |cs| == n && forall i :: 0 <= i < n ==> cs[i] == Sample(i)
  {
    seq(n, i requires 0 <= i < n => Sample(i))
  }

  /** The candidates of a channel cannot outnumber the places that hold them. */
  lemma {:induction false} MatchingAtMost(cs: seq<Candidate>, channel: Channel, lo: nat, hi: nat)
    requires lo <= hi && forall i :: 0 <= i < |cs| && (i < lo || hi <= i) ==> channel !in cs[i].searches
    ensures |Matching(cs, channel)| <= hi - lo
  {
    if cs != [] {
      var rest := cs[1..];
      assert forall i :: 0 <= i < |rest| ==> rest[i] == cs[i + 1];
      MatchingAtMost(rest, channel, if lo > 0 then lo - 1 else 0, if hi > 0 then hi - 1 else 0);
    }
  }

  /** Each of the six is among its channel's reserved candidates, whatever the limit. */
  lemma {:induction false} CrowdIsReserved(i: nat, limit: nat)
    requires i < 6
    ensures Sample(i) in Reserved(Crowd(6), CHANNELS[if i == 0 then 0 else i - 1], limit)
  {
    var cs := Crowd(6);
    var channel := CHANNELS[if i == 0 then 0 else i - 1];
    CrowdHasFewPerChannel(cs, i, channel);
    ReservedIfFew(cs, i, channel, limit);
  }

  lemma {:induction false} ReservedIfFew(cs: seq<Candidate>, i: nat, channel: Channel, limit: nat)
    requires i < |cs| && channel in cs[i].searches && |Matching(cs, channel)| <= Quota(channel, limit)
    ensures cs[i] in Reserved(cs, channel, limit)
  {
    MatchingMembers(cs, channel);
    assert Reserved(cs, channel, limit) == Matching(cs, channel);
  }

  lemma {:induction false} CrowdHasFewPerChannel(cs: seq<Candidate>, i: nat, channel: Channel)
    requires i < 6 && cs == Crowd(6) && channel == CHANNELS[if i == 0 then 0 else i - 1]
    ensures |Matching(cs, channel)| <= if i <= 1 then 2 else 1
  {
    MatchingAtMost(cs, channel, if i <= 1 then 0 else i, if i <= 1 then 2 else i + 1);
  }

  lemma {:induction false} ReservationsFailBelowSix(limit: nat)
    requires limit < 6
    ensures !ReservationsHonoured(Crowd(6), limit)
  {
    var cs := Crowd(6);
    if ReservationsHonoured(cs, limit) {
      forall i | 0 <= i < 6 ensures cs[i].key in Keys(Select(cs, limit)) {
        CrowdIsReserved(i, limit);
        ReservedKeyKept(cs, limit, CHANNELS[if i == 0 then 0 else i - 1], cs[i]);
      }
      assert DistinctKeys(cs);
      SlateHolds(cs, limit);
    }
  }

  lemma {:induction false} ReservedKeyKept(cs: seq<Candidate>, limit: nat, channel: Channel, c: Candidate)
    requires ReservationsHonoured(cs, limit) && c in Reserved(cs, channel, limit)
    ensures c.key in Keys(Select(cs, limit))
  {
    assert c.key in Keys(Reserved(cs, channel, limit));
  }

  /** A slate holding all of `cs`, with its distinct keys, has room for them. */
  lemma {:induction false} SlateHolds(cs: seq<Candidate>, limit: nat)
    requires DistinctKeys(cs) && forall i :: 0 <= i < |cs| ==> cs[i].key in Keys(Select(cs, limit))
    ensures |cs| <= limit
  {
    SelectionIsFull(cs, limit);
    DistinctKeysCount(cs);
    DistinctKeysCount(Select(cs, limit));
    assert Keys(cs) <= Keys(Select(cs, limit));
    SubsetSize(Keys(cs), Keys(Select(cs, limit)));
  }

  /** The reservations hold for every list of candidates exactly when the limit is at least six. */
  lemma {:induction false} ReservationsHonouredIff(limit: nat)
    ensures (forall cs :: ReservationsHonoured(cs, limit)) <==> limit >= 6
  {
    if limit >= 6 {
      forall cs ensures ReservationsHonoured(cs, limit) {
        ReservationsFitFromSix(cs, limit);
      }
    } else {
      ReservationsFailBelowSix(limit);
    }
  }
}
