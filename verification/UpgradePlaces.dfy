/** The upgrade of a stored thread (crates/agent/src/legacy_thread.rs:88-112), place by place. */
module UpgradePlaces {
  import opened LegacyThread

  /** The message at `i` is folded into an earlier one: a user's, not the first, with tool results. */
  predicate FoldedAt<C, R>(ms: seq<Message<C, R>>, i: nat)
    requires i < |ms|
  {
    i > 0 && ms[i].role == User && |ms[i].toolResults| > 0
  }

  /** The places of the messages that stay. */
  function Staying<C, R>(ms: seq<Message<C, R>>, n: nat): (at: seq<nat>)
    requires n <= |ms|
    ensures forall k :: 0 <= k < |at| ==> at[k] < n
    ensures n > 0 ==> at != []
  {
    if n == 0 then []
    else if FoldedAt(ms, n - 1) then Staying(ms, n - 1)
    else Staying(ms, n - 1) + [n - 1]
  }

  lemma {:induction false} StayingExactly<C, R>(ms: seq<Message<C, R>>, n: nat)
    requires n <= |ms|
    ensures forall i: nat :: i in Staying(ms, n) <==> i < n && !FoldedAt(ms, i)
    ensures forall k, l :: 0 <= k < l < |Staying(ms, n)| ==> Staying(ms, n)[k] < Staying(ms, n)[l]
  {
    if n > 0 {
      StayingExactly(ms, n - 1);
    }
  }

  /** The place before which the messages end that are folded into the one at `at[k]`. */
  function GroupEnd(at: seq<nat>, k: nat, n: nat): nat
    requires k < |at|
  {
    if k + 1 < |at| then at[k + 1] else n
  }

  /** The message at `at[k]` is kept, with the tool results of the last that is folded into it. */
  ghost predicate KeptAs<C, R>(ms: seq<Message<C, R>>, at: seq<nat>, n: nat, k: nat, m: Message<C, R>)
    requires k < |at|
  {
    && at[k] < GroupEnd(at, k, n) <= |ms|
    && m == Message(ms[at[k]].role, ms[at[k]].content, ms[GroupEnd(at, k, n) - 1].toolResults)
  }

  ghost predicate AllKeptAs<C, R>(ms: seq<Message<C, R>>, at: seq<nat>, n: nat, out: seq<Message<C, R>>) {
    |out| == |at| && forall k :: 0 <= k < |at| ==> KeptAs(ms, at, n, k, out[k])
  }

  lemma {:induction false} OneMoreFolded<C, R>(ms: seq<Message<C, R>>, at: seq<nat>, n: nat, out: seq<Message<C, R>>)
    requires n < |ms| && FoldedAt(ms, n) && at != [] && AllKeptAs(ms, at, n, out)
    ensures AllKeptAs(ms, at, n + 1, Absorb(out, ms[n]))
  {
    var out' := Absorb(out, ms[n]);
    assert |out'| == |at|;
    forall k | 0 <= k < |at| ensures KeptAs(ms, at, n + 1, k, out'[k]) {
      assert KeptAs(ms, at, n, k, out[k]);
    }
  }

  lemma {:induction false} OneMoreStaying<C, R>(ms: seq<Message<C, R>>, at: seq<nat>, n: nat, out: seq<Message<C, R>>)
    requires n < |ms| && !FoldedAt(ms, n) && AllKeptAs(ms, at, n, out) && (at == [] ==> n == 0)
    ensures AllKeptAs(ms, at + [n], n + 1, Absorb(out, ms[n]))
  {
    var at', out' := at + [n], Absorb(out, ms[n]);
    assert out' == out + [ms[n]];
    forall k | 0 <= k < |at'| ensures KeptAs(ms, at', n + 1, k, out'[k]) {
      if k < |at| {
        assert KeptAs(ms, at, n, k, out[k]);
        assert GroupEnd(at', k, n + 1) == GroupEnd(at, k, n);
      }
    }
  }

  lemma {:induction false} UpgradeFirst<C, R>(ms: seq<Message<C, R>>, n: nat)
    requires n <= |ms|
    ensures AllKeptAs(ms, Staying(ms, n), n, UpgradeMessages(ms[..n]))
  {
    if n > 0 {
      UpgradeFirst(ms, n - 1);
      assert ms[..n][..n - 1] == ms[..n - 1];
      if FoldedAt(ms, n - 1) {
        OneMoreFolded(ms, Staying(ms, n - 1), n - 1, UpgradeMessages(ms[..n - 1]));
      } else {
        OneMoreStaying(ms, Staying(ms, n - 1), n - 1, UpgradeMessages(ms[..n - 1]));
      }
    }
  }

  /**
   The upgrade of every thread, place by place: exactly the messages stay that are first, not a user's, or
   without tool results, in order, each as it was but for the tool results, which are those of the message just
   before the next that stays.
   */
  lemma {:induction false} UpgradeByPlaces<C, R>(ms: seq<Message<C, R>>) returns (at: seq<nat>)
    ensures forall i: nat :: i in at <==> i < |ms| && (i == 0 || ms[i].role != User || ms[i].toolResults == [])
    ensures forall k, l :: 0 <= k < l < |at| ==> at[k] < at[l]
    ensures AllKeptAs(ms, at, |ms|, UpgradeMessages(ms))
  {
    at := Staying(ms, |ms|);
    StayingExactly(ms, |ms|);
    UpgradeFirst(ms, |ms|);
    assert ms[..|ms|] == ms;
  }
}
