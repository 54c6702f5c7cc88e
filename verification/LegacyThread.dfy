/**
 Upgrading a stored agent thread from version 0.1.0 (crates/agent/src/legacy_thread.rs): user messages
 that carry tool results are folded into the message before them, which takes over the results and
 nothing else.
 */
module LegacyThread {
  datatype Role = User | Assistant | System

  /** `content` stands for the fields the upgrade passes through: id, segments, tool uses, context, creases, hidden. */
  datatype Message<C, R> = Message(role: Role, content: C, toolResults: seq<R>)

  datatype Thread<C, R, F> = Thread(version: string, messages: seq<Message<C, R>>, fields: F)

  const VERSION := "0.2.0"

  predicate Carrier<C, R>(m: Message<C, R>) {
    m.role.User? && |m.toolResults| > 0
  }

  function Last<C, R>(ms: seq<Message<C, R>>): Message<C, R>
    requires ms != []
  {
    ms[|ms| - 1]
  }

  function Absorb<C, R>(out: seq<Message<C, R>>, m: Message<C, R>): seq<Message<C, R>> {
    if Carrier(m) && out != []
    then out[..|out| - 1] + [Last(out).(toolResults := m.toolResults)]
    else out + [m]
  }

  function UpgradeMessages<C, R>(ms: seq<Message<C, R>>): seq<Message<C, R>> {
    if ms == [] then [] else Absorb(UpgradeMessages(ms[..|ms| - 1]), Last(ms))
  }

  method Upgrade<C, R, F>(thread: Thread<C, R, F>) returns (upgraded: Thread<C, R, F>)
    ensures upgraded == Thread("0.2.0", UpgradeMessages(thread.messages), thread.fields)
  {
    var messages: seq<Message<C, R>> := [];
    for i := 0 to |thread.messages|
      invariant messages == UpgradeMessages(thread.messages[..i])
    {
      var message := thread.messages[i];
      assert thread.messages[..i + 1][..i] == thread.messages[..i];
      if message.role.User? && |message.toolResults| > 0 && messages != [] {
        var n := |messages| - 1;
        ghost var before := messages;
        messages := messages[n := messages[n].(toolResults := message.toolResults)];
        assert messages == before[..n] + [before[n].(toolResults := message.toolResults)];
        continue;
      }
      messages := messages + [message];
    }
    assert thread.messages[..|thread.messages|] == thread.messages;
    upgraded := thread.(messages := messages, version := VERSION);
  }

  // ----- conservation of tool results -----

  function Results<C, R>(ms: seq<Message<C, R>>): seq<R> {
    if ms == [] then [] else Results(ms[..|ms| - 1]) + Last(ms).toolResults
  }

  lemma {:induction false} AbsorbLast<C, R>(out: seq<Message<C, R>>, m: Message<C, R>)
    ensures var r := Absorb(out, m);
            && r != [] && Last(r).toolResults == m.toolResults
            && (out == [] || !Carrier(m) ==> Last(r) == m && r[..|r| - 1] == out)
  {
  }

  lemma {:induction false} UpgradeLast<C, R>(ms: seq<Message<C, R>>)
    requires ms != []
    ensures var out := UpgradeMessages(ms);
            && out != [] && Last(out).toolResults == Last(ms).toolResults
            && (|ms| == 1 || !Carrier(Last(ms)) ==>
                Last(out) == Last(ms) && out[..|out| - 1] == UpgradeMessages(ms[..|ms| - 1]))
  {
    AbsorbLast(UpgradeMessages(ms[..|ms| - 1]), Last(ms));
    if |ms| == 1 {
      assert UpgradeMessages(ms[..0]) == [];
    }
  }

  /** Every carrier after the first message directly follows a message without tool results. */
  predicate CarriersFollowEmpty<C, R>(ms: seq<Message<C, R>>) {
    forall i :: 1 <= i < |ms| && Carrier(ms[i]) ==> |ms[i - 1].toolResults| == 0
  }

  lemma {:induction false} AbsorbResults<C, R>(out: seq<Message<C, R>>, m: Message<C, R>)
    ensures Results(Absorb(out, m)) ==
              if Carrier(m) && out != [] then Results(out[..|out| - 1]) + m.toolResults
              else Results(out) + m.toolResults
  {
    if Carrier(m) && out != [] {
      assert Absorb(out, m)[..|out| - 1] == out[..|out| - 1];
    } else {
      assert (out + [m])[..|out|] == out;
    }
  }

  lemma {:induction false} CarriersFollowEmptyButLast<C, R>(ms: seq<Message<C, R>>)
    requires |ms| > 1
    ensures var init := ms[..|ms| - 1];
            CarriersFollowEmpty(ms) <==>
              CarriersFollowEmpty(init) && (Carrier(Last(ms)) ==> |Last(init).toolResults| == 0)
  {
  }

  lemma {:induction false} ResultsSplit<C, R>(out: seq<Message<C, R>>)
    requires out != []
    ensures Results(out) == Results(out[..|out| - 1]) + Last(out).toolResults
  {
  }

  /** Folding `m` in keeps everything if the message it lands on had no results, and loses that message's otherwise. */
  lemma {:induction false} AbsorbKeepsOrLoses<C, R>(out: seq<Message<C, R>>, m: Message<C, R>)
    requires out != []
    ensures !Carrier(m) || |Last(out).toolResults| == 0 ==> Results(Absorb(out, m)) == Results(out) + m.toolResults
    ensures |Results(Absorb(out, m))| ==
              |Results(out)| + |m.toolResults| - (if Carrier(m) then |Last(out).toolResults| else 0)
  {
    AbsorbResults(out, m);
    if Carrier(m) {
      ResultsSplit(out);
      var kept := Results(out[..|out| - 1]);
      assert |Last(out).toolResults| == 0 ==> kept + Last(out).toolResults == kept;
    }
  }

  lemma {:induction false} ResultsConservedOrLost<C, R>(ms: seq<Message<C, R>>)
    ensures CarriersFollowEmpty(ms) ==> Results(UpgradeMessages(ms)) == Results(ms)
    ensures !CarriersFollowEmpty(ms) ==> |Results(UpgradeMessages(ms))| < |Results(ms)|
  {
    if |ms| == 1 {
      assert UpgradeMessages(ms[..0]) == [] && Results(ms[..0]) == [];
      AbsorbResults([], Last(ms));
    } else if |ms| > 1 {
      var init := ms[..|ms| - 1];
      ResultsConservedOrLost(init);
      CarriersFollowEmptyButLast(ms);
      UpgradeLast(init);
      AbsorbKeepsOrLoses(UpgradeMessages(init), Last(ms));
    }
  }

  /** The upgrade keeps the sequence of tool results exactly when no carrier follows a message that has some. */
  lemma {:induction false} ResultsConservedExactlyWhen<C, R>(ms: seq<Message<C, R>>)
    ensures Results(UpgradeMessages(ms)) == Results(ms) <==> CarriersFollowEmpty(ms)
  {
    ResultsConservedOrLost(ms);
  }

  /** Two rounds of results for one assistant message: the second overwrites the first. */
  lemma {:induction false} SecondRoundOverwrites<C, R>(c: C, first: R, second: R)
    ensures var ms := [Message(Assistant, c, [first]), Message(User, c, [second])];
            !CarriersFollowEmpty(ms) && Results(ms) == [first, second] && Results(UpgradeMessages(ms)) == [second]
  {
    var answer, results := Message(Assistant, c, [first]), Message(User, c, [second]);
    var ms := [answer, results];
    OneMessage(answer);
    assert ms[..1] == [answer] && [answer][..0] == [];
    assert UpgradeMessages(ms) == Absorb([answer], results);
    AbsorbResults([answer], results);
    assert Results(ms) == [first] + [second];
    assert Carrier(ms[1]) && |ms[0].toolResults| == 1;
  }

  lemma {:induction false} OneMessage<C, R>(m: Message<C, R>)
    ensures UpgradeMessages([m]) == [m] && Results([m]) == m.toolResults
  {
    assert [m][..0] == [];
    assert [] + [m] == [m] && [] + m.toolResults == m.toolResults;
  }

  // ----- the other messages -----

  /** What a message says, apart from its tool results. */
  function Said<C, R>(m: Message<C, R>): (Role, C) {
    (m.role, m.content)
  }

  function AllSaid<C, R>(ms: seq<Message<C, R>>): seq<(Role, C)> {
    seq(|ms|, i requires 0 <= i < |ms| => Said(ms[i]))
  }

  /** The messages that are not folded away: the first, and every one that is not a carrier. */
  function NotFolded<C, R>(ms: seq<Message<C, R>>): seq<Message<C, R>> {
    if ms == [] then []
    else NotFolded(ms[..|ms| - 1]) + (if |ms| > 1 && Carrier(Last(ms)) then [] else [Last(ms)])
  }

  lemma {:induction false} AllSaidAppend<C, R>(ms: seq<Message<C, R>>, m: Message<C, R>)
    ensures AllSaid(ms + [m]) == AllSaid(ms) + [Said(m)]
  {
  }

  lemma {:induction false} AbsorbSaid<C, R>(out: seq<Message<C, R>>, m: Message<C, R>)
    ensures AllSaid(Absorb(out, m)) == if Carrier(m) && out != [] then AllSaid(out) else AllSaid(out) + [Said(m)]
  {
  }

  /** On every thread, all messages but the folded ones are kept, in order, saying what they said. */
  lemma {:induction false} OtherMessagesKept<C, R>(ms: seq<Message<C, R>>)
    ensures AllSaid(UpgradeMessages(ms)) == AllSaid(NotFolded(ms))
  {
    if ms != [] {
      var init := ms[..|ms| - 1];
      OtherMessagesKept(init);
      AbsorbSaid(UpgradeMessages(init), Last(ms));
      AllSaidAppend(NotFolded(init), Last(ms));
      if |ms| > 1 {
        UpgradeLast(init);
      }
      assert NotFolded(init) + [] == NotFolded(init);
    }
  }

  // ----- what is said -----

  /** What the messages say, leaving out those with nothing to say. */
  function Spoken<C, R>(ms: seq<Message<C, R>>, blank: C -> bool): seq<(Role, C)> {
    if ms == [] then []
    else Spoken(ms[..|ms| - 1], blank) + (if blank(Last(ms).content) then [] else [Said(Last(ms))])
  }

  /** Every message that is folded away has nothing to say. */
  predicate FoldedAreBlank<C, R>(ms: seq<Message<C, R>>, blank: C -> bool) {
    forall i :: 1 <= i < |ms| && Carrier(ms[i]) ==> blank(ms[i].content)
  }

  lemma {:induction false} SpokenDependsOnSaid<C, R>(a: seq<Message<C, R>>, b: seq<Message<C, R>>, blank: C -> bool)
    requires AllSaid(a) == AllSaid(b)
    ensures Spoken(a, blank) == Spoken(b, blank)
  {
    assert |a| == |AllSaid(a)| == |AllSaid(b)| == |b|;
    if a != [] {
      var n := |a| - 1;
      assert AllSaid(a[..n]) == AllSaid(a)[..n] == AllSaid(b)[..n] == AllSaid(b[..n]);
      assert AllSaid(a)[n] == Said(Last(a)) && AllSaid(b)[n] == Said(Last(b));
      SpokenDependsOnSaid(a[..n], b[..n], blank);
    }
  }

  lemma {:induction false} SpokenAppend<C, R>(ms: seq<Message<C, R>>, m: Message<C, R>, blank: C -> bool)
    ensures Spoken(ms + [m], blank) == Spoken(ms, blank) + (if blank(m.content) then [] else [Said(m)])
  {
    assert (ms + [m])[..|ms|] == ms;
  }

  lemma {:induction false} FoldedAreBlankButLast<C, R>(ms: seq<Message<C, R>>, blank: C -> bool)
    requires ms != []
    ensures FoldedAreBlank(ms, blank) <==>
              FoldedAreBlank(ms[..|ms| - 1], blank) && (|ms| > 1 && Carrier(Last(ms)) ==> blank(Last(ms).content))
  {
  }

  lemma {:induction false} NotFoldedSpeaks<C, R>(ms: seq<Message<C, R>>, blank: C -> bool)
    ensures FoldedAreBlank(ms, blank) ==> Spoken(NotFolded(ms), blank) == Spoken(ms, blank)
    ensures !FoldedAreBlank(ms, blank) ==> |Spoken(NotFolded(ms), blank)| < |Spoken(ms, blank)|
  {
    if ms != [] {
      var init := ms[..|ms| - 1];
      NotFoldedSpeaks(init, blank);
      FoldedAreBlankButLast(ms, blank);
      SpokenAppend(NotFolded(init), Last(ms), blank);
      assert NotFolded(init) + [] == NotFolded(init);
    }
  }

  /**
   The upgrade keeps everything said exactly when the messages it folds away say nothing, whatever counts
   as saying nothing; the text of any other is dropped.
   */
  lemma {:induction false} NothingSaidIsLostExactlyWhen<C, R>(ms: seq<Message<C, R>>, blank: C -> bool)
    ensures Spoken(UpgradeMessages(ms), blank) == Spoken(ms, blank) <==> FoldedAreBlank(ms, blank)
  {
    OtherMessagesKept(ms);
    SpokenDependsOnSaid(UpgradeMessages(ms), NotFolded(ms), blank);
    NotFoldedSpeaks(ms, blank);
  }

  // ----- upgrading twice -----

  predicate NoLaterCarrier<C, R>(ms: seq<Message<C, R>>) {
    forall j :: 1 <= j < |ms| ==> !Carrier(ms[j])
  }

  lemma {:induction false} AbsorbShape<C, R>(out: seq<Message<C, R>>, m: Message<C, R>)
    ensures Carrier(m) && out != [] ==> |Absorb(out, m)| == |out|
    ensures !(Carrier(m) && out != []) ==> Absorb(out, m) == out + [m]
  {
  }

  lemma {:induction false} UpgradeNonempty<C, R>(ms: seq<Message<C, R>>)
    requires ms != []
    ensures UpgradeMessages(ms) != []
  {
    AbsorbShape(UpgradeMessages(ms[..|ms| - 1]), Last(ms));
  }

  lemma {:induction false} UpgradeNoLonger<C, R>(ms: seq<Message<C, R>>)
    ensures |UpgradeMessages(ms)| <= |ms|
  {
    if ms != [] {
      UpgradeNoLonger(ms[..|ms| - 1]);
      AbsorbShape(UpgradeMessages(ms[..|ms| - 1]), Last(ms));
    }
  }

  lemma {:induction false} NothingToFold<C, R>(ms: seq<Message<C, R>>)
    requires NoLaterCarrier(ms)
    ensures UpgradeMessages(ms) == ms
  {
    if ms != [] {
      var init := ms[..|ms| - 1];
      NoCarrierButLast(ms);
      NothingToFold(init);
      UpgradeLast(ms);
      SameEnds(UpgradeMessages(ms), ms);
    }
  }

  lemma {:induction false} SameEnds<C, R>(a: seq<Message<C, R>>, b: seq<Message<C, R>>)
    requires a != [] && b != [] && a[..|a| - 1] == b[..|b| - 1] && Last(a) == Last(b)
    ensures a == b
  {
    assert a == a[..|a| - 1] + [Last(a)] && b == b[..|b| - 1] + [Last(b)];
  }

  lemma {:induction false} FoldingShrinks<C, R>(ms: seq<Message<C, R>>)
    requires !NoLaterCarrier(ms)
    ensures |UpgradeMessages(ms)| < |ms|
  {
    var init := ms[..|ms| - 1];
    NoCarrierButLast(ms);
    UpgradeNonempty(init);
    UpgradeNoLonger(init);
    AbsorbShape(UpgradeMessages(init), Last(ms));
    if !NoLaterCarrier(init) {
      FoldingShrinks(init);
    }
  }

  /** No carrier directly follows a later user message that has no tool results of its own. */
  predicate CarriersFollowOthers<C, R>(ms: seq<Message<C, R>>) {
    forall k :: 1 <= k < |ms| - 1 && Carrier(ms[k + 1]) && ms[k].role.User? ==> Carrier(ms[k])
  }

  lemma {:induction false} CarriersFollowOthersButLast<C, R>(ms: seq<Message<C, R>>)
    requires |ms| > 1
    ensures var init := ms[..|ms| - 1];
            CarriersFollowOthers(ms) <==>
              CarriersFollowOthers(init)
              && (Carrier(Last(ms)) && |init| > 1 && Last(init).role.User? ==> Carrier(Last(init)))
  {
  }

  lemma {:induction false} AbsorbCarriers<C, R>(out: seq<Message<C, R>>, m: Message<C, R>)
    requires out != []
    ensures NoLaterCarrier(Absorb(out, m)) <==>
              if Carrier(m) then NoLaterCarrier(out[..|out| - 1]) && (|out| > 1 ==> !Last(out).role.User?)
              else NoLaterCarrier(out)
  {
    if Carrier(m) {
      NoCarrierButLast(Absorb(out, m));
      assert Absorb(out, m)[..|out| - 1] == out[..|out| - 1];
    } else {
      NoCarrierButLast(out + [m]);
      assert (out + [m])[..|out|] == out;
    }
  }

  lemma {:induction false} NoCarrierLeft<C, R>(ms: seq<Message<C, R>>)
    ensures NoLaterCarrier(UpgradeMessages(ms)) <==> CarriersFollowOthers(ms)
  {
    if |ms| > 1 {
      var init := ms[..|ms| - 1];
      var out := UpgradeMessages(init);
      NoCarrierLeft(init);
      CarriersFollowOthersButLast(ms);
      UpgradeLast(init);
      AbsorbCarriers(out, Last(ms));
      NoCarrierButLast(out);
      OutputGrows(init);
    }
  }

  lemma {:induction false} NoCarrierButLast<C, R>(out: seq<Message<C, R>>)
    requires out != []
    ensures NoLaterCarrier(out) <==> NoLaterCarrier(out[..|out| - 1]) && (|out| > 1 ==> !Carrier(Last(out)))
  {
  }

  lemma {:induction false} OutputGrows<C, R>(ms: seq<Message<C, R>>)
    ensures |ms| == 1 ==> |UpgradeMessages(ms)| == 1
    ensures |ms| > 1 && !Carrier(Last(ms)) ==> |UpgradeMessages(ms)| > 1
  {
    if |ms| == 1 {
      assert UpgradeMessages(ms[..0]) == [];
    } else if |ms| > 1 {
      UpgradeNonempty(ms[..|ms| - 1]);
    }
  }

  /** Upgrading an upgraded thread changes no message exactly when carriers follow no bare user message. */
  lemma {:induction false} UpgradeTwiceExactlyWhen<C, R>(ms: seq<Message<C, R>>)
    ensures UpgradeMessages(UpgradeMessages(ms)) == UpgradeMessages(ms) <==> CarriersFollowOthers(ms)
  {
    NoCarrierLeft(ms);
    if NoLaterCarrier(UpgradeMessages(ms)) {
      NothingToFold(UpgradeMessages(ms));
    } else {
      FoldingShrinks(UpgradeMessages(ms));
    }
  }

  /** A well-formed old thread: each carrier after the first answers an assistant message that has no results yet. */
  predicate WellFormed<C, R>(ms: seq<Message<C, R>>) {
    forall i :: 1 <= i < |ms| && Carrier(ms[i]) ==> ms[i - 1].role.Assistant? && |ms[i - 1].toolResults| == 0
  }

  lemma {:induction false} WellFormedUpgrade<C, R>(ms: seq<Message<C, R>>)
    requires WellFormed(ms)
    ensures Results(UpgradeMessages(ms)) == Results(ms)
    ensures UpgradeMessages(UpgradeMessages(ms)) == UpgradeMessages(ms)
  {
    ResultsConservedExactlyWhen(ms);
    UpgradeTwiceExactlyWhen(ms);
  }
}
