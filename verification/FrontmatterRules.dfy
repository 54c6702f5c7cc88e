/**
 Skill files from outside (crates/agent_skills/agent_skills.rs:343-413): which lines close the frontmatter,
 which failure is reported when, and what counts as white space before it.
 */
module FrontmatterRules {
  import opened Options
  import opened Utf8
  import opened Utf8Scalars
  import opened Frontmatter
  import Text

  // ----- white space -----

  /** The characters with Unicode's property White_Space. */
  predicate White(c: int) {
    || 0x09 <= c <= 0x0D || c == 0x20 || c == 0x85 || c == 0xA0 || c == 0x1680 || 0x2000 <= c <= 0x200A
    || c == 0x2028 || c == 0x2029 || c == 0x202F || c == 0x205F || c == 0x3000
  }

  /** Python strips the same characters, and the four separators before the space. */
  lemma {:induction false} PythonStripsMore(c: char)
    ensures Text.IsSpace(c) <==> White(c as int) || 0x1C <= c as int <= 0x1F
  {
  }

  lemma {:induction false} WhitespaceExactly(bs: seq<Byte>)
    requires CharLen(bs) > 0
    ensures WhitespaceLen(bs) == if White(CodePoint(bs)) then CharLen(bs) else 0
  {
  }

  /** Text of white space characters only. */
  predicate AllWhite(bs: seq<Byte>) {
    bs == [] || (CharLen(bs) > 0 && White(CodePoint(bs)) && AllWhite(bs[CharLen(bs)..]))
  }

  lemma {:induction false} SameFirstCharacter(bs: seq<Byte>, cs: seq<Byte>)
    requires 0 < CharLen(bs) <= |cs| && bs[..CharLen(bs)] == cs[..CharLen(bs)]
    ensures CharLen(cs) == CharLen(bs) && CodePoint(cs) == CodePoint(bs)
  {
    CharLenLocal(bs, cs);
    var n := CharLen(bs);
    forall k | 0 <= k < n ensures bs[k] == cs[k] {
      assert bs[..n][k] == cs[..n][k];
    }
  }

  lemma {:induction false} CutTwice(bs: seq<Byte>, n: nat, k: nat)
    requires n + k <= |bs|
    ensures bs[..n + k][..n] == bs[..n] && bs[..n + k][n..] == bs[n..][..k]
  {
  }

  lemma {:induction false} OneMoreWhite(bs: seq<Byte>, k: nat)
    requires CharLen(bs) > 0 && White(CodePoint(bs)) && k <= |bs| - CharLen(bs)
    requires AllWhite(bs[CharLen(bs)..][..k])
    ensures AllWhite(bs[..CharLen(bs) + k])
  {
    var n := CharLen(bs);
    var head := bs[..n + k];
    CutTwice(bs, n, k);
    SameFirstCharacter(bs, head);
  }

  /** Trimming takes off the first `k` bytes: white space characters, and all there are. */
  ghost predicate TrimmedAt(bs: seq<Byte>, k: nat) {
    && k <= |bs| && TrimStart(bs) == bs[k..] && AllWhite(bs[..k])
    && (k < |bs| ==> CharLen(bs[k..]) > 0 && !White(CodePoint(bs[k..])))
  }

  lemma {:induction false} TrimmedOneMore(bs: seq<Byte>, n: nat, k: nat)
    requires CharLen(bs) == n > 0 && White(CodePoint(bs)) && TrimmedAt(bs[n..], k)
    ensures TrimmedAt(bs, n + k)
  {
    TrimOneCharacter(bs, n);
    OneMoreWhite(bs, k);
  }

  lemma {:induction false} NothingToTrim(bs: seq<Byte>, n: nat)
    requires CharLen(bs) == n > 0 && !White(CodePoint(bs))
    ensures TrimmedAt(bs, 0)
  {
    TrimOneCharacter(bs, n);
  }

  /** Trimming takes off exactly the white space characters at the front. */
  lemma {:induction false} TrimStartExactly(bs: seq<Byte>) returns (k: nat)
    requires Valid(bs)
    ensures TrimmedAt(bs, k)
    decreases |bs|
  {
    if bs == [] {
      k := 0;
    } else {
      var n := CharLen(bs);
      if White(CodePoint(bs)) {
        k := TrimStartExactly(bs[n..]);
        TrimmedOneMore(bs, n, k);
        k := n + k;
      } else {
        NothingToTrim(bs, n);
        k := 0;
      }
    }
  }

  lemma {:induction false} TrimOneCharacter(bs: seq<Byte>, n: nat)
    requires CharLen(bs) == n > 0
    ensures TrimStart(bs) == if White(CodePoint(bs)) then TrimStart(bs[n..]) else bs
    ensures bs[0..] == bs && forall k :: 0 <= k <= |bs[n..]| ==> bs[n..][k..] == bs[n + k..]
  {
    WhitespaceExactly(bs);
  }

  // ----- which lines may close -----

  /** At `p` a line starts that is precisely three dashes, and with its terminator it ends at `end`. */
  ghost predicate DashLine(bs: seq<Byte>, p: nat, end: nat) {
    && 0 < p && p + 3 <= |bs| && bs[p - 1] == 10 && bs[p..p + 3] == [45, 45, 45]
    && (|| (end == p + 3 == |bs|)
        || (end == p + 4 <= |bs| && bs[p + 3] == 10)
        || (end == p + 5 <= |bs| && bs[p + 3] == 13 && bs[p + 4] == 10))
  }

  lemma {:induction false} CandidateIsDashLine(bs: seq<Byte>, i: nat, end: nat)
    requires i < |bs|
    ensures CandidateAt(bs, i) == Some(end) <==> DashLine(bs, i + 1, end)
  {
    if i + 4 <= |bs| {
      var line := bs[i + 1..i + 4];
      assert line[0] == bs[i + 1] && line[1] == bs[i + 2] && line[2] == bs[i + 3];
      assert line == [45, 45, 45] <==> line[0] == 45 && line[1] == 45 && line[2] == 45;
    }
  }

  ghost predicate Closes(bs: seq<Byte>, n: nat, end: nat) {
    exists p: nat :: p <= n && DashLine(bs, p, end)
  }

  lemma {:induction false} OneMoreClose(bs: seq<Byte>, n: nat, end: nat)
    requires 0 < n <= |bs|
    ensures Closes(bs, n, end) <==> Closes(bs, n - 1, end) || CandidateAt(bs, n - 1) == Some(end)
  {
    CandidateIsDashLine(bs, n - 1, end);
  }

  lemma {:induction false} CandidatesClose(bs: seq<Byte>, n: nat, end: nat)
    requires n <= |bs|
    ensures end in Candidates(bs, n) <==> Closes(bs, n, end)
  {
    if n > 0 {
      CandidatesClose(bs, n - 1, end);
      OneMoreClose(bs, n, end);
    }
  }

  lemma {:induction false} DashLinesApart(bs: seq<Byte>, p: nat, end: nat, q: nat, end': nat)
    requires p < q && DashLine(bs, p, end) && DashLine(bs, q, end')
    ensures end < end'
  {
    var line := bs[p..p + 3];
    assert line[0] == bs[p] && line[1] == bs[p + 1] && line[2] == bs[p + 2];
  }

  lemma {:induction false} CandidatesIncrease(bs: seq<Byte>, n: nat)
    requires n <= |bs|
    ensures forall k, l :: 0 <= k < l < |Candidates(bs, n)| ==> Candidates(bs, n)[k] < Candidates(bs, n)[l]
  {
    if n > 0 {
      var before := Candidates(bs, n - 1);
      CandidatesIncrease(bs, n - 1);
      if CandidateAt(bs, n - 1).Some? {
        var end' := CandidateAt(bs, n - 1).value;
        CandidateIsDashLine(bs, n - 1, end');
        forall k | 0 <= k < |before| ensures before[k] < end' {
          CandidatesClose(bs, n - 1, before[k]);
          var p: nat :| p <= n - 1 && DashLine(bs, p, before[k]);
          DashLinesApart(bs, p, before[k], n, end');
        }
      }
    }
  }

  /** The cuts tried are the ends of the lines after the first that are precisely three dashes, in order. */
  lemma {:induction false} CutsAreDashLines(bs: seq<Byte>)
    ensures var cuts := Candidates(bs, |bs|);
            && (forall end: nat :: end in cuts <==> Closes(bs, |bs|, end))
            && forall k, l :: 0 <= k < l < |cuts| ==> cuts[k] < cuts[l]
  {
    forall end: nat ensures end in Candidates(bs, |bs|) <==> Closes(bs, |bs|, end) {
      CandidatesClose(bs, |bs|, end);
    }
    CandidatesIncrease(bs, |bs|);
  }

  // ----- which failure -----

  /** Of the cuts `ends`, the one at `k` is the last whose prefix is rejected, and none is accepted. */
  ghost predicate LastRejected<M(!new)>(content: seq<Byte>, ends: seq<nat>, yaml: seq<Byte> -> YamlOutcome<M>,
          k: nat, error: string)
    requires InRange(ends, content)
  {
    && k < |ends| && yaml(content[..ends[k]]) == Rejected(error)
    && forall j :: k < j < |ends| ==> yaml(content[..ends[j]]) == NoDocument
  }

  ghost predicate NoneAccepted<M(!new)>(content: seq<Byte>, ends: seq<nat>, yaml: seq<Byte> -> YamlOutcome<M>)
    requires InRange(ends, content)
  {
    forall j :: 0 <= j < |ends| ==> !yaml(content[..ends[j]]).Parsed?
  }

  ghost predicate NoDocuments<M(!new)>(content: seq<Byte>, ends: seq<nat>, yaml: seq<Byte> -> YamlOutcome<M>)
    requires InRange(ends, content)
  {
    forall j :: 0 <= j < |ends| ==> yaml(content[..ends[j]]) == NoDocument
  }

  /** When no cut is accepted, the failure carries the error of the last rejected one, or `last` if there is none. */
  lemma {:induction false} ChooseFails<M(!new)>(content: seq<Byte>, ends: seq<nat>, yaml: seq<Byte> -> YamlOutcome<M>,
          last: Option<string>)
    returns (k: nat, error: Option<string>)
    requires InRange(ends, content) && NoneAccepted(content, ends, yaml)
    ensures Choose(content, ends, yaml, last) == Failed(InvalidYaml(error))
    ensures if NoDocuments(content, ends, yaml) then error == last
            else error.Some? && LastRejected(content, ends, yaml, k, error.value)
  {
    k, error := 0, last;
    if ends != [] {
      var tail := ends[1..];
      assert forall j :: 0 <= j < |tail| ==> tail[j] == ends[j + 1];
      var first := yaml(content[..ends[0]]);
      assert !first.Parsed?;
      k, error := ChooseFails(content, tail, yaml, if first.Rejected? then Some(first.error) else last);
      assert forall j :: 0 < j < |ends| ==> ends[j] == tail[j - 1];
      if NoDocuments(content, tail, yaml) {
        k := 0;
      } else {
        k := k + 1;
      }
    }
  }

  /** Each failure, exactly. */
  lemma {:induction false} FailsExactlyWhen<M(!new)>(raw: seq<Byte>, yaml: seq<Byte> -> YamlOutcome<M>)
    ensures var content := TrimStart(raw);
            var ends := Candidates(content, |content|);
            var begun := |content| >= 3 && content[..3] == [45, 45, 45];
            && InRange(ends, content)
            && (Extract(raw, yaml) == Failed(MissingOpener) <==> !begun)
            && (Extract(raw, yaml) == Failed(MissingCloser) <==> begun && ends == [])
            && (Extract(raw, yaml) == Failed(InvalidYaml(None)) <==>
                begun && ends != [] && NoDocuments(content, ends, yaml))
            && (forall e :: Extract(raw, yaml) == Failed(InvalidYaml(Some(e))) <==>
                  begun && NoneAccepted(content, ends, yaml)
                  && exists k: nat :: k < |ends| && LastRejected(content, ends, yaml, k, e))
  {
    var content := TrimStart(raw);
    var ends := Candidates(content, |content|);
    CandidatesInRange(content, |content|);
    OpenedExactlyWhen(content);
    if NoneAccepted(content, ends, yaml) {
      var k, error := ChooseFails(content, ends, yaml, None);
      assert forall i: nat, j: nat, e, e' ::
        LastRejected(content, ends, yaml, i, e) && LastRejected(content, ends, yaml, j, e') ==> i == j && e == e';
    } else {
      var k := ChooseFailsOnlyIfNone(content, ends, yaml, None);
    }
  }

  lemma {:induction false} OpenedExactlyWhen(content: seq<Byte>)
    ensures DelimiterAt(content, 0) <==> |content| >= 3 && content[..3] == [45, 45, 45]
  {
    if |content| >= 3 {
      assert content[..3] == [content[0], content[1], content[2]];
    }
  }
}
