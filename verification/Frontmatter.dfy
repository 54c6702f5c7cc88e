/**
 Finding where a skill file's YAML frontmatter ends (crates/agent_skills/agent_skills.rs).  Whether a
 prefix of the file parses is asked of an arbitrary `yaml` function.
 */
module Frontmatter {
  import opened Options
  import opened Utf8

  datatype YamlOutcome<M> = NoDocument | Parsed(metadata: M) | Rejected(error: string)

  datatype ExtractError = MissingOpener | MissingCloser | InvalidYaml(last: Option<string>)

  datatype Extraction<M> = Extracted(metadata: M, body: seq<Byte>) | Failed(error: ExtractError)

  /** The text is precisely `---`. */
  predicate IsDelimiter(text: seq<Byte>) {
    |text| == 3 && DelimiterAt(text, 0)
  }

  predicate DelimiterAt(bs: seq<Byte>, i: nat) {
    i + 3 <= |bs| && bs[i] == DASH && bs[i + 1] == DASH && bs[i + 2] == DASH
  }

  // ----- trimming -----

  /** The length of the Unicode white space character at the front, or 0. */
  function WhitespaceLen(bs: seq<Byte>): (n: nat)
    ensures n <= |bs|
  {
    if |bs| >= 1 && (9 <= bs[0] <= 13 || bs[0] == 0x20) then 1
    else if |bs| >= 2 && bs[0] == 0xC2 && (bs[1] == 0x85 || bs[1] == 0xA0) then 2
    else if |bs| >= 3 && ThreeByteWhitespace(bs[0], bs[1], bs[2]) then 3
    else 0
  }

  predicate ThreeByteWhitespace(a: Byte, b: Byte, c: Byte) {
    || (a == 0xE1 && b == 0x9A && c == 0x80)
    || (a == 0xE2 && b == 0x80 && (0x80 <= c <= 0x8A || c == 0xA8 || c == 0xA9 || c == 0xAF))
    || (a == 0xE2 && b == 0x81 && c == 0x9F)
    || (a == 0xE3 && b == 0x80 && c == 0x80)
  }

  function TrimStart(bs: seq<Byte>): (r: seq<Byte>)
    ensures |r| <= |bs|
    decreases |bs|
  {
    if WhitespaceLen(bs) == 0 then bs else TrimStart(bs[WhitespaceLen(bs)..])
  }

  lemma {:induction false} TrimStartKeepsValid(bs: seq<Byte>)
    requires Valid(bs)
    ensures Valid(TrimStart(bs))
    decreases |bs|
  {
    if WhitespaceLen(bs) > 0 {
      assert WhitespaceLen(bs) == CharLen(bs);
      TrimStartKeepsValid(bs[WhitespaceLen(bs)..]);
    }
  }

  lemma {:induction false} DropAppend(bs: seq<Byte>, more: seq<Byte>, n: nat)
    requires n <= |bs|
    ensures (bs + more)[n..] == bs[n..] + more
  {
  }

  lemma {:induction false} TrimStartAppend(bs: seq<Byte>, more: seq<Byte>)
    requires DelimiterAt(TrimStart(bs), 0)
    ensures TrimStart(bs + more) == TrimStart(bs) + more
    decreases |bs|
  {
    var n := WhitespaceLen(bs);
    if n == 0 {
      assert (bs + more)[0] == bs[0];
    } else {
      assert WhitespaceLen(bs + more) == n;
      DropAppend(bs, more, n);
      TrimStartAppend(bs[n..], more);
    }
  }

  // ----- the byte scan -----

  /** The scan's decision at byte `i`: the end of the delimiter line that starts right after it, if any. */
  function CandidateAt(bs: seq<Byte>, i: nat): (r: Option<nat>)
    requires i < |bs|
    ensures r.Some? ==> i + 4 <= r.value <= |bs|
  {
    if bs[i] != LF || !DelimiterAt(bs, i + 1) then None
    else if i + 4 == |bs| then Some(i + 4)
    else if bs[i + 4] == LF then Some(i + 5)
    else if i + 5 < |bs| && bs[i + 4] == CR && bs[i + 5] == LF then Some(i + 6)
    else None
  }

  function OptionToSeq<T>(o: Option<T>): seq<T> {
    if o.Some? then [o.value] else []
  }

  /** The candidates pushed while scanning the first `n` bytes. */
  function Candidates(bs: seq<Byte>, n: nat): seq<nat>
    requires n <= |bs|
  {
    if n == 0 then [] else Candidates(bs, n - 1) + OptionToSeq(CandidateAt(bs, n - 1))
  }

  lemma {:induction false} CandidatesInRange(bs: seq<Byte>, n: nat)
    requires n <= |bs|
    ensures InRange(Candidates(bs, n), bs)
  {
    if n > 0 {
      CandidatesInRange(bs, n - 1);
    }
  }

  ghost predicate InRange(ends: seq<nat>, bs: seq<Byte>) {
    forall k :: 0 <= k < |ends| ==> 0 < ends[k] <= |bs|
  }

  method Scan(bs: seq<Byte>) returns (candidates: seq<nat>)
    ensures candidates == Candidates(bs, |bs|) && InRange(candidates, bs)
  {
    CandidatesInRange(bs, |bs|);
    candidates := [];
    for i := 0 to |bs|
      invariant candidates == Candidates(bs, i)
    {
      if bs[i] != LF {
        continue;
      }
      var lineStart := i + 1;
      if lineStart + 3 > |bs| {
        continue;
      }
      if !DelimiterAt(bs, lineStart) {
        continue;
      }
      var afterDashes := lineStart + 3;
      var end;
      if afterDashes == |bs| {
        end := afterDashes;
      } else if bs[afterDashes] == LF {
        end := afterDashes + 1;
      } else if afterDashes + 1 < |bs| && bs[afterDashes] == CR && bs[afterDashes + 1] == LF {
        end := afterDashes + 2;
      } else {
        continue;
      }
      candidates := candidates + [end];
    }
  }

  // ----- the same thing, line by line -----

  /** A text as its lines: each but the last is ended by a newline, perhaps after a carriage return. */
  datatype Lines = Last(text: seq<Byte>) | Lf(text: seq<Byte>, rest: Lines) | CrLf(text: seq<Byte>, rest: Lines) {
    /** The bytes the first line takes, terminator included. */
    function FirstLength(): nat {
      |text| + if Last? then 0 else if Lf? then 1 else 2
    }
  }

  /** The first newline at or after `i`, or the end. */
  function NewlineFrom(bs: seq<Byte>, i: nat): (n: nat)
    requires i <= |bs|
    ensures i <= n <= |bs| && (n < |bs| ==> bs[n] == LF)
    decreases |bs| - i
  {
    if i == |bs| || bs[i] == LF then i else NewlineFrom(bs, i + 1)
  }

  lemma {:induction false} NewlineFromIsFirst(bs: seq<Byte>, i: nat)
    requires i <= |bs|
    ensures forall k :: i <= k < NewlineFrom(bs, i) ==> bs[k] != LF
    decreases |bs| - i
  {
    if i < |bs| && bs[i] != LF {
      NewlineFromIsFirst(bs, i + 1);
    }
  }

  /** The lines of the text from `p` on. */
  function LinesFrom(bs: seq<Byte>, p: nat): Lines
    requires p <= |bs|
    decreases |bs| - p
  {
    var n := NewlineFrom(bs, p);
    if n == |bs| then Last(bs[p..])
    else if n > p && bs[n - 1] == CR then CrLf(bs[p..n - 1], LinesFrom(bs, n + 1))
    else Lf(bs[p..n], LinesFrom(bs, n + 1))
  }

  function Unlines(lines: Lines): seq<Byte> {
    match lines
    case Last(text) => text
    case Lf(text, rest) => text + [LF] + Unlines(rest)
    case CrLf(text, rest) => text + [CR, LF] + Unlines(rest)
  }

  lemma {:induction false} SplitAtNewline(bs: seq<Byte>, p: nat, n: nat)
    requires p <= n < |bs| && bs[n] == LF
    ensures bs[p..n] + [LF] + bs[n + 1..] == bs[p..]
    ensures n > p && bs[n - 1] == CR ==> bs[p..n - 1] + [CR, LF] + bs[n + 1..] == bs[p..]
  {
  }

  lemma {:induction false} UnlinesStep(bs: seq<Byte>, p: nat, n: nat)
    requires p <= |bs| && n == NewlineFrom(bs, p) < |bs|
    requires Unlines(LinesFrom(bs, n + 1)) == bs[n + 1..]
    ensures Unlines(LinesFrom(bs, p)) == bs[p..]
  {
    var rest := LinesFrom(bs, n + 1);
    SplitAtNewline(bs, p, n);
    if n > p && bs[n - 1] == CR {
      assert LinesFrom(bs, p) == CrLf(bs[p..n - 1], rest);
    } else {
      assert LinesFrom(bs, p) == Lf(bs[p..n], rest);
    }
  }

  /** Putting the lines back together gives the text. */
  lemma {:induction false} UnlinesLines(bs: seq<Byte>, p: nat)
    requires p <= |bs|
    ensures Unlines(LinesFrom(bs, p)) == bs[p..]
    decreases |bs| - p
  {
    var n := NewlineFrom(bs, p);
    if n < |bs| {
      UnlinesLines(bs, n + 1);
      UnlinesStep(bs, p, n);
    }
  }

  /** Where the first line ends, if it is precisely `---` and starts at `offset`. */
  function FirstDelimiterEnd(lines: Lines, offset: nat): Option<nat> {
    if IsDelimiter(lines.text) then Some(offset + lines.FirstLength()) else None
  }

  /** The ends of the lines after the first that are precisely `---`. */
  function LaterDelimiterEnds(lines: Lines, offset: nat): seq<nat> {
    if lines.Last? then []
    else
      var next := offset + lines.FirstLength();
      OptionToSeq(FirstDelimiterEnd(lines.rest, next)) + LaterDelimiterEnds(lines.rest, next)
  }

  function CandidatesFrom(bs: seq<Byte>, i: nat): seq<nat>
    requires i <= |bs|
    decreases |bs| - i
  {
    if i == |bs| then [] else OptionToSeq(CandidateAt(bs, i)) + CandidatesFrom(bs, i + 1)
  }

  lemma {:induction false} CandidatesSplit(bs: seq<Byte>, n: nat)
    requires n <= |bs|
    ensures Candidates(bs, |bs|) == Candidates(bs, n) + CandidatesFrom(bs, n)
    decreases |bs| - n
  {
    if n < |bs| {
      CandidatesSplit(bs, n + 1);
    }
  }

  lemma {:induction false} DelimiterSlice(bs: seq<Byte>, p: nat, q: nat)
    requires p <= q <= |bs|
    ensures IsDelimiter(bs[p..q]) <==> q == p + 3 && DelimiterAt(bs, p)
  {
    if q == p + 3 {
      assert bs[p..q][0] == bs[p] && bs[p..q][1] == bs[p + 1] && bs[p..q][2] == bs[p + 2];
    }
  }

  /** At the newline before `q`, the scan recognises the line at `q` exactly when it is a delimiter. */
  lemma {:induction false} CandidateIsDelimiterLine(bs: seq<Byte>, q: nat)
    requires 0 < q <= |bs| && bs[q - 1] == LF
    ensures CandidateAt(bs, q - 1) == FirstDelimiterEnd(LinesFrom(bs, q), q)
  {
    var n := NewlineFrom(bs, q);
    NewlineFromIsFirst(bs, q);
    DelimiterSlice(bs, q, n);
    if n == |bs| {
    } else if n > q && bs[n - 1] == CR {
      DelimiterSlice(bs, q, n - 1);
    }
  }

  lemma {:induction false} NoNewlineNoCandidate(bs: seq<Byte>, p: nat, q: nat)
    requires p <= q <= |bs| && forall k :: p <= k < q ==> bs[k] != LF
    ensures CandidatesFrom(bs, p) == CandidatesFrom(bs, q)
    decreases q - p
  {
    if p < q {
      NoNewlineNoCandidate(bs, p + 1, q);
    }
  }

  lemma {:induction false} LinesStep(bs: seq<Byte>, p: nat, n: nat)
    requires p <= |bs| && n == NewlineFrom(bs, p)
    ensures n == |bs| ==> LinesFrom(bs, p).Last?
    ensures n < |bs| ==>
              var lines := LinesFrom(bs, p);
              !lines.Last? && p + lines.FirstLength() == n + 1 && lines.rest == LinesFrom(bs, n + 1)
  {
  }

  lemma {:induction false} OneMoreLine(bs: seq<Byte>, p: nat, n: nat, lines: Lines)
    requires p <= n < |bs| && !lines.Last? && p + lines.FirstLength() == n + 1
    requires CandidatesFrom(bs, p) == CandidatesFrom(bs, n)
    requires CandidateAt(bs, n) == FirstDelimiterEnd(lines.rest, n + 1)
    requires CandidatesFrom(bs, n + 1) == LaterDelimiterEnds(lines.rest, n + 1)
    ensures CandidatesFrom(bs, p) == LaterDelimiterEnds(lines, p)
  {
  }

  lemma {:induction false} ScanFromLineStart(bs: seq<Byte>, p: nat)
    requires p <= |bs|
    ensures CandidatesFrom(bs, p) == LaterDelimiterEnds(LinesFrom(bs, p), p)
    decreases |bs| - p
  {
    var n := NewlineFrom(bs, p);
    NewlineFromIsFirst(bs, p);
    NoNewlineNoCandidate(bs, p, n);
    LinesStep(bs, p, n);
    if n < |bs| {
      ScanFromLineStart(bs, n + 1);
      CandidateIsDelimiterLine(bs, n + 1);
      OneMoreLine(bs, p, n, LinesFrom(bs, p));
    }
  }

  /**
   The scan finds exactly the lines after the first that are precisely `---`, in order, and those are
   lines of the whole text.
   */
  lemma {:induction false} ScanFindsDelimiterLines(bs: seq<Byte>)
    ensures Candidates(bs, |bs|) == LaterDelimiterEnds(LinesFrom(bs, 0), 0)
    ensures Unlines(LinesFrom(bs, 0)) == bs
  {
    CandidatesSplit(bs, 0);
    ScanFromLineStart(bs, 0);
    UnlinesLines(bs, 0);
  }

  lemma {:induction false} CandidateIsBoundary(bs: seq<Byte>, i: nat)
    requires Valid(bs) && i < |bs| && CandidateAt(bs, i).Some?
    ensures var end := CandidateAt(bs, i).value;
            end <= |bs| && IsCharBoundary(bs, end) && Valid(bs[..end]) && Valid(bs[end..])
  {
    var end := CandidateAt(bs, i).value;
    AfterAsciiIsBoundary(bs, end);
    BoundaryCutsValidly(bs, end);
  }

  /** In valid text every cut the scan proposes is a character boundary, so both pieces are valid text. */
  lemma {:induction false} CutsAreBoundaries(bs: seq<Byte>, n: nat, k: nat)
    requires Valid(bs) && n <= |bs| && k < |Candidates(bs, n)|
    ensures var end := Candidates(bs, n)[k];
            end <= |bs| && IsCharBoundary(bs, end) && Valid(bs[..end]) && Valid(bs[end..])
  {
    if k < |Candidates(bs, n - 1)| {
      CutsAreBoundaries(bs, n - 1, k);
    } else {
      CandidateIsBoundary(bs, n - 1);
    }
  }

  // ----- choosing among the candidates -----

  function Choose<M>(content: seq<Byte>, ends: seq<nat>, yaml: seq<Byte> -> YamlOutcome<M>,
          last: Option<string>): Extraction<M>
    requires InRange(ends, content)
  {
    if ends == [] then Failed(InvalidYaml(last))
    else match yaml(content[..ends[0]])
      case Parsed(m) => Extracted(m, content[ends[0]..])
      case NoDocument => Choose(content, ends[1..], yaml, last)
      case Rejected(e) => Choose(content, ends[1..], yaml, Some(e))
  }

  function Extract<M>(raw: seq<Byte>, yaml: seq<Byte> -> YamlOutcome<M>): Extraction<M> {
    var content := TrimStart(raw);
    if !DelimiterAt(content, 0) then Failed(MissingOpener)
    else
      var ends := Candidates(content, |content|);
      CandidatesInRange(content, |content|);
      if ends == [] then Failed(MissingCloser) else Choose(content, ends, yaml, None)
  }

  method ExtractFrontmatter<M>(raw: seq<Byte>, yaml: seq<Byte> -> YamlOutcome<M>) returns (r: Extraction<M>)
    ensures r == Extract(raw, yaml)
  {
    var content := TrimStart(raw);
    if !DelimiterAt(content, 0) {
      return Failed(MissingOpener);
    }
    var candidates := Scan(content);
    if candidates == [] {
      return Failed(MissingCloser);
    }
    var lastError: Option<string> := None;
    for k := 0 to |candidates|
      invariant Choose(content, candidates, yaml, None) == Choose(content, candidates[k..], yaml, lastError)
    {
      var end := candidates[k];
      assert candidates[k..][1..] == candidates[k + 1..];
      match yaml(content[..end]) {
        case NoDocument =>
        case Parsed(metadata) => return Extracted(metadata, content[end..]);
        case Rejected(e) => lastError := Some(e);
      }
    }
    return Failed(InvalidYaml(lastError));
  }

  /** `ends[k]` is the first cut whose prefix parses. */
  ghost predicate FirstAccepted<M(!new)>(content: seq<Byte>, ends: seq<nat>, yaml: seq<Byte> -> YamlOutcome<M>, k: nat)
    requires InRange(ends, content)
  {
    && k < |ends|
    && yaml(content[..ends[k]]).Parsed?
    && forall j :: 0 <= j < k ==> !yaml(content[..ends[j]]).Parsed?
  }

  lemma {:induction false} ChooseTakesFirst<M(!new)>(content: seq<Byte>, ends: seq<nat>,
          yaml: seq<Byte> -> YamlOutcome<M>,
                                                    last: Option<string>, k: nat)
    requires InRange(ends, content)
    requires FirstAccepted(content, ends, yaml, k)
    ensures Choose(content, ends, yaml, last)
         == Extracted(yaml(content[..ends[k]]).metadata, content[ends[k]..])
  {
    if k > 0 {
      var last' := match yaml(content[..ends[0]]) case Rejected(e) => Some(e) case _ => last;
      assert !yaml(content[..ends[0]]).Parsed?;
      assert forall j :: 0 <= j < |ends[1..]| ==> ends[1..][j] == ends[j + 1];
      ChooseTakesFirst(content, ends[1..], yaml, last', k - 1);
    }
  }

  lemma {:induction false} ChooseFailsOnlyIfNone<M(!new)>(content: seq<Byte>, ends: seq<nat>,
          yaml: seq<Byte> -> YamlOutcome<M>,
                                                         last: Option<string>) returns (k: nat)
    requires InRange(ends, content)
    ensures Choose(content, ends, yaml, last).Extracted? ==> FirstAccepted(content, ends, yaml, k)
    ensures Choose(content, ends, yaml, last).Failed? ==>
              forall j :: 0 <= j < |ends| ==> !yaml(content[..ends[j]]).Parsed?
  {
    k := 0;
    if ends != [] && !yaml(content[..ends[0]]).Parsed? {
      var last' := match yaml(content[..ends[0]]) case Rejected(e) => Some(e) case _ => last;
      assert forall j :: 0 <= j < |ends[1..]| ==> ends[1..][j] == ends[j + 1];
      k := ChooseFailsOnlyIfNone(content, ends[1..], yaml, last');
      assert forall j :: 0 < j < |ends| ==> ends[j] == ends[1..][j - 1];
      k := k + 1;
    }
  }

  /**
   The extraction succeeds exactly when the file opens with `---` and some later delimiter line closes a
   prefix that parses.
   */
  lemma {:induction false} ExtractSucceedsExactlyWhen<M(!new)>(raw: seq<Byte>, yaml: seq<Byte> -> YamlOutcome<M>)
    ensures var content := TrimStart(raw);
            var ends := Candidates(content, |content|);
            InRange(ends, content) &&
            (Extract(raw, yaml).Extracted? <==>
              DelimiterAt(content, 0) && exists j :: 0 <= j < |ends| && yaml(content[..ends[j]]).Parsed?)
  {
    var content := TrimStart(raw);
    CandidatesInRange(content, |content|);
    var k := ChooseFailsOnlyIfNone(content, Candidates(content, |content|), yaml, None);
  }

  /** It takes the first such line; prefix and body together are the trimmed file. */
  lemma {:induction false} ExtractTakesLeastAccepted<M(!new)>(raw: seq<Byte>,
          yaml: seq<Byte> -> YamlOutcome<M>) returns (k: nat)
    requires Extract(raw, yaml).Extracted?
    ensures var content := TrimStart(raw);
            var ends := Candidates(content, |content|);
            && InRange(ends, content) && FirstAccepted(content, ends, yaml, k)
            && Extract(raw, yaml).metadata == yaml(content[..ends[k]]).metadata
            && content[..ends[k]] + Extract(raw, yaml).body == content
  {
    var content := TrimStart(raw);
    CandidatesInRange(content, |content|);
    k := ChosenIsFirst(content, Candidates(content, |content|), yaml);
  }

  lemma {:induction false} ChosenIsFirst<M(!new)>(content: seq<Byte>, ends: seq<nat>,
          yaml: seq<Byte> -> YamlOutcome<M>) returns (k: nat)
    requires InRange(ends, content) && Choose(content, ends, yaml, None).Extracted?
    ensures FirstAccepted(content, ends, yaml, k)
    ensures Choose(content, ends, yaml, None).metadata == yaml(content[..ends[k]]).metadata
    ensures content[..ends[k]] + Choose(content, ends, yaml, None).body == content
  {
    k := ChooseFailsOnlyIfNone(content, ends, yaml, None);
    ChooseTakesFirst(content, ends, yaml, None, k);
    assert content[..ends[k]] + content[ends[k]..] == content;
  }

  // ----- appending to the body -----

  lemma {:induction false} CandidateLocal(bs: seq<Byte>, more: seq<Byte>, i: nat)
    requires i + 6 <= |bs| || (i + 5 == |bs| && bs[i + 4] == LF)
    ensures CandidateAt(bs + more, i) == CandidateAt(bs, i)
  {
    assert forall k :: 0 <= k < |bs| ==> (bs + more)[k] == bs[k];
    assert DelimiterAt(bs + more, i + 1) <==> DelimiterAt(bs, i + 1);
  }

  lemma {:induction false} CandidatesLocal(bs: seq<Byte>, more: seq<Byte>, n: nat)
    requires n <= |bs| && (n + 5 <= |bs| || n == 0)
    ensures Candidates(bs + more, n) == Candidates(bs, n)
  {
    if n > 0 {
      CandidatesLocal(bs, more, n - 1);
      CandidateLocal(bs, more, n - 1);
    }
  }

  lemma {:induction false} WhereFound(bs: seq<Byte>, n: nat, k: nat) returns (i: nat)
    requires n <= |bs| && k < |Candidates(bs, n)|
    ensures i < n && CandidateAt(bs, i) == Some(Candidates(bs, n)[k]) && k == |Candidates(bs, i)|
    ensures Candidates(bs, i + 1) == Candidates(bs, n)[..k + 1]
  {
    if k < |Candidates(bs, n - 1)| {
      i := WhereFound(bs, n - 1, k);
    } else {
      i := n - 1;
    }
  }

  lemma {:induction false} CandidatesPrefix(bs: seq<Byte>, n: nat, m: nat)
    requires n <= m <= |bs|
    ensures Candidates(bs, n) <= Candidates(bs, m)
  {
    if n < m {
      CandidatesPrefix(bs, n, m - 1);
    }
  }

  /** A newline-terminated candidate is decided by bytes that appending cannot touch. */
  lemma {:induction false} NewlineTerminated(bs: seq<Byte>, i: nat)
    requires i < |bs| && CandidateAt(bs, i).Some? && bs[CandidateAt(bs, i).value - 1] == LF
    ensures i + 6 <= |bs| || (i + 5 == |bs| && bs[i + 4] == LF)
  {
  }

  lemma {:induction false} SameThrough(content: seq<Byte>, more: seq<Byte>, i: nat)
    requires i < |content| && (i + 6 <= |content| || (i + 5 == |content| && content[i + 4] == LF))
    ensures Candidates(content + more, i + 1) == Candidates(content, i + 1)
    ensures Candidates(content + more, i + 1) <= Candidates(content + more, |content + more|)
  {
    CandidatesLocal(content, more, i);
    CandidateLocal(content, more, i);
    CandidatesPrefix(content + more, i + 1, |content + more|);
  }

  lemma {:induction false} SameCandidatesUpTo(content: seq<Byte>, more: seq<Byte>, ends: seq<nat>, k: nat)
    requires ends == Candidates(content, |content|) && k < |ends|
    requires 0 < ends[k] <= |content| && content[ends[k] - 1] == LF
    ensures var ends' := Candidates(content + more, |content + more|);
            k < |ends'| && ends'[..k + 1] == ends[..k + 1]
  {
    var i := WhereFound(content, |content|, k);
    NewlineTerminated(content, i);
    SameThrough(content, more, i);
    assert Candidates(content + more, i + 1) == ends[..k + 1];
  }

  lemma {:induction false} SameFirstAccepted<M(!new)>(content: seq<Byte>, more: seq<Byte>, ends: seq<nat>,
          ends': seq<nat>,
                                   yaml: seq<Byte> -> YamlOutcome<M>, k: nat)
    requires InRange(ends, content)
    requires InRange(ends', content + more)
    requires FirstAccepted(content, ends, yaml, k)
    requires k < |ends'| && ends'[..k + 1] == ends[..k + 1]
    ensures FirstAccepted(content + more, ends', yaml, k) && ends'[k] == ends[k]
    ensures yaml((content + more)[..ends[k]]) == yaml(content[..ends[k]])
  {
    forall j | 0 <= j <= k ensures ends'[j] == ends[j] && (content + more)[..ends'[j]] == content[..ends[j]] {
      assert ends'[j] == ends'[..k + 1][j] == ends[..k + 1][j];
    }
  }

  /**
   Text after a newline-terminated closing line is body only: appending to the file changes neither the
   cut nor the metadata, and lands at the end of the body.
   */
  lemma {:induction false} AppendingExtendsBodyOnly<M(!new)>(raw: seq<Byte>, more: seq<Byte>,
          yaml: seq<Byte> -> YamlOutcome<M>, k: nat)
    requires Extract(raw, yaml).Extracted?
    requires var content := TrimStart(raw);
             var ends := Candidates(content, |content|);
             InRange(ends, content) && FirstAccepted(content, ends, yaml, k) && content[ends[k] - 1] == LF
    ensures Extract(raw + more, yaml) == Extracted(Extract(raw, yaml).metadata, Extract(raw, yaml).body + more)
  {
    var content := TrimStart(raw);
    TrimStartAppend(raw, more);
    ContentAppend(content, more, Candidates(content, |content|), yaml, k);
  }

  lemma {:induction false} ContentAppend<M(!new)>(content: seq<Byte>, more: seq<Byte>, ends: seq<nat>,
          yaml: seq<Byte> -> YamlOutcome<M>, k: nat)
    requires ends == Candidates(content, |content|) && InRange(ends, content)
    requires FirstAccepted(content, ends, yaml, k) && content[ends[k] - 1] == LF
    ensures var ends' := Candidates(content + more, |content + more|);
            && ends' != [] && InRange(ends', content + more)
            && var r := Choose(content, ends, yaml, None);
               r.Extracted? && Choose(content + more, ends', yaml, None) == Extracted(r.metadata, r.body + more)
  {
    var ends' := Candidates(content + more, |content + more|);
    CandidatesInRange(content + more, |content + more|);
    SameCandidatesUpTo(content, more, ends, k);
    SameFirstAccepted(content, more, ends, ends', yaml, k);
    ChooseTakesFirst(content, ends, yaml, None, k);
    ChooseTakesFirst(content + more, ends', yaml, None, k);
    DropAppend(content, more, ends[k]);
  }
}
