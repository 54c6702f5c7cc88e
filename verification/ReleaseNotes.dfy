/**
 Converting release notes to AppStream markup (script/flatpak/convert-release-notes.py): a line state
 machine that opens and closes lists.  A line is known here by the two tests the script makes on it and
 its cleaned text.
 */
module ReleaseNotes {
  import opened Options

  /** Whether the line starts with a dash, whether it contains a code fence, and its text without that dash. */
  datatype Line = Line(isList: bool, fence: bool, text: string)

  datatype Token = OpenList | CloseList | Item(text: string) | CodeItem(text: string) | Paragraph(text: string)

  datatype State = State(inList: bool, inFence: bool) {
    /** How many lists should be open in this state. */
    function Depth(): nat {
      (if inList then 1 else 0) + (if inFence then 1 else 0)
    }
  }

  const START: State := State(false, false)

  function Next(s: State, line: Line): State {
    State(line.isList, line.fence != s.inFence)
  }

  /** What one line adds to the output. */
  function Emit(s: State, line: Line): seq<Token> {
    Closing(s, line) + Opening(s, line) + Content(s, line) + Ending(s, line)
  }

  function Closing(s: State, line: Line): seq<Token> {
    if s.inList && !line.isList then [CloseList] else []
  }

  function Opening(s: State, line: Line): seq<Token> {
    if (!s.inFence && line.fence) || (!s.inList && line.isList) then [OpenList] else []
  }

  function Content(s: State, line: Line): seq<Token> {
    if line.isList then [Item(line.text)]
    else if Next(s, line).inFence || line.fence then [CodeItem(line.text)]
    else [Paragraph(line.text)]
  }

  function Ending(s: State, line: Line): seq<Token> {
    if !Next(s, line).inFence && line.fence then [CloseList] else []
  }

  /** What the lines add from state `s` on, with the closing tag after the last. */
  function ConvertFrom(s: State, lines: seq<Line>): seq<Token>
    decreases |lines|
  {
    if lines == [] then (if s.inFence || s.inList then [CloseList] else [])
    else Emit(s, lines[0]) + ConvertFrom(Next(s, lines[0]), lines[1..])
  }

  lemma {:induction false} ConvertStep(before: seq<Token>, s: State, lines: seq<Line>, i: nat)
    requires i < |lines|
    ensures before + ConvertFrom(s, lines[i..])
         == before + Emit(s, lines[i]) + ConvertFrom(Next(s, lines[i]), lines[i + 1..])
  {
    assert lines[i..][1..] == lines[i + 1..];
  }

  /** The body of the loop. */
  method ConvertLine(formatted: seq<Token>, inList: bool, inCodeFence: bool, line: Line)
    returns (formatted': seq<Token>, inList': bool, inCodeFence': bool)
    ensures formatted' == formatted + Emit(State(inList, inCodeFence), line)
    ensures State(inList', inCodeFence') == Next(State(inList, inCodeFence), line)
  {
    ghost var s := State(inList, inCodeFence);
    var out: seq<Token> := [];
    if inList && !line.isList {
      out := out + [CloseList];
    }
    assert out == Closing(s, line);
    if (!inCodeFence && line.fence) || (!inList && line.isList) {
      out := out + [OpenList];
    }
    assert out == Closing(s, line) + Opening(s, line);
    inList' := line.isList;
    inCodeFence' := line.fence != inCodeFence;
    if line.isList {
      out := out + [Item(line.text)];
    } else if inCodeFence' || line.fence {
      out := out + [CodeItem(line.text)];
    } else {
      out := out + [Paragraph(line.text)];
    }
    assert out == Closing(s, line) + Opening(s, line) + Content(s, line);
    if !inCodeFence' && line.fence {
      out := out + [CloseList];
    }
    assert out == Emit(s, line);
    formatted' := formatted + out;
  }

  method ConvertBody(lines: seq<Line>) returns (formatted: seq<Token>)
    ensures formatted == ConvertFrom(START, lines)
  {
    formatted := [];
    var inCodeFence, inList := false, false;
    for i := 0 to |lines|
      invariant ConvertFrom(START, lines) == formatted + ConvertFrom(State(inList, inCodeFence), lines[i..])
    {
      ConvertStep(formatted, State(inList, inCodeFence), lines, i);
      formatted, inList, inCodeFence := ConvertLine(formatted, inList, inCodeFence, lines[i]);
    }
    if inCodeFence || inList {
      formatted := formatted + [CloseList];
    }
  }

  // ----- nesting -----

  /** The lists open after `tokens`, starting with `depth`; `None` once something is out of place. */
  function Run(depth: nat, tokens: seq<Token>): Option<nat>
    decreases |tokens|
  {
    if tokens == [] then Some(depth)
    else match tokens[0]
      case OpenList => Run(depth + 1, tokens[1..])
      case CloseList => if depth == 0 then None else Run(depth - 1, tokens[1..])
      case Item(_) => if depth == 0 then None else Run(depth, tokens[1..])
      case CodeItem(_) => if depth == 0 then None else Run(depth, tokens[1..])
      case Paragraph(_) => if depth > 0 then None else Run(depth, tokens[1..])
  }

  /** Every list is closed, items stand only inside lists and paragraphs only outside. */
  predicate WellNested(tokens: seq<Token>) {
    Run(0, tokens) == Some(0)
  }

  lemma {:induction false} RunConcat(depth: nat, a: seq<Token>, b: seq<Token>)
    ensures Run(depth, a + b) == match Run(depth, a) case None => None case Some(d) => Run(d, b)
    decreases |a|
  {
    if a == [] {
      assert a + b == b;
    } else {
      assert (a + b)[1..] == a[1..] + b;
      var d := match a[0]
        case OpenList => depth + 1
        case CloseList => if depth == 0 then 0 else depth - 1
        case _ => depth;
      RunConcat(d, a[1..], b);
    }
  }

  /** A list line with a fence, outside any list and any fence: it opens one list where two begin. */
  predicate Clash(s: State, line: Line) {
    line.isList && line.fence && !s.inList && !s.inFence
  }

  predicate Both(line: Line) {
    line.isList && line.fence
  }

  /** Effect of one line on the nesting, from any depth. */
  lemma {:induction false} RunEmit(s: State, depth: nat, line: Line)
    ensures Run(depth, Emit(s, line)) ==
              var closing := s.inList && !line.isList;
              var opening := (!s.inFence && line.fence) || (!s.inList && line.isList);
              var item := line.isList || Next(s, line).inFence || line.fence;
              var ending := !Next(s, line).inFence && line.fence;
              if closing && depth == 0 then None
              else
                var d := depth - (if closing then 1 else 0) + (if opening then 1 else 0);
                if (item && d == 0) || (!item && d > 0) then None
                else Some(d - (if ending then 1 else 0))
  {
    RunConcat(depth, Closing(s, line) + Opening(s, line) + Content(s, line), Ending(s, line));
    RunConcat(depth, Closing(s, line) + Opening(s, line), Content(s, line));
    RunConcat(depth, Closing(s, line), Opening(s, line));
  }

  /** Without a clash a line keeps the number of open lists in step with the state. */
  lemma {:induction false} StepInvariant(s: State, line: Line)
    requires !Clash(s, line)
    ensures Run(s.Depth(), Emit(s, line)) == Some(Next(s, line).Depth())
  {
    RunEmit(s, s.Depth(), line);
  }

  /** After a clash: only list lines, and those with a fence in adjacent pairs. */
  predicate RecoversAfterClash(lines: seq<Line>) {
    lines == []
    || (lines[0].isList && !lines[0].fence && RecoversAfterClash(lines[1..]))
    || (|lines| >= 2 && Both(lines[0]) && Both(lines[1]) && RecoversAfterClash(lines[2..]))
  }

  predicate Nests(s: State, lines: seq<Line>)
    decreases |lines|
  {
    if lines == [] then !(s.inList && s.inFence)
    else if Clash(s, lines[0]) then RecoversAfterClash(lines[1..])
    else Nests(Next(s, lines[0]), lines[1..])
  }

  lemma {:induction false} ConvertRun(s: State, depth: nat, lines: seq<Line>)
    requires lines != []
    ensures Run(depth, ConvertFrom(s, lines)) ==
              match Run(depth, Emit(s, lines[0]))
              case None => None
              case Some(d) => Run(d, ConvertFrom(Next(s, lines[0]), lines[1..]))
  {
    RunConcat(depth, Emit(s, lines[0]), ConvertFrom(Next(s, lines[0]), lines[1..]));
  }

  /** One list short of what the state calls for, in a list inside a fence. */
  lemma {:induction false} OneListShort(lines: seq<Line>)
    ensures Run(1, ConvertFrom(State(true, true), lines)) == Some(0) <==> RecoversAfterClash(lines)
    decreases |lines|
  {
    var s := State(true, true);
    if lines == [] {
      assert ConvertFrom(s, lines) == [CloseList];
    } else {
      ConvertRun(s, 1, lines);
      RunEmit(s, 1, lines[0]);
      if lines[0].isList && !lines[0].fence {
        OneListShort(lines[1..]);
      } else if lines[0].isList {
        ShortOutsideFence(lines[1..]);
      }
    }
  }

  lemma {:induction false} ShortOutsideFence(lines: seq<Line>)
    ensures Run(0, ConvertFrom(State(true, false), lines)) == Some(0)
       <==> lines != [] && Both(lines[0]) && RecoversAfterClash(lines[1..])
    decreases |lines|
  {
    var s := State(true, false);
    if lines == [] {
      assert ConvertFrom(s, lines) == [CloseList];
    } else {
      ConvertRun(s, 0, lines);
      RunEmit(s, 0, lines[0]);
      if Both(lines[0]) {
        OneListShort(lines[1..]);
      }
    }
  }

  lemma {:induction false} NestsFrom(s: State, lines: seq<Line>)
    ensures Run(s.Depth(), ConvertFrom(s, lines)) == Some(0) <==> Nests(s, lines)
    decreases |lines|
  {
    if lines == [] {
      assert s.Depth() > 0 ==> ConvertFrom(s, lines) == [CloseList];
    } else {
      ConvertRun(s, s.Depth(), lines);
      if Clash(s, lines[0]) {
        RunEmit(s, s.Depth(), lines[0]);
        OneListShort(lines[1..]);
      } else {
        StepInvariant(s, lines[0]);
        NestsFrom(Next(s, lines[0]), lines[1..]);
      }
    }
  }

  /** For every body, the output is well nested exactly when its lines satisfy `Nests`. */
  lemma {:induction false} WellNestedExactlyWhen(lines: seq<Line>)
    ensures WellNested(ConvertFrom(START, lines)) <==> Nests(START, lines)
  {
    NestsFrom(START, lines);
  }

  function Fences(lines: seq<Line>): nat {
    if lines == [] then 0 else Fences(lines[..|lines| - 1]) + (if lines[|lines| - 1].fence then 1 else 0)
  }

  /** The lines end on a list line. */
  predicate EndsInList(lines: seq<Line>) {
    lines != [] && lines[|lines| - 1].isList
  }

  /** The lines leave a fence open. */
  predicate EndsInFence(lines: seq<Line>) {
    Fences(lines) % 2 == 1
  }

  /** Line `i` is both, comes first or after a line that is no list line, and after closed fences only. */
  predicate ClashAt(lines: seq<Line>, i: nat)
    requires i < |lines|
  {
    Both(lines[i]) && !EndsInList(lines[..i]) && !EndsInFence(lines[..i])
  }

  function StateAfter(lines: seq<Line>): State {
    State(EndsInList(lines), EndsInFence(lines))
  }

  lemma {:induction false} StateAfterOneMore(lines: seq<Line>, i: nat)
    requires i < |lines|
    ensures StateAfter(lines[..i + 1]) == Next(StateAfter(lines[..i]), lines[i])
  {
    assert lines[..i + 1][..i] == lines[..i];
  }

  predicate NoClash(lines: seq<Line>) {
    forall k :: 0 <= k < |lines| ==> !ClashAt(lines, k)
  }

  predicate FirstClashAt(lines: seq<Line>, k: nat)
    requires k < |lines|
  {
    ClashAt(lines, k) && forall j :: 0 <= j < k ==> !ClashAt(lines, j)
  }

  lemma {:induction false} NestsWithoutClash(lines: seq<Line>, i: nat)
    requires NoClash(lines) && i <= |lines|
    ensures Nests(StateAfter(lines[..i]), lines[i..]) <==> !(EndsInList(lines) && EndsInFence(lines))
    decreases |lines| - i
  {
    if i == |lines| {
      assert lines[..i] == lines && lines[i..] == [];
    } else {
      assert !ClashAt(lines, i) && lines[i..][1..] == lines[i + 1..];
      StateAfterOneMore(lines, i);
      NestsWithoutClash(lines, i + 1);
    }
  }

  lemma {:induction false} NestsAfterClash(lines: seq<Line>, i: nat, k: nat)
    requires i <= k < |lines| && FirstClashAt(lines, k)
    ensures Nests(StateAfter(lines[..i]), lines[i..]) <==> RecoversAfterClash(lines[k + 1..])
    decreases k - i
  {
    assert lines[i..][1..] == lines[i + 1..];
    if i < k {
      assert !ClashAt(lines, i);
      StateAfterOneMore(lines, i);
      NestsAfterClash(lines, i + 1, k);
    }
  }

  lemma {:induction false} NestsFromStart(lines: seq<Line>)
    ensures Nests(START, lines) <==> Nests(StateAfter(lines[..0]), lines[0..])
  {
    assert lines[..0] == [] && lines[0..] == lines;
  }

  /** The same said of the lines alone: without a clash, all is well unless they end on a list line in an open fence. */
  lemma {:induction false} WellNestedWithoutClash(lines: seq<Line>)
    requires NoClash(lines)
    ensures WellNested(ConvertFrom(START, lines)) <==> !(EndsInList(lines) && EndsInFence(lines))
  {
    WellNestedExactlyWhen(lines);
    NestsFromStart(lines);
    NestsWithoutClash(lines, 0);
  }

  /** After a first clash only list lines may follow, those with a fence in adjacent pairs. */
  lemma {:induction false} WellNestedAfterClash(lines: seq<Line>, k: nat)
    requires k < |lines| && FirstClashAt(lines, k)
    ensures WellNested(ConvertFrom(START, lines)) <==> RecoversAfterClash(lines[k + 1..])
  {
    WellNestedExactlyWhen(lines);
    NestsFromStart(lines);
    NestsAfterClash(lines, 0, k);
  }

  /** When no line is both, the output is well nested unless the last line is a list line and the fences are odd. */
  lemma {:induction false} WellNestedWithoutMixedLines(lines: seq<Line>)
    requires forall i :: 0 <= i < |lines| ==> !Both(lines[i])
    ensures WellNested(ConvertFrom(START, lines))
       <==> !(lines != [] && lines[|lines| - 1].isList && Fences(lines) % 2 == 1)
  {
    WellNestedWithoutClash(lines);
  }

  /** A lone fenced list item, as in a dash followed by a code fence, leaves an item outside any list. */
  lemma {:induction false} MixedLineBreaksNesting()
    ensures !WellNested(ConvertFrom(START, [Line(true, true, "```"), Line(false, false, "code")]))
  {
    var lines := [Line(true, true, "```"), Line(false, false, "code")];
    WellNestedExactlyWhen(lines);
    assert lines[1..] == [Line(false, false, "code")];
  }

  // ----- content -----

  /** The texts the markup shows. */
  function Shown(tokens: seq<Token>): seq<string> {
    if tokens == [] then []
    else (if tokens[0].OpenList? || tokens[0].CloseList? then [] else [tokens[0].text]) + Shown(tokens[1..])
  }

  function Texts(lines: seq<Line>): seq<string> {
    seq(|lines|, i requires 0 <= i < |lines| => lines[i].text)
  }

  lemma {:induction false} ShownConcat(a: seq<Token>, b: seq<Token>)
    ensures Shown(a + b) == Shown(a) + Shown(b)
  {
    if a == [] {
      assert a + b == b;
    } else {
      assert (a + b)[1..] == a[1..] + b;
      ShownConcat(a[1..], b);
    }
  }

  lemma {:induction false} EmitShows(s: State, line: Line)
    ensures Shown(Emit(s, line)) == [line.text]
  {
    ShownConcat(Closing(s, line) + Opening(s, line) + Content(s, line), Ending(s, line));
    ShownConcat(Closing(s, line) + Opening(s, line), Content(s, line));
    ShownConcat(Closing(s, line), Opening(s, line));
  }

  lemma {:induction false} OneMoreShown(lines: seq<Line>, first: seq<Token>, rest: seq<Token>)
    requires lines != [] && Shown(first) == [lines[0].text] && Shown(rest) == Texts(lines[1..])
    ensures Shown(first + rest) == Texts(lines)
  {
    ShownConcat(first, rest);
    assert Texts(lines) == [lines[0].text] + Texts(lines[1..]);
  }

  /** Nested well or not, the markup shows every line once, in order. */
  lemma {:induction false} EveryLineIsShown(s: State, lines: seq<Line>)
    ensures Shown(ConvertFrom(s, lines)) == Texts(lines)
    decreases |lines|
  {
    if lines == [] {
      assert Texts(lines) == [];
    } else {
      EveryLineIsShown(Next(s, lines[0]), lines[1..]);
      EmitShows(s, lines[0]);
      OneMoreShown(lines, Emit(s, lines[0]), ConvertFrom(Next(s, lines[0]), lines[1..]));
    }
  }

  /** The markup without its list tags. */
  function Contents(tokens: seq<Token>): seq<Token> {
    if tokens == [] then []
    else (if tokens[0].OpenList? || tokens[0].CloseList? then [] else [tokens[0]]) + Contents(tokens[1..])
  }

  lemma {:induction false} ContentsConcat(a: seq<Token>, b: seq<Token>)
    ensures Contents(a + b) == Contents(a) + Contents(b)
  {
    if a == [] {
      assert a + b == b;
    } else {
      assert (a + b)[1..] == a[1..] + b;
      ContentsConcat(a[1..], b);
    }
  }

  /**
   How line `i` is to be shown: as an item if it starts with a dash; else as a code item if it has a fence or
   an odd number of fences comes before it; else as a paragraph.
   */
  predicate ShownAt(lines: seq<Line>, i: nat, token: Token)
    requires i < |lines|
  {
    if lines[i].isList then token == Item(lines[i].text)
    else if lines[i].fence || Fences(lines[..i]) % 2 == 1 then token == CodeItem(lines[i].text)
    else token == Paragraph(lines[i].text)
  }

  lemma {:induction false} EmitContents(lines: seq<Line>, i: nat)
    requires i < |lines|
    ensures var contents := Contents(Emit(StateAfter(lines[..i]), lines[i]));
            |contents| == 1 && ShownAt(lines, i, contents[0])
  {
    var s, line := StateAfter(lines[..i]), lines[i];
    ContentsConcat(Closing(s, line) + Opening(s, line) + Content(s, line), Ending(s, line));
    ContentsConcat(Closing(s, line) + Opening(s, line), Content(s, line));
    ContentsConcat(Closing(s, line), Opening(s, line));
  }

  /** From line `i` on, every line is shown as what it is. */
  ghost predicate ShownFrom(lines: seq<Line>, i: nat, contents: seq<Token>)
    requires i <= |lines|
  {
    |contents| == |lines| - i && forall j :: 0 <= j < |contents| ==> ShownAt(lines, i + j, contents[j])
  }

  lemma {:induction false} OneMoreShownAt(lines: seq<Line>, i: nat, first: seq<Token>, rest: seq<Token>)
    requires i < |lines| && |first| == 1 && ShownAt(lines, i, first[0]) && ShownFrom(lines, i + 1, rest)
    ensures ShownFrom(lines, i, first + rest)
  {
    assert forall j :: 0 < j < |first + rest| ==> (first + rest)[j] == rest[j - 1];
    forall j | 0 <= j < |first + rest| ensures ShownAt(lines, i + j, (first + rest)[j]) {
      if j > 0 {
        assert ShownAt(lines, i + 1 + (j - 1), rest[j - 1]);
      }
    }
  }

  lemma {:induction false} EndHasNoContents(s: State)
    ensures Contents(ConvertFrom(s, [])) == []
  {
    assert [CloseList][1..] == [];
  }

  lemma {:induction false} ContentsFrom(lines: seq<Line>, i: nat)
    requires i <= |lines|
    ensures ShownFrom(lines, i, Contents(ConvertFrom(StateAfter(lines[..i]), lines[i..])))
    decreases |lines| - i
  {
    var s := StateAfter(lines[..i]);
    if i < |lines| {
      var first, rest := Emit(s, lines[i]), ConvertFrom(Next(s, lines[i]), lines[i + 1..]);
      assert lines[i..][1..] == lines[i + 1..];
      ContentsConcat(first, rest);
      EmitContents(lines, i);
      StateAfterOneMore(lines, i);
      ContentsFrom(lines, i + 1);
      OneMoreShownAt(lines, i, Contents(first), Contents(rest));
    } else {
      assert lines[i..] == [];
      EndHasNoContents(s);
    }
  }

  /** For every body, each line is shown once, in order, as what it is. */
  lemma {:induction false} EveryLineIsShownAs(lines: seq<Line>)
    ensures var contents := Contents(ConvertFrom(START, lines));
            |contents| == |lines| && forall j :: 0 <= j < |lines| ==> ShownAt(lines, j, contents[j])
  {
    ContentsFrom(lines, 0);
    assert lines[..0] == [] && lines[0..] == lines;
  }
}
