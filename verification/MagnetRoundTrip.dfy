/** Parsing the printed report of duplicate magnets gives the magnets back. */
module MagnetRoundTrip {
  import opened Options
  import opened Text
  import opened StableSort
  import opened DuplicateMagnets

  // ----- what the printer is given -----

  /** The first `/issues/` of the address is followed by the issue number and nothing else. */
  predicate AddressOf(url: string, number: nat) {
    && OneLine(url)
    && var at := Find(url, ISSUES);
       at.Some? && url[at.value + |ISSUES|..] == Decimal(number)
  }

  ghost predicate Printable(m: Magnet) {
    AddressOf(m.url, m.number) && forall a :: a in m.areas ==> OneLine(a)
  }

  ghost predicate DistinctNumbers(ms: seq<Magnet>) {
    forall i, j :: 0 <= i < j < |ms| ==> ms[i].number != ms[j].number
  }

  // ----- one line -----

  /** Text before which the pattern cannot start only shifts where it is first found. */
  lemma {:induction false} FindShift(head: string, s: string, pat: string)
    requires pat != [] && forall i :: 0 <= i < |head| ==> head[i] != pat[0]
    ensures Find(head + s, pat) == Shift(Find(s, pat), |head|)
  {
    if head == [] {
      assert head + s == s;
    } else {
      var t, tail := head + s, head[1..];
      assert t[0] == head[0];
      assert t[1..] == tail + s;
      FindStep(t, pat);
      FindShift(tail, s, pat);
    }
  }

  lemma {:induction false} NoFirstChar(s: string, pat: string)
    requires pat != [] && forall i :: 0 <= i < |s| ==> s[i] != pat[0]
    ensures Find(s, pat) == None
  {
    FindShift(s, [], pat);
    assert s + [] == s;
  }

  function Head(m: Magnet): string {
    "-   [" + Pad2(Decimal(m.dupes)) + " dupes] "
  }

  lemma {:induction false} PaddedDecimal(n: nat)
    ensures forall i :: 0 <= i < |Pad2(Decimal(n))| ==> IsDigit(Pad2(Decimal(n))[i]) || Pad2(Decimal(n))[i] == ' '
  {
    DecimalDigits(n);
  }

  lemma {:induction false} FoundAtOnce(pat: string, rest: string)
    ensures Find(pat + rest, pat) == Some(0)
  {
    assert pat <= pat + rest;
  }

  /** Splitting at a pattern first found right after `head`. */
  lemma {:induction false} SplitAfter(head: string, pat: string, rest: string)
    requires pat != [] && (forall i :: 0 <= i < |head| ==> head[i] != pat[0])
    ensures SplitSecond(head + (pat + rest), pat) ==
              UpTo(rest, Find(rest, pat))
  {
    FoundAtOnce(pat, rest);
    FindShift(head, pat + rest, pat);
    DropBoth(head, pat, rest);
    SplitAt(head + (pat + rest), pat, |head|, rest);
  }

  lemma {:induction false} DropBoth(a: string, b: string, rest: string)
    ensures (a + (b + rest))[|a| + |b|..] == rest
  {
  }

  lemma {:induction false} SplitAt(s: string, pat: string, i: nat, rest: string)
    requires Find(s, pat) == Some(i) && s[i + |pat|..] == rest
    ensures SplitSecond(s, pat) == FirstPart(rest, pat)
  {
  }

  /** The text after the bracket, up to another bracket if the address has one, starts with `num` and `tail`. */
  lemma {:induction false} BracketPart(num: string, url: string) returns (k: nat)
    requires forall i :: 0 <= i < |num| ==> num[i] != '['
    ensures 1 <= k <= |" dupes] " + url|
    ensures SplitSecond("-   [" + num + " dupes] " + url, "[") == Some(num + (" dupes] " + url)[..k])
  {
    var tail := " dupes] " + url;
    var rest := num + tail;
    assert "-   [" + num + " dupes] " + url == "-   " + ("[" + rest);
    SplitAfter("-   ", "[", rest);
    k := BracketCut(num, url);
  }

  lemma {:induction false} BracketCut(num: string, url: string) returns (k: nat)
    requires forall i :: 0 <= i < |num| ==> num[i] != '['
    ensures var tail := " dupes] " + url;
            var cut := Find(num + tail, "[");
            && 1 <= k <= |tail|
            && (if cut.Some? then (num + tail)[..cut.value] else num + tail) == num + tail[..k]
  {
    var tail := " dupes] " + url;
    var middle := " dupes] ";
    FindShift(middle, url, "[");
    FindShift(num, tail, "[");
    var cut := Find(tail, "[");
    k := if cut.Some? then cut.value else |tail|;
    assert tail[..|tail|] == tail;
  }

  lemma {:induction false} DupesRead(m: Magnet)
    ensures DupesOf(ItemLine(m)) == Some(m.dupes)
  {
    var n := Decimal(m.dupes);
    PaddedDecimal(m.dupes);
    var k := BracketPart(Pad2(n), m.url);
    var tail := (" dupes] " + m.url)[..k];
    DecimalDigits(m.dupes);
    var pad := if |n| < 2 then " " else "";
    assert Pad2(n) + tail == pad + n + tail;
    FirstWordOf(pad, n, tail);
    ParseIntDecimal(m.dupes);
  }

  /** An address is some text, the first `/issues/`, and the number. */
  lemma {:induction false} AddressParts(url: string, number: nat) returns (p: string)
    requires AddressOf(url, number)
    ensures url == p + (ISSUES + Decimal(number)) && Find(url, ISSUES) == Some(|p|)
  {
    var at := Find(url, ISSUES).value;
    FindIsFirst(url, ISSUES);
    p := url[..at];
    assert url[at..] == ISSUES + url[at + |ISSUES|..];
    assert url == url[..at] + url[at..];
  }

  lemma {:induction false} NumberPart(head: string, url: string, number: nat)
    requires AddressOf(url, number) && forall i :: 0 <= i < |head| ==> head[i] != '/'
    ensures SplitSecond(head + url, ISSUES) == Some(Decimal(number)) && Contains(head + url, ISSUES)
  {
    var p := AddressParts(url, number);
    var n := Decimal(number);
    DecimalDigits(number);
    FindShift(head, url, ISSUES);
    NoFirstChar(n, ISSUES);
    assert head + url == (head + p) + (ISSUES + n);
    DropBoth(head + p, ISSUES, n);
    SplitAt(head + url, ISSUES, |head| + |p|, n);
  }

  lemma {:induction false} NumberRead(m: Magnet)
    requires AddressOf(m.url, m.number)
    ensures NumberOf(ItemLine(m)) == Some(m.number)
    ensures Contains(ItemLine(m), ISSUES)
  {
    PaddedDecimal(m.dupes);
    assert ItemLine(m) == Head(m) + m.url;
    NumberPart(Head(m), m.url, m.number);
    DecimalWord(m.number);
  }

  lemma {:induction false} DecimalWord(number: nat)
    ensures var n := Decimal(number);
            FirstWord(n) == Some(n) && StripRightChar(n, ')') == n && ParseInt(n) == Some(number)
  {
    var n := Decimal(number);
    DecimalDigits(number);
    assert "" + n + "" == n;
    FirstWordOf("", n, "");
    assert IsDigit(n[|n| - 1]);
    ParseIntDecimal(number);
  }

  /** Under an area, a printed line is read back as the record it was printed from. */
  lemma {:induction false} ItemLineRead(st: ParseState, m: Magnet)
    requires AddressOf(m.url, m.number) && st.area != ""
    ensures ParseLine(st, ItemLine(m)) == st.(found := Record(st.found, m.number, m.dupes, st.area))
  {
    DupesRead(m);
    NumberRead(m);
    assert ItemLine(m)[0] == '-';
  }

  /** What the parser reads of a printed area; a blank one hides its whole section. */
  function ReadArea(area: string): string {
    Strip(area)
  }

  lemma {:induction false} HeaderRead(st: ParseState, area: string)
    ensures ParseLine(st, "## " + area) == st.(area := ReadArea(area))
  {
    assert ("## " + area)[3..] == area;
  }

  // ----- the whole report -----

  lemma {:induction false} ParseConcat(st: ParseState, a: seq<string>, b: seq<string>)
    ensures ParseLines(st, a + b) == ParseLines(ParseLines(st, a), b)
  {
    if b == [] {
      assert a + b == a;
    } else {
      assert (a + b)[..|a + b| - 1] == a + b[..|b| - 1];
      ParseConcat(st, a, b[..|b| - 1]);
    }
  }

  lemma {:induction false} ParseFirst(st: ParseState, line: string, rest: seq<string>)
    ensures ParseLines(st, [line] + rest) == ParseLines(ParseLine(st, line), rest)
  {
    ParseConcat(st, [line], rest);
    assert [line][..0] == [];
    assert ParseLines(st, [line]) == ParseLine(ParseLines(st, []), line);
  }

  /** Recording one entry, unless its area is blank. */
  function RecordEntry(found: seq<Found>, e: Entry): seq<Found> {
    if ReadArea(e.area) == "" then found
    else Record(found, e.magnet.number, e.magnet.dupes, ReadArea(e.area))
  }

  /** Recording the entries of a report one after the other. */
  function RecordAll(found: seq<Found>, es: seq<Entry>): seq<Found>
    decreases |es|
  {
    if es == [] then found else RecordAll(RecordEntry(found, es[0]), es[1..])
  }

  lemma {:induction false} RecordConcat(found: seq<Found>, a: seq<Entry>, b: seq<Entry>)
    ensures RecordAll(found, a + b) == RecordAll(RecordAll(found, a), b)
    decreases |a|
  {
    if a == [] {
      assert a + b == b;
    } else {
      assert (a + b)[1..] == a[1..] + b;
      RecordConcat(RecordEntry(found, a[0]), a[1..], b);
    }
  }

  function Under(area: string, ms: seq<Magnet>): seq<Entry> {
    seq(|ms|, i requires 0 <= i < |ms| => Entry(area, ms[i]))
  }

  lemma {:induction false} ItemsRead(st: ParseState, area: string, ms: seq<Magnet>)
    requires st.area == ReadArea(area) && forall m :: m in ms ==> AddressOf(m.url, m.number)
    ensures ParseLines(st, ItemLines(ms)) == st.(found := RecordAll(st.found, Under(area, ms)))
    decreases |ms|
  {
    if ms != [] {
      if st.area == "" {
        assert ItemLine(ms[0])[0] == '-';
      } else {
        ItemLineRead(st, ms[0]);
      }
      ParseFirst(st, ItemLine(ms[0]), ItemLines(ms[1..]));
      ItemsRead(ParseLine(st, ItemLine(ms[0])), area, ms[1..]);
      assert Under(area, ms)[1..] == Under(area, ms[1..]);
    }
  }

  /** The entries of one printed section, and of all of them. */
  function Section(es: seq<Entry>, area: string): seq<Entry> {
    Under(area, Sort(InArea(es, area), ByDupes()))
  }

  function Printed(es: seq<Entry>, areas: seq<string>): seq<Entry> {
    if areas == [] then [] else Section(es, areas[0]) + Printed(es, areas[1..])
  }

  ghost predicate PrintableEntries(es: seq<Entry>) {
    forall e :: e in es ==> OneLine(e.area) && AddressOf(e.magnet.url, e.magnet.number)
  }

  lemma {:induction false} InAreaMembers(es: seq<Entry>, area: string)
    ensures forall m :: m in InArea(es, area) ==> Entry(area, m) in es
  {
    if es != [] {
      InAreaMembers(es[..|es| - 1], area);
      assert es == es[..|es| - 1] + [es[|es| - 1]];
    }
  }

  lemma {:induction false} SectionMembers(es: seq<Entry>, area: string)
    ensures forall m :: m in Sort(InArea(es, area), ByDupes()) ==> Entry(area, m) in es
  {
    InAreaMembers(es, area);
    var ms := InArea(es, area);
    SortElements(ms, ByDupes());
    var sorted := Sort(ms, ByDupes());
    assert forall m :: m in sorted ==> m in multiset(sorted);
    assert forall m :: m in multiset(ms) ==> m in ms;
  }

  lemma {:induction false} ThreeLinesRead(st: ParseState, a: string, b: string, c: string)
    ensures ParseLines(st, [a, b, c]) == ParseLine(ParseLine(ParseLine(st, a), b), c)
  {
    assert [a, b, c][..2] == [a, b] && [a, b][..1] == [a] && [a][..0] == [];
    assert ParseLines(st, [a]) == ParseLine(ParseLines(st, []), a);
    assert ParseLines(st, [a, b]) == ParseLine(ParseLines(st, [a]), b);
  }

  /** The blank lines around a header change nothing, and the header sets the area. */
  lemma {:induction false} HeadingRead(st: ParseState, area: string, items: seq<string>)
    ensures ParseLines(st, ["", "## " + area, ""] + items) == ParseLines(st.(area := ReadArea(area)), items)
  {
    ParseConcat(st, ["", "## " + area, ""], items);
    ThreeLinesRead(st, "", "## " + area, "");
    BlankRead(st);
    HeaderRead(st, area);
    BlankRead(st.(area := ReadArea(area)));
  }

  lemma {:induction false} BlankRead(st: ParseState)
    ensures ParseLine(st, "") == st
  {
  }

  lemma {:induction false} SectionRead(st: ParseState, es: seq<Entry>, area: string)
    requires PrintableEntries(es)
    ensures ParseLines(st, SectionLines(es, area)) == ParseState(ReadArea(area), RecordAll(st.found, Section(es, area)))
  {
    var ms := Sort(InArea(es, area), ByDupes());
    HeadingRead(st, area, ItemLines(ms));
    SectionMembers(es, area);
    ItemsRead(st.(area := ReadArea(area)), area, ms);
  }

  lemma {:induction false} SectionsRead(st: ParseState, es: seq<Entry>, areas: seq<string>)
    requires PrintableEntries(es)
    ensures ParseLines(st, AllSections(es, areas)).found == RecordAll(st.found, Printed(es, areas))
    decreases |areas|
  {
    if areas != [] {
      SectionRead(st, es, areas[0]);
      ParseConcat(st, SectionLines(es, areas[0]), AllSections(es, areas[1..]));
      SectionsRead(ParseLines(st, SectionLines(es, areas[0])), es, areas[1..]);
      RecordConcat(st.found, Section(es, areas[0]), Printed(es, areas[1..]));
    }
  }

  // ----- printing and splitting the lines again -----

  lemma {:induction false} ItemLineIsOneLine(m: Magnet)
    requires OneLine(m.url)
    ensures OneLine(ItemLine(m))
  {
    PaddedDecimal(m.dupes);
    assert ItemLine(m) == Head(m) + m.url;
  }

  lemma {:induction false} ItemLinesAreLines(ms: seq<Magnet>)
    requires forall m :: m in ms ==> OneLine(m.url)
    ensures forall i :: 0 <= i < |ItemLines(ms)| ==> OneLine(ItemLines(ms)[i])
  {
    if ms != [] {
      ItemLineIsOneLine(ms[0]);
      ItemLinesAreLines(ms[1..]);
    }
  }

  lemma {:induction false} SectionIsLines(es: seq<Entry>, area: string)
    requires PrintableEntries(es) && OneLine(area)
    ensures forall i :: 0 <= i < |SectionLines(es, area)| ==> OneLine(SectionLines(es, area)[i])
  {
    SectionMembers(es, area);
    ItemLinesAreLines(Sort(InArea(es, area), ByDupes()));
    var mark := "## ";
    assert OneLine(mark);
    var header := mark + area;
    assert forall i :: 0 <= i < |area| ==> header[i + 3] == area[i];
    assert OneLine(header);
  }

  lemma {:induction false} SectionsAreLines(es: seq<Entry>, areas: seq<string>)
    requires PrintableEntries(es) && forall a :: a in areas ==> OneLine(a)
    ensures forall i :: 0 <= i < |AllSections(es, areas)| ==> OneLine(AllSections(es, areas)[i])
    decreases |areas|
  {
    if areas != [] {
      SectionIsLines(es, areas[0]);
      SectionsAreLines(es, areas[1..]);
    }
  }

  lemma {:induction false} ConcatIsOneLine(words: seq<string>)
    requires forall i :: 0 <= i < |words| ==> OneLine(words[i])
    ensures OneLine(Concat(words))
  {
    if words != [] {
      ConcatIsOneLine(words[1..]);
    }
  }

  lemma {:induction false} IntroIsOneLine()
    ensures OneLine(INTRO) && !StartsWith(INTRO, "## ")
  {
    assert OneLine(INTRO_WORDS[0]) && OneLine(INTRO_WORDS[1]) && OneLine(INTRO_WORDS[2]) && OneLine(INTRO_WORDS[3]);
    assert OneLine(INTRO_WORDS[4]) && OneLine(INTRO_WORDS[5]) && OneLine(INTRO_WORDS[6]) && OneLine(INTRO_WORDS[7]);
    ConcatIsOneLine(INTRO_WORDS);
    assert INTRO[0] == 'T';
  }

  lemma {:induction false} AreaMembers(es: seq<Entry>)
    ensures forall a :: a in Areas(es) <==> exists e :: e in es && e.area == a
    ensures forall i, j :: 0 <= i < j < |Areas(es)| ==> Areas(es)[i] != Areas(es)[j]
  {
    if es != [] {
      AreaMembers(es[..|es| - 1]);
      assert es == es[..|es| - 1] + [es[|es| - 1]];
      assert es[|es| - 1] in es;
    }
  }

  function SortedAreas(es: seq<Entry>): seq<string> {
    Sort(Areas(es), ByTotal(es))
  }

  lemma {:induction false} SortedAreasMembers(es: seq<Entry>)
    ensures forall a :: a in SortedAreas(es) <==> a in Areas(es)
  {
    var as_, sorted := Areas(es), SortedAreas(es);
    SortElements(as_, ByTotal(es));
    assert forall a :: a in sorted <==> a in multiset(sorted);
    assert forall a :: a in as_ <==> a in multiset(as_);
  }

  /** Parsing the body recovers the records of all printed entries. */
  lemma {:induction false} ReportRead(ms: seq<Magnet>)
    requires PrintableEntries(Entries(ms))
    ensures ParseLines(ParseState("", []), SplitLines(Print(ms))).found
         == RecordAll([], Printed(Entries(ms), SortedAreas(Entries(ms))))
  {
    var es := Entries(ms);
    var areas := SortedAreas(es);
    AreaMembers(es);
    SortedAreasMembers(es);
    IntroIsOneLine();
    SectionsAreLines(es, areas);
    SplitJoin(ReportLines(ms));
    ParseFirst(ParseState("", []), INTRO, AllSections(es, areas));
    SectionsRead(ParseState("", []), es, areas);
  }

  // ----- the records are the magnets -----

  /**
   What an area adds to a magnet read back: itself without the white space around it, unless blank or
   `(unlabeled)`.
   */
  function ReadLabels(area: string): seq<string> {
    if ReadArea(area) == "" then [] else Labels(ReadArea(area))
  }

  /** How often each label is read for the issue `n`. */
  function LabelCount(es: seq<Entry>, n: int): multiset<string> {
    if es == [] then multiset{}
    else LabelCount(es[..|es| - 1], n) + Contribution(es[|es| - 1], n)
  }

  function Contribution(e: Entry, n: int): multiset<string> {
    if e.magnet.number == n then multiset(ReadLabels(e.area)) else multiset{}
  }

  ghost predicate DistinctFound(found: seq<Found>) {
    forall i, j :: 0 <= i < j < |found| ==> found[i].number != found[j].number
  }

  ghost function FoundFacts(found: seq<Found>): set<(int, int)> {
    set f | f in found :: (f.number, f.dupes)
  }

  ghost function EntryFacts(es: seq<Entry>): set<(int, int)> {
    set e | e in es && ReadArea(e.area) != "" :: (e.magnet.number as int, e.magnet.dupes as int)
  }

  ghost predicate CountsRight(found: seq<Found>, es: seq<Entry>) {
    forall i :: 0 <= i < |found| ==> multiset(found[i].areas) == LabelCount(es, found[i].number)
  }

  /** No two entries disagree on an issue's duplicate count. */
  ghost predicate Consistent(es: seq<Entry>) {
    forall e, e' :: e in es && e' in es && e.magnet.number == e'.magnet.number ==> e.magnet.dupes == e'.magnet.dupes
  }

  /** `found` is what the entries `es` say: their issues and counts, each issue once, with all its areas. */
  ghost predicate Reflects(found: seq<Found>, es: seq<Entry>) {
    DistinctFound(found) && FoundFacts(found) == EntryFacts(es) && CountsRight(found, es)
  }

  lemma {:induction false} LabelCountAbsent(es: seq<Entry>, n: int)
    requires forall e :: e in es && ReadArea(e.area) != "" ==> e.magnet.number != n
    ensures LabelCount(es, n) == multiset{}
  {
    if es != [] {
      assert es == es[..|es| - 1] + [es[|es| - 1]];
      LabelCountAbsent(es[..|es| - 1], n);
    }
  }

  lemma {:induction false} LabelCountAppend(es: seq<Entry>, e: Entry, n: int)
    ensures LabelCount(es + [e], n) == LabelCount(es, n) + Contribution(e, n)
  {
    assert (es + [e])[..|es|] == es;
  }

  lemma {:induction false} EntryFactsAppend(es: seq<Entry>, e: Entry)
    ensures EntryFacts(es + [e]) ==
              EntryFacts(es) + if ReadArea(e.area) == "" then {} else {(e.magnet.number as int, e.magnet.dupes as int)}
  {
    assert e in es + [e];
    assert forall x :: x in es ==> x in es + [e];
  }

  lemma {:induction false} FoundFactsAppend(found: seq<Found>, f: Found)
    ensures FoundFacts(found + [f]) == FoundFacts(found) + {(f.number, f.dupes)}
  {
    assert f in found + [f];
    assert forall x :: x in found ==> x in found + [f];
  }

  lemma {:induction false} FoundFactsUpdate(found: seq<Found>, i: nat, f: Found)
    requires i < |found| && f.number == found[i].number && f.dupes == found[i].dupes
    ensures FoundFacts(found[i := f]) == FoundFacts(found)
  {
    assert found == found[..i] + [found[i]] + found[i + 1..];
    assert found[i := f] == found[..i] + [f] + found[i + 1..];
    assert found[i] in found && f in found[i := f];
    assert forall x :: x in found && x != found[i] ==> x in found[i := f];
    assert forall x :: x in found[i := f] && x != f ==> x in found;
  }

  lemma {:induction false} RecordNew(found: seq<Found>, es: seq<Entry>, e: Entry)
    requires Reflects(found, es) && forall i :: 0 <= i < |found| ==> found[i].number != e.magnet.number
    requires ReadArea(e.area) != ""
    ensures Reflects(found + [Found(e.magnet.number, ReadLabels(e.area), e.magnet.dupes)], es + [e])
  {
    var f := Found(e.magnet.number, ReadLabels(e.area), e.magnet.dupes);
    EntryFactsAppend(es, e);
    FoundFactsAppend(found, f);
    NotAmongEntries(found, es, e.magnet.number);
    LabelCountAbsent(es, e.magnet.number);
    CountsAfterNew(found, es, e);
  }

  lemma {:induction false} NotAmongEntries(found: seq<Found>, es: seq<Entry>, n: int)
    requires FoundFacts(found) == EntryFacts(es) && forall i :: 0 <= i < |found| ==> found[i].number != n
    ensures forall x :: x in es && ReadArea(x.area) != "" ==> x.magnet.number != n
  {
    forall x | x in es && ReadArea(x.area) != "" ensures x.magnet.number != n {
      assert (x.magnet.number as int, x.magnet.dupes as int) in FoundFacts(found);
    }
  }

  lemma {:induction false} CountsAfterNew(found: seq<Found>, es: seq<Entry>, e: Entry)
    requires CountsRight(found, es) && forall i :: 0 <= i < |found| ==> found[i].number != e.magnet.number
    requires LabelCount(es, e.magnet.number) == multiset{}
    ensures CountsRight(found + [Found(e.magnet.number, ReadLabels(e.area), e.magnet.dupes)], es + [e])
  {
    LabelCountAppend(es, e, e.magnet.number);
    forall i | 0 <= i < |found| ensures multiset(found[i].areas) == LabelCount(es + [e], found[i].number) {
      LabelCountAppend(es, e, found[i].number);
    }
  }

  lemma {:induction false} CountsAfterKnown(found: seq<Found>, es: seq<Entry>, e: Entry, i: nat)
    requires CountsRight(found, es) && DistinctFound(found) && i < |found| && found[i].number == e.magnet.number
    ensures CountsRight(found[i := found[i].(areas := found[i].areas + ReadLabels(e.area))], es + [e])
  {
    forall j | 0 <= j < |found|
      ensures LabelCount(es + [e], found[j].number) ==
                multiset(if j == i then found[j].areas + ReadLabels(e.area) else found[j].areas)
    {
      LabelCountAppend(es, e, found[j].number);
    }
  }

  lemma {:induction false} RecordReflects(found: seq<Found>, es: seq<Entry>, e: Entry)
    requires Reflects(found, es) && Consistent(es + [e])
    ensures Reflects(RecordEntry(found, e), es + [e])
  {
    if ReadArea(e.area) == "" {
      BlankReflects(found, es, e);
    } else {
      var r := IndexOf(found, e.magnet.number);
      if r.None? {
        RecordNew(found, es, e);
      } else {
        KnownReflects(found, es, e, r.value);
        RecordIsUpdate(found, e, r.value);
      }
    }
  }

  lemma {:induction false} BlankReflects(found: seq<Found>, es: seq<Entry>, e: Entry)
    requires Reflects(found, es) && ReadArea(e.area) == ""
    ensures Reflects(found, es + [e])
  {
    EntryFactsAppend(es, e);
    forall i | 0 <= i < |found| ensures LabelCount(es + [e], found[i].number) == LabelCount(es, found[i].number) {
      LabelCountAppend(es, e, found[i].number);
    }
  }

  lemma {:induction false} KnownReflects(found: seq<Found>, es: seq<Entry>, e: Entry, i: nat)
    requires Reflects(found, es) && Consistent(es + [e])
    requires ReadArea(e.area) != "" && i < |found| && found[i].number == e.magnet.number
    ensures Reflects(found[i := found[i].(areas := found[i].areas + ReadLabels(e.area))], es + [e])
  {
    CountsAfterKnown(found, es, e, i);
    FoundFactsUpdate(found, i, found[i].(areas := found[i].areas + ReadLabels(e.area)));
    EntryFactsAppend(es, e);
    SameCount(found, es, e, i);
  }

  lemma {:induction false} RecordIsUpdate(found: seq<Found>, e: Entry, i: nat)
    requires IndexOf(found, e.magnet.number) == Some(i) && ReadArea(e.area) != ""
    ensures RecordEntry(found, e) == found[i := found[i].(areas := found[i].areas + ReadLabels(e.area))]
  {
    if ReadArea(e.area) == UNLABELED {
      assert found[i].areas + [] == found[i].areas;
      assert found[i := found[i]] == found;
    }
  }

  lemma {:induction false} SameCount(found: seq<Found>, es: seq<Entry>, e: Entry, i: nat)
    requires FoundFacts(found) == EntryFacts(es) && Consistent(es + [e])
    requires i < |found| && found[i].number == e.magnet.number
    ensures (e.magnet.number as int, e.magnet.dupes as int) in EntryFacts(es)
  {
    assert found[i] in found;
    assert (found[i].number, found[i].dupes) in EntryFacts(es);
    var x :| x in es && x.magnet.number == found[i].number && x.magnet.dupes == found[i].dupes;
    assert x in es + [e] && e in es + [e];
  }

  lemma {:induction false} RecordAllReflects(found: seq<Found>, before: seq<Entry>, es: seq<Entry>)
    requires Reflects(found, before) && Consistent(before + es)
    ensures Reflects(RecordAll(found, es), before + es)
    decreases |es|
  {
    if es == [] {
      assert before + es == before;
    } else {
      assert before + [es[0]] + es[1..] == before + es;
      assert forall x :: x in before + [es[0]] ==> x in before + es;
      RecordReflects(found, before, es[0]);
      RecordAllReflects(RecordEntry(found, es[0]), before + [es[0]], es[1..]);
    }
  }

  // ----- printing only reorders the entries -----

  lemma {:induction false} UnderCount(area: string, ms: seq<Magnet>, e: Entry)
    ensures multiset(Under(area, ms))[e] == if e.area == area then multiset(ms)[e.magnet] else 0
  {
    if ms != [] {
      var init, last := ms[..|ms| - 1], ms[|ms| - 1];
      UnderCount(area, init, e);
      assert ms == init + [last];
      assert Under(area, ms) == Under(area, init) + [Entry(area, last)];
    }
  }

  lemma {:induction false} UnderElements(area: string, a: seq<Magnet>, b: seq<Magnet>)
    requires multiset(a) == multiset(b)
    ensures multiset(Under(area, a)) == multiset(Under(area, b))
  {
    forall e ensures multiset(Under(area, a))[e] == multiset(Under(area, b))[e] {
      UnderCount(area, a, e);
      UnderCount(area, b, e);
    }
  }

  /** The entries of `es` whose area is among `areas`. */
  function Restrict(es: seq<Entry>, areas: seq<string>): seq<Entry> {
    if es == [] then []
    else Restrict(es[..|es| - 1], areas) + (if es[|es| - 1].area in areas then [es[|es| - 1]] else [])
  }

  lemma {:induction false} RestrictCount(es: seq<Entry>, areas: seq<string>, e: Entry)
    ensures multiset(Restrict(es, areas))[e] == if e.area in areas then multiset(es)[e] else 0
  {
    if es != [] {
      var init, last := es[..|es| - 1], es[|es| - 1];
      RestrictCount(init, areas, e);
      assert es == init + [last];
    }
  }

  lemma {:induction false} InAreaCount(es: seq<Entry>, area: string, m: Magnet)
    ensures multiset(InArea(es, area))[m] == multiset(es)[Entry(area, m)]
  {
    if es != [] {
      var init, last := es[..|es| - 1], es[|es| - 1];
      InAreaCount(init, area, m);
      assert es == init + [last];
    }
  }

  lemma {:induction false} RestrictSplit(es: seq<Entry>, area: string, areas: seq<string>)
    requires area !in areas
    ensures multiset(Restrict(es, [area] + areas)) ==
        multiset(Under(area, InArea(es, area))) + multiset(Restrict(es, areas))
  {
    forall e ensures multiset(Restrict(es, [area] + areas))[e]
                  == multiset(Under(area, InArea(es, area)))[e] + multiset(Restrict(es, areas))[e] {
      RestrictCount(es, [area] + areas, e);
      RestrictCount(es, areas, e);
      UnderCount(area, InArea(es, area), e);
      InAreaCount(es, area, e.magnet);
    }
  }

  lemma {:induction false} RestrictAll(es: seq<Entry>, areas: seq<string>)
    requires forall e :: e in es ==> e.area in areas
    ensures Restrict(es, areas) == es
  {
    if es != [] {
      RestrictAll(es[..|es| - 1], areas);
      assert es == es[..|es| - 1] + [es[|es| - 1]];
    }
  }

  lemma {:induction false} RestrictNone(es: seq<Entry>)
    ensures Restrict(es, []) == []
  {
    if es != [] {
      RestrictNone(es[..|es| - 1]);
    }
  }

  ghost predicate DistinctAreas(areas: seq<string>) {
    forall i, j :: 0 <= i < j < |areas| ==> areas[i] != areas[j]
  }

  lemma {:induction false} SectionElements(es: seq<Entry>, area: string)
    ensures multiset(Section(es, area)) == multiset(Under(area, InArea(es, area)))
  {
    SortElements(InArea(es, area), ByDupes());
    UnderElements(area, Sort(InArea(es, area), ByDupes()), InArea(es, area));
  }

  lemma {:induction false} PrintedElements(es: seq<Entry>, areas: seq<string>)
    requires DistinctAreas(areas)
    ensures multiset(Printed(es, areas)) == multiset(Restrict(es, areas))
    decreases |areas|
  {
    if areas == [] {
      RestrictNone(es);
    } else {
      PrintedElements(es, areas[1..]);
      RestrictSplit(es, areas[0], areas[1..]);
      assert areas == [areas[0]] + areas[1..];
      SectionElements(es, areas[0]);
    }
  }

  lemma {:induction false} InsertKeepsDistinct(x: string, s: seq<string>, key: string -> int)
    requires DistinctAreas(s) && x !in s
    ensures DistinctAreas(Insert(x, s, key))
  {
    if s != [] && !(key(s[|s| - 1]) >= key(x)) {
      InsertKeepsDistinct(x, s[..|s| - 1], key);
      InsertElements(x, s[..|s| - 1], key);
      var t := Insert(x, s[..|s| - 1], key);
      forall i | 0 <= i < |t| ensures t[i] != s[|s| - 1] {
        assert t[i] in multiset(t);
        assert t[i] == x || t[i] in s[..|s| - 1];
      }
    }
  }

  lemma {:induction false} SortKeepsDistinct(s: seq<string>, key: string -> int)
    requires DistinctAreas(s)
    ensures DistinctAreas(Sort(s, key))
  {
    if s != [] {
      var init := s[..|s| - 1];
      SortKeepsDistinct(init, key);
      SortElements(init, key);
      var t := Sort(init, key);
      assert forall x :: x in t ==> x in multiset(t);
      InsertKeepsDistinct(s[|s| - 1], t, key);
    }
  }

  /** The printed entries are the given ones, each exactly as often. */
  lemma {:induction false} PrintedIsPermutation(es: seq<Entry>)
    ensures multiset(Printed(es, SortedAreas(es))) == multiset(es)
  {
    AreaMembers(es);
    SortedAreasMembers(es);
    SortKeepsDistinct(Areas(es), ByTotal(es));
    PrintedElements(es, SortedAreas(es));
    RestrictAll(es, SortedAreas(es));
  }

  // ----- the label counts do not depend on the order of the entries -----

  lemma {:induction false} SplitOut(es: seq<Entry>, i: nat)
    requires i < |es|
    ensures es == es[..i] + [es[i]] + es[i + 1..]
    ensures multiset(es) == multiset(es[..i] + es[i + 1..]) + multiset{es[i]}
  {
  }

  lemma {:induction false} SameWithout(a: multiset<Entry>, b: multiset<Entry>, e: Entry)
    requires a + multiset{e} == b + multiset{e}
    ensures a == b
  {
    assert a == a + multiset{e} - multiset{e} && b == b + multiset{e} - multiset{e};
  }

  lemma {:induction false} CountSplitOut(es: seq<Entry>, i: nat, n: int)
    requires i < |es|
    ensures LabelCount(es, n) == LabelCount(es[..i] + es[i + 1..], n) + Contribution(es[i], n)
  {
    SplitOut(es, i);
    LabelCountConcat(es[..i] + [es[i]], es[i + 1..], n);
    LabelCountAppend(es[..i], es[i], n);
    LabelCountConcat(es[..i], es[i + 1..], n);
  }

  lemma {:induction false} LabelCountReordered(a: seq<Entry>, b: seq<Entry>, n: int)
    requires multiset(a) == multiset(b)
    ensures LabelCount(a, n) == LabelCount(b, n)
    decreases |a|
  {
    if a == [] {
      assert |multiset(b)| == 0;
    } else {
      var k := |a| - 1;
      SplitOut(a, k);
      assert a[..k] + a[k + 1..] == a[..k];
      assert a[k] in multiset(b);
      var i :| 0 <= i < |b| && b[i] == a[k];
      SplitOut(b, i);
      SameWithout(multiset(a[..k]), multiset(b[..i] + b[i + 1..]), a[k]);
      LabelCountReordered(a[..k], b[..i] + b[i + 1..], n);
      CountSplitOut(b, i, n);
    }
  }

  /** A magnet's areas as they are read back. */
  function Labeled(areas: seq<string>): multiset<string> {
    if areas == [] then multiset{}
    else Labeled(areas[..|areas| - 1]) + multiset(ReadLabels(areas[|areas| - 1]))
  }

  lemma {:induction false} TagCount(areas: seq<string>, m: Magnet, n: int)
    ensures LabelCount(Tag(areas, m), n) == if m.number == n then Labeled(areas) else multiset{}
  {
    if areas != [] {
      TagCount(areas[..|areas| - 1], m, n);
      LabelCountAppend(Tag(areas[..|areas| - 1], m), Entry(areas[|areas| - 1], m), n);
    }
  }

  lemma {:induction false} LabelCountConcat(a: seq<Entry>, b: seq<Entry>, n: int)
    ensures LabelCount(a + b, n) == LabelCount(a, n) + LabelCount(b, n)
  {
    if b == [] {
      assert a + b == a;
    } else {
      var init, last := b[..|b| - 1], b[|b| - 1];
      LabelCountConcat(a, init, n);
      LabelCountAppend(a + init, last, n);
      LabelCountAppend(init, last, n);
      SnocConcat(a, b);
    }
  }

  lemma {:induction false} SnocConcat(a: seq<Entry>, b: seq<Entry>)
    requires b != []
    ensures a + b == (a + b[..|b| - 1]) + [b[|b| - 1]]
    ensures b == b[..|b| - 1] + [b[|b| - 1]]
  {
  }

  lemma {:induction false} EntriesCount(ms: seq<Magnet>, m: Magnet)
    requires DistinctNumbers(ms) && m in ms
    ensures LabelCount(Entries(ms), m.number) == Labeled(m.areas)
  {
    var init, last := ms[..|ms| - 1], ms[|ms| - 1];
    LabelCountConcat(Entries(init), Tag(last.areas, last), m.number);
    TagCount(last.areas, last, m.number);
    assert ms == init + [last];
    if m == last {
      EntriesMembers(init);
      assert forall x :: x in init ==> x.number != m.number;
      LabelCountAbsent(Entries(init), m.number);
    } else {
      assert last.number != m.number;
      EntriesCount(init, m);
    }
  }

  lemma {:induction false} TagMembers(areas: seq<string>, m: Magnet)
    ensures forall e :: e in Tag(areas, m) <==> e.magnet == m && e.area in areas
  {
    if areas != [] {
      TagMembers(areas[..|areas| - 1], m);
      assert areas == areas[..|areas| - 1] + [areas[|areas| - 1]];
    }
  }

  lemma {:induction false} EntriesMembers(ms: seq<Magnet>)
    ensures forall e :: e in Entries(ms) <==> e.magnet in ms && e.area in e.magnet.areas
  {
    if ms != [] {
      EntriesMembers(ms[..|ms| - 1]);
      TagMembers(ms[|ms| - 1].areas, ms[|ms| - 1]);
      assert ms == ms[..|ms| - 1] + [ms[|ms| - 1]];
    }
  }

  // ----- the round trip -----

  lemma {:induction false} InsertKeepsDistinctFound(x: Found, s: seq<Found>)
    requires DistinctFound(s) && forall i :: 0 <= i < |s| ==> s[i].number != x.number
    ensures DistinctFound(Insert(x, s, ByFoundDupes()))
    ensures forall f :: f in Insert(x, s, ByFoundDupes()) <==> f == x || f in s
  {
    if s != [] && !(ByFoundDupes()(s[|s| - 1]) >= ByFoundDupes()(x)) {
      var init, last := s[..|s| - 1], s[|s| - 1];
      InsertKeepsDistinctFound(x, init);
      assert s == init + [last];
      var t := Insert(x, init, ByFoundDupes());
      forall i | 0 <= i < |t| ensures t[i].number != last.number {
        assert t[i] in t;
      }
    }
  }

  lemma {:induction false} SortKeepsDistinctFound(s: seq<Found>)
    requires DistinctFound(s)
    ensures DistinctFound(Sort(s, ByFoundDupes()))
    ensures forall f :: f in Sort(s, ByFoundDupes()) <==> f in s
  {
    if s != [] {
      var init, last := s[..|s| - 1], s[|s| - 1];
      SortKeepsDistinctFound(init);
      assert s == init + [last];
      var t := Sort(init, ByFoundDupes());
      forall i | 0 <= i < |t| ensures t[i].number != last.number {
        assert t[i] in t;
      }
      InsertKeepsDistinctFound(last, t);
    }
  }

  /** Some area of the magnet is more than white space. */
  predicate HasArea(m: Magnet) {
    exists a :: a in m.areas && ReadArea(a) != ""
  }

  /** What a magnet read back says: its issue, its count, and its areas in any order. */
  type Fact = (int, int, multiset<string>)

  ghost function FactOf(m: Magnet): Fact {
    (m.number, m.dupes, Labeled(m.areas))
  }

  ghost function FactRead(f: Found): Fact {
    (f.number, f.dupes, multiset(f.areas))
  }

  ghost function MagnetFacts(ms: seq<Magnet>): set<Fact> {
    set m | m in ms && HasArea(m) :: FactOf(m)
  }

  ghost function FactsRead(r: seq<Found>): set<Fact> {
    set f | f in r :: FactRead(f)
  }

  /** `r` says exactly what the magnets with an area say, each issue once, most duplicated first. */
  ghost predicate Recovers(r: seq<Found>, ms: seq<Magnet>) {
    && DistinctFound(r)
    && (forall i, j :: 0 <= i < j < |r| ==> r[i].dupes >= r[j].dupes)
    && FactsRead(r) == MagnetFacts(ms)
  }

  lemma {:induction false} ReflectedIsMagnet(found: seq<Found>, es: seq<Entry>, ms: seq<Magnet>, f: Found, m: Magnet)
    requires Reflects(found, es) && DistinctNumbers(ms) && multiset(es) == multiset(Entries(ms))
    requires f in found && m in ms && f.number == m.number && f.dupes == m.dupes
    ensures FactRead(f) == FactOf(m)
  {
    LabelCountReordered(es, Entries(ms), f.number);
    EntriesCount(ms, m);
  }

  lemma {:induction false} PrintableEntriesOf(ms: seq<Magnet>)
    requires forall m :: m in ms ==> Printable(m)
    ensures PrintableEntries(Entries(ms))
  {
    EntriesMembers(ms);
  }

  /** What the report lists, in the order it lists it. */
  function Listed(ms: seq<Magnet>): seq<Entry> {
    Printed(Entries(ms), SortedAreas(Entries(ms)))
  }

  lemma {:induction false} ListedReflects(ms: seq<Magnet>)
    requires DistinctNumbers(ms)
    ensures multiset(Listed(ms)) == multiset(Entries(ms))
    ensures Reflects(RecordAll([], Listed(ms)), Listed(ms))
  {
    PrintedIsPermutation(Entries(ms));
    SameMembers(Listed(ms), Entries(ms));
    EntriesMembers(ms);
    ReflectsFromNothing(ms, Listed(ms));
  }

  lemma {:induction false} ReflectsFromNothing(ms: seq<Magnet>, es: seq<Entry>)
    requires DistinctNumbers(ms) && forall e :: e in es ==> e.magnet in ms
    ensures Reflects(RecordAll([], es), es)
  {
    EntriesConsistent(ms, es);
    assert [] + es == es;
    assert EntryFacts([]) == {} == FoundFacts([]);
    RecordAllReflects([], [], es);
  }

  /**
   Printing and parsing back, for every list of magnets with distinct numbers, whatever one-line areas they
   have: areas lose the white space around them, and a magnet is lost if that leaves it none.
   */
  lemma {:induction false} PrintThenParse(ms: seq<Magnet>)
    requires DistinctNumbers(ms) && forall m :: m in ms ==> Printable(m)
    ensures Recovers(Parse(Print(ms)), ms)
  {
    PrintableEntriesOf(ms);
    ReportRead(ms);
    ListedReflects(ms);
    SortedRecovers(RecordAll([], Listed(ms)), Listed(ms), ms);
  }

  /** A magnet is lost on the way exactly when all its areas are blank. */
  lemma {:induction false} LostExactlyWhenBlank(ms: seq<Magnet>, m: Magnet)
    requires DistinctNumbers(ms) && m in ms && forall x :: x in ms ==> Printable(x)
    ensures (exists f :: f in Parse(Print(ms)) && f.number == m.number) <==> HasArea(m)
  {
    var r := Parse(Print(ms));
    PrintThenParse(ms);
    if HasArea(m) {
      var f := ReadBack(r, ms, m);
    }
    if f :| f in r && f.number == m.number {
      var x := ReadFrom(r, ms, f);
      SameNumberSameMagnet(ms, x, m);
    }
  }

  lemma {:induction false} ReadBack(r: seq<Found>, ms: seq<Magnet>, m: Magnet) returns (f: Found)
    requires Recovers(r, ms) && m in ms && HasArea(m)
    ensures f in r && FactRead(f) == FactOf(m)
  {
    assert FactOf(m) in FactsRead(r);
    f :| f in r && FactRead(f) == FactOf(m);
  }

  lemma {:induction false} ReadFrom(r: seq<Found>, ms: seq<Magnet>, f: Found) returns (m: Magnet)
    requires Recovers(r, ms) && f in r
    ensures m in ms && HasArea(m) && FactOf(m) == FactRead(f)
  {
    assert FactRead(f) in MagnetFacts(ms);
    m :| m in ms && HasArea(m) && FactOf(m) == FactRead(f);
  }

  lemma {:induction false} SameNumberSameMagnet(ms: seq<Magnet>, x: Magnet, y: Magnet)
    requires DistinctNumbers(ms) && x in ms && y in ms && x.number == y.number
    ensures x == y
  {
    var i :| 0 <= i < |ms| && ms[i] == x;
    var j :| 0 <= j < |ms| && ms[j] == y;
    assert i == j;
  }

  lemma {:induction false} DropPrefixesIsOneLine(s: string)
    requires OneLine(s)
    ensures OneLine(DropPrefixes(s))
    decreases |s|
  {
    var at := Find(s, AREA_PREFIX);
    if at.Some? {
      DropPrefixesIsOneLine(s[at.value + |AREA_PREFIX|..]);
    }
  }

  lemma {:induction false} AreaLabelsAreLines(labels: seq<string>)
    requires forall l :: l in labels ==> OneLine(l)
    ensures forall a :: a in AreaLabels(labels) ==> OneLine(a)
  {
    if labels != [] {
      AreaLabelsAreLines(labels[1..]);
      DropPrefixesIsOneLine(labels[0]);
    }
  }

  /** So every magnet extracted from an issue with one-line labels can be printed. */
  lemma {:induction false} ExtractedIsPrintable(m: Magnet, labels: seq<string>)
    requires AddressOf(m.url, m.number) && forall l :: l in labels ==> OneLine(l)
    requires m.areas == AreaLabels(labels) || m.areas == [UNLABELED]
    ensures Printable(m)
  {
    AreaLabelsAreLines(labels);
    assert OneLine(UNLABELED);
  }

  lemma {:induction false} FindAtFront(s: string)
    requires s != ""
    ensures Find(s, s) == Some(0)
  {
    assert s[..|s|] == s;
  }

  lemma {:induction false} BareLabelIsBlank()
    ensures AreaLabels([AREA_PREFIX]) == [""]
  {
    FindAtFront(AREA_PREFIX);
    assert DropPrefixes("") == "" && AREA_PREFIX[|AREA_PREFIX|..] == "";
    assert DropPrefixes(AREA_PREFIX) == "";
    assert [AREA_PREFIX][1..] == [];
  }

  lemma {:induction false} NothingRead(r: seq<Found>, ms: seq<Magnet>)
    requires Recovers(r, ms) && forall m :: m in ms ==> !HasArea(m)
    ensures r == []
  {
    if r != [] {
      var m := ReadFrom(r, ms, r[0]);
    }
  }

  /** The bare label `area:` yields an empty area, and magnets without another label are not read back. */
  lemma {:induction false} BareLabelLosesMagnets(ms: seq<Magnet>)
    requires DistinctNumbers(ms)
    requires forall m :: m in ms ==> AddressOf(m.url, m.number) && m.areas == AreaLabels([AREA_PREFIX])
    ensures Parse(Print(ms)) == []
  {
    BareLabelIsBlank();
    PrintThenParse(ms);
    NothingRead(Parse(Print(ms)), ms);
  }

  lemma {:induction false} SortedRecovers(found: seq<Found>, es: seq<Entry>, ms: seq<Magnet>)
    requires Reflects(found, es) && DistinctNumbers(ms) && multiset(es) == multiset(Entries(ms))
    ensures Recovers(Sort(found, ByFoundDupes()), ms)
  {
    RecordsAreMagnets(found, es, ms);
    SortKeepsDistinctFound(found);
    SortDescending(found, ByFoundDupes());
  }

  lemma {:induction false} SameMembers(a: seq<Entry>, b: seq<Entry>)
    requires multiset(a) == multiset(b)
    ensures forall e :: e in a <==> e in b
  {
    assert forall e :: e in a <==> e in multiset(a);
    assert forall e :: e in b <==> e in multiset(b);
  }

  lemma {:induction false} EntriesConsistent(ms: seq<Magnet>, es: seq<Entry>)
    requires DistinctNumbers(ms) && forall e :: e in es ==> e.magnet in ms
    ensures Consistent(es) && Consistent([] + es)
  {
    forall e, e' | e in es && e' in es && e.magnet.number == e'.magnet.number ensures e.magnet == e'.magnet {
      SameNumberSameMagnet(ms, e.magnet, e'.magnet);
    }
    assert [] + es == es;
  }

  lemma {:induction false} RecordIsMagnet(found: seq<Found>, es: seq<Entry>, ms: seq<Magnet>, f: Found)
    requires Reflects(found, es) && DistinctNumbers(ms) && multiset(es) == multiset(Entries(ms)) && f in found
    ensures FactRead(f) in MagnetFacts(ms)
  {
    SameMembers(es, Entries(ms));
    EntriesMembers(ms);
    assert (f.number, f.dupes) in EntryFacts(es);
    var e :| e in es && ReadArea(e.area) != "" && e.magnet.number == f.number && e.magnet.dupes == f.dupes;
    ReflectedIsMagnet(found, es, ms, f, e.magnet);
    assert HasArea(e.magnet);
  }

  lemma {:induction false} MagnetIsRecorded(found: seq<Found>, es: seq<Entry>, ms: seq<Magnet>, m: Magnet)
    requires Reflects(found, es) && DistinctNumbers(ms) && multiset(es) == multiset(Entries(ms))
    requires m in ms && HasArea(m)
    ensures FactOf(m) in FactsRead(found)
  {
    SameMembers(es, Entries(ms));
    EntriesMembers(ms);
    var a :| a in m.areas && ReadArea(a) != "";
    assert Entry(a, m) in es;
    assert (m.number as int, m.dupes as int) in FoundFacts(found);
    var f :| f in found && f.number == m.number && f.dupes == m.dupes;
    ReflectedIsMagnet(found, es, ms, f, m);
  }

  lemma {:induction false} RecordsAreMagnets(found: seq<Found>, es: seq<Entry>, ms: seq<Magnet>)
    requires Reflects(found, es) && DistinctNumbers(ms) && multiset(es) == multiset(Entries(ms))
    ensures FactsRead(found) == MagnetFacts(ms)
  {
    forall f | f in found ensures FactRead(f) in MagnetFacts(ms) {
      RecordIsMagnet(found, es, ms, f);
    }
    forall m | m in ms && HasArea(m) ensures FactOf(m) in FactsRead(found) {
      MagnetIsRecorded(found, es, ms, m);
    }
  }

  /** A magnet comes back without areas exactly when it was listed under nothing but `(unlabeled)`, or blank areas. */
  lemma {:induction false} UnlabeledComesBackEmpty(f: Found, m: Magnet)
    requires FactRead(f) == FactOf(m)
    ensures f.areas == [] <==> forall a :: a in m.areas ==> ReadArea(a) in {"", UNLABELED}
  {
    LabeledEmpty(m.areas);
    assert f.areas != [] ==> f.areas[0] in multiset(f.areas);
    assert forall a :: ReadLabels(a) == [] <==> ReadArea(a) in {"", UNLABELED};
  }

  lemma {:induction false} LabeledEmpty(areas: seq<string>)
    ensures Labeled(areas) == multiset{} <==> forall a :: a in areas ==> ReadLabels(a) == []
  {
    if areas != [] {
      var init, last := areas[..|areas| - 1], areas[|areas| - 1];
      LabeledEmpty(init);
      LabelsOfAppend(init, last);
      assert areas == init + [last];
      var labels := ReadLabels(last);
      assert labels != [] ==> labels[0] in multiset(labels);
    }
  }

  lemma {:induction false} LabelsOfAppend(init: seq<string>, last: string)
    ensures (forall a :: a in init + [last] ==> ReadLabels(a) == []) <==>
              (forall a :: a in init ==> ReadLabels(a) == []) && ReadLabels(last) == []
  {
    assert last in init + [last];
    assert forall a :: a in init ==> a in init + [last];
  }

  /** Neither empty nor the placeholder, and without white space at either end. */
  predicate Clean(area: string) {
    area != "" && !IsSpace(area[0]) && !IsSpace(area[|area| - 1]) && area != UNLABELED
  }

  lemma {:induction false} StripLeftEnds(s: string)
    ensures StripLeft(s) != "" ==> !IsSpace(StripLeft(s)[0])
  {
    if s != "" && IsSpace(s[0]) {
      StripLeftEnds(s[1..]);
    }
  }

  lemma {:induction false} StripRightEnds(s: string)
    ensures |StripRight(s)| <= |s| && StripRight(s) == s[..|StripRight(s)|]
    ensures StripRight(s) != "" ==> !IsSpace(StripRight(s)[|StripRight(s)| - 1])
  {
    if s != "" && IsSpace(s[|s| - 1]) {
      StripRightEnds(s[..|s| - 1]);
    }
  }

  /** Whatever the area, every label read of it is clean. */
  lemma {:induction false} ReadLabelsAreClean(area: string)
    ensures forall l :: l in ReadLabels(area) ==> Clean(l)
  {
    StripLeftEnds(area);
    StripRightEnds(StripLeft(area));
  }

  /** One area comes back as it is exactly when it is clean. */
  lemma {:induction false} AreaComesBackExactlyWhen(area: string)
    ensures ReadLabels(area) == [area] <==> Clean(area)
  {
    ReadLabelsAreClean(area);
    if ReadLabels(area) == [area] {
      assert area in ReadLabels(area);
    }
  }

  lemma {:induction false} LabeledIsClean(areas: seq<string>, a: string)
    requires a in Labeled(areas)
    ensures Clean(a)
    decreases |areas|
  {
    var init, last := areas[..|areas| - 1], areas[|areas| - 1];
    if a in Labeled(init) {
      LabeledIsClean(init, a);
    } else {
      assert a in multiset(ReadLabels(last));
      ReadLabelsAreClean(last);
    }
  }

  lemma {:induction false} CleanAreLabeled(areas: seq<string>)
    requires forall a :: a in areas ==> Clean(a)
    ensures Labeled(areas) == multiset(areas)
  {
    if areas != [] {
      var init, last := areas[..|areas| - 1], areas[|areas| - 1];
      assert areas == init + [last] && last in areas;
      CleanAreLabeled(init);
      AreaComesBackExactlyWhen(last);
    }
  }

  lemma {:induction false} FactsAgreeExactlyWhen(f: Found, m: Magnet)
    requires FactRead(f) == FactOf(m)
    ensures multiset(f.areas) == multiset(m.areas) <==> forall a :: a in m.areas ==> Clean(a)
  {
    if forall a :: a in m.areas ==> Clean(a) {
      CleanAreLabeled(m.areas);
    }
    if multiset(f.areas) == multiset(m.areas) {
      forall a | a in m.areas ensures Clean(a) {
        assert a in multiset(m.areas);
        LabeledIsClean(m.areas, a);
      }
    }
  }

  lemma {:induction false} FoundIsFact(ms: seq<Magnet>, m: Magnet, f: Found)
    requires DistinctNumbers(ms) && m in ms && forall x :: x in ms ==> Printable(x)
    requires f in Parse(Print(ms)) && f.number == m.number
    ensures FactRead(f) == FactOf(m)
  {
    PrintThenParse(ms);
    var x := ReadFrom(Parse(Print(ms)), ms, f);
    SameNumberSameMagnet(ms, x, m);
  }

  /** The areas of a magnet survive printing and parsing, in some order, exactly when all of them are clean. */
  lemma {:induction false} AreasComeBackExactlyWhen(ms: seq<Magnet>, m: Magnet, f: Found)
    requires DistinctNumbers(ms) && m in ms && forall x :: x in ms ==> Printable(x)
    requires f in Parse(Print(ms)) && f.number == m.number
    ensures multiset(f.areas) == multiset(m.areas) <==> forall a :: a in m.areas ==> Clean(a)
  {
    FoundIsFact(ms, m, f);
    FactsAgreeExactlyWhen(f, m);
  }

  const PADDED_LABEL: string := AREA_PREFIX + " x"

  lemma {:induction false} PaddedLabelIsPadded()
    ensures AreaLabels([PADDED_LABEL]) == [" x"] && ReadLabels(" x") == ["x"]
  {
    assert AREA_PREFIX <= PADDED_LABEL && PADDED_LABEL[|AREA_PREFIX|..] == " x";
    NoFirstChar(" x", AREA_PREFIX);
    assert DropPrefixes(" x") == " x";
    assert DropPrefixes(PADDED_LABEL) == " x";
    assert [PADDED_LABEL][1..] == [];
    assert " x"[1..] == "x" && StripLeft(" x") == "x";
  }

  lemma {:induction false} StrippedFact(f: Found, m: Magnet)
    requires m.areas == [" x"] && FactRead(f) == FactOf(m)
    ensures f.areas == ["x"]
  {
    PaddedLabelIsPadded();
    assert [" x"][..0] == [];
    assert multiset(f.areas) == multiset{"x"};
    assert |f.areas| == |multiset(f.areas)|;
    assert f.areas[0] in multiset(f.areas);
  }

  /** The label `area: x` is printed as a section ` x` and read back as `x`. */
  lemma {:induction false} PaddedLabelIsStripped(ms: seq<Magnet>, m: Magnet, f: Found)
    requires DistinctNumbers(ms) && m in ms && forall x :: x in ms ==> Printable(x)
    requires f in Parse(Print(ms)) && f.number == m.number && m.areas == [" x"]
    ensures AreaLabels([PADDED_LABEL]) == [" x"] && f.areas == ["x"]
  {
    PaddedLabelIsPadded();
    FoundIsFact(ms, m, f);
    StrippedFact(f, m);
  }
}
