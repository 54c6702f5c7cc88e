/**
 The duplicate-magnet report: printed as markdown by script/github-find-top-duplicated-bugs.py and read
 back by script/github-check-new-issue-for-duplicates.py.
 */
module DuplicateMagnets {
  import opened Options
  import opened Text
  import opened StableSort

  const UNLABELED: string := "(unlabeled)"
  const ISSUES: string := "/issues/"
  // The introduction, word by word so that it can be seen to be one line.
  const INTRO_WORDS: seq<string> := [
    "These are the", " issues that are", " frequently", " re-reported.", " The list is", " generated", " regularly by",
    " running a script."
  ]

  function Concat(words: seq<string>): string {
    if words == [] then "" else words[0] + Concat(words[1..])
  }

  const INTRO: string := Concat(INTRO_WORDS)

  datatype Magnet = Magnet(number: nat, url: string, areas: seq<string>, dupes: nat)

  /** One line of the report: a magnet under an area. */
  datatype Entry = Entry(area: string, magnet: Magnet)

  // ----- counting -----

  /** A timeline entry; one without a readable duplicate issue is `Unreadable`. */
  datatype DuplicateEvent = MarkedAsDuplicate(number: nat, state: string) | Unreadable

  function ClosedDuplicates(events: seq<DuplicateEvent>): (numbers: set<nat>)
    ensures forall n :: n in numbers <==> MarkedAsDuplicate(n, "CLOSED") in events
  {
    set e | e in events && e.MarkedAsDuplicate? && e.state == "CLOSED" :: e.number
  }

  const AREA_PREFIX: string := "area:"

  /** `s.replace("area:", "")`. */
  function DropPrefixes(s: string): string
    decreases |s|
  {
    match Find(s, AREA_PREFIX)
    case None => s
    case Some(i) => s[..i] + DropPrefixes(s[i + |AREA_PREFIX|..])
  }

  function AreaLabels(labels: seq<string>): seq<string> {
    if labels == [] then []
    else (if StartsWith(labels[0], AREA_PREFIX) then [DropPrefixes(labels[0])] else []) + AreaLabels(labels[1..])
  }

  /** A magnet for each issue with two or more distinct closed duplicates; it always has an area to be listed under. */
  method ExtractDuplicateInfo(number: nat, url: string, labels: seq<string>, events: seq<DuplicateEvent>)
    returns (info: Option<Magnet>)
    ensures info.Some? <==> |ClosedDuplicates(events)| >= 2
    ensures info.Some? ==>
              && info.value.number == number && info.value.url == url
              && info.value.dupes == |ClosedDuplicates(events)|
              && info.value.areas != []
              && info.value.areas == (if AreaLabels(labels) == [] then [UNLABELED] else AreaLabels(labels))
  {
    var seen: set<nat> := {};
    for i := 0 to |events|
      invariant seen == ClosedDuplicates(events[..i])
    {
      assert events[..i + 1] == events[..i] + [events[i]];
      if events[i].MarkedAsDuplicate? && events[i].state == "CLOSED" {
        seen := seen + {events[i].number};
      }
    }
    assert events[..|events|] == events;
    if |seen| < 2 {
      return None;
    }
    var areas := AreaLabels(labels);
    return Some(Magnet(number, url, if areas != [] then areas else [UNLABELED], |seen|));
  }

  // ----- printing -----

  function Tag(areas: seq<string>, m: Magnet): seq<Entry> {
    if areas == [] then [] else Tag(areas[..|areas| - 1], m) + [Entry(areas[|areas| - 1], m)]
  }

  /** Every magnet under each of its areas, in the order the printer meets them. */
  function Entries(ms: seq<Magnet>): seq<Entry> {
    if ms == [] then [] else Entries(ms[..|ms| - 1]) + Tag(ms[|ms| - 1].areas, ms[|ms| - 1])
  }

  /** The areas in order of first appearance. */
  function Areas(es: seq<Entry>): seq<string> {
    if es == [] then []
    else
      var as_ := Areas(es[..|es| - 1]);
      if es[|es| - 1].area in as_ then as_ else as_ + [es[|es| - 1].area]
  }

  function InArea(es: seq<Entry>, area: string): seq<Magnet> {
    if es == [] then []
    else InArea(es[..|es| - 1], area) + (if es[|es| - 1].area == area then [es[|es| - 1].magnet] else [])
  }

  function Total(es: seq<Entry>, area: string): nat {
    if es == [] then 0
    else Total(es[..|es| - 1], area) + (if es[|es| - 1].area == area then es[|es| - 1].magnet.dupes else 0)
  }

  function ByTotal(es: seq<Entry>): string -> int {
    area => Total(es, area)
  }

  function ByDupes(): Magnet -> int {
    (m: Magnet) => m.dupes
  }

  function Pad2(s: string): string {
    if |s| < 2 then " " + s else s
  }

  function ItemLine(m: Magnet): string {
    "-   [" + Pad2(Decimal(m.dupes)) + " dupes] " + m.url
  }

  function ItemLines(ms: seq<Magnet>): seq<string> {
    if ms == [] then [] else [ItemLine(ms[0])] + ItemLines(ms[1..])
  }

  function SectionLines(es: seq<Entry>, area: string): seq<string> {
    ["", "## " + area, ""] + ItemLines(Sort(InArea(es, area), ByDupes()))
  }

  function AllSections(es: seq<Entry>, areas: seq<string>): seq<string> {
    if areas == [] then [] else SectionLines(es, areas[0]) + AllSections(es, areas[1..])
  }

  function ReportLines(ms: seq<Magnet>): seq<string> {
    var es := Entries(ms);
    [INTRO] + AllSections(es, Sort(Areas(es), ByTotal(es)))
  }

  function Print(ms: seq<Magnet>): string {
    Join(ReportLines(ms))
  }

  // ----- parsing -----

  datatype Found = Found(number: int, areas: seq<string>, dupes: int)

  /** `area` is empty until the first header. */
  datatype ParseState = ParseState(area: string, found: seq<Found>)

  function IndexOf(found: seq<Found>, number: int): (r: Option<nat>)
    ensures r.Some? ==> r.value < |found| && found[r.value].number == number
    ensures r.None? ==> forall i :: 0 <= i < |found| ==> found[i].number != number
  {
    if found == [] then None
    else if found[|found| - 1].number == number then Some(|found| - 1)
    else IndexOf(found[..|found| - 1], number)
  }

  function Labels(area: string): seq<string> {
    if area == UNLABELED then [] else [area]
  }

  function Record(found: seq<Found>, number: int, dupes: int, area: string): seq<Found> {
    match IndexOf(found, number)
    case Some(i) => if area == UNLABELED then found else found[i := found[i].(areas := found[i].areas + [area])]
    case None => found + [Found(number, Labels(area), dupes)]
  }

  function DupesOf(line: string): Option<int> {
    var part := SplitSecond(line, "[");
    if part.None? then None
    else
      var word := FirstWord(part.value);
      if word.None? then None else ParseInt(word.value)
  }

  function NumberOf(line: string): Option<int> {
    var part := SplitSecond(line, ISSUES);
    if part.None? then None
    else
      var word := FirstWord(part.value);
      if word.None? then None else ParseInt(StripRightChar(word.value, ')'))
  }

  function ParseLine(st: ParseState, line: string): ParseState {
    if StartsWith(line, "## ") then st.(area := Strip(line[3..]))
    else if st.area == "" || !StartsWith(line, "-") || !Contains(line, ISSUES) then st
    else
      var dupes, number := DupesOf(line), NumberOf(line);
      if dupes.None? || number.None? then st
      else st.(found := Record(st.found, number.value, dupes.value, st.area))
  }

  function ParseLines(st: ParseState, lines: seq<string>): ParseState {
    if lines == [] then st else ParseLine(ParseLines(st, lines[..|lines| - 1]), lines[|lines| - 1])
  }

  function ByFoundDupes(): Found -> int {
    (f: Found) => f.dupes
  }

  function Parse(body: string): seq<Found> {
    Sort(ParseLines(ParseState("", []), SplitLines(body)).found, ByFoundDupes())
  }

  // ----- the two programs as written -----

  /** Files one magnet under one area. */
  method FileUnder(area: string, info: Magnet, order: seq<string>, byArea: map<string, seq<Magnet>>,
                   areaTotals: map<string, nat>, ghost es: seq<Entry>)
    returns (order': seq<string>, byArea': map<string, seq<Magnet>>, areaTotals': map<string, nat>)
    requires Grouped(es, order, byArea, areaTotals)
    ensures Grouped(es + [Entry(area, info)], order', byArea', areaTotals')
  {
    order', byArea', areaTotals' := order, byArea, areaTotals;
    OneMoreArea(es, Entry(area, info));
    if area !in byArea {
      OpenArea(es, byArea, areaTotals, area);
      order' := order + [area];
      byArea' := byArea[area := []];
      areaTotals' := areaTotals[area := 0];
    }
    FileInto(es, byArea', areaTotals', Entry(area, info));
    byArea' := byArea'[area := byArea'[area] + [info]];
    areaTotals' := areaTotals'[area := areaTotals'[area] + info.dupes];
  }

  /** The first half of the printer: one pass over the magnets, filling the dictionaries. */
  method GroupByArea(ms: seq<Magnet>)
    returns (order: seq<string>, byArea: map<string, seq<Magnet>>, areaTotals: map<string, nat>)
    ensures Grouped(Entries(ms), order, byArea, areaTotals)
  {
    byArea, areaTotals, order := map[], map[], [];
    for i := 0 to |ms|
      invariant Grouped(Entries(ms[..i]), order, byArea, areaTotals)
    {
      var info := ms[i];
      ghost var before := Entries(ms[..i]);
      assert before + Tag(info.areas[..0], info) == before;
      for j := 0 to |info.areas|
        invariant Grouped(before + Tag(info.areas[..j], info), order, byArea, areaTotals)
      {
        order, byArea, areaTotals :=
          FileUnder(info.areas[j], info, order, byArea, areaTotals, before + Tag(info.areas[..j], info));
        TagStep(before, info, j);
      }
      assert info.areas[..|info.areas|] == info.areas && ms[..i + 1][..i] == ms[..i];
    }
    assert ms[..|ms|] == ms;
  }

  lemma {:induction false} TagStep(before: seq<Entry>, m: Magnet, j: nat)
    requires j < |m.areas|
    ensures before + Tag(m.areas[..j + 1], m) == before + Tag(m.areas[..j], m) + [Entry(m.areas[j], m)]
  {
    assert m.areas[..j + 1][..j] == m.areas[..j];
  }

  method AppendItems(lines: seq<string>, issues: seq<Magnet>) returns (longer: seq<string>)
    ensures longer == lines + ItemLines(issues)
  {
    longer := lines;
    for j := 0 to |issues|
      invariant longer + ItemLines(issues[j..]) == lines + ItemLines(issues)
    {
      assert issues[j..][1..] == issues[j + 1..];
      longer := longer + [ItemLine(issues[j])];
    }
  }

  method BuildMarkdownBody(ms: seq<Magnet>) returns (body: string)
    ensures body == Print(ms)
  {
    var order, byArea, areaTotals := GroupByArea(ms);
    ghost var es := Entries(ms);
    var total := area => if area in areaTotals then areaTotals[area] else 0;
    var sorted := Sort(order, total);
    SortedGroups(es, order, byArea, areaTotals, total);
    var lines := PrintSections(sorted, byArea, es);
    body := Join(lines);
  }

  lemma {:induction false} SortedGroups(es: seq<Entry>, order: seq<string>, byArea: map<string, seq<Magnet>>,
          totals: map<string, nat>, total: string -> int)
    requires Grouped(es, order, byArea, totals)
    requires forall a :: a in totals ==> total(a) == totals[a]
    ensures Sort(order, total) == Sort(Areas(es), ByTotal(es))
    ensures forall a :: a in Sort(order, total) ==> a in byArea && byArea[a] == InArea(es, a)
  {
    SortSameKey(order, total, ByTotal(es));
    SortElements(order, total);
    var sorted := Sort(order, total);
    assert forall a :: a in sorted ==> a in multiset(sorted);
  }

  /** The second half: a section for each area. */
  method PrintSections(sorted: seq<string>, byArea: map<string, seq<Magnet>>, ghost es: seq<Entry>)
    returns (lines: seq<string>)
    requires forall a :: a in sorted ==> a in byArea && byArea[a] == InArea(es, a)
    ensures lines == [INTRO] + AllSections(es, sorted)
  {
    lines := [INTRO];
    for i := 0 to |sorted|
      invariant [INTRO] + AllSections(es, sorted) == lines + AllSections(es, sorted[i..])
    {
      var area := sorted[i];
      ghost var before := lines;
      lines := lines + ["", "## " + area, ""];
      lines := AppendItems(lines, Sort(byArea[area], ByDupes()));
      SectionStep(before, es, sorted, i);
    }
  }

  lemma {:induction false} SectionStep(before: seq<string>, es: seq<Entry>, sorted: seq<string>, i: nat)
    requires i < |sorted|
    ensures before + AllSections(es, sorted[i..])
         == before + ["", "## " + sorted[i], ""] + ItemLines(Sort(InArea(es, sorted[i]), ByDupes()))
            + AllSections(es, sorted[i + 1..])
  {
    assert sorted[i..][1..] == sorted[i + 1..];
  }

  /** The printer's dictionaries after the entries `es`. */
  ghost predicate Grouped(es: seq<Entry>, order: seq<string>, byArea: map<string, seq<Magnet>>,
          totals: map<string, nat>)
  {
    && order == Areas(es)
    && (forall a :: a in order <==> a in byArea)
    && ValuesFor(es, byArea, totals)
  }

  ghost predicate ValuesFor(es: seq<Entry>, byArea: map<string, seq<Magnet>>, totals: map<string, nat>) {
    && byArea.Keys == totals.Keys
    && forall a :: a in byArea ==> byArea[a] == InArea(es, a) && totals[a] == Total(es, a)
  }

  /** One more entry changes only its own area. */
  lemma {:induction false} OneMoreEntry(es: seq<Entry>, e: Entry, area: string)
    ensures InArea(es + [e], area) == InArea(es, area) + if e.area == area then [e.magnet] else []
    ensures Total(es + [e], area) == Total(es, area) + if e.area == area then e.magnet.dupes else 0
  {
    assert (es + [e])[..|es|] == es;
  }

  lemma {:induction false} OneMoreArea(es: seq<Entry>, e: Entry)
    ensures Areas(es + [e]) == if e.area in Areas(es) then Areas(es) else Areas(es) + [e.area]
  {
    assert (es + [e])[..|es|] == es;
  }

  lemma {:induction false} FileInto(es: seq<Entry>, byArea: map<string, seq<Magnet>>, totals: map<string, nat>,
          e: Entry)
    requires ValuesFor(es, byArea, totals) && e.area in byArea
    ensures ValuesFor(es + [e], byArea[e.area := byArea[e.area] + [e.magnet]],
                      totals[e.area := totals[e.area] + e.magnet.dupes])
  {
    var byArea' := byArea[e.area := byArea[e.area] + [e.magnet]];
    var totals' := totals[e.area := totals[e.area] + e.magnet.dupes];
    forall a | a in byArea' ensures byArea'[a] == InArea(es + [e], a) && totals'[a] == Total(es + [e], a) {
      OneMoreEntry(es, e, a);
      if a != e.area {
        assert byArea'[a] == byArea[a] && totals'[a] == totals[a];
      }
    }
  }

  lemma {:induction false} OpenArea(es: seq<Entry>, byArea: map<string, seq<Magnet>>, totals: map<string, nat>,
          area: string)
    requires ValuesFor(es, byArea, totals) && area !in Areas(es)
    ensures ValuesFor(es, byArea[area := []], totals[area := 0])
  {
    NotInAreas(es, area);
  }

  lemma {:induction false} NotInAreas(es: seq<Entry>, area: string)
    requires area !in Areas(es)
    ensures InArea(es, area) == [] && Total(es, area) == 0
  {
    if es != [] {
      NotInAreas(es[..|es| - 1], area);
    }
  }

  lemma {:induction false} SortSameKey(s: seq<string>, k1: string -> int, k2: string -> int)
    requires forall x :: x in s ==> k1(x) == k2(x)
    ensures Sort(s, k1) == Sort(s, k2)
  {
    if s != [] {
      SortSameKey(s[..|s| - 1], k1, k2);
      SortElements(s[..|s| - 1], k1);
      var t := Sort(s[..|s| - 1], k1);
      assert forall x :: x in t ==> x in multiset(t);
      InsertSameKey(s[|s| - 1], t, k1, k2);
    }
  }

  lemma {:induction false} InsertSameKey(x: string, s: seq<string>, k1: string -> int, k2: string -> int)
    requires k1(x) == k2(x) && forall y :: y in s ==> k1(y) == k2(y)
    ensures Insert(x, s, k1) == Insert(x, s, k2)
  {
    if s != [] {
      InsertSameKey(x, s[..|s| - 1], k1, k2);
    }
  }

  method ParseDuplicateMagnets(body: string) returns (magnets: seq<Found>)
    ensures magnets == Parse(body)
  {
    var lines := SplitLines(body);
    var found: seq<Found> := [];
    var currentArea := "";
    for i := 0 to |lines|
      invariant ParseState(currentArea, found) == ParseLines(ParseState("", []), lines[..i])
    {
      var line := lines[i];
      assert lines[..i + 1][..i] == lines[..i];
      if StartsWith(line, "## ") {
        currentArea := Strip(line[3..]);
        continue;
      }
      if currentArea == "" || !StartsWith(line, "-") || !Contains(line, ISSUES) {
        continue;
      }
      var dupeCount, number := DupesOf(line), NumberOf(line);
      if dupeCount.None? || number.None? {
        continue;
      }
      var isUnlabeled := currentArea == UNLABELED;
      var known := IndexOf(found, number.value);
      if known.Some? {
        if !isUnlabeled {
          found := found[known.value := found[known.value].(areas := found[known.value].areas + [currentArea])];
        }
      } else {
        found := found + [Found(number.value, if isUnlabeled then [] else [currentArea], dupeCount.value)];
      }
    }
    assert lines[..|lines|] == lines;
    magnets := Sort(found, ByFoundDupes());
  }
}
