/**
 The duplicate report said of the magnets' own fields: its order, its round trip for ordinary areas, and what
 the parser takes no notice of.
 */
module ReportRules {
  import opened Options
  import opened Text
  import opened StableSort
  import opened DuplicateMagnets
  import opened MagnetRoundTrip

  // ----- reading -----

  /** Whatever the body, the magnets come most duplicated first. */
  lemma {:induction false} ParsedByDupes(body: string, i: nat, j: nat)
    requires i < j < |Parse(body)|
    ensures Parse(body)[i].dupes >= Parse(body)[j].dupes
  {
    SortDescending(ParseLines(ParseState("", []), SplitLines(body)).found, ByFoundDupes());
  }

  /** A line that is no header, and is no list item or mentions no issue. */
  ghost predicate Noise(line: string) {
    && OneLine(line) && !("## " <= line)
    && (!("-" <= line) || forall i :: 0 <= i <= |line| ==> !("/issues/" <= line[i..]))
  }

  lemma {:induction false} NoiseChangesNothing(st: ParseState, line: string)
    requires Noise(line)
    ensures ParseLine(st, line) == st
  {
    FindIsFirst(line, ISSUES);
  }

  lemma {:induction false} NoiseAmongLines(st: ParseState, a: seq<string>, noise: string, b: seq<string>)
    requires Noise(noise)
    ensures ParseLines(st, a + [noise] + b) == ParseLines(st, a + b)
  {
    ParseConcat(st, a + [noise], b);
    ParseConcat(st, a, [noise]);
    ParseConcat(st, a, b);
    assert [noise][..0] == [];
    assert ParseLines(ParseLines(st, a), [noise]) == ParseLine(ParseLines(ParseLines(st, a), []), noise);
    NoiseChangesNothing(ParseLines(st, a), noise);
  }

  /** Text between the sections and items of a report does not matter to its reader. */
  lemma {:induction false} NoiseIsIgnored(a: seq<string>, noise: string, b: seq<string>)
    requires Noise(noise) && a + b != [] && forall l :: l in a + b ==> OneLine(l)
    ensures Parse(Join(a + [noise] + b)) == Parse(Join(a + b))
  {
    var lines := a + [noise] + b;
    forall i | 0 <= i < |lines| ensures OneLine(lines[i]) {
      assert lines[i] == noise || lines[i] in a + b;
    }
    SplitJoin(lines);
    SplitJoin(a + b);
    NoiseAmongLines(ParseState("", []), a, noise, b);
  }

  // ----- the round trip for ordinary reports -----

  /** Every area is nonempty, without white space at its ends, and not the placeholder. */
  ghost predicate Ordinary(m: Magnet) {
    && m.areas != []
    && forall a :: a in m.areas ==> a != "" && !IsSpace(a[0]) && !IsSpace(a[|a| - 1]) && a != "(unlabeled)"
  }

  /** `f` is the magnet `m` as it was before printing; its areas may come in another order. */
  ghost predicate Same(f: Found, m: Magnet) {
    f.number == m.number && f.dupes == m.dupes && multiset(f.areas) == multiset(m.areas)
  }

  lemma {:induction false} OrdinaryIsClean(m: Magnet)
    requires Ordinary(m)
    ensures HasArea(m) && FactOf(m) == (m.number, m.dupes, multiset(m.areas))
  {
    forall a | a in m.areas ensures Clean(a) && ReadArea(a) == a {
      AreaComesBackExactlyWhen(a);
      assert a in ReadLabels(a);
    }
    assert m.areas[0] in m.areas;
    CleanAreLabeled(m.areas);
  }

  ghost predicate ComesBack(r: seq<Found>, m: Magnet) {
    exists f :: f in r && Same(f, m)
  }

  ghost predicate ComesFrom(f: Found, ms: seq<Magnet>) {
    exists m :: m in ms && Same(f, m)
  }

  /** Ordinary magnets are read back just as they were printed, each once and most duplicated first. */
  lemma {:induction false} OrdinaryReportComesBack(ms: seq<Magnet>)
    requires DistinctNumbers(ms) && forall m :: m in ms ==> Printable(m) && Ordinary(m)
    ensures var r := Parse(Print(ms));
            && (forall m :: m in ms ==> ComesBack(r, m)) && (forall f :: f in r ==> ComesFrom(f, ms))
            && (forall i, j :: 0 <= i < j < |r| ==> r[i].number != r[j].number)
            && (forall i, j :: 0 <= i < j < |r| ==> r[i].dupes >= r[j].dupes)
  {
    var r := Parse(Print(ms));
    PrintThenParse(ms);
    forall m | m in ms ensures ComesBack(r, m) {
      OrdinaryIsClean(m);
      var f := ReadBack(r, ms, m);
      assert Same(f, m);
    }
    forall f | f in r ensures ComesFrom(f, ms) {
      var m := ReadFrom(r, ms, f);
      OrdinaryIsClean(m);
      assert Same(f, m);
    }
  }

  // ----- the order of the report -----

  /** The duplicates of all magnets listed under the area. */
  function DupesUnder(ms: seq<Magnet>, area: string): nat {
    if ms == [] then 0
    else DupesUnder(ms[..|ms| - 1], area) + multiset(ms[|ms| - 1].areas)[area] * ms[|ms| - 1].dupes
  }

  lemma {:induction false} TotalConcat(a: seq<Entry>, b: seq<Entry>, area: string)
    ensures Total(a + b, area) == Total(a, area) + Total(b, area)
    ensures InArea(a + b, area) == InArea(a, area) + InArea(b, area)
  {
    if b == [] {
      assert a + b == a;
    } else {
      TotalConcat(a, b[..|b| - 1], area);
      SnocConcat(a, b);
      OneMoreEntry(a + b[..|b| - 1], b[|b| - 1], area);
    }
  }

  lemma {:induction false} TagTotal(areas: seq<string>, m: Magnet, area: string)
    ensures Total(Tag(areas, m), area) == multiset(areas)[area] * m.dupes
    ensures forall x :: x in InArea(Tag(areas, m), area) <==> x == m && area in areas
  {
    if areas != [] {
      var init, last := areas[..|areas| - 1], areas[|areas| - 1];
      TagTotal(init, m, area);
      OneMoreEntry(Tag(init, m), Entry(last, m), area);
      assert areas == init + [last];
      CountTimes(multiset(init)[area], if last == area then 1 else 0, m.dupes);
    }
  }

  lemma {:induction false} CountTimes(a: nat, b: nat, n: nat)
    ensures (a + b) * n == a * n + b * n
  {
  }

  lemma {:induction false} TotalIsDupesUnder(ms: seq<Magnet>, area: string)
    ensures Total(Entries(ms), area) == DupesUnder(ms, area)
    ensures forall x :: x in InArea(Entries(ms), area) <==> x in ms && area in x.areas
  {
    if ms != [] {
      var init, last := ms[..|ms| - 1], ms[|ms| - 1];
      TotalIsDupesUnder(init, area);
      TagTotal(last.areas, last, area);
      TotalConcat(Entries(init), Tag(last.areas, last), area);
      assert ms == init + [last];
    }
  }

  /** A section: a heading between blank lines, then `issues`, one line for each. */
  function SectionOf(area: string, issues: seq<Magnet>): seq<string> {
    ["", "## " + area, ""] + seq(|issues|, i requires 0 <= i < |issues| => ItemLine(issues[i]))
  }

  lemma {:induction false} ItemLinesAre(ms: seq<Magnet>)
    ensures |ItemLines(ms)| == |ms| && forall i :: 0 <= i < |ms| ==> ItemLines(ms)[i] == ItemLine(ms[i])
  {
    if ms != [] {
      ItemLinesAre(ms[1..]);
      assert forall i :: 0 < i < |ms| ==> ItemLines(ms)[i] == ItemLines(ms[1..])[i - 1];
    }
  }

  lemma {:induction false} SectionText(es: seq<Entry>, area: string)
    ensures SectionLines(es, area) == SectionOf(area, Sort(InArea(es, area), ByDupes()))
  {
    ItemLinesAre(Sort(InArea(es, area), ByDupes()));
  }

  lemma {:induction false} SortByDupes(ms: seq<Magnet>)
    ensures var sorted := Sort(ms, ByDupes());
            && (forall m :: m in sorted <==> m in ms)
            && (forall i, j :: 0 <= i < j < |sorted| ==> sorted[i].dupes >= sorted[j].dupes)
  {
    SortDescending(ms, ByDupes());
    SortElements(ms, ByDupes());
    var sorted := Sort(ms, ByDupes());
    assert forall m :: m in sorted <==> m in multiset(sorted);
  }

  /** A section lists exactly the magnets that have the area, most duplicated first. */
  lemma {:induction false} SectionByDupes(ms: seq<Magnet>, area: string) returns (issues: seq<Magnet>)
    ensures SectionLines(Entries(ms), area) == SectionOf(area, issues)
    ensures forall m :: m in issues <==> m in ms && area in m.areas
    ensures forall i, j :: 0 <= i < j < |issues| ==> issues[i].dupes >= issues[j].dupes
  {
    issues := Sort(InArea(Entries(ms), area), ByDupes());
    SectionText(Entries(ms), area);
    SortByDupes(InArea(Entries(ms), area));
    TotalIsDupesUnder(ms, area);
  }

  function Sections(ms: seq<Magnet>, areas: seq<string>): seq<string> {
    if areas == [] then [] else SectionLines(Entries(ms), areas[0]) + Sections(ms, areas[1..])
  }

  lemma {:induction false} SectionsAre(ms: seq<Magnet>, areas: seq<string>)
    ensures AllSections(Entries(ms), areas) == Sections(ms, areas)
  {
    if areas != [] {
      SectionsAre(ms, areas[1..]);
    }
  }

  /** After its first line the report has one section for each area of some magnet, those with most duplicates first. */
  lemma {:induction false} ReportByTotals(ms: seq<Magnet>) returns (areas: seq<string>)
    ensures ReportLines(ms) == [INTRO] + Sections(ms, areas)
    ensures forall a :: a in areas <==> exists m :: m in ms && a in m.areas
    ensures forall i, j :: 0 <= i < j < |areas| ==>
              areas[i] != areas[j] && DupesUnder(ms, areas[i]) >= DupesUnder(ms, areas[j])
  {
    var es := Entries(ms);
    areas := SortedAreas(es);
    SectionsAre(ms, areas);
    AreaMembers(es);
    SortedAreasMembers(es);
    EntriesMembers(ms);
    SortKeepsDistinct(Areas(es), ByTotal(es));
    SortDescending(Areas(es), ByTotal(es));
    forall a | (exists m :: m in ms && a in m.areas) ensures a in areas {
      var m :| m in ms && a in m.areas;
      assert Entry(a, m) in es;
    }
    forall a ensures ByTotal(es)(a) == DupesUnder(ms, a) {
      TotalIsDupesUnder(ms, a);
    }
  }

  // ----- the text itself -----

  function TwoPlaces(n: nat): string
    requires n < 100
  {
    if n < 10 then [' ', DigitChar(n)] else [DigitChar(n / 10), DigitChar(n % 10)]
  }

  /** A report of one magnet, character by character. */
  lemma {:induction false} OneMagnetReport(number: nat, url: string, area: string, dupes: nat)
    requires dupes < 100
    ensures Print([Magnet(number, url, [area], dupes)]) ==
              INTRO + "\n" + ("" + "\n" + (("## " + area) + "\n" + ("" + "\n" + (
                "-   [" + TwoPlaces(dupes) + " dupes] " + url))))
  {
    var m := Magnet(number, url, [area], dupes);
    OneMagnetLines(m, area);
    assert ReportLines([m]) == [INTRO, "", "## " + area, "", ItemLine(m)];
    JoinFive(INTRO, "", "## " + area, "", ItemLine(m));
    assert Pad2(Decimal(dupes)) == TwoPlaces(dupes);
  }

  lemma {:induction false} OneMagnetEntries(m: Magnet, area: string)
    requires m.areas == [area]
    ensures Entries([m]) == [Entry(area, m)]
  {
    assert [m][..0] == [] && [area][..0] == [];
    assert Tag([area], m) == Tag([], m) + [Entry(area, m)];
  }

  lemma {:induction false} OneEntry(e: Entry)
    ensures InArea([e], e.area) == [e.magnet] && Areas([e]) == [e.area]
  {
    assert [e][..0] == [];
  }

  lemma {:induction false} OneMagnetLines(m: Magnet, area: string)
    requires m.areas == [area]
    ensures ReportLines([m]) == [INTRO, "", "## " + area, "", ItemLine(m)]
  {
    var e := Entry(area, m);
    OneMagnetEntries(m, area);
    OneEntry(e);
    SortOne(m, ByDupes());
    SortOne(area, ByTotal([e]));
    assert AllSections([e], [area]) == SectionLines([e], area) + AllSections([e], []);
    assert ItemLines([m]) == [ItemLine(m)];
  }

  lemma {:induction false} SortOne<T>(x: T, key: T -> int)
    ensures Sort([x], key) == [x]
  {
    assert [x][..0] == [];
  }

  lemma {:induction false} JoinFive(a: string, b: string, c: string, d: string, e: string)
    ensures Join([a, b, c, d, e]) == a + "\n" + (b + "\n" + (c + "\n" + (d + "\n" + e)))
  {
    assert [d, e] == [d] + [e] && [c, d, e] == [c] + [d, e] && [b, c, d, e] == [b] + [c, d, e];
    assert [a, b, c, d, e] == [a] + [b, c, d, e];
    JoinMore(d, [e]);
    JoinMore(c, [d, e]);
    JoinMore(b, [c, d, e]);
    JoinMore(a, [b, c, d, e]);
  }

  lemma {:induction false} JoinMore(line: string, rest: seq<string>)
    requires rest != []
    ensures Join([line] + rest) == line + "\n" + Join(rest)
  {
    assert ([line] + rest)[1..] == rest;
  }

  // ----- labels -----

  lemma {:induction false} DropPrefixesTwice(s: string)
    ensures DropPrefixes("area:" + s) == DropPrefixes(s)
  {
    FoundAtOnce(AREA_PREFIX, s);
    assert ("area:" + s)[..0] == "" && ("area:" + s)[5..] == s;
  }

  /** Later occurrences of `area:` go too, and what stands before them stays. */
  lemma {:induction false} DropPrefixesInside(a: string, b: string)
    requires forall i :: 0 <= i < |a| ==> !("area:" <= (a + ("area:" + b))[i..])
    ensures DropPrefixes(a + ("area:" + b)) == a + DropPrefixes(b)
  {
    var s := a + ("area:" + b);
    FindIsFirst(s, AREA_PREFIX);
    assert s[|a|..] == "area:" + b;
    assert AREA_PREFIX <= s[|a|..];
    DropBoth(a, "area:", b);
  }

  /** A label `area:` and a name without another `area:` stands for that name; labels in another form for none. */
  lemma {:induction false} AreaOfLabel(name: string, other: string)
    requires forall i :: 0 <= i <= |name| ==> !("area:" <= name[i..])
    requires !("area:" <= other)
    ensures AreaLabels(["area:" + name]) == [name] && AreaLabels([other]) == []
  {
    FindIsFirst(name, AREA_PREFIX);
    DropPrefixesTwice(name);
    assert AREA_PREFIX <= "area:" + name;
    assert ["area:" + name][1..] == [] && [other][1..] == [];
  }

  lemma {:induction false} AreaLabelsConcat(a: seq<string>, b: seq<string>)
    ensures AreaLabels(a + b) == AreaLabels(a) + AreaLabels(b)
  {
    if a == [] {
      assert a + b == b;
    } else {
      assert (a + b)[1..] == a[1..] + b;
      AreaLabelsConcat(a[1..], b);
    }
  }

  // ----- addresses -----

  lemma {:induction false} FirstSlashI(p: string, rest: string)
    requires forall k :: 0 <= k < |p| && p[k] == '/' ==> k + 1 < |p| && p[k + 1] != 'i'
    ensures Find(p + ("/issues/" + rest), ISSUES) == Some(|p|)
  {
    var s := p + ("/issues/" + rest);
    FindIsFirst(s, ISSUES);
    assert s[|p|..] == "/issues/" + rest;
    assert ISSUES <= s[|p|..];
    forall j | 0 <= j < |p| ensures !(ISSUES <= s[j..]) {
      assert s[j] == p[j] && (j + 1 < |p| ==> s[j + 1] == p[j + 1]);
      assert ISSUES[0] == '/' && ISSUES[1] == 'i';
      assert s[j..][0] == s[j] && s[j..][1] == s[j + 1];
    }
  }

  /** The address of an issue: anything without `/i`, then `/issues/` and the number. */
  lemma {:induction false} IssueAddress(p: string, number: nat)
    requires OneLine(p) && forall k :: 0 <= k < |p| && p[k] == '/' ==> k + 1 < |p| && p[k + 1] != 'i'
    ensures AddressOf(p + ("/issues/" + Decimal(number)), number)
  {
    var n := Decimal(number);
    FirstSlashI(p, n);
    DecimalDigits(number);
    var tail := "/issues/" + n;
    assert OneLine("/issues/");
    assert forall i :: 8 <= i < |tail| ==> tail[i] == n[i - 8];
    assert OneLine(tail);
    assert OneLine(p + tail);
    DropBoth(p, "/issues/", n);
  }

  /** The addresses of the repository's issues are of this form. */
  lemma {:induction false} RepositoryAddress(number: nat)
    ensures AddressOf("https://github.com/zed-industries/zed" + ("/issues/" + Decimal(number)), number)
  {
    IssueAddress("https://github.com/zed-industries/zed", number);
  }
}
