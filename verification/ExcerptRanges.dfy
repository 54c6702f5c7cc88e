/** The excerpt ranges of a pending diff (crates/acp_thread/src/diff.rs): sorting and merging touching ranges. */
module ExcerptRanges {
  /** A position in a buffer, ordered by row and then column. */
  datatype Point = Point(row: nat, column: nat)

  predicate Le(a: Point, b: Point) {
    a.row < b.row || (a.row == b.row && a.column <= b.column)
  }

  predicate Lt(a: Point, b: Point) {
    !Le(b, a)
  }

  function Max(a: Point, b: Point): Point {
    if Le(a, b) then b else a
  }

  datatype Range = Range(start: Point, end: Point)

  predicate Proper(r: Range) {
    Le(r.start, r.end)
  }

  ghost predicate AllProper(rs: seq<Range>) {
    forall r :: r in rs ==> Proper(r)
  }

  // ----- what a list of ranges covers -----

  /** `p` lies in one of the ranges, ends included. */
  ghost predicate Touches(rs: seq<Range>, p: Point) {
    exists r :: r in rs && Le(r.start, p) && Le(p, r.end)
  }

  /** The text just after `p` lies in one of the ranges. */
  ghost predicate Covers(rs: seq<Range>, p: Point) {
    exists r :: r in rs && Le(r.start, p) && Lt(p, r.end)
  }

  ghost predicate SameCoverage(a: seq<Range>, b: seq<Range>) {
    && (forall p :: Touches(a, p) <==> Touches(b, p))
    && (forall p :: Covers(a, p) <==> Covers(b, p))
  }

  /** Proper ranges in order, each ending strictly before the next begins. */
  ghost predicate Canonical(rs: seq<Range>) {
    && (forall i :: 0 <= i < |rs| ==> Proper(rs[i]))
    && (forall i, j :: 0 <= i < j < |rs| ==> Lt(rs[i].end, rs[j].start))
  }

  // ----- sorting by start, longest first -----

  predicate KeyLe(a: Range, b: Range) {
    Lt(a.start, b.start) || (a.start == b.start && Le(b.end, a.end))
  }

  function Insert(r: Range, sorted: seq<Range>): (s: seq<Range>)
    ensures multiset(s) == multiset(sorted) + multiset{r}
  {
    if sorted == [] || KeyLe(r, sorted[0]) then [r] + sorted
    else
      assert sorted == [sorted[0]] + sorted[1..];
      [sorted[0]] + Insert(r, sorted[1..])
  }

  function Sort(rs: seq<Range>): (s: seq<Range>)
    ensures multiset(s) == multiset(rs)
  {
    if rs == [] then []
    else
      assert rs == [rs[0]] + rs[1..];
      Insert(rs[0], Sort(rs[1..]))
  }

  ghost predicate SortedByStart(rs: seq<Range>) {
    forall i, j :: 0 <= i < j < |rs| ==> Le(rs[i].start, rs[j].start)
  }

  lemma {:induction false} InsertKeepsSorted(r: Range, s: seq<Range>)
    requires SortedByStart(s)
    ensures SortedByStart(Insert(r, s))
  {
    if s != [] && !KeyLe(r, s[0]) {
      InsertKeepsSorted(r, s[1..]);
      var t := Insert(r, s[1..]);
      forall k | 0 <= k < |t| ensures Le(s[0].start, t[k].start) {
        assert t[k] in multiset(t);
        assert t[k] == r || t[k] in s[1..];
      }
    }
  }

  lemma {:induction false} SortIsSorted(rs: seq<Range>)
    ensures SortedByStart(Sort(rs))
  {
    if rs != [] {
      SortIsSorted(rs[1..]);
      InsertKeepsSorted(rs[0], Sort(rs[1..]));
    }
  }

  lemma {:induction false} SameElementsSameCoverage(a: seq<Range>, b: seq<Range>)
    requires multiset(a) == multiset(b)
    ensures SameCoverage(a, b)
    ensures AllProper(a) <==> AllProper(b)
  {
    assert forall r :: r in a <==> r in multiset(a);
    assert forall r :: r in b <==> r in multiset(b);
  }

  // ----- merging -----

  /** Merging what is left of a sorted list into the range being built. */
  function MergeInto(current: Range, rest: seq<Range>): seq<Range>
    decreases |rest|
  {
    if rest == [] then [current]
    else if Le(rest[0].start, current.end)
    then MergeInto(Range(current.start, Max(current.end, rest[0].end)), rest[1..])
    else [current] + MergeInto(rest[0], rest[1..])
  }

  function MergeSorted(rs: seq<Range>): seq<Range> {
    if rs == [] then [] else MergeInto(rs[0], rs[1..])
  }

  function Merged(rs: seq<Range>): seq<Range> {
    MergeSorted(Sort(rs))
  }

  lemma {:induction false} CoverageCons(r: Range, rs: seq<Range>, p: Point)
    ensures Touches([r] + rs, p) <==> (Le(r.start, p) && Le(p, r.end)) || Touches(rs, p)
    ensures Covers([r] + rs, p) <==> (Le(r.start, p) && Lt(p, r.end)) || Covers(rs, p)
  {
    assert r in [r] + rs;
    assert forall x :: x in rs ==> x in [r] + rs;
  }

  lemma {:induction false} MergeIntoKeepsCoverage(current: Range, rest: seq<Range>, p: Point)
    requires Proper(current) && AllProper(rest)
    requires forall k :: 0 <= k < |rest| ==> Le(current.start, rest[k].start)
    requires SortedByStart(rest)
    ensures Touches(MergeInto(current, rest), p) <==> Touches([current] + rest, p)
    ensures Covers(MergeInto(current, rest), p) <==> Covers([current] + rest, p)
    decreases |rest|
  {
    if rest == [] {
      assert [current] + rest == [current];
    } else {
      var next, tail := rest[0], rest[1..];
      assert rest == [next] + tail;
      assert next in rest && forall r :: r in tail ==> r in rest;
      CoverageCons(current, rest, p);
      CoverageCons(next, tail, p);
      if Le(next.start, current.end) {
        var grown := Range(current.start, Max(current.end, next.end));
        MergeIntoKeepsCoverage(grown, tail, p);
        CoverageCons(grown, tail, p);
      } else {
        MergeIntoKeepsCoverage(next, tail, p);
        CoverageCons(current, MergeInto(next, tail), p);
      }
    }
  }

  lemma {:induction false} MergeIntoIsCanonical(current: Range, rest: seq<Range>)
    requires Proper(current) && AllProper(rest)
    requires forall k :: 0 <= k < |rest| ==> Le(current.start, rest[k].start)
    requires SortedByStart(rest)
    ensures Canonical(MergeInto(current, rest))
    ensures MergeInto(current, rest) != [] && MergeInto(current, rest)[0].start == current.start
    decreases |rest|
  {
    if rest != [] {
      var next, tail := rest[0], rest[1..];
      assert next in rest && forall r :: r in tail ==> r in rest;
      if Le(next.start, current.end) {
        MergeIntoIsCanonical(Range(current.start, Max(current.end, next.end)), tail);
      } else {
        MergeIntoIsCanonical(next, tail);
        var merged := MergeInto(next, tail);
        assert forall j :: 0 <= j < |merged| ==> Le(next.start, merged[j].start);
      }
    }
  }

  /** The merged ranges are canonical and cover exactly what the given ranges cover. */
  lemma {:induction false} MergedIsCanonicalUnion(rs: seq<Range>)
    requires AllProper(rs)
    ensures Canonical(Merged(rs)) && SameCoverage(Merged(rs), rs)
  {
    var s := Sort(rs);
    SortIsSorted(rs);
    SameElementsSameCoverage(s, rs);
    if s != [] {
      assert s == [s[0]] + s[1..];
      assert forall r :: r in s[1..] ==> r in s;
      assert s[0] in s;
      MergeIntoIsCanonical(s[0], s[1..]);
      forall p ensures Touches(Merged(rs), p) <==> Touches(s, p) ensures Covers(Merged(rs), p) <==> Covers(s, p) {
        MergeIntoKeepsCoverage(s[0], s[1..], p);
      }
    }
  }

  /** A canonical list is determined by what it covers. */
  lemma {:induction false} CanonicalIsUnique(a: seq<Range>, b: seq<Range>)
    requires Canonical(a) && Canonical(b) && SameCoverage(a, b)
    ensures a == b
  {
    FirstRangeShows(a);
    FirstRangeShows(b);
    if a != [] && b != [] {
      FirstStartsFirst(a, b);
      FirstStartsFirst(b, a);
      FirstEndsLast(a, b);
      FirstEndsLast(b, a);
      TailCoverage(a, b);
      CanonicalIsUnique(a[1..], b[1..]);
      assert a == [a[0]] + a[1..] && b == [b[0]] + b[1..];
    }
  }

  lemma {:induction false} FirstStartsFirst(a: seq<Range>, b: seq<Range>)
    requires Canonical(a) && Canonical(b) && SameCoverage(a, b) && a != [] && b != []
    ensures Le(a[0].start, b[0].start)
  {
    assert b[0] in b;
    assert Touches(b, b[0].start);
    var r :| r in a && Le(r.start, b[0].start) && Le(b[0].start, r.end);
    var i :| 0 <= i < |a| && a[i] == r;
  }

  lemma {:induction false} FirstEndsLast(a: seq<Range>, b: seq<Range>)
    requires Canonical(a) && Canonical(b) && SameCoverage(a, b) && a != [] && b != []
    requires a[0].start == b[0].start
    ensures Le(b[0].end, a[0].end)
  {
    FirstRangeShows(a);
    FirstRangeShows(b);
    assert !Covers(b, a[0].end);
  }

  /** A canonical list touches its first start, and covers text from there up to its first end but not at it. */
  lemma {:induction false} FirstRangeShows(a: seq<Range>)
    requires Canonical(a)
    ensures a != [] ==> Touches(a, a[0].start) && !Covers(a, a[0].end)
    ensures forall p :: a != [] && Le(a[0].start, p) && Lt(p, a[0].end) ==> Covers(a, p)
  {
    if a != [] {
      assert a[0] in a;
      assert forall i :: 0 <= i < |a| ==> !(Le(a[i].start, a[0].end) && Lt(a[0].end, a[i].end));
    }
  }

  lemma {:induction false} TailCoverage(a: seq<Range>, b: seq<Range>)
    requires Canonical(a) && Canonical(b) && SameCoverage(a, b) && a != [] && b != [] && a[0] == b[0]
    ensures SameCoverage(a[1..], b[1..])
  {
    forall p ensures Touches(a[1..], p) <==> Touches(b[1..], p) ensures Covers(a[1..], p) <==> Covers(b[1..], p) {
      TailTouches(a, p);
      TailTouches(b, p);
    }
  }

  lemma {:induction false} TailTouches(a: seq<Range>, p: Point)
    requires Canonical(a) && a != []
    ensures Touches(a[1..], p) <==> Touches(a, p) && Lt(a[0].end, p)
    ensures Covers(a[1..], p) <==> Covers(a, p) && Lt(a[0].end, p)
  {
    assert a == [a[0]] + a[1..];
    CoverageCons(a[0], a[1..], p);
    assert forall r :: r in a[1..] ==> Lt(a[0].end, r.start);
  }

  /** The order in which ranges are collected is immaterial. */
  lemma {:induction false} MergedIgnoresOrder(a: seq<Range>, b: seq<Range>)
    requires AllProper(a) && multiset(a) == multiset(b)
    ensures Merged(a) == Merged(b)
  {
    SameElementsSameCoverage(a, b);
    MergedIsCanonicalUnion(a);
    MergedIsCanonicalUnion(b);
    CanonicalIsUnique(Merged(a), Merged(b));
  }

  lemma {:induction false} CanonicalIsProper(rs: seq<Range>)
    requires Canonical(rs)
    ensures AllProper(rs)
  {
  }

  /** Merging is idempotent: canonical lists, and only they, are its fixed points. */
  lemma {:induction false} MergedFixedPoints(rs: seq<Range>)
    requires AllProper(rs)
    ensures Merged(rs) == rs <==> Canonical(rs)
    ensures Merged(Merged(rs)) == Merged(rs)
  {
    MergedIsCanonicalUnion(rs);
    CanonicalIsProper(Merged(rs));
    MergedIsCanonicalUnion(Merged(rs));
    CanonicalIsUnique(Merged(Merged(rs)), Merged(rs));
    if Canonical(rs) {
      CanonicalIsUnique(Merged(rs), rs);
    }
  }

  /** Revealing a range keeps everything covered so far and adds exactly the range. */
  lemma {:induction false} RevealingNeverLosesCoverage(rs: seq<Range>, r: Range, p: Point)
    requires AllProper(rs) && Proper(r)
    ensures Touches(Merged(rs + [r]), p) <==> Touches(Merged(rs), p) || (Le(r.start, p) && Le(p, r.end))
    ensures Covers(Merged(rs + [r]), p) <==> Covers(Merged(rs), p) || (Le(r.start, p) && Lt(p, r.end))
  {
    assert AllProper(rs + [r]);
    MergedIsCanonicalUnion(rs);
    MergedIsCanonicalUnion(rs + [r]);
    SameElementsSameCoverage(rs + [r], [r] + rs);
    CoverageCons(r, rs, p);
  }

  // ----- the pending diff -----

  class PendingDiff {
    var revealedRanges: seq<Range>

    constructor ()
      ensures revealedRanges == []
    {
      revealedRanges := [];
    }

    /** Shows one more range; `hunks` are the ranges of the diff's own hunks. */
    method RevealRange(range: Range, hunks: seq<Range>) returns (visible: seq<Range>)
      modifies this
      ensures revealedRanges == old(revealedRanges) + [range]
      ensures visible == Merged(hunks + old(revealedRanges) + [range])
    {
      revealedRanges := revealedRanges + [range];
      visible := CollectExcerptRanges(hunks);
      assert hunks + (old(revealedRanges) + [range]) == hunks + old(revealedRanges) + [range];
    }

    method CollectExcerptRanges(hunks: seq<Range>) returns (mergedRanges: seq<Range>)
      ensures mergedRanges == Merged(hunks + revealedRanges)
    {
      mergedRanges := MergeAdjacent(Sort(hunks + revealedRanges));
    }
  }

  /** Takes the ranges that touch `first` off the front of what is left. */
  method Absorb(first: Range, ranges: seq<Range>, from: nat) returns (range: Range, next: nat)
    requires from <= |ranges|
    ensures from <= next <= |ranges|
    ensures MergeInto(first, ranges[from..]) == [range] + MergeSorted(ranges[next..])
  {
    range, next := first, from;
    while next < |ranges| && Le(ranges[next].start, range.end)
      invariant from <= next <= |ranges|
      invariant MergeInto(first, ranges[from..]) == MergeInto(range, ranges[next..])
    {
      assert ranges[next..][1..] == ranges[next + 1..];
      range := Range(range.start, Max(range.end, ranges[next].end));
      next := next + 1;
    }
    MergeIntoStops(range, ranges[next..]);
  }

  method MergeAdjacent(ranges: seq<Range>) returns (mergedRanges: seq<Range>)
    ensures mergedRanges == MergeSorted(ranges)
  {
    mergedRanges := [];
    var i := 0;
    while i < |ranges|
      invariant i <= |ranges|
      invariant MergeSorted(ranges) == mergedRanges + MergeSorted(ranges[i..])
    {
      assert ranges[i..][1..] == ranges[i + 1..];
      var range, next := Absorb(ranges[i], ranges, i + 1);
      mergedRanges := mergedRanges + [range];
      i := next;
    }
  }

  lemma {:induction false} MergeIntoStops(range: Range, rest: seq<Range>)
    requires rest == [] || !Le(rest[0].start, range.end)
    ensures MergeInto(range, rest) == [range] + MergeSorted(rest)
  {
  }
}
