/** UTF-8 byte sequences (section 4 of RFC 3629) and Rust's test for a character boundary in them. */
module Utf8 {
  type Byte = bv8

  const LF: Byte := 10
  const CR: Byte := 13
  const DASH: Byte := 45

  predicate IsTail(b: Byte) { 0x80 <= b <= 0xBF }

  /** How many bytes the first character takes; 0 if no character starts here. */
  function CharLen(bs: seq<Byte>): (n: nat)
    ensures n <= 4 && n <= |bs|
  {
    if |bs| >= 1 && bs[0] <= 0x7F then 1
    else if |bs| >= 2 && 0xC2 <= bs[0] <= 0xDF && IsTail(bs[1]) then 2
    else if |bs| >= 3 && ThreeByteStart(bs[0], bs[1]) && IsTail(bs[2]) then 3
    else if |bs| >= 4 && FourByteStart(bs[0], bs[1]) && IsTail(bs[2]) && IsTail(bs[3]) then 4
    else 0
  }

  predicate ThreeByteStart(a: Byte, b: Byte) {
    || (a == 0xE0 && 0xA0 <= b <= 0xBF)
    || (0xE1 <= a <= 0xEC && IsTail(b))
    || (a == 0xED && 0x80 <= b <= 0x9F)
    || (0xEE <= a <= 0xEF && IsTail(b))
  }

  predicate FourByteStart(a: Byte, b: Byte) {
    || (a == 0xF0 && 0x90 <= b <= 0xBF)
    || (0xF1 <= a <= 0xF3 && IsTail(b))
    || (a == 0xF4 && 0x80 <= b <= 0x8F)
  }

  predicate Valid(bs: seq<Byte>) {
    bs == [] || (CharLen(bs) > 0 && Valid(bs[CharLen(bs)..]))
  }

  predicate IsCharBoundary(bs: seq<Byte>, i: nat)
    requires i <= |bs|
  {
    i == 0 || i == |bs| || !IsTail(bs[i])
  }

  lemma {:induction false} CharLenLocal(bs: seq<Byte>, cs: seq<Byte>)
    requires 0 < CharLen(bs) <= |cs| && bs[..CharLen(bs)] == cs[..CharLen(bs)]
    ensures CharLen(cs) == CharLen(bs)
  {
    assert forall k :: 0 <= k < CharLen(bs) ==> bs[k] == bs[..CharLen(bs)][k] == cs[k];
  }

  lemma {:induction false} NoShortChar(bs: seq<Byte>, i: nat)
    requires i < CharLen(bs)
    ensures CharLen(bs[..i]) == 0
    ensures 0 < i ==> IsTail(bs[i])
  {
  }

  /** In valid text, a boundary is exactly where the text can be cut into two valid pieces. */
  lemma {:induction false} BoundaryCutsValidly(bs: seq<Byte>, i: nat)
    requires Valid(bs) && i <= |bs|
    ensures IsCharBoundary(bs, i) <==> Valid(bs[..i])
    ensures IsCharBoundary(bs, i) <==> Valid(bs[i..])
    decreases |bs|
  {
    if bs != [] && i > 0 {
      var n := CharLen(bs);
      if i < n {
        NoShortChar(bs, i);
        assert i < |bs| && CharLen(bs[i..]) == 0;
      } else {
        BoundaryCutsValidly(bs[n..], i - n);
        CharLenLocal(bs, bs[..i]);
        assert bs[..i][n..] == bs[n..][..i - n];
        assert bs[i..] == bs[n..][i - n..];
      }
    } else {
      assert bs[i..] == bs;
    }
  }

  /** A boundary is never more than three bytes back. */
  lemma {:induction false} BoundaryIsNear(bs: seq<Byte>, i: nat) returns (j: nat)
    requires Valid(bs) && i <= |bs|
    ensures j <= i <= j + 3 && IsCharBoundary(bs, j)
    decreases |bs|
  {
    if bs == [] || i < CharLen(bs) {
      j := 0;
    } else {
      var n := CharLen(bs);
      j := BoundaryIsNear(bs[n..], i - n);
      j := j + n;
    }
  }

  /** Text follows an ASCII byte only at a boundary. */
  lemma {:induction false} AfterAsciiIsBoundary(bs: seq<Byte>, i: nat)
    requires Valid(bs) && 0 < i <= |bs| && bs[i - 1] <= 0x7F
    ensures IsCharBoundary(bs, i)
    decreases |bs|
  {
    var n := CharLen(bs);
    if i < n {
      NoShortChar(bs, i - 1);
    } else if i > n {
      AfterAsciiIsBoundary(bs[n..], i - n);
    } else if i < |bs| {
      assert CharLen(bs[n..]) > 0;
    }
  }

  lemma {:induction false} ValidConcat(a: seq<Byte>, b: seq<Byte>)
    requires Valid(a) && Valid(b)
    ensures Valid(a + b)
    decreases |a|
  {
    if a == [] {
      assert a + b == b;
    } else {
      var n := CharLen(a);
      CharLenLocal(a, a + b);
      assert (a + b)[n..] == a[n..] + b;
      ValidConcat(a[n..], b);
    }
  }
}
