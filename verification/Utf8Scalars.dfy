/** UTF-8 as an encoding of code points (section 3 of RFC 3629): which byte sequences are characters. */
module Utf8Scalars {
  import opened Utf8

  /** A code point that is no surrogate. */
  predicate Scalar(c: int) {
    0 <= c <= 0x10FFFF && !(0xD800 <= c <= 0xDFFF)
  }

  /** The bytes of a code point, as numbers. */
  function Encoding(c: int): seq<int> {
    if c < 0x80 then [c]
    else if c < 0x800 then [0xC0 + c / 64, 0x80 + c % 64]
    else if c < 0x10000 then [0xE0 + c / 4096, 0x80 + c / 64 % 64, 0x80 + c % 64]
    else [0xF0 + c / 262144, 0x80 + c / 4096 % 64, 0x80 + c / 64 % 64, 0x80 + c % 64]
  }

  /** `bs` starts with the encoding of `c`. */
  predicate StartsWith(bs: seq<Byte>, c: int) {
    |Encoding(c)| <= |bs| && forall i :: 0 <= i < |Encoding(c)| ==> bs[i] as int == Encoding(c)[i]
  }

  /** The code point of the first character. */
  function CodePoint(bs: seq<Byte>): int
    requires CharLen(bs) > 0
  {
    match CharLen(bs)
    case 1 => bs[0] as int
    case 2 => (bs[0] as int - 0xC0) * 64 + (bs[1] as int - 0x80)
    case 3 => (bs[0] as int - 0xE0) * 4096 + (bs[1] as int - 0x80) * 64 + (bs[2] as int - 0x80)
    case _ =>
      (bs[0] as int - 0xF0) * 262144 + (bs[1] as int - 0x80) * 4096 + (bs[2] as int - 0x80) * 64 + (bs[3] as int - 0x80)
  }

  lemma {:induction false} Digits2(x: int, y: int)
    requires 0 <= y < 64
    ensures var c := x * 64 + y; c / 64 == x && c % 64 == y
  {
  }

  lemma {:induction false} Digits3(x: int, y: int, z: int)
    requires 0 <= y < 64 && 0 <= z < 64
    ensures var c := x * 4096 + y * 64 + z; c / 4096 == x && c / 64 % 64 == y && c % 64 == z
  {
    Digits2(x * 64 + y, z);
    Digits2(x, y);
  }

  lemma {:induction false} Digits4(w: int, x: int, y: int, z: int)
    requires 0 <= x < 64 && 0 <= y < 64 && 0 <= z < 64
    ensures var c := w * 262144 + x * 4096 + y * 64 + z;
            c / 262144 == w && c / 4096 % 64 == x && c / 64 % 64 == y && c % 64 == z
  {
    Digits3(w * 64 + x, y, z);
    Digits2(w, x);
  }

  /** The bytes in numbers, by the length of the character. */
  lemma {:induction false} CharInNumbers(bs: seq<Byte>)
    ensures CharLen(bs) == 2 ==> 0xC2 <= bs[0] as int <= 0xDF && 0x80 <= bs[1] as int < 0xC0
    ensures CharLen(bs) == 3 ==>
              && 0xE0 <= bs[0] as int <= 0xEF && 0x80 <= bs[1] as int < 0xC0 && 0x80 <= bs[2] as int < 0xC0
              && (bs[0] as int == 0xE0 ==> 0xA0 <= bs[1] as int) && (bs[0] as int == 0xED ==> bs[1] as int < 0xA0)
    ensures CharLen(bs) == 4 ==>
              && 0xF0 <= bs[0] as int <= 0xF4 && 0x80 <= bs[1] as int < 0xC0
              && 0x80 <= bs[2] as int < 0xC0 && 0x80 <= bs[3] as int < 0xC0
              && (bs[0] as int == 0xF0 ==> 0x90 <= bs[1] as int) && (bs[0] as int == 0xF4 ==> bs[1] as int < 0x90)
  {
  }

  // The code points of the three longer forms, in numbers.

  lemma {:induction false} Scalar2(a: int, b: int)
    requires 0xC2 <= a <= 0xDF && 0x80 <= b < 0xC0
    ensures var c := (a - 0xC0) * 64 + (b - 0x80); Scalar(c) && Encoding(c) == [a, b]
  {
    Digits2(a - 0xC0, b - 0x80);
  }

  lemma {:induction false} Scalar3(a: int, b: int, d: int)
    requires 0xE0 <= a <= 0xEF && 0x80 <= b < 0xC0 && 0x80 <= d < 0xC0
    requires (a == 0xE0 ==> 0xA0 <= b) && (a == 0xED ==> b < 0xA0)
    ensures var c := (a - 0xE0) * 4096 + (b - 0x80) * 64 + (d - 0x80); Scalar(c) && Encoding(c) == [a, b, d]
  {
    Digits3(a - 0xE0, b - 0x80, d - 0x80);
  }

  lemma {:induction false} Scalar4(a: int, b: int, d: int, e: int)
    requires 0xF0 <= a <= 0xF4 && 0x80 <= b < 0xC0 && 0x80 <= d < 0xC0 && 0x80 <= e < 0xC0
    requires (a == 0xF0 ==> 0x90 <= b) && (a == 0xF4 ==> b < 0x90)
    ensures var c := (a - 0xF0) * 262144 + (b - 0x80) * 4096 + (d - 0x80) * 64 + (e - 0x80);
            Scalar(c) && Encoding(c) == [a, b, d, e]
  {
    Digits4(a - 0xF0, b - 0x80, d - 0x80, e - 0x80);
  }

  lemma {:induction false} CharacterOf2(bs: seq<Byte>)
    requires CharLen(bs) == 2
    ensures Scalar(CodePoint(bs)) && Encoding(CodePoint(bs)) == [bs[0] as int, bs[1] as int]
  {
    CharInNumbers(bs);
    Scalar2(bs[0] as int, bs[1] as int);
  }

  lemma {:induction false} CharacterOf3(bs: seq<Byte>)
    requires CharLen(bs) == 3
    ensures Scalar(CodePoint(bs)) && Encoding(CodePoint(bs)) == [bs[0] as int, bs[1] as int, bs[2] as int]
  {
    CharInNumbers(bs);
    Scalar3(bs[0] as int, bs[1] as int, bs[2] as int);
  }

  lemma {:induction false} CharacterOf4(bs: seq<Byte>)
    requires CharLen(bs) == 4
    ensures Scalar(CodePoint(bs))
    ensures Encoding(CodePoint(bs)) == [bs[0] as int, bs[1] as int, bs[2] as int, bs[3] as int]
  {
    CharInNumbers(bs);
    Scalar4(bs[0] as int, bs[1] as int, bs[2] as int, bs[3] as int);
  }

  /** Every character is the encoding of a code point that is no surrogate. */
  lemma {:induction false} CharacterIsScalar(bs: seq<Byte>)
    requires CharLen(bs) > 0
    ensures Scalar(CodePoint(bs)) && StartsWith(bs, CodePoint(bs)) && |Encoding(CodePoint(bs))| == CharLen(bs)
  {
    if CharLen(bs) == 2 {
      CharacterOf2(bs);
    } else if CharLen(bs) == 3 {
      CharacterOf3(bs);
    } else if CharLen(bs) == 4 {
      CharacterOf4(bs);
    }
  }

  /** Bytes in those ranges are a character. */
  lemma {:induction false} NumbersAreChar(bs: seq<Byte>)
    ensures |bs| >= 1 && bs[0] as int < 0x80 ==> CharLen(bs) == 1
    ensures |bs| >= 2 && 0xC2 <= bs[0] as int <= 0xDF && 0x80 <= bs[1] as int < 0xC0 ==> CharLen(bs) == 2
    ensures && |bs| >= 3 && 0xE0 <= bs[0] as int <= 0xEF && 0x80 <= bs[1] as int < 0xC0 && 0x80 <= bs[2] as int < 0xC0
            && (bs[0] as int == 0xE0 ==> 0xA0 <= bs[1] as int) && (bs[0] as int == 0xED ==> bs[1] as int < 0xA0)
            ==> CharLen(bs) == 3
    ensures && |bs| >= 4 && 0xF0 <= bs[0] as int <= 0xF4 && 0x80 <= bs[1] as int < 0xC0
            && 0x80 <= bs[2] as int < 0xC0 && 0x80 <= bs[3] as int < 0xC0
            && (bs[0] as int == 0xF0 ==> 0x90 <= bs[1] as int) && (bs[0] as int == 0xF4 ==> bs[1] as int < 0x90)
            ==> CharLen(bs) == 4
  {
  }

  lemma {:induction false} EncodingOf2(c: int)
    requires 0x80 <= c < 0x800
    ensures var e := Encoding(c);
            |e| == 2 && 0xC2 <= e[0] <= 0xDF && 0x80 <= e[1] < 0xC0 && c == (e[0] - 0xC0) * 64 + (e[1] - 0x80)
  {
  }

  lemma {:induction false} EncodingOf3(c: int)
    requires 0x800 <= c < 0x10000 && Scalar(c)
    ensures var e := Encoding(c);
            && |e| == 3 && 0xE0 <= e[0] <= 0xEF && 0x80 <= e[1] < 0xC0 && 0x80 <= e[2] < 0xC0
            && (e[0] == 0xE0 ==> 0xA0 <= e[1]) && (e[0] == 0xED ==> e[1] < 0xA0)
            && c == (e[0] - 0xE0) * 4096 + (e[1] - 0x80) * 64 + (e[2] - 0x80)
  {
    Quotients(c);
  }

  lemma {:induction false} EncodingOf4(c: int)
    requires 0x10000 <= c && Scalar(c)
    ensures var e := Encoding(c);
            && |e| == 4 && 0xF0 <= e[0] <= 0xF4 && 0x80 <= e[1] < 0xC0 && 0x80 <= e[2] < 0xC0 && 0x80 <= e[3] < 0xC0
            && (e[0] == 0xF0 ==> 0x90 <= e[1]) && (e[0] == 0xF4 ==> e[1] < 0x90)
            && c == (e[0] - 0xF0) * 262144 + (e[1] - 0x80) * 4096 + (e[2] - 0x80) * 64 + (e[3] - 0x80)
  {
    Quotients(c);
    assert c / 4096 / 64 == c / 262144;
  }

  lemma {:induction false} Quotients(c: int)
    ensures c == c / 4096 * 4096 + c / 64 % 64 * 64 + c % 64
    ensures c / 4096 == c / 4096 / 64 * 64 + c / 4096 % 64
  {
    assert c / 64 / 64 == c / 4096;
  }

  /** The encoding of every such code point is a character. */
  lemma {:induction false} ScalarIsCharacter(bs: seq<Byte>, c: int)
    requires Scalar(c) && StartsWith(bs, c)
    ensures CharLen(bs) == |Encoding(c)| && CodePoint(bs) == c
  {
    if 0x80 <= c < 0x800 {
      EncodingOf2(c);
    } else if 0x800 <= c < 0x10000 {
      EncodingOf3(c);
    } else if 0x10000 <= c {
      EncodingOf4(c);
    }
    CharOfNumbers(bs, Encoding(c), c);
  }

  lemma {:induction false} CharOfNumbers(bs: seq<Byte>, e: seq<int>, c: int)
    requires 1 <= |e| <= 4 && |e| <= |bs| && forall i :: 0 <= i < |e| ==> bs[i] as int == e[i]
    requires forall i :: 1 <= i < |e| ==> 0x80 <= e[i] < 0xC0
    requires |e| == 1 ==> e[0] == c < 0x80
    requires |e| == 2 ==> 0xC2 <= e[0] <= 0xDF && c == (e[0] - 0xC0) * 64 + (e[1] - 0x80)
    requires |e| == 3 ==>
               && 0xE0 <= e[0] <= 0xEF && (e[0] == 0xE0 ==> 0xA0 <= e[1]) && (e[0] == 0xED ==> e[1] < 0xA0)
               && c == (e[0] - 0xE0) * 4096 + (e[1] - 0x80) * 64 + (e[2] - 0x80)
    requires |e| == 4 ==>
               && 0xF0 <= e[0] <= 0xF4 && (e[0] == 0xF0 ==> 0x90 <= e[1]) && (e[0] == 0xF4 ==> e[1] < 0x90)
               && c == (e[0] - 0xF0) * 262144 + (e[1] - 0x80) * 4096 + (e[2] - 0x80) * 64 + (e[3] - 0x80)
    ensures CharLen(bs) == |e| && CodePoint(bs) == c
  {
    NumbersAreChar(bs);
    assert bs[0] as int == e[0] && (|e| > 1 ==> bs[1] as int == e[1]);
    assert (|e| > 2 ==> bs[2] as int == e[2]) && (|e| > 3 ==> bs[3] as int == e[3]);
  }
}
