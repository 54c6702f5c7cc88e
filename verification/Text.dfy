/** String operations, with the meaning they have in Python. */
module Text {
  import opened Options

  // ----- searching -----

  /** Where `pat` first occurs in `s`. */
  function Find(s: string, pat: string): (r: Option<nat>)
    ensures r.Some? ==> r.value + |pat| <= |s|
  {
    if pat <= s then Some(0)
    else if s == [] then None
    else Shift(Find(s[1..], pat), 1)
  }

  function Shift(r: Option<nat>, n: nat): Option<nat> {
    if r.None? then None else Some(n + r.value)
  }

  lemma {:induction false} FindStep(s: string, pat: string)
    requires s != [] && pat != [] && s[0] != pat[0]
    ensures Find(s, pat) == Shift(Find(s[1..], pat), 1)
  {
  }

  /** It is the first place, and none is missed. */
  lemma {:induction false} FindIsFirst(s: string, pat: string)
    ensures var r := Find(s, pat);
            && (r.Some? ==> pat <= s[r.value..])
            && forall j :: 0 <= j <= |s| && (r.Some? ==> j < r.value) ==> !(pat <= s[j..])
  {
    if !(pat <= s) && s != [] {
      FindIsFirst(s[1..], pat);
      assert forall j :: 0 < j <= |s| ==> s[j..] == s[1..][j - 1..];
    }
  }

  predicate Contains(s: string, pat: string) {
    Find(s, pat).Some?
  }

  predicate StartsWith(s: string, prefix: string) {
    prefix <= s
  }

  /** `s.split(pat)[1]`: the text between the first two occurrences of `pat`; `None` where that raises. */
  function SplitSecond(s: string, pat: string): Option<string> {
    var at := Find(s, pat);
    if at.None? then None else FirstPart(s[at.value + |pat|..], pat)
  }

  function FirstPart(s: string, pat: string): Option<string> {
    UpTo(s, Find(s, pat))
  }

  function UpTo(s: string, cut: Option<nat>): Option<string>
    requires cut.Some? ==> cut.value <= |s|
  {
    Some(if cut.Some? then s[..cut.value] else s)
  }

  // ----- white space -----

  predicate IsSpace(c: char) {
    var u := c as int;
    || 0x09 <= u <= 0x0D || 0x1C <= u <= 0x20 || u == 0x85 || u == 0xA0 || u == 0x1680
    || 0x2000 <= u <= 0x200A || u == 0x2028 || u == 0x2029 || u == 0x202F || u == 0x205F || u == 0x3000
  }

  function StripLeft(s: string): string {
    if s != [] && IsSpace(s[0]) then StripLeft(s[1..]) else s
  }

  function StripRight(s: string): string {
    if s != [] && IsSpace(s[|s| - 1]) then StripRight(s[..|s| - 1]) else s
  }

  function Strip(s: string): string {
    StripRight(StripLeft(s))
  }

  function TakeWord(s: string): string {
    if s == [] || IsSpace(s[0]) then [] else [s[0]] + TakeWord(s[1..])
  }

  /** `s.split()[0]`; `None` where that raises. */
  function FirstWord(s: string): Option<string> {
    var word := TakeWord(StripLeft(s));
    if word == [] then None else Some(word)
  }

  lemma {:induction false} TakeWordConcat(word: string, rest: string)
    requires forall i :: 0 <= i < |word| ==> !IsSpace(word[i])
    requires rest == [] || IsSpace(rest[0])
    ensures TakeWord(word + rest) == word
  {
    if word == [] {
      assert word + rest == rest;
    } else {
      assert (word + rest)[1..] == word[1..] + rest;
      TakeWordConcat(word[1..], rest);
    }
  }

  lemma {:induction false} FirstWordOf(pad: string, word: string, rest: string)
    requires pad == [] || pad == " "
    requires word != [] && forall i :: 0 <= i < |word| ==> !IsSpace(word[i])
    requires rest == [] || IsSpace(rest[0])
    ensures FirstWord(pad + word + rest) == Some(word)
  {
    var s := word + rest;
    assert s[0] == word[0];
    assert StripLeft(s) == s;
    if pad == [] {
      assert pad + word + rest == s;
    } else {
      assert pad + word + rest == [' '] + s;
      assert ([' '] + s)[1..] == s;
    }
    TakeWordConcat(word, rest);
  }

  function StripRightChar(s: string, c: char): string {
    if s != [] && s[|s| - 1] == c then StripRightChar(s[..|s| - 1], c) else s
  }

  // ----- lines -----

  function Join(lines: seq<string>): string {
    if lines == [] then []
    else if |lines| == 1 then lines[0]
    else lines[0] + ['\n'] + Join(lines[1..])
  }

  /** The length of the first line. */
  function LineEnd(s: string): (n: nat)
    ensures n <= |s| && (n < |s| ==> s[n] == '\n')
  {
    if s == [] || s[0] == '\n' then 0 else 1 + LineEnd(s[1..])
  }

  function SplitLines(s: string): seq<string>
    decreases |s|
  {
    var n := LineEnd(s);
    if n == |s| then [s] else [s[..n]] + SplitLines(s[n + 1..])
  }

  predicate OneLine(s: string) {
    forall i :: 0 <= i < |s| ==> s[i] != '\n'
  }

  lemma {:induction false} LineEndOf(line: string, rest: string)
    requires OneLine(line) && (rest == [] || rest[0] == '\n')
    ensures LineEnd(line + rest) == |line|
  {
    if line == [] {
      assert line + rest == rest;
    } else {
      assert (line + rest)[1..] == line[1..] + rest;
      LineEndOf(line[1..], rest);
    }
  }

  /** Splitting undoes joining. */
  lemma {:induction false} SplitJoin(lines: seq<string>)
    requires lines != [] && forall i :: 0 <= i < |lines| ==> OneLine(lines[i])
    ensures SplitLines(Join(lines)) == lines
  {
    if |lines| == 1 {
      LineEndOf(lines[0], []);
      assert lines[0] + [] == lines[0];
    } else {
      var rest := Join(lines[1..]);
      LineEndOf(lines[0], ['\n'] + rest);
      assert lines[0] + ['\n'] + rest == lines[0] + (['\n'] + rest);
      SplitJoin(lines[1..]);
      assert Join(lines)[|lines[0]| + 1..] == rest;
    }
  }

  // ----- decimal numbers -----

  predicate IsDigit(c: char) { '0' <= c <= '9' }

  function DigitChar(d: nat): char
    requires d < 10
  {
    ('0' as int + d) as char
  }

  function Decimal(n: nat): (s: string)
    ensures s != []
  {
    if n < 10 then [DigitChar(n)] else Decimal(n / 10) + [DigitChar(n % 10)]
  }

  /** A nonempty run of digits. */
  function ParseDigits(s: string): Option<nat> {
    if s == [] || !IsDigit(s[|s| - 1]) then None
    else
      var d := s[|s| - 1] as int - '0' as int;
      if |s| == 1 then Some(d)
      else match ParseDigits(s[..|s| - 1])
        case None => None
        case Some(n) => Some(10 * n + d)
  }

  /** `int(s)` for ASCII digits and an optional sign; `None` where that raises. */
  function ParseInt(s: string): Option<int> {
    if s != [] && (s[0] == '-' || s[0] == '+') then
      var digits := ParseDigits(s[1..]);
      if digits.None? then None else Some((if s[0] == '-' then -1 else 1) * digits.value)
    else
      var digits := ParseDigits(s);
      if digits.None? then None else Some(digits.value)
  }

  lemma {:induction false} DecimalDigits(n: nat)
    ensures forall i :: 0 <= i < |Decimal(n)| ==> IsDigit(Decimal(n)[i])
  {
    if n >= 10 {
      DecimalDigits(n / 10);
    }
  }

  lemma {:induction false} ParseDigitsDecimal(n: nat)
    ensures ParseDigits(Decimal(n)) == Some(n)
  {
    if n >= 10 {
      ParseDigitsDecimal(n / 10);
      assert Decimal(n)[..|Decimal(n)| - 1] == Decimal(n / 10);
    }
  }

  /** Reading a printed number gives the number back. */
  lemma {:induction false} ParseIntDecimal(n: nat)
    ensures ParseInt(Decimal(n)) == Some(n)
  {
    ParseDigitsDecimal(n);
    DecimalDigits(n);
    assert IsDigit(Decimal(n)[0]);
  }
}
