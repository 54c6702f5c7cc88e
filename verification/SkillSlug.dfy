/**
 Skill names (crates/agent_skills/agent_skills.rs): the slugifier, as its documented sequence of passes
 and as the single loop that implements them, and the name validator.
 */
module SkillSlug {
  import opened Options
  import Text

  const MAX_SKILL_NAME_LEN: nat := 64

  predicate IsUpper(c: char) { 'A' <= c <= 'Z' }
  predicate IsLower(c: char) { 'a' <= c <= 'z' }
  predicate IsAlphanumeric(c: char) { IsUpper(c) || IsLower(c) || Text.IsDigit(c) }

  function ToLower(c: char): char {
    if IsUpper(c) then (c as int + 32) as char else c
  }

  // ----- the documented passes -----

  /** Pass 1: every `&` becomes the word `and` between separators. */
  function ReplaceAmpersands(s: string): string {
    if s == [] then []
    else ReplaceAmpersands(s[..|s| - 1]) + (if s[|s| - 1] == '&' then "-and-" else [s[|s| - 1]])
  }

  /** Pass 2. */
  function Lowercase(s: string): string {
    seq(|s|, i requires 0 <= i < |s| => ToLower(s[i]))
  }

  /** Pass 3. */
  function SpacesToDashes(s: string): string {
    seq(|s|, i requires 0 <= i < |s| => if s[i] == ' ' then '-' else s[i])
  }

  /** Pass 4: everything but lowercase letters, digits and dashes is dropped. */
  function DropOthers(s: string): string {
    if s == [] then []
    else DropOthers(s[..|s| - 1]) + (if NameChar(s[|s| - 1]) then [s[|s| - 1]] else [])
  }

  predicate NameChar(c: char) { IsLower(c) || Text.IsDigit(c) || c == '-' }

  predicate EndsWithDash(s: string) { s != [] && s[|s| - 1] == '-' }

  /** Pass 5: a dash right after a dash is dropped. */
  function CollapseDashes(s: string): string {
    if s == [] then []
    else
      var r := CollapseDashes(s[..|s| - 1]);
      if s[|s| - 1] == '-' && EndsWithDash(r) then r else r + [s[|s| - 1]]
  }

  /** Pass 6, at the front and at the back. */
  function TrimStart(s: string): string {
    if s != [] && s[0] == '-' then TrimStart(s[1..]) else s
  }

  function TrimEnd(s: string): string {
    if EndsWithDash(s) then TrimEnd(s[..|s| - 1]) else s
  }

  /** Pass 7: cut to the maximum length, then trim the cut. */
  function Truncate(s: string): string {
    if |s| <= MAX_SKILL_NAME_LEN then s else TrimEnd(s[..MAX_SKILL_NAME_LEN])
  }

  function Cleaned(s: string): string {
    DropOthers(SpacesToDashes(Lowercase(ReplaceAmpersands(s))))
  }

  function Slug(s: string): Option<string> {
    var slug := Truncate(TrimEnd(TrimStart(CollapseDashes(Cleaned(s)))));
    if slug == [] then None else Some(slug)
  }

  // ----- the loop -----

  /** What the loop makes of one character. */
  function MapChar(c: char): Option<char> {
    if IsAlphanumeric(c) then Some(ToLower(c))
    else if c == ' ' || c == '-' then Some('-')
    else None
  }

  function Classified(s: string): string {
    DropOthers(SpacesToDashes(Lowercase(s)))
  }

  lemma {:induction false} ClassifiedAppend(s: string, c: char)
    ensures Classified(s + [c]) == Classified(s) + (if MapChar(c).Some? then [MapChar(c).value] else [])
  {
    var d := if ToLower(c) == ' ' then '-' else ToLower(c);
    assert Lowercase(s + [c]) == Lowercase(s) + [ToLower(c)];
    assert SpacesToDashes(Lowercase(s + [c])) == SpacesToDashes(Lowercase(s)) + [d];
    assert (SpacesToDashes(Lowercase(s)) + [d])[..|s|] == SpacesToDashes(Lowercase(s));
  }

  lemma {:induction false} TrimStartAppend(s: string, c: char)
    ensures TrimStart(s + [c]) == if TrimStart(s) == [] && c == '-' then [] else TrimStart(s) + [c]
  {
    if s == [] {
      assert s + [c] == [c] && [c][1..] == [];
    } else if s[0] == '-' {
      TrimStartAppend(s[1..], c);
      assert (s + [c])[1..] == s[1..] + [c];
    }
  }

  /** No two dashes in a row. */
  predicate NoDoubleDash(s: string) {
    forall i :: 0 <= i < |s| - 1 ==> !(s[i] == '-' && s[i + 1] == '-')
  }

  lemma {:induction false} TrimStartSuffix(s: string)
    ensures |TrimStart(s)| <= |s| && TrimStart(s) == s[|s| - |TrimStart(s)|..]
    ensures TrimStart(s) != [] ==> TrimStart(s)[0] != '-'
    ensures TrimStart(s) == [] <==> forall i :: 0 <= i < |s| ==> s[i] == '-'
  {
    if s != [] && s[0] == '-' {
      TrimStartSuffix(s[1..]);
      assert s == ['-'] + s[1..];
    }
  }

  lemma {:induction false} TrimEndPrefix(s: string)
    ensures |TrimEnd(s)| <= |s| && TrimEnd(s) == s[..|TrimEnd(s)|]
    ensures !EndsWithDash(TrimEnd(s))
    ensures TrimEnd(s) == [] <==> forall i :: 0 <= i < |s| ==> s[i] == '-'
  {
    if EndsWithDash(s) {
      TrimEndPrefix(s[..|s| - 1]);
    } else if s != [] {
      assert s[|s| - 1] != '-';
    }
  }

  lemma {:induction false} CollapseFacts(s: string)
    ensures NoDoubleDash(CollapseDashes(s))
    ensures forall c :: c in CollapseDashes(s) <==> c in s
  {
    if s != [] {
      CollapseFacts(s[..|s| - 1]);
      assert s == s[..|s| - 1] + [s[|s| - 1]];
    }
  }

  /** A dash is pushed only after a character that is not one. */
  function Push(slug: string, c: char): string {
    if c == '-' && (slug == [] || EndsWithDash(slug)) then slug else slug + [c]
  }

  lemma {:induction false} TrimStartEnd(r: string)
    ensures TrimStart(r) != [] ==> (EndsWithDash(TrimStart(r)) <==> EndsWithDash(r))
    ensures TrimStart(r) == [] ==> r == [] || EndsWithDash(r)
  {
    TrimStartSuffix(r);
    if TrimStart(r) != [] {
      assert TrimStart(r)[|TrimStart(r)| - 1] == r[|r| - 1];
    }
  }

  lemma {:induction false} TrimAfterPush(r: string, c: char)
    ensures TrimStart(if c == '-' && EndsWithDash(r) then r else r + [c]) == Push(TrimStart(r), c)
  {
    TrimStartAppend(r, c);
    TrimStartEnd(r);
  }

  /** One iteration of the loop carries the trimmed, collapsed prefix to the next character. */
  lemma {:induction false} LoopStep(m: string, c: char)
    ensures TrimStart(CollapseDashes(m + [c])) == Push(TrimStart(CollapseDashes(m)), c)
  {
    assert (m + [c])[..|m|] == m;
    TrimAfterPush(CollapseDashes(m), c);
  }

  /** The slugifier as written: one pass with a flag, then pops; it computes the documented pipeline on every string. */
  method SlugifySkillName(input: string) returns (result: Option<string>)
    ensures result == Slug(input)
  {
    var replaced := ReplaceAmpersands(input);
    var slug: string := [];
    var lastWasDash := true;
    for i := 0 to |replaced|
      invariant slug == TrimStart(CollapseDashes(Classified(replaced[..i])))
      invariant lastWasDash <==> slug == [] || EndsWithDash(slug)
    {
      var ch := replaced[i];
      assert replaced[..i + 1] == replaced[..i] + [ch];
      ClassifiedAppend(replaced[..i], ch);
      var mapped := MapChar(ch);
      if mapped.None? {
        assert Classified(replaced[..i + 1]) == Classified(replaced[..i]);
        continue;
      }
      var c := mapped.value;
      LoopStep(Classified(replaced[..i]), c);
      if c == '-' {
        if lastWasDash {
          continue;
        }
        lastWasDash := true;
      } else {
        lastWasDash := false;
      }
      slug := slug + [c];
    }
    assert replaced[..|replaced|] == replaced;
    SinglePop(Classified(replaced));
    if EndsWithDash(slug) {
      slug := slug[..|slug| - 1];
    }
    if |slug| > MAX_SKILL_NAME_LEN {
      ghost var cut := slug[..MAX_SKILL_NAME_LEN];
      slug := slug[..MAX_SKILL_NAME_LEN];
      while EndsWithDash(slug)
        invariant TrimEnd(slug) == TrimEnd(cut)
        decreases |slug|
      {
        slug := slug[..|slug| - 1];
      }
    }
    result := if slug == [] then None else Some(slug);
  }

  /** After collapsing, popping one dash is trimming them all. */
  lemma {:induction false} SinglePop(m: string)
    ensures var s := TrimStart(CollapseDashes(m));
            TrimEnd(s) == if EndsWithDash(s) then s[..|s| - 1] else s
  {
    var r := CollapseDashes(m);
    var s := TrimStart(r);
    CollapseFacts(m);
    TrimStartSuffix(r);
    if EndsWithDash(s) && |s| > 1 {
      assert s[|s| - 2] == r[|r| - 2] && s[|s| - 1] == r[|r| - 1];
      assert !EndsWithDash(s[..|s| - 1]);
    }
  }

  // ----- the validator -----

  datatype NameError = Empty | TooLong | EdgeHyphen | InvalidCharacter

  function ValidateName(name: string): Option<NameError> {
    if name == [] then Some(Empty)
    else if |name| > MAX_SKILL_NAME_LEN then Some(TooLong)
    else if name[0] == '-' || EndsWithDash(name) then Some(EdgeHyphen)
    else if !(forall i :: 0 <= i < |name| ==> NameChar(name[i])) then Some(InvalidCharacter)
    else None
  }

  lemma {:induction false} DropOthersFacts(s: string)
    ensures forall c :: c in DropOthers(s) <==> c in s && NameChar(c)
  {
    if s != [] {
      DropOthersFacts(s[..|s| - 1]);
      assert s == s[..|s| - 1] + [s[|s| - 1]];
    }
  }

  /** What trimming both ends leaves is a stretch of the string without dashes at its ends. */
  lemma {:induction false} TrimmedIsStretch(r: string) returns (i: nat, j: nat)
    ensures i <= j <= |r| && TrimEnd(TrimStart(r)) == r[i..j]
    ensures i < j ==> r[i] != '-' && r[j - 1] != '-'
    ensures i == j <==> forall k :: 0 <= k < |r| ==> r[k] == '-'
  {
    var a := TrimStart(r);
    var b := TrimEnd(a);
    TrimStartSuffix(r);
    TrimEndPrefix(a);
    i, j := |r| - |a|, |r| - |a| + |b|;
    assert a == r[i..] && b == a[..|b|];
    assert b == r[i..j];
  }

  lemma {:induction false} TruncatedFacts(b: string)
    requires NoDoubleDash(b) && (b != [] ==> b[0] != '-' && !EndsWithDash(b))
    ensures var t := Truncate(b);
            && |t| <= |b| && t == b[..|t|] && |t| <= MAX_SKILL_NAME_LEN
            && (t == [] <==> b == []) && (t != [] ==> t[0] != '-' && !EndsWithDash(t))
  {
    if |b| > MAX_SKILL_NAME_LEN {
      var cut := b[..MAX_SKILL_NAME_LEN];
      TrimEndPrefix(cut);
      assert cut[0] != '-';
    }
  }

  lemma {:induction false} TrimmedFacts(r: string)
    requires NoDoubleDash(r)
    ensures var t := Truncate(TrimEnd(TrimStart(r)));
            && NoDoubleDash(t) && |t| <= MAX_SKILL_NAME_LEN
            && (forall c :: c in t ==> c in r)
            && (t != [] ==> t[0] != '-' && !EndsWithDash(t))
            && (t == [] <==> forall i :: 0 <= i < |r| ==> r[i] == '-')
  {
    var i, j := TrimmedIsStretch(r);
    var b := r[i..j];
    assert forall k :: 0 <= k < |b| ==> b[k] == r[i + k];
    TruncatedFacts(b);
  }

  /** Every slug passes the validator, and has no double dash. */
  lemma {:induction false} SlugIsValid(s: string)
    requires Slug(s).Some?
    ensures ValidateName(Slug(s).value) == None && NoDoubleDash(Slug(s).value)
  {
    var m := Cleaned(s);
    CollapseFacts(m);
    TrimmedFacts(CollapseDashes(m));
    DropOthersFacts(SpacesToDashes(Lowercase(ReplaceAmpersands(s))));
    var t := Slug(s).value;
    forall i | 0 <= i < |t| ensures NameChar(t[i]) {
      assert t[i] in t && t[i] in CollapseDashes(m) && t[i] in m;
    }
  }

  ghost predicate AllNameChars(s: string) {
    forall i :: 0 <= i < |s| ==> NameChar(s[i])
  }

  lemma {:induction false} ReplaceKeepsNames(s: string)
    requires AllNameChars(s)
    ensures ReplaceAmpersands(s) == s
  {
    if s != [] {
      ReplaceKeepsNames(s[..|s| - 1]);
      assert s == s[..|s| - 1] + [s[|s| - 1]];
    }
  }

  lemma {:induction false} DropKeepsNames(s: string)
    requires AllNameChars(s)
    ensures DropOthers(s) == s
  {
    if s != [] {
      DropKeepsNames(s[..|s| - 1]);
      assert s == s[..|s| - 1] + [s[|s| - 1]];
    }
  }

  lemma {:induction false} CollapseKeepsSingles(s: string)
    requires NoDoubleDash(s)
    ensures CollapseDashes(s) == s
  {
    if s != [] {
      CollapseKeepsSingles(s[..|s| - 1]);
      assert |s| > 1 ==> !(s[|s| - 2] == '-' && s[|s| - 1] == '-');
      assert s == s[..|s| - 1] + [s[|s| - 1]];
    }
  }

  lemma {:induction false} PassesKeepNames(s: string)
    requires AllNameChars(s)
    ensures Cleaned(s) == s
  {
    ReplaceKeepsNames(s);
    assert Lowercase(s) == s && SpacesToDashes(s) == s;
    DropKeepsNames(s);
  }

  /** The names slugifying leaves alone are exactly the valid names without a double dash. */
  lemma {:induction false} FixedPointsAreCleanNames(s: string)
    ensures Slug(s) == Some(s) <==> ValidateName(s) == None && NoDoubleDash(s)
  {
    if Slug(s) == Some(s) {
      SlugIsValid(s);
    }
    if ValidateName(s) == None && NoDoubleDash(s) {
      PassesKeepNames(s);
      CollapseKeepsSingles(s);
    }
  }

  /** Slugifying a slug changes nothing. */
  lemma {:induction false} SlugIsIdempotent(s: string)
    requires Slug(s).Some?
    ensures Slug(Slug(s).value) == Slug(s)
  {
    SlugIsValid(s);
    FixedPointsAreCleanNames(Slug(s).value);
  }

  predicate Sluggable(c: char) { IsAlphanumeric(c) || c == '&' }

  ghost predicate NoneSatisfy(s: string, p: char -> bool) {
    forall i :: 0 <= i < |s| ==> !p(s[i])
  }

  lemma {:induction false} NoneAppend(a: string, b: string, p: char -> bool)
    ensures NoneSatisfy(a + b, p) <==> NoneSatisfy(a, p) && NoneSatisfy(b, p)
  {
    assert forall i :: 0 <= i < |a| ==> (a + b)[i] == a[i];
    assert forall i :: 0 <= i < |b| ==> (a + b)[|a| + i] == b[i];
  }

  lemma {:induction false} AmpersandFacts(s: string)
    ensures NoneSatisfy(ReplaceAmpersands(s), IsAlphanumeric) <==> NoneSatisfy(s, Sluggable)
  {
    if s != [] {
      var init, last := s[..|s| - 1], s[|s| - 1];
      AmpersandFacts(init);
      assert s == init + [last];
      var w := if last == '&' then "-and-" else [last];
      NoneAppend(ReplaceAmpersands(init), w, IsAlphanumeric);
      NoneAppend(init, [last], Sluggable);
      assert IsAlphanumeric("-and-"[1]);
    }
  }

  predicate NotDash(c: char) { c != '-' }

  lemma {:induction false} ClassifiedFacts(p: string)
    ensures NoneSatisfy(Classified(p), NotDash) <==> NoneSatisfy(p, IsAlphanumeric)
  {
    if p == [] {
      assert Lowercase(p) == [];
    } else {
      var init, last := p[..|p| - 1], p[|p| - 1];
      ClassifiedFacts(init);
      assert p == init + [last];
      ClassifiedAppend(init, last);
      NoneAppend(Classified(init), if MapChar(last).Some? then [MapChar(last).value] else [], NotDash);
      NoneAppend(init, [last], IsAlphanumeric);
    }
  }

  lemma {:induction false} CollapseKeepsNone(m: string)
    ensures NoneSatisfy(CollapseDashes(m), NotDash) <==> NoneSatisfy(m, NotDash)
  {
    if m != [] {
      CollapseKeepsNone(m[..|m| - 1]);
      assert m == m[..|m| - 1] + [m[|m| - 1]];
      NoneAppend(m[..|m| - 1], [m[|m| - 1]], NotDash);
      NoneAppend(CollapseDashes(m[..|m| - 1]), [m[|m| - 1]], NotDash);
    }
  }

  /** There is no slug exactly when the input has no ASCII letter, no digit and no `&`. */
  lemma {:induction false} NoSlugExactlyWhen(s: string)
    ensures Slug(s).None? <==> forall i :: 0 <= i < |s| ==> !IsAlphanumeric(s[i]) && s[i] != '&'
  {
    AmpersandFacts(s);
    ClassifiedFacts(ReplaceAmpersands(s));
    CollapseKeepsNone(Cleaned(s));
    CollapseFacts(Cleaned(s));
    TrimmedFacts(CollapseDashes(Cleaned(s)));
  }
}
