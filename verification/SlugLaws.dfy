/**
 Slugifying by laws (crates/agent_skills/agent_skills.rs:427-490): what a change to the input does to the
 slug.  The laws name none of the passes, and no other function obeys them.
 */
module SlugLaws {
  import opened Options
  import Text
  import opened SkillSlug

  /** `d` is the small letter for the capital `c`. */
  predicate CapitalOf(c: char, d: char) {
    'A' <= c <= 'Z' && d as int - 'a' as int == c as int - 'A' as int
  }

  /** Neither letter nor digit, nor one of the three characters with a meaning. */
  predicate Meaningless(c: char) {
    !('A' <= c <= 'Z') && !('a' <= c <= 'z') && !('0' <= c <= '9') && c != ' ' && c != '-' && c != '&'
  }

  /** A name of small letters, digits and single inner dashes, of any length. */
  ghost predicate Plain(s: string) {
    && s != "" && s[0] != '-' && s[|s| - 1] != '-'
    && (forall i :: 0 <= i < |s| ==> 'a' <= s[i] <= 'z' || '0' <= s[i] <= '9' || s[i] == '-')
    && (forall i :: 0 <= i < |s| - 1 ==> s[i] != '-' || s[i + 1] != '-')
  }

  /** Capitals count as small letters. */
  ghost predicate CaseLaw(f: string -> Option<string>) {
    forall a, b, c, d :: CapitalOf(c, d) ==> f(a + [c] + b) == f(a + [d] + b)
  }

  /** A space counts as a dash, `&` as the word between dashes, and characters without meaning for nothing. */
  ghost predicate CharacterLaws(f: string -> Option<string>) {
    && (forall a, b :: f(a + " " + b) == f(a + "-" + b))
    && (forall a, b :: f(a + "&" + b) == f(a + "-and-" + b))
    && (forall a, b, c :: Meaningless(c) ==> f(a + [c] + b) == f(a + b))
  }

  /** Two dashes count as one, and dashes at the ends for nothing. */
  ghost predicate DashLaws(f: string -> Option<string>) {
    && (forall a, b :: f(a + "--" + b) == f(a + "-" + b))
    && (forall b :: f("-" + b) == f(b))
    && (forall a :: f(a + "-") == f(a))
  }

  /** A plain name is its own slug, cut to 64 characters, or 63 if a dash would come last. */
  ghost predicate NameLaws(f: string -> Option<string>) {
    && f("") == None
    && (forall s :: Plain(s) ==>
        f(s) == Some(if |s| <= 64 then s else if s[63] == '-' then s[..63] else s[..64]))
  }

  ghost predicate Laws(f: string -> Option<string>) {
    CaseLaw(f) && CharacterLaws(f) && DashLaws(f) && NameLaws(f)
  }

  // ----- the slugifier obeys the laws -----

  /** The loop's result on characters already classified. */
  function Pushed(m: string): string {
    TrimStart(CollapseDashes(m))
  }

  /** The plain name, of any length, that the laws reduce an input to; empty if nothing is left. */
  function Core(s: string): string {
    TrimEnd(Pushed(Cleaned(s)))
  }

  lemma {:induction false} SameCore(a: string, b: string)
    requires Core(a) == Core(b)
    ensures Slug(a) == Slug(b)
  {
  }

  lemma {:induction false} CleanedAppend(a: string, b: string)
    ensures Cleaned(a + b) == Cleaned(a) + Cleaned(b)
  {
    ReplaceAppend(a, b);
    ClassifiedConcat(ReplaceAmpersands(a), ReplaceAmpersands(b));
  }

  lemma {:induction false} ReplaceAppend(a: string, b: string)
    ensures ReplaceAmpersands(a + b) == ReplaceAmpersands(a) + ReplaceAmpersands(b)
  {
    if b == [] {
      assert a + b == a;
    } else {
      ReplaceAppend(a, b[..|b| - 1]);
      assert (a + b)[..|a + b| - 1] == a + b[..|b| - 1];
    }
  }

  lemma {:induction false} ClassifiedConcat(a: string, b: string)
    ensures Classified(a + b) == Classified(a) + Classified(b)
  {
    if b == [] {
      assert a + b == a && Classified([]) == [];
    } else {
      var init, c := b[..|b| - 1], b[|b| - 1];
      ClassifiedConcat(a, init);
      ClassifiedAppend(a + init, c);
      ClassifiedAppend(init, c);
      assert a + b == (a + init) + [c] && b == init + [c];
    }
  }

  lemma {:induction false} CleanedOne(c: char)
    requires c != '&'
    ensures Cleaned([c]) == if MapChar(c).Some? then [MapChar(c).value] else []
  {
    assert [c][..0] == [];
    assert ReplaceAmpersands([c]) == [c];
    ClassifiedAppend([], c);
    assert Classified([]) == [] && [] + [c] == [c];
  }

  lemma {:induction false} CleanedAmpersand()
    ensures Cleaned("&") == "-and-"
  {
    assert "&"[..0] == "";
    assert ReplaceAmpersands("&") == "-and-";
    PassesKeepNames("-and-");
    ReplaceKeepsNames("-and-");
  }

  lemma {:induction false} SameInside(a: string, x: string, y: string, b: string)
    requires Cleaned(x) == Cleaned(y)
    ensures Slug(a + x + b) == Slug(a + y + b)
  {
    CleanedAppend(a + x, b);
    CleanedAppend(a, x);
    CleanedAppend(a + y, b);
    CleanedAppend(a, y);
  }

  lemma {:induction false} CapitalInside(a: string, c: char, d: char, b: string)
    requires CapitalOf(c, d)
    ensures Slug(a + [c] + b) == Slug(a + [d] + b)
  {
    CleanedOne(c);
    CleanedOne(d);
    SameInside(a, [c], [d], b);
  }

  lemma {:induction false} SpaceInside(a: string, b: string)
    ensures Slug(a + " " + b) == Slug(a + "-" + b)
  {
    CleanedOne(' ');
    CleanedOne('-');
    SameInside(a, " ", "-", b);
  }

  lemma {:induction false} AmpersandInside(a: string, b: string)
    ensures Slug(a + "&" + b) == Slug(a + "-and-" + b)
  {
    CleanedAmpersand();
    PassesKeepNames("-and-");
    SameInside(a, "&", "-and-", b);
  }

  lemma {:induction false} NothingInside(a: string, c: char, b: string)
    requires Meaningless(c)
    ensures Slug(a + [c] + b) == Slug(a + b)
  {
    CleanedOne(c);
    CleanedAppend(a + [c], b);
    CleanedAppend(a, [c]);
    CleanedAppend(a, b);
    assert Cleaned(a) + [] == Cleaned(a);
    SameCore(a + [c] + b, a + b);
  }

  lemma {:induction false} SlugObeysCharacterLaws()
    ensures CaseLaw(Slug) && CharacterLaws(Slug)
  {
    forall a, b, c, d | CapitalOf(c, d) ensures Slug(a + [c] + b) == Slug(a + [d] + b) {
      CapitalInside(a, c, d, b);
    }
    forall a, b ensures Slug(a + " " + b) == Slug(a + "-" + b) {
      SpaceInside(a, b);
    }
    forall a, b ensures Slug(a + "&" + b) == Slug(a + "-and-" + b) {
      AmpersandInside(a, b);
    }
    forall a, b, c | Meaningless(c) ensures Slug(a + [c] + b) == Slug(a + b) {
      NothingInside(a, c, b);
    }
  }

  lemma {:induction false} PushedOneMore(x: string, y: string, c: char)
    requires Pushed(x) == Pushed(y)
    ensures Pushed(x + [c]) == Pushed(y + [c])
  {
    LoopStep(x, c);
    LoopStep(y, c);
  }

  lemma {:induction false} PushedConcat(x: string, y: string, b: string)
    requires Pushed(x) == Pushed(y)
    ensures Pushed(x + b) == Pushed(y + b)
  {
    if b == [] {
      assert x + b == x && y + b == y;
    } else {
      var init, c := b[..|b| - 1], b[|b| - 1];
      PushedConcat(x, y, init);
      PushedOneMore(x + init, y + init, c);
      assert x + b == (x + init) + [c] && y + b == (y + init) + [c];
    }
  }

  lemma {:induction false} PushedNothing()
    ensures Pushed([]) == [] && Pushed("-") == []
  {
    LoopStep([], '-');
    assert [] + ['-'] == "-";
  }

  lemma {:induction false} CleanedDashes(a: string, b: string)
    ensures Cleaned(a + "-" + b) == Cleaned(a) + "-" + Cleaned(b)
    ensures Cleaned(a + "--" + b) == Cleaned(a) + "--" + Cleaned(b)
  {
    PassesKeepNames("-");
    PassesKeepNames("--");
    CleanedAppend(a, "-");
    CleanedAppend(a, "--");
    CleanedAppend(a + "-", b);
    CleanedAppend(a + "--", b);
  }

  lemma {:induction false} DoubleDash(a: string, b: string)
    ensures Slug(a + "--" + b) == Slug(a + "-" + b)
  {
    var m := Cleaned(a);
    CleanedDashes(a, b);
    LoopStep(m, '-');
    LoopStep(m + "-", '-');
    assert m + "--" == (m + "-") + "-";
    PushedConcat(m + "--", m + "-", Cleaned(b));
    SameCore(a + "--" + b, a + "-" + b);
  }

  lemma {:induction false} LeadingDash(b: string)
    ensures Slug("-" + b) == Slug(b)
  {
    PassesKeepNames("-");
    CleanedAppend("-", b);
    PushedNothing();
    PushedConcat("-", [], Cleaned(b));
    assert [] + Cleaned(b) == Cleaned(b);
    SameCore("-" + b, b);
  }

  lemma {:induction false} TrimPushedDash(slug: string)
    ensures TrimEnd(Push(slug, '-')) == TrimEnd(slug)
  {
    assert (slug + ['-'])[..|slug|] == slug;
  }

  lemma {:induction false} TrailingDash(a: string)
    ensures Slug(a + "-") == Slug(a)
  {
    PassesKeepNames("-");
    CleanedAppend(a, "-");
    LoopStep(Cleaned(a), '-');
    TrimPushedDash(Pushed(Cleaned(a)));
    SameCore(a + "-", a);
  }

  lemma {:induction false} SlugObeysDashLaws()
    ensures DashLaws(Slug)
  {
    forall a, b ensures Slug(a + "--" + b) == Slug(a + "-" + b) {
      DoubleDash(a, b);
    }
    forall b ensures Slug("-" + b) == Slug(b) {
      LeadingDash(b);
    }
    forall a ensures Slug(a + "-") == Slug(a) {
      TrailingDash(a);
    }
  }

  lemma {:induction false} PlainIsClean(s: string)
    requires Plain(s)
    ensures AllNameChars(s) && NoDoubleDash(s) && Cleaned(s) == s
    ensures TrimEnd(Pushed(s)) == s
  {
    PassesKeepNames(s);
    CollapseKeepsSingles(s);
  }

  lemma {:induction false} CutOnce(s: string)
    requires Plain(s) && |s| > 64
    ensures Truncate(s) == if s[63] == '-' then s[..63] else s[..64]
  {
    var cut := s[..64];
    if s[63] == '-' {
      assert s[62 + 1] == '-';
      assert s[62] != '-';
      assert cut[|cut| - 1] == '-' && cut[..|cut| - 1] == s[..63] && !EndsWithDash(s[..63]);
      assert TrimEnd(cut) == TrimEnd(s[..63]);
    }
  }

  lemma {:induction false} SlugObeysNameLaws()
    ensures NameLaws(Slug)
  {
    PushedNothing();
    assert Cleaned("") == "";
    forall s | Plain(s)
      ensures Slug(s) == Some(if |s| <= 64 then s else if s[63] == '-' then s[..63] else s[..64])
    {
      PlainIsClean(s);
      if |s| > 64 {
        CutOnce(s);
      }
    }
  }

  lemma {:induction false} SlugObeysLaws()
    ensures Laws(Slug)
  {
    SlugObeysCharacterLaws();
    SlugObeysDashLaws();
    SlugObeysNameLaws();
  }

  // ----- nothing else does -----

  lemma {:induction false} OneCharacter(f: string -> Option<string>, a: string, c: char, b: string)
    requires CaseLaw(f) && CharacterLaws(f)
    ensures f(a + [c] + b) == f(a + Cleaned([c]) + b)
  {
    if c == '&' {
      CleanedAmpersand();
    } else {
      CleanedOne(c);
    }
    if 'A' <= c <= 'Z' {
      assert CapitalOf(c, ToLower(c));
    } else if c == ' ' || c == '&' {
      assert [c] == " " || [c] == "&";
    } else if Meaningless(c) {
      assert a + [] + b == a + b;
    }
  }

  lemma {:induction false} ByCharacters(f: string -> Option<string>, s: string, i: nat)
    requires CaseLaw(f) && CharacterLaws(f) && i <= |s|
    ensures f(Cleaned(s[..i]) + s[i..]) == f(s)
  {
    if i == 0 {
      assert Cleaned([]) == [] && [] + s[0..] == s;
    } else {
      ByCharacters(f, s, i - 1);
      CleanedAppend(s[..i - 1], [s[i - 1]]);
      assert s[..i] == s[..i - 1] + [s[i - 1]];
      OneCharacter(f, Cleaned(s[..i - 1]), s[i - 1], s[i..]);
      assert Cleaned(s[..i - 1]) + [s[i - 1]] + s[i..] == Cleaned(s[..i - 1]) + s[i - 1..];
    }
  }

  lemma {:induction false} OnePush(f: string -> Option<string>, slug: string, c: char, b: string)
    requires DashLaws(f)
    ensures f(slug + [c] + b) == f(Push(slug, c) + b)
  {
    if c == '-' && slug == [] {
      assert slug + [c] + b == "-" + b && slug + b == b;
    } else if c == '-' && EndsWithDash(slug) {
      var init := slug[..|slug| - 1];
      assert slug + [c] + b == init + "--" + b && slug + b == init + "-" + b;
    }
  }

  lemma {:induction false} PushStep(f: string -> Option<string>, before: string, c: char, b: string)
    requires DashLaws(f)
    ensures f(Pushed(before) + [c] + b) == f(Pushed(before + [c]) + b)
  {
    LoopStep(before, c);
    OnePush(f, Pushed(before), c, b);
  }

  lemma {:induction false} ByPushes(f: string -> Option<string>, m: string, i: nat)
    requires DashLaws(f) && i <= |m|
    ensures f(Pushed(m[..i]) + m[i..]) == f(m)
  {
    if i == 0 {
      PushedNothing();
      assert m[..0] == [] && [] + m[0..] == m;
    } else {
      ByPushes(f, m, i - 1);
      assert m[..i] == m[..i - 1] + [m[i - 1]];
      PushStep(f, m[..i - 1], m[i - 1], m[i..]);
      assert Pushed(m[..i - 1]) + [m[i - 1]] + m[i..] == Pushed(m[..i - 1]) + m[i - 1..];
    }
  }

  lemma {:induction false} ByTrimming(f: string -> Option<string>, s: string)
    requires DashLaws(f)
    ensures f(TrimEnd(s)) == f(s)
  {
    if EndsWithDash(s) {
      ByTrimming(f, s[..|s| - 1]);
      assert s == s[..|s| - 1] + "-";
    }
  }

  lemma {:induction false} CoreIsPlain(s: string)
    ensures Core(s) == "" || Plain(Core(s))
  {
    var m := Cleaned(s);
    CollapseFacts(m);
    DropOthersFacts(SpacesToDashes(Lowercase(ReplaceAmpersands(s))));
    var r := CollapseDashes(m);
    var i, j := TrimmedIsStretch(r);
    assert Core(s) == r[i..j];
    forall k | i <= k < j ensures NameChar(r[k]) {
      assert r[k] in r;
    }
  }

  lemma {:induction false} ReducesToCore(f: string -> Option<string>, s: string)
    requires Laws(f)
    ensures f(s) == f(Core(s))
  {
    var m := Cleaned(s);
    ByCharacters(f, s, |s|);
    assert s[..|s|] == s && m + s[|s|..] == m;
    ByPushes(f, m, |m|);
    assert m[..|m|] == m && Pushed(m) + m[|m|..] == Pushed(m);
    ByTrimming(f, Pushed(m));
  }

  /** Whatever obeys the laws computes the slug, so the laws say everything about it. */
  lemma {:induction false} LawsDetermineSlug(f: string -> Option<string>, s: string)
    requires Laws(f)
    ensures f(s) == Slug(s)
  {
    SlugObeysLaws();
    ReducesToCore(f, s);
    ReducesToCore(Slug, s);
    CoreIsPlain(s);
  }

  // ----- the validator -----

  /** Small letters, digits and dashes only. */
  ghost predicate NameCharactersOnly(s: string) {
    forall i :: 0 <= i < |s| ==> 'a' <= s[i] <= 'z' || '0' <= s[i] <= '9' || s[i] == '-'
  }

  /** The valid names: 1 to 64 small letters, digits and dashes, without a dash at either end; and each error. */
  lemma {:induction false} ValidExactlyWhen(s: string)
    ensures ValidateName(s) == Some(Empty) <==> |s| == 0
    ensures ValidateName(s) == Some(TooLong) <==> |s| > 64
    ensures ValidateName(s) == Some(EdgeHyphen) <==> 1 <= |s| <= 64 && (s[0] == '-' || s[|s| - 1] == '-')
    ensures ValidateName(s) == None <==>
              1 <= |s| <= 64 && s[0] != '-' && s[|s| - 1] != '-' && NameCharactersOnly(s)
  {
    assert (forall i :: 0 <= i < |s| ==> NameChar(s[i])) <==> NameCharactersOnly(s);
  }
}
