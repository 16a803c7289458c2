/**
 * The client slug: a client's name rewritten by a fixed chain of steps
 * (lower case, canonical decomposition, accent removal, whitespace to
 * hyphens, removal of everything but word characters and hyphens, hyphen
 * runs collapsed, hyphens trimmed at both ends). Characters are Unicode
 * scalar values.
 */
module Slug {
  import opened Filtering

  // ---------------------------------------------------------------------
  // Character classes

  /** The characters JavaScript's `\s` matches. */
  predicate IsSpace(c: char) {
    var n := c as int;
    (9 <= n <= 13) || n == 32 || n == 0xA0 || n == 0x1680 || (0x2000 <= n <= 0x200A) ||
    n == 0x2028 || n == 0x2029 || n == 0x202F || n == 0x205F || n == 0x3000 || n == 0xFEFF
  }

  /** The characters JavaScript's `\w` matches: ASCII letters, digits and '_'. */
  predicate IsWordChar(c: char) {
    ('a' <= c <= 'z') || ('A' <= c <= 'Z') || ('0' <= c <= '9') || c == '_'
  }

  /** Combining diacritical marks, U+0300 to U+036F. */
  predicate IsMark(c: char) {
    0x300 <= c as int <= 0x36F
  }

  predicate IsUpperAscii(c: char) {
    'A' <= c <= 'Z'
  }

  /** No ASCII upper-case letter and no Latin-1 upper-case letter: what lower-casing leaves. */
  predicate Lowered(c: char) {
    !IsUpperAscii(c) && !(0xC0 <= c as int <= 0xDE && c as int != 0xD7)
  }

  predicate NotHyphen(c: char) {
    c != '-'
  }

  /** Neither whitespace nor '-': what turning whitespace into hyphens leaves alone. */
  predicate Solid(c: char) {
    !IsSpace(c) && c != '-'
  }

  /** What the character-class step keeps. */
  predicate WordOrHyphen(c: char) {
    IsWordChar(c) || c == '-'
  }

  /** The characters a slug is made of: lower-case ASCII letters, digits, '_' and '-'. */
  predicate SlugChar(c: char) {
    ('a' <= c <= 'z') || ('0' <= c <= '9') || c == '_' || c == '-'
  }

  // ---------------------------------------------------------------------
  // The steps

  /** Lower case on ASCII and Latin-1: 'A'..'Z' and 'À'..'Þ' except '×' move up by 32. */
  function LowerChar(c: char): (r: char)
    ensures Lowered(r)
    ensures Lowered(c) ==> r == c
  {
    var n := c as int;
    if (65 <= n <= 90) || (0xC0 <= n <= 0xDE && n != 0xD7) then (n + 32) as char else c
  }

  function Lower(s: string): (r: string)
    ensures |r| == |s|
    ensures forall i | 0 <= i < |s| :: r[i] == LowerChar(s[i])
  {
    if |s| == 0 then [] else [LowerChar(s[0])] + Lower(s[1..])
  }

  /** The mark a Latin-1 upper-case letter 'À'..'Ý' decomposes into, or 0 when it has none. */
  function MarkOf(u: int): int {
    if 0xC0 <= u <= 0xC5 then [0x300, 0x301, 0x302, 0x303, 0x308, 0x30A][u - 0xC0]
    else if u == 0xC7 then 0x327
    else if 0xC8 <= u <= 0xCF then [0x300, 0x301, 0x302, 0x308][(u - 0xC8) % 4]
    else if u == 0xD1 then 0x303
    else if 0xD2 <= u <= 0xD6 then [0x300, 0x301, 0x302, 0x303, 0x308][u - 0xD2]
    else if 0xD9 <= u <= 0xDC then [0x300, 0x301, 0x302, 0x308][u - 0xD9]
    else if u == 0xDD then 0x301
    else 0
  }

  /** The ASCII upper-case letter a Latin-1 upper-case letter with a mark is built on. */
  function BaseOf(u: int): (b: int)
    ensures 65 <= b <= 90
  {
    if u <= 0xC5 then 65
    else if u == 0xC7 then 67
    else if u <= 0xCB then 69
    else if u <= 0xCF then 73
    else if u == 0xD1 then 78
    else if u <= 0xD6 then 79
    else if u <= 0xDC then 85
    else 89
  }

  /**
   * Canonical decomposition (NFD) of one character, for the precomposed
   * Latin-1 letters: a base letter followed by its combining mark. Every
   * other character is its own decomposition.
   */
  function Decompose(c: char): (r: string)
    ensures 1 <= |r| <= 2
    ensures |r| == 2 ==> IsMark(r[1]) && !IsMark(r[0])
    ensures Lowered(c) ==> forall y | y in r :: !IsUpperAscii(y)
    ensures !(0xC0 <= c as int <= 0xFF) ==> r == [c]
  {
    var n := c as int;
    if n == 0xFF then ['y', 0x308 as char]
    else if 0xC0 <= n <= 0xFE then
      var u := if n >= 0xE0 then n - 0x20 else n;
      var m := MarkOf(u);
      if m == 0 then [c]
      else [(BaseOf(u) + (if n >= 0xE0 then 32 else 0)) as char, m as char]
    else [c]
  }

  function Nfd(s: string): (r: string)
    ensures |s| <= |r| <= 2 * |s|
    decreases |s|
  {
    if |s| == 0 then [] else Decompose(s[0]) + Nfd(s[1..])
  }

  predicate NotMark(c: char) {
    !IsMark(c)
  }

  /** Every combining mark is removed; every other character is kept, in order. */
  function StripMarks(s: string): (r: string)
    ensures forall c | c in r :: !IsMark(c)
  {
    Filter(s, NotMark)
  }

  /** `s` without its leading whitespace. */
  function DropSpaces(s: string): (r: string)
    ensures |r| <= |s| && r == s[|s| - |r|..]
    ensures |r| > 0 ==> !IsSpace(r[0])
    decreases |s|
  {
    if |s| > 0 && IsSpace(s[0]) then DropSpaces(s[1..]) else s
  }

  /** Dropping leading whitespace keeps every character that is neither whitespace nor '-'. */
  lemma {:induction false} DropSpacesSolid(s: string)
    ensures Filter(DropSpaces(s), Solid) == Filter(s, Solid)
    decreases |s|
  {
    if |s| > 0 && IsSpace(s[0]) {
      DropSpacesSolid(s[1..]);
    }
  }

  /** Every maximal run of whitespace becomes one '-', so no whitespace is left. */
  function SpacesToHyphens(s: string): (r: string)
    ensures forall c | c in r :: !IsSpace(c)
    decreases |s|
  {
    if |s| == 0 then []
    else if IsSpace(s[0]) then
      ['-'] + SpacesToHyphens(DropSpaces(s[1..]))
    else [s[0]] + SpacesToHyphens(s[1..])
  }

  /** Turning whitespace into hyphens keeps the characters that are neither whitespace nor '-', in order. */
  lemma {:induction false} SpacesToHyphensKeeps(s: string)
    ensures Filter(SpacesToHyphens(s), Solid) == Filter(s, Solid)
    decreases |s|
  {
    if |s| > 0 {
      var r := SpacesToHyphens(s);
      if IsSpace(s[0]) {
        SpacesToHyphensKeeps(DropSpaces(s[1..]));
        DropSpacesSolid(s[1..]);
        assert r[1..] == SpacesToHyphens(DropSpaces(s[1..]));
      } else {
        SpacesToHyphensKeeps(s[1..]);
        assert r[1..] == SpacesToHyphens(s[1..]);
      }
    }
  }

  /** Only word characters and '-' are kept: the word characters are the input's, in order. */
  function KeepWordChars(s: string): (r: string)
    ensures forall c | c in r :: WordOrHyphen(c)
    ensures Filter(r, NotHyphen) == Filter(s, IsWordChar)
  {
    FilterTwice(s, WordOrHyphen, NotHyphen, IsWordChar);
    Filter(s, WordOrHyphen)
  }

  /** `s` without its leading hyphens. */
  function DropHyphens(s: string): (r: string)
    ensures |r| <= |s|
    ensures |r| > 0 ==> r[0] != '-'
    decreases |s|
  {
    if |s| > 0 && s[0] == '-' then DropHyphens(s[1..]) else s
  }

  /** What is left after dropping leading hyphens is a suffix of the text. */
  lemma {:induction false} DropHyphensSuffix(s: string)
    ensures DropHyphens(s) == s[|s| - |DropHyphens(s)|..]
    decreases |s|
  {
    if |s| > 0 && s[0] == '-' {
      DropHyphensSuffix(s[1..]);
      assert s[1..][|s| - 1 - |DropHyphens(s)|..] == s[|s| - |DropHyphens(s)|..];
    }
  }

  /** `s` is a run of zero or more hyphens followed by `r`. */
  predicate HyphensThen(s: string, r: string)
    decreases |s|
  {
    s == r || (|s| > 0 && s[0] == '-' && HyphensThen(s[1..], r))
  }

  /** `s` is `r` followed by a run of zero or more hyphens. */
  predicate ThenHyphens(s: string, r: string)
    decreases |s|
  {
    s == r || (|s| > 0 && s[|s| - 1] == '-' && ThenHyphens(s[..|s| - 1], r))
  }

  lemma {:induction false} DropHyphensRun(s: string)
    ensures HyphensThen(s, DropHyphens(s))
    decreases |s|
  {
    if |s| > 0 && s[0] == '-' {
      DropHyphensRun(s[1..]);
    }
  }

  /** Removing leading hyphens keeps every other character. */
  lemma {:induction false} LeadingHyphensFilter(s: string, r: string)
    requires HyphensThen(s, r)
    ensures Filter(s, NotHyphen) == Filter(r, NotHyphen)
    decreases |s|
  {
    if s != r {
      LeadingHyphensFilter(s[1..], r);
    }
  }

  /** Removing trailing hyphens keeps every other character. */
  lemma {:induction false} TrailingHyphensFilter(s: string, r: string)
    requires ThenHyphens(s, r)
    ensures Filter(s, NotHyphen) == Filter(r, NotHyphen)
    decreases |s|
  {
    if s != r {
      TrailingHyphensFilter(s[..|s| - 1], r);
      FilterConcat(s[..|s| - 1], [s[|s| - 1]], NotHyphen);
      assert s == s[..|s| - 1] + [s[|s| - 1]];
    }
  }

  /** No two hyphens stand next to each other. */
  predicate NoDoubleHyphen(s: string) {
    forall i | 0 <= i < |s| - 1 :: !(s[i] == '-' && s[i + 1] == '-')
  }

  /**
   * Every run of two or more hyphens becomes one.
   * A lone hyphen is kept, so this is every maximal run becoming one '-'.
   */
  function CollapseHyphens(s: string): (r: string)
    ensures forall c | c in r :: c in s
    ensures |s| > 0 ==> |r| > 0 && r[0] == s[0]
    ensures NoDoubleHyphen(r)
    decreases |s|
  {
    if |s| == 0 then []
    else if s[0] == '-' then
      var rest := DropHyphens(s[1..]);
      DropHyphensSuffix(s[1..]);
      assert forall c | c in rest :: c in s[1..];
      ['-'] + CollapseHyphens(rest)
    else [s[0]] + CollapseHyphens(s[1..])
  }

  /** Collapsing hyphen runs removes hyphens only: every other character is kept, in order. */
  lemma {:induction false} CollapseKeepsText(s: string)
    ensures Filter(CollapseHyphens(s), NotHyphen) == Filter(s, NotHyphen)
    decreases |s|
  {
    if |s| > 0 {
      var r := CollapseHyphens(s);
      if s[0] == '-' {
        var rest := DropHyphens(s[1..]);
        DropHyphensRun(s[1..]);
        LeadingHyphensFilter(s[1..], rest);
        CollapseKeepsText(rest);
        assert r[1..] == CollapseHyphens(rest);
      } else {
        CollapseKeepsText(s[1..]);
        assert r[1..] == CollapseHyphens(s[1..]);
      }
    }
  }

  /** The text without its leading hyphens: a run of hyphens followed by the result makes up the input. */
  function TrimStart(s: string): (r: string)
    ensures |r| <= |s|
    ensures |r| > 0 ==> r[0] != '-'
    ensures HyphensThen(s, r)
  {
    DropHyphensRun(s);
    DropHyphens(s)
  }

  /** The text without its trailing hyphens: the result followed by a run of hyphens makes up the input. */
  function TrimEnd(s: string): (r: string)
    ensures |r| <= |s|
    ensures |r| > 0 ==> r[|r| - 1] != '-'
    ensures ThenHyphens(s, r)
    decreases |s|
  {
    if |s| > 0 && s[|s| - 1] == '-' then TrimEnd(s[..|s| - 1]) else s
  }

  /** What is left after dropping trailing hyphens is a prefix of the text. */
  lemma {:induction false} TrimEndPrefix(s: string)
    ensures TrimEnd(s) == s[..|TrimEnd(s)|]
    decreases |s|
  {
    if |s| > 0 && s[|s| - 1] == '-' {
      TrimEndPrefix(s[..|s| - 1]);
    }
  }

  /** What makes a string a slug: its characters, no "--", and no hyphen at either end. */
  predicate IsSlug(t: string) {
    (forall c | c in t :: SlugChar(c)) && NoDoubleHyphen(t) &&
    (|t| > 0 ==> t[0] != '-' && t[|t| - 1] != '-')
  }

  /**
   * generateSlug: the rewrites applied in the order the form applies them.
   * Apart from its hyphens, the slug is exactly the word characters of the
   * lower-cased name with accents removed, in order.
   */
  function GenerateSlug(name: string): (r: string)
    ensures Filter(r, NotHyphen) == Filter(StripMarks(Nfd(Lower(name))), IsWordChar)
  {
    var unmarked := StripMarks(Nfd(Lower(name)));
    LateStepsKeepText(unmarked);
    TrimEnd(TrimStart(CollapseHyphens(KeepWordChars(SpacesToHyphens(unmarked)))))
  }

  /** The hyphen and trimming steps keep exactly the word characters of their input, in order. */
  lemma LateStepsKeepText(u: string)
    ensures Filter(TrimEnd(TrimStart(CollapseHyphens(KeepWordChars(SpacesToHyphens(u))))), NotHyphen) == Filter(u, IsWordChar)
  {
    var a := SpacesToHyphens(u);
    var b := KeepWordChars(a);
    var c := CollapseHyphens(b);
    var d := TrimStart(c);
    SpacesToHyphensKeeps(u);
    FilterTwice(a, Solid, IsWordChar, IsWordChar);
    FilterTwice(u, Solid, IsWordChar, IsWordChar);
    assert Filter(b, NotHyphen) == Filter(u, IsWordChar);
    CollapseKeepsText(b);
    LeadingHyphensFilter(c, d);
    TrailingHyphensFilter(d, TrimEnd(d));
  }

  // ---------------------------------------------------------------------
  // Why the result is a slug

  /**
   * Whatever the name, the result is a slug: only lower-case ASCII letters,
   * digits, '_' and '-', no two hyphens in a row, and no hyphen at either end.
   */
  lemma GeneratedIsSlug(name: string)
    ensures IsSlug(GenerateSlug(name))
  {
    var unmarked := StripMarks(Nfd(Lower(name)));
    var kept := KeepWordChars(SpacesToHyphens(unmarked));
    var collapsed := CollapseHyphens(kept);
    NoUpperAfterLowering(name);
    HyphensNoUpper(unmarked);
    assert forall c | c in kept :: SlugChar(c);
    SlicesKeepSlugChars(collapsed, GenerateSlug(name));
  }

  /** Decomposing lower-cased text brings in no ASCII upper-case letter. */
  lemma {:induction false} NfdNoUpper(s: string)
    requires forall c | c in s :: Lowered(c)
    ensures forall c | c in Nfd(s) :: !IsUpperAscii(c)
    decreases |s|
  {
    if |s| > 0 {
      assert forall c | c in s[1..] :: c in s;
      NfdNoUpper(s[1..]);
    }
  }

  /** After lower-casing and decomposition, no ASCII upper-case letter is left. */
  lemma NoUpperAfterLowering(name: string)
    ensures forall c | c in Nfd(Lower(name)) :: !IsUpperAscii(c)
  {
    NfdNoUpper(Lower(name));
  }

  /** Turning whitespace runs into hyphens brings in no ASCII upper-case letter. */
  lemma {:induction false} HyphensNoUpper(s: string)
    requires forall c | c in s :: !IsUpperAscii(c)
    ensures forall c | c in SpacesToHyphens(s) :: !IsUpperAscii(c)
    decreases |s|
  {
    if |s| > 0 {
      if IsSpace(s[0]) {
        var rest := DropSpaces(s[1..]);
        assert forall c | c in rest :: c in s;
        HyphensNoUpper(rest);
      } else {
        assert forall c | c in s[1..] :: c in s;
        HyphensNoUpper(s[1..]);
      }
    }
  }

  /** Trimming both ends of a hyphen-collapsed string keeps its characters and its single hyphens. */
  lemma SlicesKeepSlugChars(s: string, t: string)
    requires NoDoubleHyphen(s)
    requires t == TrimEnd(TrimStart(s))
    ensures forall c | c in t :: c in s
    ensures NoDoubleHyphen(t)
    ensures |t| > 0 ==> t[0] != '-' && t[|t| - 1] != '-'
  {
    var u := TrimStart(s);
    var k := |s| - |u|;
    DropHyphensSuffix(s);
    TrimEndPrefix(u);
    assert u == s[k..] && t == u[..|t|];
    assert |t| <= |u|;
    forall n | 0 <= n < |t|
      ensures t[n] == s[k + n]
    {
      assert t[n] == u[n];
    }
    SliceKeeps(s, k, k + |t|);
    if |t| > 0 {
      assert t[0] == u[0];
    }
  }

  /** A slice of a text without "--" has none either, and only the text's characters. */
  lemma SliceKeeps(s: string, i: int, j: int)
    requires 0 <= i <= j <= |s| && NoDoubleHyphen(s)
    ensures forall c | c in s[i..j] :: c in s
    ensures NoDoubleHyphen(s[i..j])
  {
    var t := s[i..j];
    forall n | 0 <= n < |t| - 1
      ensures !(t[n] == '-' && t[n + 1] == '-')
    {
      assert t[n] == s[i + n] && t[n + 1] == s[i + n + 1];
    }
  }

  // ---------------------------------------------------------------------
  // A slug is its own slug

  lemma {:induction false} NfdKeeps(s: string)
    requires forall c | c in s :: !(0xC0 <= c as int <= 0xFF)
    ensures Nfd(s) == s
    decreases |s|
  {
    if |s| > 0 {
      assert forall c | c in s[1..] :: c in s;
      NfdKeeps(s[1..]);
      assert s[0] in s;
      assert Decompose(s[0]) == [s[0]];
      assert s == [s[0]] + s[1..];
    }
  }

  lemma {:induction false} NoSpacesKept(s: string)
    requires forall c | c in s :: !IsSpace(c)
    ensures SpacesToHyphens(s) == s
    decreases |s|
  {
    if |s| > 0 {
      assert forall c | c in s[1..] :: c in s;
      NoSpacesKept(s[1..]);
    }
  }

  lemma {:induction false} SingleHyphensKept(s: string)
    requires NoDoubleHyphen(s)
    ensures CollapseHyphens(s) == s
    decreases |s|
  {
    if |s| > 0 {
      assert NoDoubleHyphen(s[1..]) by {
        forall i | 0 <= i < |s[1..]| - 1
          ensures !(s[1..][i] == '-' && s[1..][i + 1] == '-')
        {
          assert s[1..][i] == s[i + 1] && s[1..][i + 1] == s[i + 2];
        }
      }
      if s[0] == '-' && |s| > 1 {
        assert s[1] != '-';
        assert DropHyphens(s[1..]) == s[1..];
      }
      SingleHyphensKept(s[1..]);
    }
  }

  /** A character that lower-casing, decomposition and accent removal all leave alone. */
  predicate Untouched(c: char) {
    LowerChar(c) == c && !(0xC0 <= c as int <= 0xFF) && !IsMark(c)
  }

  /** Every character of `s` is untouched by the first three steps. */
  predicate AllUntouched(s: string) {
    forall i | 0 <= i < |s| :: Untouched(s[i])
  }

  lemma UntouchedConcat(s: string, t: string)
    requires AllUntouched(s) && AllUntouched(t)
    ensures AllUntouched(s + t)
  {
    forall i | 0 <= i < |s + t|
      ensures Untouched((s + t)[i])
    {
      if i < |s| {
        assert (s + t)[i] == s[i];
      } else {
        assert (s + t)[i] == t[i - |s|];
      }
    }
  }

  /** Text of untouched characters passes lower-casing, decomposition and accent removal unchanged. */
  lemma EarlyStepsKeep(s: string)
    requires AllUntouched(s)
    ensures StripMarks(Nfd(Lower(s))) == s
  {
    assert forall c | c in s :: Untouched(c);
    assert Lower(s) == s;
    assert Nfd(s) == s by {
      NfdKeeps(s);
    }
    FilterAll(s, NotMark);
  }

  /** A slug passes the hyphen and trimming steps unchanged. */
  lemma LateStepsKeep(t: string)
    requires IsSlug(t)
    ensures TrimEnd(TrimStart(CollapseHyphens(KeepWordChars(SpacesToHyphens(t))))) == t
  {
    assert forall i | 0 <= i < |t| :: SlugChar(t[i]);
    assert SpacesToHyphens(t) == t by {
      NoSpacesKept(t);
    }
    assert KeepWordChars(t) == t by {
      FilterAll(t, WordOrHyphen);
    }
    assert CollapseHyphens(t) == t by {
      SingleHyphensKept(t);
    }
    assert TrimStart(t) == t;
    assert TrimEnd(t) == t;
  }

  /** Every step leaves a slug unchanged, so a slug is its own slug. */
  lemma SlugFixed(t: string)
    requires IsSlug(t)
    ensures GenerateSlug(t) == t
  {
    assert forall i | 0 <= i < |t| :: t[i] in t;
    EarlyStepsKeep(t);
    LateStepsKeep(t);
  }

  /** Slugifying a slug gives it back. */
  lemma SlugIdempotent(name: string)
    ensures GenerateSlug(GenerateSlug(name)) == GenerateSlug(name)
  {
    GeneratedIsSlug(name);
    SlugFixed(GenerateSlug(name));
  }

  // ---------------------------------------------------------------------
  // Whitespace between words

  /** Every character of `s` is whitespace. */
  predicate AllSpace(s: string) {
    forall i | 0 <= i < |s| :: IsSpace(s[i])
  }

  /** No character of `s` is whitespace. */
  predicate NoSpace(s: string) {
    forall i | 0 <= i < |s| :: !IsSpace(s[i])
  }

  lemma {:induction false} DropSpaceRun(ws: string, b: string)
    requires AllSpace(ws)
    requires |b| > 0 ==> !IsSpace(b[0])
    ensures DropSpaces(ws + b) == b
    decreases |ws|
  {
    if |ws| > 0 {
      assert (ws + b)[0] == ws[0];
      assert (ws + b)[1..] == ws[1..] + b;
      DropSpaceRun(ws[1..], b);
    } else {
      assert ws + b == b;
    }
  }

  lemma {:induction false} SpacelessPrefix(a: string, y: string)
    requires NoSpace(a)
    ensures SpacesToHyphens(a + y) == a + SpacesToHyphens(y)
    decreases |a|
  {
    if |a| > 0 {
      assert (a + y)[0] == a[0];
      assert (a + y)[1..] == a[1..] + y;
      SpacelessPrefix(a[1..], y);
      assert a == [a[0]] + a[1..];
    } else {
      assert a + y == y;
    }
  }

  /** A whitespace run, followed by text not starting with whitespace, becomes one hyphen. */
  lemma SpaceRun(ws: string, y: string)
    requires |ws| > 0 && AllSpace(ws)
    requires |y| > 0 ==> !IsSpace(y[0])
    ensures SpacesToHyphens(ws + y) == "-" + SpacesToHyphens(y)
  {
    assert (ws + y)[0] == ws[0];
    assert (ws + y)[1..] == ws[1..] + y;
    DropSpaceRun(ws[1..], y);
  }

  /** The hyphen a possibly empty whitespace run becomes: none for an empty run. */
  function RunHyphen(ws: string): (h: string)
    ensures |ws| > 0 <==> h == "-"
    ensures |ws| == 0 <==> h == ""
  {
    if |ws| > 0 then "-" else ""
  }

  lemma SlugNoSpace(a: string)
    requires IsSlug(a)
    ensures NoSpace(a)
  {
    assert forall i | 0 <= i < |a| :: a[i] in a;
  }

  /** Concatenation regrouped to the right. */
  lemma Regroup<T>(p: seq<T>, q: seq<T>, r: seq<T>, s: seq<T>, t: seq<T>)
    ensures p + q + r + s + t == p + (q + (r + (s + t)))
  {
  }

  lemma SlugUntouched(a: string)
    requires IsSlug(a)
    ensures AllUntouched(a)
  {
    assert forall i | 0 <= i < |a| :: a[i] in a;
  }

  lemma SpaceUntouched(ws: string)
    requires AllSpace(ws)
    ensures AllUntouched(ws)
  {
  }

  /** Concatenation with its middle three parts grouped, regrouped to the right. */
  lemma RegroupMiddle<T>(p: seq<T>, q: seq<T>, r: seq<T>, s: seq<T>, t: seq<T>)
    ensures p + (q + r + s) + t == p + (q + (r + (s + t)))
  {
  }

  /** Each whitespace run around and between two words becomes one hyphen. */
  lemma HyphenatedWords(ws0: string, a: string, ws1: string, b: string, ws2: string)
    requires NoSpace(a) && NoSpace(b) && |a| > 0 && |b| > 0
    requires AllSpace(ws0) && AllSpace(ws1) && AllSpace(ws2) && |ws1| > 0
    ensures SpacesToHyphens(ws0 + (a + (ws1 + (b + ws2)))) == RunHyphen(ws0) + (a + ("-" + (b + RunHyphen(ws2))))
  {
    var y2 := b + ws2;
    var y1 := ws1 + y2;
    var y0 := a + y1;
    assert SpacesToHyphens(ws2) == RunHyphen(ws2) by {
      if |ws2| > 0 {
        SpaceRun(ws2, []);
        assert ws2 + [] == ws2;
      }
    }
    SpacelessPrefix(b, ws2);
    assert y2[0] == b[0];
    SpaceRun(ws1, y2);
    SpacelessPrefix(a, y1);
    assert y0[0] == a[0];
    if |ws0| > 0 {
      SpaceRun(ws0, y0);
    } else {
      assert ws0 + y0 == y0;
    }
  }

  /** Two slugs joined by one hyphen make a slug. */
  lemma JoinedSlug(a: string, b: string)
    requires IsSlug(a) && IsSlug(b) && |a| > 0 && |b| > 0
    ensures IsSlug(a + "-" + b)
  {
    var j := a + "-" + b;
    assert forall i | 0 <= i < |j| :: j[i] in a || j[i] == '-' || j[i] in b by {
      forall i | 0 <= i < |j|
        ensures j[i] in a || j[i] == '-' || j[i] in b
      {
        if i < |a| {
          assert j[i] == a[i];
        } else if i > |a| {
          assert j[i] == b[i - |a| - 1];
        }
      }
    }
    forall i | 0 <= i < |j| - 1
      ensures !(j[i] == '-' && j[i + 1] == '-')
    {
      if i < |a| - 1 {
        assert j[i] == a[i] && j[i + 1] == a[i + 1];
      } else if i >= |a| + 1 {
        assert j[i] == b[i - |a| - 1] && j[i + 1] == b[i - |a|];
      }
    }
  }

  /** A slug with at most a hyphen on either side comes out of the hyphen and trimming steps as itself. */
  lemma LateStepsTrim(p: string, j: string, q: string)
    requires IsSlug(j) && |j| > 0
    requires p == "" || p == "-"
    requires q == "" || q == "-"
    ensures TrimEnd(TrimStart(CollapseHyphens(KeepWordChars(p + j + q)))) == j
  {
    var h := p + j + q;
    assert forall i | 0 <= i < |h| :: SlugChar(h[i]) by {
      forall i | 0 <= i < |h|
        ensures SlugChar(h[i])
      {
        if |p| <= i < |p| + |j| {
          assert h[i] == j[i - |p|];
          assert j[i - |p|] in j;
        }
      }
    }
    assert KeepWordChars(h) == h by {
      FilterAll(h, WordOrHyphen);
    }
    assert NoDoubleHyphen(h) by {
      forall i | 0 <= i < |h| - 1
        ensures !(h[i] == '-' && h[i + 1] == '-')
      {
        if |p| <= i < |p| + |j| - 1 {
          assert h[i] == j[i - |p|] && h[i + 1] == j[i - |p| + 1];
        }
      }
    }
    SingleHyphensKept(h);
    TrimBoth(p, j, q);
  }

  /** Trimming the start removes at most one hyphen before text that starts with another character. */
  lemma TrimStartOne(p: string, t: string)
    requires |t| > 0 && t[0] != '-'
    requires p == "" || p == "-"
    ensures TrimStart(p + t) == t
  {
    assert DropHyphens(t) == t;
    if p == "-" {
      assert (p + t)[0] == '-' && (p + t)[1..] == t;
    } else {
      assert p + t == t;
    }
  }

  /** Trimming the end removes at most one hyphen after text that ends with another character. */
  lemma TrimEndOne(t: string, q: string)
    requires |t| > 0 && t[|t| - 1] != '-'
    requires q == "" || q == "-"
    ensures TrimEnd(t + q) == t
  {
    if q == "-" {
      assert (t + q)[|t + q| - 1] == '-' && (t + q)[..|t + q| - 1] == t;
    } else {
      assert t + q == t;
    }
  }

  /** Trimming removes at most one hyphen on either side of text that starts and ends with another character. */
  lemma TrimBoth(p: string, j: string, q: string)
    requires |j| > 0 && j[0] != '-' && j[|j| - 1] != '-'
    requires p == "" || p == "-"
    requires q == "" || q == "-"
    ensures TrimEnd(TrimStart(p + j + q)) == j
  {
    assert (j + q)[0] == j[0];
    assert p + j + q == p + (j + q);
    TrimStartOne(p, j + q);
    TrimEndOne(j, q);
  }

  /**
   * Two slugs separated by a run of whitespace, with optional whitespace
   * around them, give the two slugs joined by exactly one hyphen.
   */
  lemma WordsJoined(x: string, ws0: string, a: string, ws1: string, b: string, ws2: string)
    requires x == ws0 + a + ws1 + b + ws2
    requires IsSlug(a) && IsSlug(b) && |a| > 0 && |b| > 0
    requires AllSpace(ws0) && AllSpace(ws1) && AllSpace(ws2) && |ws1| > 0
    ensures GenerateSlug(x) == a + "-" + b
  {
    assert StripMarks(Nfd(Lower(x))) == x by {
      SlugUntouched(a);
      SlugUntouched(b);
      SpaceUntouched(ws0);
      SpaceUntouched(ws1);
      SpaceUntouched(ws2);
      UntouchedConcat(ws0, a);
      UntouchedConcat(ws0 + a, ws1);
      UntouchedConcat(ws0 + a + ws1, b);
      UntouchedConcat(ws0 + a + ws1 + b, ws2);
      EarlyStepsKeep(x);
    }
    SlugNoSpace(a);
    SlugNoSpace(b);
    assert SpacesToHyphens(x) == RunHyphen(ws0) + (a + "-" + b) + RunHyphen(ws2) by {
      HyphenatedWords(ws0, a, ws1, b, ws2);
      Regroup(ws0, a, ws1, b, ws2);
      RegroupMiddle(RunHyphen(ws0), a, "-", b, RunHyphen(ws2));
    }
    JoinedSlug(a, b);
    LateStepsTrim(RunHyphen(ws0), a + "-" + b, RunHyphen(ws2));
  }

  // ---------------------------------------------------------------------
  // Accent removal

  /** The base letter of each character: the first character of its decomposition. */
  function Bases(s: string): (r: string)
    ensures |r| == |s|
    ensures forall i | 0 <= i < |s| :: r[i] == Decompose(s[i])[0]
  {
    if |s| == 0 then [] else [Decompose(s[0])[0]] + Bases(s[1..])
  }

  /** Dropping the marks from one character's decomposition leaves what dropping them from its base letter leaves. */
  lemma StripDecomposed(c: char)
    ensures StripMarks(Decompose(c)) == StripMarks([Decompose(c)[0]])
  {
    var d := Decompose(c);
    if |d| == 2 {
      assert d == [d[0]] + [d[1]];
      FilterConcat([d[0]], [d[1]], NotMark);
    } else {
      assert d == [d[0]];
    }
  }

  /** Decomposing and then dropping the marks leaves, for each character, its base letter (itself dropped if a mark). */
  lemma {:induction false} StripMarksOfNfd(s: string)
    ensures StripMarks(Nfd(s)) == StripMarks(Bases(s))
    decreases |s|
  {
    if |s| > 0 {
      var d := Decompose(s[0]);
      assert Nfd(s) == d + Nfd(s[1..]);
      assert Bases(s) == [d[0]] + Bases(s[1..]);
      calc {
        StripMarks(Nfd(s));
        { FilterConcat(d, Nfd(s[1..]), NotMark); }
        StripMarks(d) + StripMarks(Nfd(s[1..]));
        { StripDecomposed(s[0]); StripMarksOfNfd(s[1..]); }
        StripMarks([d[0]]) + StripMarks(Bases(s[1..]));
        { FilterConcat([d[0]], Bases(s[1..]), NotMark); }
        StripMarks(Bases(s));
      }
    }
  }

  // ---------------------------------------------------------------------
  // Examples

  /** Leading and trailing whitespace disappears; each inner run becomes one hyphen. */
  lemma SpacesExample(name: string)
    requires name == "  multiple   spaces  "
    ensures GenerateSlug(name) == "multiple-spaces"
  {
    assert "multiple-spaces" == "multiple" + "-" + "spaces";
    assert name == "  " + "multiple" + "   " + "spaces" + "  ";
    WordsJoined(name, "  ", "multiple", "   ", "spaces", "  ");
  }

  /** The base letters of c-cedilla and i-acute. */
  lemma LatinBases(c: char, i: char)
    requires c == 'ç' && i == 'í'
    ensures Decompose(c)[0] == 'c' && Decompose(i)[0] == 'i'
  {
    assert MarkOf(0xC7) == 0x327 && BaseOf(0xC7) == 67;
    assert MarkOf(0xCD) == 0x301 && BaseOf(0xCD) == 73;
  }

  lemma AcaiBases(lowered: string)
    requires lowered == "açaí"
    ensures Bases(lowered) == "acai"
  {
    LatinBases(lowered[1], lowered[3]);
    assert Decompose(lowered[0])[0] == 'a' && Decompose(lowered[2])[0] == 'a';
  }

  lemma AcaiUnmarked(t: string)
    requires t == "acai"
    ensures StripMarks(t) == t
  {
    FilterAll(t, NotMark);
  }

  lemma AccentsFolded(lowered: string)
    requires lowered == "açaí"
    ensures StripMarks(Nfd(lowered)) == "acai"
  {
    AcaiBases(lowered);
    StripMarksOfNfd(lowered);
    AcaiUnmarked(Bases(lowered));
  }

  /** Accents come off and upper case goes down; the letters stay in place. */
  lemma AccentsExample(name: string)
    requires name == "Açaí"
    ensures GenerateSlug(name) == "acai"
  {
    var lowered := Lower(name);
    assert lowered == "açaí";
    AccentsFolded(lowered);
    LateStepsKeep("acai");
  }

  lemma LeadingUntouched(name: string)
    requires name == "---leading"
    ensures StripMarks(Nfd(Lower(name))) == name
  {
    assert AllUntouched(name);
    EarlyStepsKeep(name);
  }

  lemma LeadingNoSpace(name: string)
    requires name == "---leading"
    ensures SpacesToHyphens(name) == name
  {
    assert forall c | c in name :: !IsSpace(c);
    NoSpacesKept(name);
  }

  lemma LeadingWordChars(name: string)
    requires name == "---leading"
    ensures KeepWordChars(name) == name
  {
    FilterAll(name, WordOrHyphen);
  }

  lemma LeadingCollapse(h: string)
    requires h == "---leading"
    ensures CollapseHyphens(h) == "-leading"
  {
    var t := h[3..];
    assert t == "leading";
    assert DropHyphens(h[2..]) == t by {
      assert h[2..][1..] == t;
    }
    assert DropHyphens(h[1..]) == t by {
      assert h[1..][1..] == h[2..];
    }
    SingleHyphensKept(t);
    assert "-" + t == "-leading";
  }

  lemma LeadingTrim(h: string)
    requires h == "-leading"
    ensures TrimEnd(TrimStart(h)) == "leading"
  {
    TrimBoth("-", "leading", "");
    assert "-" + "leading" + "" == h;
  }

  /** Leading hyphens disappear. */
  lemma LeadingExample(name: string)
    requires name == "---leading"
    ensures GenerateSlug(name) == "leading"
  {
    LeadingUntouched(name);
    LeadingNoSpace(name);
    LeadingWordChars(name);
    LeadingCollapse(name);
    LeadingTrim("-leading");
  }

  /** The base letters of a-tilde and c-cedilla. */
  lemma TildeCedillaBases(a: char, c: char)
    requires a == 'ã' && c == 'ç'
    ensures Decompose(a)[0] == 'a' && Decompose(c)[0] == 'c'
  {
    assert MarkOf(0xC3) == 0x303 && BaseOf(0xC3) == 65;
    assert MarkOf(0xC7) == 0x327 && BaseOf(0xC7) == 67;
  }

  lemma SaoPauloLower(name: string)
    requires name == "São Paulo ação!"
    ensures Lower(name) == "são paulo ação!"
  {
  }

  /** Text whose characters' base letters are those of `t` has `t` as its base letters. */
  lemma BasesAre(s: string, t: string)
    requires |s| == |t| && forall i | 0 <= i < |s| :: Decompose(s[i])[0] == t[i]
    ensures Bases(s) == t
  {
  }

  lemma SaoPauloBases(lowered: string)
    requires lowered == "são paulo ação!"
    ensures Bases(lowered) == "sao paulo acao!"
  {
    var t := "sao paulo acao!";
    TildeCedillaBases(lowered[1], lowered[11]);
    TildeCedillaBases(lowered[12], lowered[11]);
    assert forall i | 0 <= i < |lowered| && i != 1 && i != 11 && i != 12 :: lowered[i] == t[i] && lowered[i] as int < 0xC0;
    BasesAre(lowered, t);
  }

  /** Text without combining marks loses nothing when they are removed. */
  lemma NoMarksKept(t: string)
    requires forall i | 0 <= i < |t| :: !IsMark(t[i])
    ensures StripMarks(t) == t
  {
    FilterAll(t, NotMark);
  }

  lemma SaoPauloNoMarks(t: string)
    requires t == "sao paulo acao!"
    ensures StripMarks(t) == t
  {
    NoMarksKept(t);
  }

  lemma SaoPauloUnmarked(lowered: string)
    requires lowered == "são paulo ação!"
    ensures StripMarks(Nfd(lowered)) == "sao paulo acao!"
  {
    StripMarksOfNfd(lowered);
    SaoPauloBases(lowered);
    SaoPauloNoMarks(Bases(lowered));
  }

  /** Three space-free words separated by single spaces become the words joined by hyphens. */
  lemma SpacedWords(a: string, b: string, c: string)
    requires NoSpace(a) && NoSpace(b) && NoSpace(c) && |b| > 0 && |c| > 0
    ensures SpacesToHyphens(a + (" " + (b + (" " + c)))) == a + ("-" + (b + ("-" + c)))
  {
    assert forall x | x in c :: !IsSpace(x);
    NoSpacesKept(c);
    SpaceRun(" ", c);
    SpacelessPrefix(b, " " + c);
    assert (b + (" " + c))[0] == b[0];
    SpaceRun(" ", b + (" " + c));
    SpacelessPrefix(a, " " + (b + (" " + c)));
  }

  lemma SaoPauloWords(a: string, b: string, c: string)
    requires a == "sao" && b == "paulo" && c == "acao!"
    ensures NoSpace(a) && NoSpace(b) && NoSpace(c)
  {
  }

  lemma SaoPauloHyphens(u: string)
    requires u == "sao paulo acao!"
    ensures SpacesToHyphens(u) == "sao-paulo-acao!"
  {
    var joined := "sao" + ("-" + ("paulo" + ("-" + "acao!")));
    assert joined == "sao-paulo-acao!";
    assert u == "sao" + (" " + ("paulo" + (" " + "acao!")));
    assert SpacesToHyphens(u) == joined by {
      SaoPauloWords("sao", "paulo", "acao!");
      SpacedWords("sao", "paulo", "acao!");
    }
  }

  lemma SaoPauloKeeps(t: string)
    requires t == "sao-paulo-acao"
    ensures Filter(t, WordOrHyphen) == t
  {
    FilterAll(t, WordOrHyphen);
  }

  lemma BangDropped(t: string)
    requires t == "!"
    ensures Filter(t, WordOrHyphen) == []
  {
    FilterNone(t, WordOrHyphen);
  }

  lemma SaoPauloWordChars(h: string)
    requires h == "sao-paulo-acao!"
    ensures KeepWordChars(h) == "sao-paulo-acao"
  {
    assert h == "sao-paulo-acao" + "!";
    SaoPauloKeeps("sao-paulo-acao");
    BangDropped("!");
    FilterConcat("sao-paulo-acao", "!", WordOrHyphen);
  }

  lemma SaoPauloLateSteps(t: string)
    requires t == "sao-paulo-acao"
    ensures TrimEnd(TrimStart(CollapseHyphens(t))) == t
  {
    assert NoDoubleHyphen(t);
    SingleHyphensKept(t);
    TrimBoth("", t, "");
    assert "" + t + "" == t;
  }

  /** Accents come off, the space becomes a hyphen and the punctuation is dropped. */
  lemma SaoPauloExample(name: string)
    requires name == "São Paulo ação!"
    ensures GenerateSlug(name) == "sao-paulo-acao"
  {
    SaoPauloLower(name);
    SaoPauloUnmarked("são paulo ação!");
    SaoPauloHyphens("sao paulo acao!");
    SaoPauloWordChars("sao-paulo-acao!");
    SaoPauloLateSteps("sao-paulo-acao");
  }
}
