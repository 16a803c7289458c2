/**
 * Where the hyphens of a slug go. A reference definition states the slug of
 * accent-free text piece by piece: cut the text at every whitespace
 * character and every '-', keep the word characters of each piece, drop the
 * pieces that are left empty and join the rest with single hyphens. The
 * rewrites `generateSlug` applies are proved to compute exactly that, which
 * gives the law for names made of words separated by whitespace.
 */
module SlugWords {
  import opened Filtering
  import opened Slug

  /** Where the reference definition cuts: whitespace and '-'. */
  predicate IsSeparator(c: char) {
    IsSpace(c) || c == '-'
  }

  /** Two slugs joined by one hyphen; an empty one contributes nothing. */
  function JoinSlugs(a: string, b: string): string {
    if a == "" then b else if b == "" then a else a + "-" + b
  }

  lemma JoinSlugsAssociative(a: string, b: string, c: string)
    ensures JoinSlugs(JoinSlugs(a, b), c) == JoinSlugs(a, JoinSlugs(b, c))
  {
    if a != "" && b != "" && c != "" {
      assert a + "-" + b + "-" + c == a + "-" + (b + "-" + c);
    }
  }

  /** The index of the first separator of `s`, or `|s|` when it has none. */
  function FirstSeparator(s: string): (i: nat)
    ensures i <= |s|
    ensures forall j | 0 <= j < i :: !IsSeparator(s[j])
    ensures i < |s| ==> IsSeparator(s[i])
    decreases |s|
  {
    if |s| == 0 || IsSeparator(s[0]) then 0
    else
      var k := FirstSeparator(s[1..]);
      assert forall j | 1 <= j < k + 1 :: s[j] == s[1..][j - 1];
      k + 1
  }

  /**
   * The reference slug of accent-free text: the word characters before the
   * first separator, joined to the reference slug of what follows it.
   */
  function ReferenceSlug(s: string): string
    decreases |s|
  {
    var i := FirstSeparator(s);
    if i == |s| then Filter(s, IsWordChar)
    else JoinSlugs(Filter(s[..i], IsWordChar), ReferenceSlug(s[i + 1..]))
  }

  /** Text without separators: the first separator is past its end. */
  predicate SeparatorFree(a: string) {
    forall j | 0 <= j < |a| :: !IsSeparator(a[j])
  }

  lemma {:induction false} FirstSeparatorAt(a: string, c: char, b: string)
    requires SeparatorFree(a)
    requires IsSeparator(c)
    ensures FirstSeparator(a + [c] + b) == |a|
    decreases |a|
  {
    if |a| > 0 {
      assert (a + [c] + b)[1..] == a[1..] + [c] + b;
      FirstSeparatorAt(a[1..], c, b);
    }
  }

  lemma {:induction false} FirstSeparatorWithin(a: string, y: string)
    requires FirstSeparator(a) < |a|
    ensures FirstSeparator(a + y) == FirstSeparator(a)
    decreases |a|
  {
    if !IsSeparator(a[0]) {
      assert (a + y)[1..] == a[1..] + y;
      FirstSeparatorWithin(a[1..], y);
    }
  }

  lemma {:induction false} FirstSeparatorPast(a: string)
    requires SeparatorFree(a)
    ensures FirstSeparator(a) == |a|
    decreases |a|
  {
    if |a| > 0 {
      FirstSeparatorPast(a[1..]);
    }
  }

  /** Text without separators is one piece: its slug is its word characters. */
  lemma OnePiece(a: string)
    requires SeparatorFree(a)
    ensures ReferenceSlug(a) == Filter(a, IsWordChar)
  {
    FirstSeparatorPast(a);
  }

  /** Text with a separator is cut at its first one. */
  lemma Cut(s: string) returns (a: string, c: char, b: string)
    requires FirstSeparator(s) < |s|
    ensures s == a + [c] + b && IsSeparator(c) && SeparatorFree(a)
    ensures ReferenceSlug(s) == JoinSlugs(Filter(a, IsWordChar), ReferenceSlug(b))
    ensures |b| < |s|
  {
    var i := FirstSeparator(s);
    a, c, b := s[..i], s[i], s[i + 1..];
    assert s == a + [c] + b;
  }

  /** Cutting at any one separator: the slug is the two sides' slugs joined by a hyphen. */
  lemma {:induction false} ReferenceSplit(a: string, c: char, b: string)
    requires IsSeparator(c)
    ensures ReferenceSlug(a + [c] + b) == JoinSlugs(ReferenceSlug(a), ReferenceSlug(b))
    decreases |a|
  {
    var s := a + [c] + b;
    var i := FirstSeparator(a);
    if i == |a| {
      FirstSeparatorAt(a, c, b);
      assert s[..|a|] == a && s[|a| + 1..] == b;
    } else {
      assert s == a + ([c] + b);
      FirstSeparatorWithin(a, [c] + b);
      var rest := a[i + 1..];
      assert s[..i] == a[..i];
      assert s[i + 1..] == rest + [c] + b;
      ReferenceSplit(rest, c, b);
      JoinSlugsAssociative(Filter(a[..i], IsWordChar), ReferenceSlug(rest), ReferenceSlug(b));
    }
  }

  lemma LeadingSeparator(c: char, b: string)
    requires IsSeparator(c)
    ensures ReferenceSlug([c] + b) == ReferenceSlug(b)
  {
    ReferenceSplit([], c, b);
    assert [] + [c] + b == [c] + b;
    OnePiece([]);
  }

  /** Leading whitespace does not change the reference slug. */
  lemma {:induction false} LeadingSpaces(ws: string, b: string)
    requires AllSpace(ws)
    ensures ReferenceSlug(ws + b) == ReferenceSlug(b)
    decreases |ws|
  {
    if |ws| > 0 {
      assert ws + b == [ws[0]] + (ws[1..] + b);
      LeadingSeparator(ws[0], ws[1..] + b);
      LeadingSpaces(ws[1..], b);
    } else {
      assert ws + b == b;
    }
  }

  lemma {:induction false} DropSpacesReference(s: string)
    ensures ReferenceSlug(DropSpaces(s)) == ReferenceSlug(s)
    decreases |s|
  {
    if |s| > 0 && IsSpace(s[0]) {
      DropSpacesReference(s[1..]);
      assert s == [s[0]] + s[1..];
      LeadingSeparator(s[0], s[1..]);
    }
  }

  // ---------------------------------------------------------------------
  // Each rewrite keeps the reference slug

  /** What follows separator-free text and one separator, once whitespace runs are hyphens. */
  lemma HyphenAfter(a: string, c: char, b: string)
    requires SeparatorFree(a) && IsSeparator(c)
    ensures SpacesToHyphens(a + [c] + b)
         == a + ['-'] + SpacesToHyphens(if IsSpace(c) then DropSpaces(b) else b)
  {
    assert a + [c] + b == a + ([c] + b);
    assert NoSpace(a);
    SpacelessPrefix(a, [c] + b);
    assert ([c] + b)[0] == c && ([c] + b)[1..] == b;
  }

  /** Whitespace runs becoming hyphens: a separator run becomes one separator. */
  lemma {:induction false} SpacesToHyphensReference(u: string)
    ensures ReferenceSlug(SpacesToHyphens(u)) == ReferenceSlug(u)
    decreases |u|
  {
    if FirstSeparator(u) == |u| {
      assert forall c | c in u :: !IsSpace(c);
      NoSpacesKept(u);
    } else {
      var a, c, b := Cut(u);
      var rest := if IsSpace(c) then DropSpaces(b) else b;
      HyphenAfter(a, c, b);
      ReferenceSplit(a, '-', SpacesToHyphens(rest));
      SpacesToHyphensReference(rest);
      if IsSpace(c) {
        DropSpacesReference(b);
      }
      ReferenceSplit(a, c, b);
    }
  }

  lemma SeparatorFreeKept(a: string)
    requires SeparatorFree(a)
    ensures ReferenceSlug(KeepWordChars(a)) == ReferenceSlug(a)
  {
    var k := KeepWordChars(a);
    forall j | 0 <= j < |k|
      ensures !IsSeparator(k[j])
    {
      assert k[j] in k;
      assert k[j] in a;
    }
    OnePiece(k);
    OnePiece(a);
    FilterTwice(a, WordOrHyphen, IsWordChar, IsWordChar);
  }

  lemma KeepAround(a: string, b: string)
    ensures KeepWordChars(a + ['-'] + b) == KeepWordChars(a) + ['-'] + KeepWordChars(b)
  {
    FilterConcat(a + ['-'], b, WordOrHyphen);
    FilterConcat(a, ['-'], WordOrHyphen);
    assert Filter(['-'], WordOrHyphen) == ['-'] by {
      assert ['-'][1..] == [];
    }
  }

  /** Dropping the characters that are neither word characters nor '-', from text without whitespace. */
  lemma {:induction false} KeepWordCharsReference(t: string)
    requires forall c | c in t :: !IsSpace(c)
    ensures ReferenceSlug(KeepWordChars(t)) == ReferenceSlug(t)
    decreases |t|
  {
    if FirstSeparator(t) == |t| {
      FirstSeparatorPast(t);
      SeparatorFreeKept(t);
    } else {
      var a, c, b := Cut(t);
      assert c == '-' by {
        assert c == t[|a|] && t[|a|] in t;
      }
      KeepAround(a, b);
      ReferenceSplit(KeepWordChars(a), '-', KeepWordChars(b));
      SeparatorFreeKept(a);
      assert forall x | x in b :: x in t;
      KeepWordCharsReference(b);
      ReferenceSplit(a, '-', b);
    }
  }

  lemma {:induction false} DropHyphensConcat(s: string, y: string)
    requires |s| > 0 && s[|s| - 1] != '-'
    ensures DropHyphens(s + y) == DropHyphens(s) + y
    ensures |DropHyphens(s)| > 0 && DropHyphens(s)[|DropHyphens(s)| - 1] == s[|s| - 1]
    decreases |s|
  {
    if s[0] == '-' {
      assert (s + y)[1..] == s[1..] + y;
      DropHyphensConcat(s[1..], y);
    }
  }

  /** Text not ending with '-' collapses independently of what follows it. */
  lemma {:induction false} CollapseConcat(p: string, y: string)
    requires |p| == 0 || p[|p| - 1] != '-'
    ensures CollapseHyphens(p + y) == CollapseHyphens(p) + CollapseHyphens(y)
    decreases |p|
  {
    if |p| == 0 {
      assert p + y == y;
    } else if p[0] != '-' {
      assert (p + y)[1..] == p[1..] + y;
      CollapseConcat(p[1..], y);
    } else {
      var d := DropHyphens(p[1..]);
      assert (p + y)[1..] == p[1..] + y;
      DropHyphensConcat(p[1..], y);
      CollapseConcat(d, y);
    }
  }

  lemma {:induction false} DropHyphenRun(h: string, q: string)
    requires forall j | 0 <= j < |h| :: h[j] == '-'
    requires |q| == 0 || q[0] != '-'
    ensures DropHyphens(h + q) == q
    decreases |h|
  {
    if |h| > 0 {
      assert (h + q)[1..] == h[1..] + q;
      DropHyphenRun(h[1..], q);
    } else {
      assert h + q == q;
    }
  }

  lemma Associative(a: string, b: string, c: string)
    ensures a + (b + c) == a + b + c
  {
  }

  lemma HyphenRunCollapse(h: string, q: string)
    requires |h| > 0 && forall j | 0 <= j < |h| :: h[j] == '-'
    requires |q| == 0 || q[0] != '-'
    ensures CollapseHyphens(h + q) == "-" + CollapseHyphens(q)
  {
    var hq := h + q;
    assert hq[0] == '-' && hq[1..] == h[1..] + q;
    DropHyphenRun(h[1..], q);
  }

  /**
   * A maximal run of hyphens collapses to exactly one '-', in place: the
   * text on either side of it collapses on its own.
   */
  lemma CollapseRun(p: string, h: string, q: string)
    requires |h| > 0 && forall j | 0 <= j < |h| :: h[j] == '-'
    requires |p| == 0 || p[|p| - 1] != '-'
    requires |q| == 0 || q[0] != '-'
    ensures CollapseHyphens(p + h + q) == CollapseHyphens(p) + "-" + CollapseHyphens(q)
  {
    Associative(p, h, q);
    CollapseConcat(p, h + q);
    HyphenRunCollapse(h, q);
    Associative(CollapseHyphens(p), "-", CollapseHyphens(q));
  }

  lemma TrimStartCollapse(b: string)
    ensures TrimStart(CollapseHyphens(b)) == CollapseHyphens(DropHyphens(b))
  {
    if |b| > 0 && b[0] == '-' {
      var y := CollapseHyphens(DropHyphens(b[1..]));
      assert CollapseHyphens(b) == ['-'] + y;
      assert (['-'] + y)[1..] == y;
    }
  }

  lemma {:induction false} TrimEndNonEmpty(s: string)
    requires |s| > 0 && s[0] != '-'
    ensures |TrimEnd(s)| > 0
    decreases |s|
  {
    if s[|s| - 1] == '-' {
      TrimEndNonEmpty(s[..|s| - 1]);
    }
  }

  lemma {:induction false} TrimEndAfter(p: string, m: string)
    requires |TrimEnd(m)| > 0
    ensures TrimEnd(p + m) == p + TrimEnd(m)
    decreases |m|
  {
    if m[|m| - 1] == '-' {
      assert (p + m)[..|p + m| - 1] == p + m[..|m| - 1];
      TrimEndAfter(p, m[..|m| - 1]);
    }
  }

  lemma HyphenCollapse(b: string)
    ensures CollapseHyphens("-" + b) == "-" + CollapseHyphens(DropHyphens(b))
  {
    assert ("-" + b)[1..] == b;
  }

  lemma HyphenFreeCollapse(a: string)
    requires forall j | 0 <= j < |a| :: a[j] != '-'
    ensures CollapseHyphens(a) == a
  {
    SingleHyphensKept(a);
  }

  /** Hyphen-free text and a hyphen before `b` collapse to the text, a hyphen and `b` without its leading hyphens, collapsed. */
  lemma CollapseAfter(a: string, b: string)
    requires CollapseHyphens(a) == a && (|a| == 0 || a[|a| - 1] != '-')
    ensures CollapseHyphens(a + "-" + b) == a + "-" + CollapseHyphens(DropHyphens(b))
  {
    Associative(a, "-", b);
    CollapseConcat(a, "-" + b);
    HyphenCollapse(b);
    Associative(a, "-", CollapseHyphens(DropHyphens(b)));
  }

  lemma TrimHyphenEnd(a: string)
    requires forall j | 0 <= j < |a| :: a[j] != '-'
    ensures TrimEnd(TrimStart(a + "-")) == a
  {
    if |a| > 0 {
      assert TrimStart(a + "-") == a + "-";
      assert (a + "-")[..|a|] == a;
    }
  }

  lemma TrimStartKeeps(s: string)
    requires |s| > 0 && s[0] != '-'
    ensures TrimStart(s) == s
  {
  }

  lemma TrimStartHyphen(m: string)
    requires |m| > 0 && m[0] != '-'
    ensures TrimStart("-" + m) == m
  {
    assert ("-" + m)[1..] == m;
    assert DropHyphens("-" + m) == DropHyphens(m);
  }

  lemma TrimHyphenBetween(a: string, m: string)
    requires forall j | 0 <= j < |a| :: a[j] != '-'
    requires |m| > 0 && m[0] != '-'
    ensures TrimEnd(TrimStart(a + "-" + m)) == JoinSlugs(a, TrimEnd(m))
  {
    TrimEndNonEmpty(m);
    if |a| == 0 {
      assert a + "-" + m == "-" + m;
      TrimStartHyphen(m);
    } else {
      TrimStartKeeps(a + "-" + m);
      TrimEndAfter(a + "-", m);
    }
  }

  /** Collapsing and trimming hyphen-free text, a hyphen and more text. */
  lemma CollapseTrimJoin(a: string, b: string)
    requires forall j | 0 <= j < |a| :: a[j] != '-'
    ensures TrimEnd(TrimStart(CollapseHyphens(a + "-" + b)))
         == JoinSlugs(a, TrimEnd(TrimStart(CollapseHyphens(b))))
  {
    var m := CollapseHyphens(DropHyphens(b));
    assert CollapseHyphens(a + "-" + b) == a + "-" + m by {
      HyphenFreeCollapse(a);
      CollapseAfter(a, b);
    }
    assert TrimStart(CollapseHyphens(b)) == m by {
      TrimStartCollapse(b);
    }
    if |m| == 0 {
      assert a + "-" + m == a + "-";
      TrimHyphenEnd(a);
    } else {
      TrimHyphenBetween(a, m);
    }
  }

  /** A piece of word characters alone is its own reference slug. */
  lemma WordPiece(t: string)
    requires forall c | c in t :: WordOrHyphen(c)
    requires SeparatorFree(t)
    ensures TrimEnd(TrimStart(CollapseHyphens(t))) == t
    ensures ReferenceSlug(t) == t
  {
    assert forall j | 0 <= j < |t| :: t[j] in t;
    SingleHyphensKept(t);
    OnePiece(t);
    FilterAll(t, IsWordChar);
  }

  /** Collapsing and trimming text of word characters and hyphens gives its reference slug. */
  lemma {:induction false} CollapseTrimReference(t: string)
    requires forall c | c in t :: WordOrHyphen(c)
    ensures TrimEnd(TrimStart(CollapseHyphens(t))) == ReferenceSlug(t)
    decreases |t|
  {
    if FirstSeparator(t) == |t| {
      FirstSeparatorPast(t);
      WordPiece(t);
    } else {
      var a, c, b := Cut(t);
      assert c == '-' by {
        assert c == t[|a|] && t[|a|] in t;
      }
      assert forall j | 0 <= j < |a| :: a[j] == t[j] && t[j] in t;
      CollapseTrimJoin(a, b);
      assert forall x | x in b :: x in t;
      CollapseTrimReference(b);
      ReferenceSplit(a, '-', b);
      WordPiece(a);
    }
  }

  // ---------------------------------------------------------------------
  // generateSlug is the reference slug

  /** The hyphen and trimming steps compute the reference slug of their input. */
  lemma LateStepsReference(u: string)
    ensures TrimEnd(TrimStart(CollapseHyphens(KeepWordChars(SpacesToHyphens(u))))) == ReferenceSlug(u)
  {
    var spaced := SpacesToHyphens(u);
    SpacesToHyphensReference(u);
    KeepWordCharsReference(spaced);
    CollapseTrimReference(KeepWordChars(spaced));
  }

  /**
   * The slug of any name is the reference slug of its lower-cased,
   * accent-free text: its pieces between whitespace and '-', each cut down
   * to its word characters, empty ones dropped, joined by single hyphens.
   */
  lemma SlugIsReference(name: string)
    ensures GenerateSlug(name) == ReferenceSlug(StripMarks(Nfd(Lower(name))))
  {
    LateStepsReference(StripMarks(Nfd(Lower(name))));
  }

  lemma LowerConcat(x: string, y: string)
    ensures Lower(x + y) == Lower(x) + Lower(y)
  {
    assert forall i | 0 <= i < |x + y| :: (x + y)[i] == (if i < |x| then x[i] else y[i - |x|]);
  }

  lemma {:induction false} NfdConcat(x: string, y: string)
    ensures Nfd(x + y) == Nfd(x) + Nfd(y)
    decreases |x|
  {
    if |x| == 0 {
      assert x + y == y;
    } else {
      assert (x + y)[0] == x[0] && (x + y)[1..] == x[1..] + y;
      NfdConcat(x[1..], y);
    }
  }

  /** Lower-casing, decomposition and accent removal work character by character. */
  lemma EarlyStepsConcat(x: string, y: string)
    ensures StripMarks(Nfd(Lower(x + y))) == StripMarks(Nfd(Lower(x))) + StripMarks(Nfd(Lower(y)))
  {
    LowerConcat(x, y);
    NfdConcat(Lower(x), Lower(y));
    FilterConcat(Nfd(Lower(x)), Nfd(Lower(y)), NotMark);
  }

  /** Whitespace between two texts: their reference slugs joined. */
  lemma ReferenceOfSpaced(ex: string, ws: string, ey: string)
    requires |ws| > 0 && AllSpace(ws)
    ensures ReferenceSlug(ex + ws + ey) == JoinSlugs(ReferenceSlug(ex), ReferenceSlug(ey))
  {
    assert ex + ws + ey == ex + [ws[0]] + (ws[1..] + ey);
    ReferenceSplit(ex, ws[0], ws[1..] + ey);
    LeadingSpaces(ws[1..], ey);
  }

  /**
   * Two names separated by whitespace: the slug is the two slugs joined by
   * one hyphen, or the non-empty one of them alone. So "Minha Loja" gives
   * the slug of "Minha", a hyphen and the slug of "Loja".
   */
  lemma SlugOfSpaced(x: string, ws: string, y: string)
    requires |ws| > 0 && AllSpace(ws)
    ensures GenerateSlug(x + ws + y) == JoinSlugs(GenerateSlug(x), GenerateSlug(y))
  {
    var ex := StripMarks(Nfd(Lower(x)));
    var ey := StripMarks(Nfd(Lower(y)));
    assert StripMarks(Nfd(Lower(x + ws + y))) == ex + ws + ey by {
      EarlyStepsConcat(x + ws, y);
      EarlyStepsConcat(x, ws);
      SpaceUntouched(ws);
      EarlyStepsKeep(ws);
    }
    ReferenceOfSpaced(ex, ws, ey);
    SlugIsReference(x + ws + y);
    SlugIsReference(x);
    SlugIsReference(y);
  }
}
