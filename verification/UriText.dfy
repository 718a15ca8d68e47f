/** Exactly which texts the lexer of http.c (233-268) splits into the tokens of a full
    URI, and into which parts. */
module UriText {
  import opened Wrappers
  import opened UriSyntax
  import opened UriLexer

  const FRONT: seq<Kind> := [SEGMENT, COLON, HIER, SEGMENT, COLON, SEGMENT, AT]
  const FULL: seq<Kind> := FRONT + [SEGMENT, COLON, SEGMENT, END]
  const SKIPPED: seq<Kind> := FRONT + [SEGMENT, AT, END]
  const SKIPPED_PATH: seq<Kind> := FRONT + [SEGMENT, AT, SEGMENT, END]
  const PORTLESS: seq<Kind> := FRONT + [SEGMENT, END]

  /** No mark and no `//` begins in s[i..j]. */
  predicate Plain(s: string, i: nat, j: nat) {
    && i <= j <= |s|
    && forall k :: i <= k < j ==>
         s[k] != '@' && s[k] != ':' && !(s[k] == '/' && k + 1 < |s| && s[k + 1] == '/')
  }

  /** A text that the lexer does not refuse, with http: at the front, // at h, a colon at c
      and an @ at a, and plain text in between. */
  predicate Front(s: string, h: nat, c: nat, a: nat) {
    && |s| < 512 && "http:" <= s
    && Plain(s, 5, h) && "//" <= s[h..]
    && Plain(s, h + 2, c) && c < |s| && s[c] == ':'
    && Plain(s, c + 1, a) && a < |s| && s[a] == '@'
  }

  /** Then plain text, a mark at p, and plain text to the end. */
  predicate Back(s: string, a: nat, p: nat) {
    a < |s| && Plain(s, a + 1, p) && p < |s| && (s[p] == '@' || s[p] == ':') && Plain(s, p + 1, |s|)
  }

  /** A full URI: the mark is a colon, with something behind it. */
  predicate FullText(s: string, h: nat, c: nat, a: nat, p: nat) {
    Front(s, h, c, a) && Back(s, a, p) && s[p] == ':' && p + 1 < |s|
  }

  /** A second @ where the colon of the port would be. */
  predicate SkippedText(s: string, h: nat, c: nat, a: nat, p: nat) {
    Front(s, h, c, a) && Back(s, a, p) && s[p] == '@'
  }

  /** No mark behind the first @. */
  predicate PortlessText(s: string, h: nat, c: nat, a: nat) {
    Front(s, h, c, a) && Plain(s, a + 1, |s|) && a + 1 < |s|
  }

  /** The lexemes up to the @; whatever is between the first colon and // is lost. */
  function FrontLexemes(s: string, h: nat, c: nat, a: nat): seq<Lexeme>
    requires Front(s, h, c, a)
  {
    [Lexeme(SEGMENT, "http"), Mark(':'), Lexeme(HIER, "//")]
    + [Lexeme(SEGMENT, s[h + 2..c]), Mark(':'), Lexeme(SEGMENT, s[c + 1..a]), Mark('@')]
  }

  function LastLexemes(s: string, b: nat): seq<Lexeme>
    requires b <= |s|
  {
    (if b < |s| then [Lexeme(SEGMENT, s[b..])] else []) + [Lexeme(END, "@EOF@")]
  }

  lemma {:induction false} LexSkips(s: string, b: nat, f: nat, e: nat)
    requires b <= f && Plain(s, f, e)
    ensures LexFrom(s, b, f) == LexFrom(s, b, e)
    decreases e - f
  {
    if f < e {
      LexSkips(s, b, f + 1, e);
    }
  }

  /** What the lexer makes of the text from b on: the segment up to the first delimiter is
      kept in front of a mark, unless that is at index 0 or 1, and at the end; in front of
      `//` it is lost. */
  lemma LexExactly(s: string, b: nat, e: nat)
    requires Plain(s, b, e)
    ensures e == |s| ==>
      LexFrom(s, b, b) == (if b < e then [Lexeme(SEGMENT, s[b..e])] else []) + [Lexeme(END, "@EOF@")]
    ensures e < |s| && s[e] == '@' ==>
      LexFrom(s, b, b)
      == (if e > 1 then [Lexeme(SEGMENT, s[b..e])] else []) + [Lexeme(AT, "@")] + LexFrom(s, e + 1, e + 1)
    ensures e < |s| && s[e] == ':' ==>
      LexFrom(s, b, b)
      == (if e > 1 then [Lexeme(SEGMENT, s[b..e])] else []) + [Lexeme(COLON, ":")] + LexFrom(s, e + 1, e + 1)
    ensures "//" <= s[e..] ==> LexFrom(s, b, b) == [Lexeme(HIER, "//")] + LexFrom(s, e + 2, e + 2)
  {
    LexSkips(s, b, b, e);
    assert e == |s| ==> s[b..e] == s[b..];
  }

  /** The first index from f on at which the lexer does something. */
  function Stop(s: string, f: nat): (e: nat)
    requires f <= |s|
    ensures Plain(s, f, e) && (e == |s| || IsMark(s[e]) || SlashesAt(s, e))
    decreases |s| - f
  {
    if f == |s| || IsMark(s[f]) || SlashesAt(s, f) then f else Stop(s, f + 1)
  }

  // ---- One step of the lexer, and what its first tokens say about the text ----

  lemma SegmentAndMark(s: string, b: nat, e: nat)
    requires Plain(s, b, e) && 1 < e < |s| && IsMark(s[e])
    ensures LexFrom(s, b, b) == [Lexeme(SEGMENT, s[b..e]), Mark(s[e])] + LexFrom(s, e + 1, e + 1)
  {
    LexSkips(s, b, b, e);
  }

  lemma MarkFound(s: string, b: nat, mark: Kind, rest: seq<Kind>) returns (e: nat)
    requires b <= |s| && mark in {COLON, AT}
    requires KindsOf(LexFrom(s, b, b)) == [SEGMENT, mark] + rest
    ensures Plain(s, b, e) && 1 < e < |s| && s[e] == (if mark == AT then '@' else ':')
    ensures KindsOf(LexFrom(s, e + 1, e + 1)) == rest
  {
    e := Stop(s, b);
    LexSkips(s, b, b, e);
    var kinds := KindsOf(LexFrom(s, b, b));
    assert kinds[0] == SEGMENT && kinds[1] == mark;
    SegmentAndMark(s, b, e);
    var after := KindsOf(LexFrom(s, e + 1, e + 1));
    assert kinds == [SEGMENT, Mark(s[e]).kind] + after;
    assert kinds[2..] == after && kinds[2..] == rest;
  }

  lemma Slashes(s: string, b: nat, h: nat)
    requires Plain(s, b, h) && SlashesAt(s, h)
    ensures LexFrom(s, b, b) == [Lexeme(HIER, "//")] + LexFrom(s, h + 2, h + 2)
  {
    LexSkips(s, b, b, h);
  }

  lemma SlashesFound(s: string, b: nat, rest: seq<Kind>) returns (h: nat)
    requires b <= |s| && KindsOf(LexFrom(s, b, b)) == [HIER] + rest
    ensures Plain(s, b, h) && SlashesAt(s, h) && KindsOf(LexFrom(s, h + 2, h + 2)) == rest
  {
    h := Stop(s, b);
    LexSkips(s, b, b, h);
    var kinds := KindsOf(LexFrom(s, b, b));
    assert kinds[0] == HIER;
    Slashes(s, b, h);
    var after := KindsOf(LexFrom(s, h + 2, h + 2));
    assert kinds == [HIER] + after;
    assert kinds[1..] == after && kinds[1..] == rest;
  }

  lemma LastLexes(s: string, b: nat)
    requires Plain(s, b, |s|)
    ensures LexFrom(s, b, b) == LastLexemes(s, b)
  {
    LexSkips(s, b, b, |s|);
  }

  lemma LastFound(s: string, b: nat)
    requires b <= |s|
    requires KindsOf(LexFrom(s, b, b)) == [SEGMENT, END] || KindsOf(LexFrom(s, b, b)) == [END]
    ensures Plain(s, b, |s|) && (KindsOf(LexFrom(s, b, b)) == [SEGMENT, END] <==> b < |s|)
  {
    var e := Stop(s, b);
    LexSkips(s, b, b, e);
    var kinds := KindsOf(LexFrom(s, b, b));
    assert kinds[|kinds| - 1] == END && (|kinds| == 2 ==> kinds[0] == SEGMENT);
  }

  // ---- The two halves of a text ----

  lemma FrontLexes(s: string, h: nat, c: nat, a: nat)
    requires Front(s, h, c, a)
    ensures Lex(s) == FrontLexemes(s, h, c, a) + LexFrom(s, a + 1, a + 1)
  {
    SegmentAndMark(s, 0, 4);
    assert s[0..4] == "http";
    Slashes(s, 5, h);
    SegmentAndMark(s, h + 2, c);
    SegmentAndMark(s, c + 1, a);
  }

  lemma FrontFound(s: string, rest: seq<Kind>) returns (h: nat, c: nat, a: nat)
    requires |s| < URI_BUF_SIZE && KindsOf(Lex(s)) == FRONT + rest && Lex(s)[0].text == "http"
    ensures Front(s, h, c, a) && KindsOf(LexFrom(s, a + 1, a + 1)) == rest
  {
    var e := MarkFound(s, 0, COLON, [HIER, SEGMENT, COLON, SEGMENT, AT] + rest);
    SegmentAndMark(s, 0, e);
    assert s[0..e] == "http" && s[..5] == "http:";
    h := SlashesFound(s, 5, [SEGMENT, COLON, SEGMENT, AT] + rest);
    c := MarkFound(s, h + 2, COLON, [SEGMENT, AT] + rest);
    a := MarkFound(s, c + 1, AT, rest);
  }

  lemma BackLexes(s: string, a: nat, p: nat)
    requires Back(s, a, p) && p > 1
    ensures LexFrom(s, a + 1, a + 1) == [Lexeme(SEGMENT, s[a + 1..p]), Mark(s[p])] + LastLexemes(s, p + 1)
  {
    SegmentAndMark(s, a + 1, p);
    LastLexes(s, p + 1);
  }

  lemma BackFound(s: string, a: nat, mark: Kind, last: seq<Kind>) returns (p: nat)
    requires a < |s| && mark in {COLON, AT} && (last == [SEGMENT, END] || last == [END])
    requires KindsOf(LexFrom(s, a + 1, a + 1)) == [SEGMENT, mark] + last
    ensures Back(s, a, p) && s[p] == (if mark == AT then '@' else ':') && (last == [SEGMENT, END] <==> p + 1 < |s|)
  {
    p := MarkFound(s, a + 1, mark, last);
    LastFound(s, p + 1);
  }

  /** The lexer makes tokens of these kinds of the text, with "http" in front. */
  predicate LexedAs(s: string, kinds: seq<Kind>) {
    match Tokens(s)
    case None => false
    case Some(ls) => ls != [] && KindsOf(ls) == kinds && ls[0].text == "http"
  }

  // ---- Full texts ----

  /** A full text has exactly these tokens. */
  lemma FullTextLexes(s: string, h: nat, c: nat, a: nat, p: nat)
    requires FullText(s, h, c, a, p)
    ensures Tokens(s) == Some(FrontLexemes(s, h, c, a)
      + [Lexeme(SEGMENT, s[a + 1..p]), Mark(':'), Lexeme(SEGMENT, s[p + 1..]), Lexeme(END, "@EOF@")])
  {
    FrontLexes(s, h, c, a);
    BackLexes(s, a, p);
    assert LexFrom(s, a + 1, a + 1)
      == [Lexeme(SEGMENT, s[a + 1..p]), Mark(':'), Lexeme(SEGMENT, s[p + 1..]), Lexeme(END, "@EOF@")];
  }

  /** A text with the kinds of a full URI, and a segment "http" in front, is a full text. */
  lemma FullTextFound(s: string) returns (h: nat, c: nat, a: nat, p: nat)
    requires LexedAs(s, FULL)
    ensures FullText(s, h, c, a, p)
  {
    h, c, a := FrontFound(s, [SEGMENT, COLON, SEGMENT, END]);
    p := BackFound(s, a, COLON, [SEGMENT, END]);
  }

  /** The texts that the lexer takes for full URIs are exactly the full texts. */
  lemma FullTextExactly(s: string)
    ensures LexedAs(s, FULL) <==> exists h: nat, c: nat, a: nat, p: nat :: FullText(s, h, c, a, p)
  {
    if LexedAs(s, FULL) {
      var h, c, a, p := FullTextFound(s);
    }
    if h: nat, c: nat, a: nat, p: nat :| FullText(s, h, c, a, p) {
      FullTextLexes(s, h, c, a, p);
      assert KindsOf(Lex(s)) == FULL;
    }
  }

  // ---- Texts with a second @ ----

  lemma SkippedTextLexes(s: string, h: nat, c: nat, a: nat, p: nat)
    requires SkippedText(s, h, c, a, p)
    ensures Tokens(s)
      == Some(FrontLexemes(s, h, c, a) + ([Lexeme(SEGMENT, s[a + 1..p]), Mark('@')] + LastLexemes(s, p + 1)))
  {
    FrontLexes(s, h, c, a);
    BackLexes(s, a, p);
  }

  lemma SkippedTextFound(s: string) returns (h: nat, c: nat, a: nat, p: nat)
    requires LexedAs(s, SKIPPED) || LexedAs(s, SKIPPED_PATH)
    ensures SkippedText(s, h, c, a, p)
  {
    var last := if LexedAs(s, SKIPPED) then [END] else [SEGMENT, END];
    h, c, a := FrontFound(s, [SEGMENT, AT] + last);
    p := BackFound(s, a, AT, last);
  }

  // ---- The text on which the analysis can run off the token list ----

  lemma PortlessTextFound(s: string) returns (h: nat, c: nat, a: nat)
    requires LexedAs(s, PORTLESS)
    ensures PortlessText(s, h, c, a)
  {
    h, c, a := FrontFound(s, [SEGMENT, END]);
    LastFound(s, a + 1);
  }

  /** The texts whose tokens end with the host are exactly the portless ones. */
  lemma PortlessExactly(s: string)
    ensures LexedAs(s, PORTLESS) <==> exists h: nat, c: nat, a: nat :: PortlessText(s, h, c, a)
  {
    if LexedAs(s, PORTLESS) {
      var h, c, a := PortlessTextFound(s);
    }
    if h: nat, c: nat, a: nat :| PortlessText(s, h, c, a) {
      FrontLexes(s, h, c, a);
      LastLexes(s, a + 1);
      assert KindsOf(Lex(s)) == PORTLESS;
    }
  }
}
