/** The lexer of sa-map.c (66-135). */
module MapLexer {
  import opened Wrappers
  import opened CStrings

  const MAX_LEX_LEN: nat := 128

  datatype Kind = IDENT | INT | AMP | EQ | EOF

  datatype Token = Ident(word: string) | Int(word: string) | Amp | Eq | Eof {
    function Kind(): Kind {
      match this
      case Ident(_) => IDENT
      case Int(_) => INT
      case Amp => AMP
      case Eq => EQ
      case Eof => EOF
    }

    function Lexeme(): string {
      match this
      case Ident(w) => w
      case Int(w) => w
      case Amp => "&"
      case Eq => "="
      case Eof => "EOF"
    }
  }

  // ---- What one call is to find in a text ----

  function SpaceLen(s: string): (n: nat)
    ensures n <= |s|
  {
    if s != [] && IsSpace(s[0]) then 1 + SpaceLen(s[1..]) else 0
  }

  /** The length of the longest run of letters, digits and underscores at the front. */
  function WordLen(s: string): (n: nat)
    ensures n <= |s|
  {
    if s != [] && IsWord(s[0]) then 1 + WordLen(s[1..]) else 0
  }

  /** A token, or None for a lexical error, and the number of characters consumed. */
  datatype Lexed = Lexed(tok: Option<Token>, used: nat)

  function LexWord(s: string): Lexed {
    var n := WordLen(s);
    if n >= MAX_LEX_LEN then Lexed(None, n)
    else Lexed(Some(if AllDigits(s[..n]) then Int(s[..n]) else Ident(s[..n])), n)
  }

  /** One token at the start of s, where s begins with no space. */
  function LexBare(s: string): Lexed {
    if s == [] then Lexed(Some(Eof), 0)
    else if s[0] == '=' then Lexed(Some(Eq), 1)
    else if s[0] == '&' then Lexed(Some(Amp), 1)
    else if IsWord(s[0]) then LexWord(s)
    else Lexed(None, 1)
  }

  function Lex(s: string): Lexed {
    var n := SpaceLen(s);
    var l := LexBare(s[n..]);
    l.(used := n + l.used)
  }

  lemma {:induction false} SpaceLenIsLongest(s: string)
    ensures forall i :: 0 <= i < SpaceLen(s) ==> IsSpace(s[i])
    ensures SpaceLen(s) < |s| ==> !IsSpace(s[SpaceLen(s)])
  {
    if s != [] && IsSpace(s[0]) {
      SpaceLenIsLongest(s[1..]);
    }
  }

  lemma {:induction false} WordLenIsLongest(s: string)
    ensures forall i :: 0 <= i < WordLen(s) ==> IsWord(s[i])
    ensures WordLen(s) < |s| ==> !IsWord(s[WordLen(s)])
  {
    if s != [] && IsWord(s[0]) {
      WordLenIsLongest(s[1..]);
    }
  }

  lemma {:induction false} WordLenOf(w: string, u: string)
    requires forall i :: 0 <= i < |w| ==> IsWord(w[i])
    requires u == "" || !IsWord(u[0])
    ensures WordLen(w + u) == |w|
    decreases |w|
  {
    if w == "" {
      assert w + u == u;
    } else {
      assert (w + u)[1..] == w[1..] + u;
      WordLenOf(w[1..], u);
    }
  }

  /** What a call does with the first character of its text; words are in WordLexes. */
  lemma LexExactly(c: char, u: string)
    ensures Lex("") == Lexed(Some(Eof), 0)
    ensures c == ' ' || c == '\t' || c == '\n' || c as int == 11 || c as int == 12 || c == '\r' ==>
      Lex([c] + u) == Lexed(Lex(u).tok, 1 + Lex(u).used)
    ensures c == '=' ==> Lex([c] + u) == Lexed(Some(Eq), 1)
    ensures c == '&' ==> Lex([c] + u) == Lexed(Some(Amp), 1)
    ensures !('a' <= c <= 'z' || 'A' <= c <= 'Z' || '0' <= c <= '9' || c == '_' || c == ' ' || 9 <= c as int <= 13
              || c == '=' || c == '&') ==>
      Lex([c] + u) == Lexed(None, 1)
  {
    var s := [c] + u;
    assert s[1..] == u && s[0..] == s;
    if IsSpace(c) {
      assert s[1 + SpaceLen(u)..] == u[SpaceLen(u)..];
    }
  }

  /** A word in front of anything that cannot continue it is one token, unless it is too
      long. */
  lemma WordLexes(w: string, u: string)
    requires w != "" && forall i :: 0 <= i < |w| ==>
      'a' <= w[i] <= 'z' || 'A' <= w[i] <= 'Z' || '0' <= w[i] <= '9' || w[i] == '_'
    requires u == "" || !('a' <= u[0] <= 'z' || 'A' <= u[0] <= 'Z' || '0' <= u[0] <= '9' || u[0] == '_')
    ensures Lex(w + u) ==
      if |w| >= 128 then Lexed(None, |w|)
      else if forall i :: 0 <= i < |w| ==> '0' <= w[i] <= '9' then Lexed(Some(Int(w)), |w|)
      else Lexed(Some(Ident(w)), |w|)
  {
    var s := w + u;
    WordLenOf(w, u);
    assert s[0] == w[0] && s[0..] == s && s[..|w|] == w;
  }

  // ---- The lexer itself ----

  /** map_token_s; `lex` is its fixed buffer. */
  class MapToken {
    var len: nat
    var kind: Kind
    const lex: array<char>

    ghost predicate Valid()
      reads this, lex
    {
      len < MAX_LEX_LEN == lex.Length && lex[len] == NUL && NUL !in lex[..len]
    }

    constructor ()
      ensures lex.Length == MAX_LEX_LEN && fresh(lex)
    {
      lex := new char[MAX_LEX_LEN];
    }

    function Lexeme(): string
      requires len <= lex.Length
      reads this, lex
    {
      lex[..len]
    }

    ghost predicate Holds(t: Token)
      reads this, lex
    {
      Valid() && kind == t.Kind() && Lexeme() == t.Lexeme()
    }
  }

  /** The C string that starts at index p of `memory` and ends before index n. */
  ghost predicate IsString(memory: seq<char>, p: nat, n: nat) {
    p <= n < |memory| && memory[n] == NUL && forall i :: p <= i < n ==> memory[i] != NUL
  }

  /** map_token_init: `memory` is what the lexeme pointer points to; strcpy stops at its NUL. */
  method TokenInit(t: MapToken, memory: seq<char>, len: nat, kind: Kind) returns (result: int)
    requires t.lex.Length == MAX_LEX_LEN && IsString(memory, 0, len)
    modifies t, t.lex
    ensures result == if len >= MAX_LEX_LEN then -1 else 0
    ensures result == 0 ==> t.Valid() && t.kind == kind && t.Lexeme() == memory[..len]
  {
    if len >= MAX_LEX_LEN {
      return -1;
    }
    var i := 0;
    while memory[i] != NUL
      invariant 0 <= i <= len && t.lex[..i] == memory[..i]
      decreases len - i
    {
      t.lex[i] := memory[i];
      i := i + 1;
    }
    t.lex[i] := NUL;
    t.kind := kind;
    t.len := len;
    return 0;
  }

  /** Copy the word src[b..f] into the token, with a NUL patched in behind it and
      taken out again afterwards. */
  method PatchedInit(tok: MapToken, src: array<char>, b: nat, f: nat, kind: Kind) returns (result: int)
    requires tok.lex.Length == MAX_LEX_LEN && src != tok.lex && b <= f < src.Length
    requires forall i :: b <= i < f ==> src[i] != NUL
    modifies tok, tok.lex, src
    ensures src[..] == old(src[..])
    ensures result == if f - b >= MAX_LEX_LEN then -1 else 0
    ensures result == 0 ==> tok.Valid() && tok.kind == kind && tok.Lexeme() == src[b..f]
  {
    var bck := src[f];
    src[f] := NUL;
    result := TokenInit(tok, src[b..], f - b, kind);
    src[f] := bck;
  }

  method SkipSpaces(src: array<char>, p: nat, ghost n: nat) returns (fptr: nat)
    requires IsString(src[..], p, n)
    ensures fptr == p + SpaceLen(src[p..n]) && fptr <= n
  {
    fptr := p;
    while IsSpace(src[fptr])
      invariant p <= fptr <= n && SpaceLen(src[p..n]) == fptr - p + SpaceLen(src[fptr..n])
      decreases n - fptr
    {
      assert src[fptr..n][1..] == src[fptr + 1..n];
      fptr := fptr + 1;
    }
  }

  /** The loop for words that begin with a digit. */
  method ScanFromDigit(src: array<char>, b: nat, ghost n: nat) returns (f: nat, gotAlpha: bool)
    requires IsString(src[..], b, n) && IsDigit(src[b])
    ensures f == b + WordLen(src[b..n]) && b < f <= n
    ensures gotAlpha <==> !AllDigits(src[b..f])
  {
    gotAlpha := false;
    f := b + 1;
    assert src[b..n][1..] == src[f..n];
    while true
      invariant b < f <= n && WordLen(src[b..n]) == f - b + WordLen(src[f..n])
      invariant gotAlpha <==> exists i :: b <= i < f && !IsDigit(src[i])
      decreases n - f
    {
      if IsAlpha(src[f]) || src[f] == '_' {
        gotAlpha := true;
      } else if !IsDigit(src[f]) {
        break;
      }
      assert src[f..n][1..] == src[f + 1..n];
      f := f + 1;
    }
    assert forall i :: b <= i < f ==> src[b..f][i - b] == src[i];
  }

  /** The loop for words that begin with a letter or an underscore. */
  method ScanWord(src: array<char>, b: nat, ghost n: nat) returns (f: nat)
    requires IsString(src[..], b, n) && IsWord(src[b])
    ensures f == b + WordLen(src[b..n]) && b < f <= n
  {
    f := b + 1;
    assert src[b..n][1..] == src[f..n];
    while IsAlpha(src[f]) || IsDigit(src[f]) || src[f] == '_'
      invariant b < f <= n && WordLen(src[b..n]) == f - b + WordLen(src[f..n])
      decreases n - f
    {
      assert src[f..n][1..] == src[f + 1..n];
      f := f + 1;
    }
  }

  /** The word branches of map_next_tok (86-114). */
  method WordTok(tok: MapToken, src: array<char>, b: nat, ghost n: nat) returns (result: int, f: nat)
    requires tok.lex.Length == MAX_LEX_LEN && src != tok.lex && IsString(src[..], b, n) && IsWord(src[b])
    modifies tok, tok.lex, src
    ensures src[..] == old(src[..])
    ensures f == b + LexWord(src[b..n]).used && f <= n
    ensures result == if LexWord(src[b..n]).tok.Some? then 0 else -1
    ensures result == 0 ==> tok.Holds(LexWord(src[b..n]).tok.value)
  {
    var kind := IDENT;
    if IsDigit(src[b]) {
      var gotAlpha;
      f, gotAlpha := ScanFromDigit(src, b, n);
      kind := if gotAlpha then IDENT else INT;
    } else {
      f := ScanWord(src, b, n);
      assert src[b..f][0] == src[b];
    }
    assert src[b..n][..f - b] == src[b..f];
    result := PatchedInit(tok, src, b, f, kind);
  }

  /** The switch of map_next_tok, at a character that is no space. */
  method BareTok(tok: MapToken, src: array<char>, p: nat, ghost n: nat) returns (result: int, q: nat)
    requires tok.lex.Length == MAX_LEX_LEN && src != tok.lex && IsString(src[..], p, n)
    modifies tok, tok.lex, src
    ensures src[..] == old(src[..])
    ensures q == p + LexBare(src[p..n]).used && q <= n
    ensures result == if LexBare(src[p..n]).tok.Some? then 0 else -1
    ensures result == 0 ==> tok.Holds(LexBare(src[p..n]).tok.value)
  {
    match src[p] {
      case '=' =>
        result := TokenInit(tok, ['=', NUL], 1, EQ);
        q := p + 1;
      case '&' =>
        result := TokenInit(tok, ['&', NUL], 1, AMP);
        q := p + 1;
      case '\0' =>
        result := TokenInit(tok, ['E', 'O', 'F', NUL], 3, EOF);
        q := p;
      case _ =>
        if IsDigit(src[p]) || IsAlpha(src[p]) || src[p] == '_' {
          result, q := WordTok(tok, src, p, n);
        } else {
          result, q := -1, p + 1;
        }
    }
  }

  /** map_next_tok: the cursor moves from p to q. */
  method NextTok(tok: MapToken, src: array<char>, p: nat, ghost n: nat) returns (result: int, q: nat)
    requires tok.lex.Length == MAX_LEX_LEN && src != tok.lex && IsString(src[..], p, n)
    modifies tok, tok.lex, src
    ensures src[..] == old(src[..])
    ensures q == p + Lex(src[p..n]).used && q <= n
    ensures result == if Lex(src[p..n]).tok.Some? then 0 else -1
    ensures result == 0 ==> tok.Holds(Lex(src[p..n]).tok.value)
  {
    var fptr := SkipSpaces(src, p, n);
    assert src[p..n][fptr - p..] == src[fptr..n];
    result, q := BareTok(tok, src, fptr, n);
  }

  /** Every call but one at the end of the text moves the cursor forward. */
  lemma LexAdvances(s: string)
    ensures 0 <= Lex(s).used <= |s|
    ensures Lex(s).used == 0 ==> s == "" && Lex(s).tok == Some(Eof)
  {
  }
}
