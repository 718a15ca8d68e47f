/** The delimiter lexer of http.c (227-285): which tokens a URI has, and the doubly
    linked list in which it leaves them. */
module UriLexer {
  import opened Wrappers
  import opened CStrings
  import opened UriSyntax

  const URI_BUF_SIZE: nat := 512

  /** The type and the text of a token. */
  datatype Lexeme = Lexeme(kind: Kind, text: string)

  // ---- What the lexer is to find ----

  predicate IsMark(c: char) {
    c == '@' || c == ':'
  }

  function Mark(c: char): Lexeme {
    if c == '@' then Lexeme(AT, "@") else Lexeme(COLON, ":")
  }

  predicate SlashesAt(s: string, f: nat) {
    f + 1 < |s| && s[f] == '/' && s[f + 1] == '/'
  }

  /** The tokens from index f on, when the current segment began at b.  Text in front of
      `//` is dropped, and so is text in front of a mark at index 0 or 1. */
  function LexFrom(s: string, b: nat, f: nat): seq<Lexeme>
    requires b <= f <= |s|
    decreases |s| - f
  {
    if f == |s| then (if b < |s| then [Lexeme(SEGMENT, s[b..])] else []) + [Lexeme(END, "@EOF@")]
    else if IsMark(s[f]) then
      (if f > 1 then [Lexeme(SEGMENT, s[b..f])] else []) + [Mark(s[f])] + LexFrom(s, f + 1, f + 1)
    else if SlashesAt(s, f) then [Lexeme(HIER, "//")] + LexFrom(s, f + 2, f + 2)
    else LexFrom(s, b, f + 1)
  }

  function Lex(s: string): seq<Lexeme> {
    LexFrom(s, 0, 0)
  }

  /** The tokens of http_lex_uri; None for a text that does not fit its working copy. */
  function Tokens(s: string): Option<seq<Lexeme>> {
    if |s| >= URI_BUF_SIZE then None else Some(Lex(s))
  }

  function KindsOf(ls: seq<Lexeme>): seq<Kind> {
    seq(|ls|, i requires 0 <= i < |ls| => ls[i].kind)
  }

  /** Every token sequence of the lexer is one the syntax analysis expects. */
  lemma {:induction false} LexFromWellLexed(s: string, b: nat, f: nat)
    requires b <= f <= |s|
    ensures WellLexed(KindsOf(LexFrom(s, b, f)))
    decreases |s| - f
  {
    if f == |s| {
    } else if IsMark(s[f]) {
      LexFromWellLexed(s, f + 1, f + 1);
      var rest := LexFrom(s, f + 1, f + 1);
      MoreWellLexed(Mark(s[f]), rest);
      MoreWellLexed(Lexeme(SEGMENT, s[b..f]), [Mark(s[f])] + rest);
      assert [Lexeme(SEGMENT, s[b..f])] + [Mark(s[f])] + rest == [Lexeme(SEGMENT, s[b..f])] + ([Mark(s[f])] + rest);
      assert [] + [Mark(s[f])] + rest == [Mark(s[f])] + rest;
    } else if SlashesAt(s, f) {
      LexFromWellLexed(s, f + 2, f + 2);
      MoreWellLexed(Lexeme(HIER, "//"), LexFrom(s, f + 2, f + 2));
    } else {
      LexFromWellLexed(s, b, f + 1);
    }
  }

  lemma MoreWellLexed(l: Lexeme, rest: seq<Lexeme>)
    requires WellLexed(KindsOf(rest)) && l.kind != END
    requires l.kind == SEGMENT ==> rest[0].kind != SEGMENT && rest[0].kind != HIER
    ensures WellLexed(KindsOf([l] + rest))
  {
    var kinds := KindsOf([l] + rest);
    assert kinds == [l.kind] + KindsOf(rest);
  }

  // ---- The token list ----

  class UriTok {
    const kind: Kind
    var len: nat
    const lex: array<char>
    var prev: UriTok?
    var next: UriTok?

    /** `len` is not set: a new token has whatever value was there before. */
    constructor (kind: Kind, lex: array<char>)
      ensures this.kind == kind && this.lex == lex && next == null
    {
      this.kind, this.lex := kind, lex;
      next := null;
    }
  }

  /** The C string in a buffer. */
  ghost predicate Reads(memory: seq<char>, text: string) {
    |text| < |memory| && memory[..|text|] == text && memory[|text|] == NUL && NUL !in text
  }

  ghost function Paired(toks: seq<UriTok>, texts: seq<string>): (ls: seq<Lexeme>)
    requires |texts| == |toks|
  {
    seq(|toks|, i requires 0 <= i < |toks| => Lexeme(toks[i].kind, texts[i]))
  }

  class TokList {
    var head: UriTok?
    var tail: UriTok?
    ghost var toks: seq<UriTok>
    ghost var texts: seq<string>          // the lexeme of each token
    ghost var buffers: set<array<char>>   // where the lexemes are

    /** The list is linked in both directions. */
    ghost predicate Linked()
      reads this, toks
    {
      && head == (if toks == [] then null else toks[0])
      && (toks != [] ==> tail == toks[|toks| - 1] && tail.next == null && toks[0].prev == null)
      && (forall i, k :: 0 <= i && k == i + 1 < |toks| ==> toks[i].next == toks[k] && toks[k].prev == toks[i])
      && (forall i, k :: 0 <= i < k < |toks| ==> toks[i] != toks[k])
    }

    /** Every token has a buffer of its own, which holds its lexeme. */
    ghost predicate Lexed()
      reads this, buffers
    {
      && |texts| == |toks|
      && (forall i :: 0 <= i < |toks| ==> toks[i].lex in buffers && Reads(toks[i].lex[..], texts[i]))
      && OwnBuffers()
    }

    ghost predicate OwnBuffers()
      reads this
    {
      forall i, k :: 0 <= i < k < |toks| ==> toks[i].lex != toks[k].lex
    }

    ghost predicate Valid()
      reads this, toks, buffers
    {
      Linked() && Lexed()
    }

    /** The only END token is the last one. */
    ghost predicate EndsOnce()
      reads this
    {
      toks != [] && forall i :: 0 <= i < |toks| ==> (toks[i].kind == END <==> i == |toks| - 1)
    }

    ghost function Lexemes(): (ls: seq<Lexeme>)
      requires |texts| == |toks|
      reads this
    {
      Paired(toks, texts)
    }

    constructor ()
      ensures Valid() && toks == [] && buffers == {}
    {
      head, tail, toks, texts, buffers := null, null, [], [], {};
    }

    /** http_add_token; `memory` is what the lexeme pointer points to, and `lexLen` the
        size of its copy. */
    method AddToken(memory: seq<char>, ghost text: string, lexLen: nat, kind: Kind)
      requires Valid() && Reads(memory, text) && lexLen == |text| + 1
      modifies this, toks`next
      ensures Valid() && Lexemes() == old(Lexemes()) + [Lexeme(kind, text)]
      ensures Grown(old(toks), old(buffers))
    {
      var lex := CopyString(memory, text, lexLen);
      var t := new UriTok(kind, lex);
      Link(t, text);
    }

    method Link(t: UriTok, ghost text: string)
      requires Valid() && t !in toks && t.next == null && t.lex !in buffers && Reads(t.lex[..], text)
      modifies this, toks`next, t`prev
      ensures Valid() && Lexemes() == old(Lexemes()) + [Lexeme(t.kind, text)]
      ensures toks == old(toks) + [t] && buffers == old(buffers) + {t.lex}
    {
      LinkLast(t);
      Record(t, text);
    }

    /** Record the token that has just been linked in. */
    ghost method Record(t: UriTok, text: string)
      requires Lexed() && t !in toks && t.lex !in buffers && Reads(t.lex[..], text)
      requires head == (if toks == [] then t else toks[0]) && tail == t && t.next == null
      requires t.prev == if toks == [] then null else toks[|toks| - 1]
      requires toks != [] ==> toks[|toks| - 1].next == t && toks[0].prev == null
      requires forall i, k :: 0 <= i && k == i + 1 < |toks| ==> toks[i].next == toks[k] && toks[k].prev == toks[i]
      requires forall i, k :: 0 <= i < k < |toks| ==> toks[i] != toks[k]
      modifies this`toks, this`texts, this`buffers
      ensures Valid() && Lexemes() == old(Lexemes()) + [Lexeme(t.kind, text)]
      ensures toks == old(toks) + [t] && buffers == old(buffers) + {t.lex}
    {
      toks, texts, buffers := toks + [t], texts + [text], buffers + {t.lex};
    }

    /** Only new tokens with new buffers have been added. */
    twostate predicate Grown(toks': seq<UriTok>, buffers': set<array<char>>)
      reads this
    {
      && toks' <= toks && (forall i :: |toks'| <= i < |toks| ==> fresh(toks[i]))
      && buffers' <= buffers && fresh(buffers - buffers')
    }

    /** The pointer assignments of http_add_token. */
    method LinkLast(t: UriTok)
      requires Valid() && t !in toks && t.next == null
      modifies this`head, this`tail, toks`next, t`prev
      ensures Lexed() && head == (if toks == [] then t else toks[0]) && tail == t && t.next == null
      ensures t.prev == if toks == [] then null else toks[|toks| - 1]
      ensures toks != [] ==> toks[|toks| - 1].next == t && toks[0].prev == null
      ensures forall i, k :: 0 <= i && k == i + 1 < |toks| ==> toks[i].next == toks[k] && toks[k].prev == toks[i]
    {
      if head != null {
        t.prev := tail;
        tail.next := t;
      } else {
        head := t;
        t.prev := null;
      }
      tail := t;
    }
  }

  /** sa_alloc and strcpy. */
  method CopyString(memory: seq<char>, ghost text: string, size: nat) returns (copy: array<char>)
    requires Reads(memory, text) && size == |text| + 1
    ensures fresh(copy) && Reads(copy[..], text)
  {
    copy := new char[size];
    var i := 0;
    while memory[i] != NUL
      invariant 0 <= i <= |text| && copy[..i] == text[..i]
      decreases |text| - i
    {
      copy[i] := memory[i];
      i := i + 1;
    }
    copy[i] := NUL;
  }

  /** strlen */
  method StringLength(raw: array<char>, ghost n: nat) returns (len: nat)
    requires IsText(raw[..], n)
    ensures len == n
  {
    len := 0;
    while raw[len] != NUL
      invariant 0 <= len <= n
      decreases n - len
    {
      len := len + 1;
    }
  }

  /** The working copy of the URI: untouched from b on. */
  ghost predicate Copied(buf: seq<char>, s: string, b: nat) {
    |s| < |buf| && buf[|s|] == NUL && NUL !in s && forall k :: b <= k < |s| ==> buf[k] == s[k]
  }

  method CopyRaw(raw: array<char>, len: nat) returns (buf: array<char>)
    requires IsText(raw[..], len) && len < URI_BUF_SIZE
    ensures fresh(buf) && buf.Length == URI_BUF_SIZE && Copied(buf[..], raw[..len], 0)
  {
    buf := new char[URI_BUF_SIZE];
    for i := 0 to len
      invariant forall k :: 0 <= k < i ==> buf[k] == raw[k]
    {
      buf[i] := raw[i];
    }
    buf[len] := NUL;
  }

  lemma SegmentReads(buf: seq<char>, s: string, b: nat, f: nat)
    requires Copied(buf, s, b) && b <= f <= |s|
    ensures Reads(buf[f := NUL][b..], s[b..f])
    ensures Copied(buf[f := NUL], s, f + 1)
  {
    var memory := buf[f := NUL][b..];
    assert memory[..f - b] == s[b..f];
    assert memory[f - b] == NUL;
    assert forall c :: c in s[b..f] ==> c in s;
  }

  /** One mark of the URI: the segment before it, unless the mark is at index 0 or 1,
      and the mark itself. */
  method LexMark(list: TokList, buf: array<char>, b: nat, f: nat, ghost s: string)
    requires list.Valid() && Copied(buf[..], s, b) && b <= f < |s| && IsMark(s[f]) && buf !in list.buffers
    modifies list, list.toks`next, buf
    ensures list.Valid() && Copied(buf[..], s, f + 1) && list.Grown(old(list.toks), old(list.buffers))
    ensures list.Lexemes() == old(list.Lexemes())
      + ((if f > 1 then [Lexeme(SEGMENT, s[b..f])] else []) + [Mark(s[f])])
  {
    var mark := buf[f];
    if f > 1 {
      LexSegment(list, buf, b, f, s);
    }
    AddMark(list, mark);
  }

  method AddMark(list: TokList, mark: char)
    requires list.Valid() && IsMark(mark)
    modifies list, list.toks`next
    ensures list.Valid() && list.Grown(old(list.toks), old(list.buffers))
    ensures list.Lexemes() == old(list.Lexemes()) + [Mark(mark)]
  {
    list.AddToken([mark, NUL], [mark], 2, if mark == '@' then AT else COLON);
  }

  method AddEnd(list: TokList)
    requires list.Valid()
    modifies list, list.toks`next
    ensures list.Valid() && list.Grown(old(list.toks), old(list.buffers))
    ensures list.Lexemes() == old(list.Lexemes()) + [Lexeme(END, "@EOF@")]
  {
    list.AddToken(['@', 'E', 'O', 'F', '@', NUL], "@EOF@", 6, END);
  }

  method LexSegment(list: TokList, buf: array<char>, b: nat, f: nat, ghost s: string)
    requires list.Valid() && Copied(buf[..], s, b) && b <= f < |s| && buf !in list.buffers
    modifies list, list.toks`next, buf
    ensures list.Valid() && Copied(buf[..], s, f + 1) && list.Grown(old(list.toks), old(list.buffers))
    ensures list.Lexemes() == old(list.Lexemes()) + [Lexeme(SEGMENT, s[b..f])]
  {
    SegmentReads(buf[..], s, b, f);
    buf[f] := NUL;
    list.AddToken(buf[b..], s[b..f], f - b + 1, SEGMENT);
  }

  /** http_lex_uri on the URI raw[..n]. */
  method LexUri(list: TokList, raw: array<char>, ghost n: nat) returns (result: int)
    requires list.Valid() && list.toks == [] && list.buffers == {} && IsText(raw[..], n)
    modifies list
    ensures list.Valid() && list.Grown([], {})
    ensures match Tokens(raw[..n])
      case None => result == -1
      case Some(ls) => result == 0 && list.Lexemes() == ls
  {
    var len := StringLength(raw, n);
    if len >= URI_BUF_SIZE {
      return -1;
    }
    var buf := CopyRaw(raw, len);
    LexCopy(list, buf, raw[..n]);
    result := 0;
  }

  /** The loop of http_lex_uri, on the working copy of the URI. */
  method LexCopy(list: TokList, buf: array<char>, ghost s: string)
    requires list.Valid() && list.toks == [] && list.buffers == {} && Copied(buf[..], s, 0)
    modifies list, buf
    ensures list.Valid() && list.Grown([], {}) && list.Lexemes() == Lex(s)
  {
    var fptr, bptr := 0, 0;
    while buf[fptr] != NUL
      invariant 0 <= bptr <= fptr <= |s| && Copied(buf[..], s, bptr)
      invariant list.Valid() && list.Grown([], {}) && buf !in list.buffers
      invariant list.Lexemes() + LexFrom(s, bptr, fptr) == Lex(s)
      decreases |s| - fptr
    {
      bptr, fptr := LexStep(list, buf, bptr, fptr, s);
    }
    LexEnd(list, buf, bptr, fptr, s);
  }

  lemma MarkMoves(s: string, b: nat, f: nat, done: seq<Lexeme>)
    requires b <= f < |s| && IsMark(s[f])
    ensures done + LexFrom(s, b, f)
      == done + ((if f > 1 then [Lexeme(SEGMENT, s[b..f])] else []) + [Mark(s[f])]) + LexFrom(s, f + 1, f + 1)
  {
  }

  lemma SlashesMove(s: string, b: nat, f: nat, done: seq<Lexeme>)
    requires b <= f < |s| && !IsMark(s[f]) && SlashesAt(s, f)
    ensures done + LexFrom(s, b, f) == done + [Lexeme(HIER, "//")] + LexFrom(s, f + 2, f + 2)
  {
  }

  /** The body of the loop. */
  method LexStep(list: TokList, buf: array<char>, bptr: nat, fptr: nat, ghost s: string) returns (b: nat, f: nat)
    requires list.Valid() && Copied(buf[..], s, bptr) && bptr <= fptr < |s| && buf !in list.buffers
    modifies list, list.toks`next, buf
    ensures list.Valid() && Copied(buf[..], s, b) && list.Grown(old(list.toks), old(list.buffers))
    ensures b <= f <= |s| && fptr < f
    ensures old(list.Lexemes()) + LexFrom(s, bptr, fptr) == list.Lexemes() + LexFrom(s, b, f)
  {
    b, f := bptr, fptr;
    if buf[f] == '@' || buf[f] == ':' {
      MarkMoves(s, b, f, list.Lexemes());
      LexMark(list, buf, b, f, s);
      b := f + 1;
    } else if buf[f] == '/' && buf[f + 1] == '/' {
      SlashesMove(s, b, f, list.Lexemes());
      list.AddToken(['/', '/', NUL], "//", 3, HIER);
      f := f + 1;
      b := f + 1;
    }
    f := f + 1;
  }

  /** The last segment, if there is one, and the END token. */
  method LexEnd(list: TokList, buf: array<char>, b: nat, f: nat, ghost s: string)
    requires list.Valid() && Copied(buf[..], s, b) && b <= f == |s| && buf !in list.buffers
    modifies list, list.toks`next
    ensures list.Valid() && list.Grown(old(list.toks), old(list.buffers))
    ensures list.Lexemes() == old(list.Lexemes()) + LexFrom(s, b, f)
  {
    if buf[b] != NUL {
      SegmentReads(buf[..], s, b, f);
      assert buf[..][f := NUL] == buf[..];
      list.AddToken(buf[b..], s[b..], f - b + 1, SEGMENT);
    }
    AddEnd(list);
  }
}
