/** The syntax analysis of http.c (287-493), walking and rewriting the token list. */
module UriParser {
  import opened Wrappers
  import opened CStrings
  import opened UriSyntax
  import opened UriLexer
  import Ipv4

  /** Not a result of the source: here it would follow the null link behind the END token,
      and has no result. */
  const FOLLOWS_NULL: int := -2

  /** uri_s */
  class Uri {
    var scheme: string
    var userName: string
    var password: string
    var host: string
    var isIpv4: bool
    var port: int
    var path: string

    constructor () {
    }

    function Fields(): UriRecord
      reads this
    {
      UriRecord(scheme, userName, password, host, isIpv4, port, path)
    }
  }

  /** What the functions of the syntax analysis return. */
  function Code(o: Outcome): int {
    match o
    case Accepted(_) => 0
    case Rejected => -1
    case NullDeref => FOLLOWS_NULL
  }

  // What the parts of the analysis return, without the value they build up.

  function TailCode(t: Tail): int {
    match t
    case Ends(_) => 0
    case Wrong => -1
    case OffEnd => FOLLOWS_NULL
  }

  function PortCode(ts: seq<Tok>, i: nat): int {
    if !KindAt(ts, i, COLON) then TailCode(TailAt(ts, i + 1))
    else if !KindAt(ts, i + 1, SEGMENT) || !PortText(ts[i + 1].lex) then -1
    else TailCode(TailAt(ts[i + 1 := PathToken(ts[i + 1])], i + 1))
  }

  function HostCode(ts: seq<Tok>, i: nat): int {
    if HostOk(ts, i) then PortCode(ts, i + 1) else -1
  }

  lemma HostCodeIs(ts: seq<Tok>, i: nat, user: string, password: string)
    ensures Code(HostAndPort(ts, i, user, password)) == HostCode(ts, i)
  {
  }

  /** ts is what the analysis sees in the list. */
  ghost predicate Sees(list: TokList, ts: seq<Tok>)
    reads list, list.toks
  {
    && |ts| == |list.toks| == |list.texts|
    && forall i :: 0 <= i < |ts| ==> ts[i] == Tok(list.toks[i].kind, list.texts[i], list.toks[i].len)
  }

  /** t is the token at index i, or null behind the last one. */
  ghost predicate At(list: TokList, t: UriTok?, i: nat)
    reads list
  {
    i <= |list.toks| && t == if i < |list.toks| then list.toks[i] else null
  }

  lemma NextAt(list: TokList, t: UriTok, i: nat)
    requires list.Linked() && At(list, t, i)
    ensures i < |list.toks| && At(list, t.next, i + 1)
  {
  }

  /** The string in a token's buffer, as strcmp and strcpy read it. */
  method ReadText(lex: array<char>, ghost text: string) returns (s: string)
    requires Reads(lex[..], text)
    ensures s == text
  {
    s := "";
    var i := 0;
    while lex[i] != NUL
      invariant 0 <= i <= |text| && s == text[..i]
      decreases |text| - i
    {
      s := s + [lex[i]];
      i := i + 1;
    }
  }

  /** http_syntax_scheme */
  method SyntaxScheme(uri: Uri, list: TokList, ghost ts: seq<Tok>) returns (result: int, tok: UriTok?)
    requires list.Valid() && list.EndsOnce() && Sees(list, ts)
    modifies uri`scheme
    ensures result == if SchemeOk(ts) then 0 else -1
    ensures result == 0 ==> At(list, tok, 2) && tok != null
    ensures uri.scheme == if SchemeOk(ts) then "http" else old(uri.scheme)
  {
    var t := list.head;
    if t.kind == SEGMENT {
      var scheme := t;
      NextAt(list, t, 0);
      t := t.next;
      if t.kind == COLON {
        var text := ReadText(scheme.lex, list.texts[0]);
        if text == "http" {
          uri.scheme := "http";
          NextAt(list, t, 1);
          return 0, t.next;
        }
      }
    }
    return -1, t;
  }

  /** http_syntax_user_info */
  method SyntaxUserInfo(uri: Uri, list: TokList, tok: UriTok, ghost i: nat, ghost ts: seq<Tok>)
    returns (result: int, t: UriTok, ghost k: nat)
    requires list.Valid() && list.EndsOnce() && Sees(list, ts) && At(list, tok, i)
    modifies uri`userName, uri`password
    ensures At(list, t, k)
    ensures match UserInfoAt(ts, i)
      case TooLong => result == -1 && uri.userName == old(uri.userName) && uri.password == old(uri.password)
      case UserInfo(next, user, password) =>
        result == 0 && k == next && uri.userName == user && uri.password == password
  {
    t, k := tok, i;
    if t.kind == SEGMENT {
      var userName := t;
      NextAt(list, t, k);
      t, k := t.next, k + 1;
      if t.kind == COLON {
        NextAt(list, t, k);
        t, k := t.next, k + 1;
        if t.kind == SEGMENT {
          var password := t;
          NextAt(list, t, k);
          t, k := t.next, k + 1;
          if t.kind == AT {
            NextAt(list, t, k);
            t, k := t.next, k + 1;
            if userName.len >= MAX_USERINFO {
              return -1, t, k;
            } else if password.len >= MAX_USERINFO {
              return -1, t, k;
            } else {
              uri.userName := ReadText(userName.lex, list.texts[i]);
              uri.password := ReadText(password.lex, list.texts[i + 2]);
              return 0, t, k;
            }
          }
        }
      }
    }
    uri.userName := "";
    uri.password := "";
    return 0, t, k;
  }

  /** All buffers but that of token i hold their lexemes. */
  ghost predicate LexedBut(list: TokList, i: int)
    reads list, list.buffers
  {
    && |list.texts| == |list.toks|
    && (forall j :: 0 <= j < |list.toks| ==> list.toks[j].lex in list.buffers)
    && (forall j :: 0 <= j < |list.toks| && j != i ==> Reads(list.toks[j].lex[..], list.texts[j]))
  }

  /** http_syntax_host.  The test for an IPv4 address may spoil the terminator of the
      host token, which is not read again. */
  method SyntaxHost(uri: Uri, list: TokList, tok: UriTok, ghost i: nat, ghost ts: seq<Tok>)
    returns (result: int, t: UriTok?)
    requires list.Valid() && Sees(list, ts) && At(list, tok, i)
    modifies uri`host, uri`isIpv4, list.buffers
    ensures LexedBut(list, i)
    ensures result == if HostOk(ts, i) then 0 else -1
    ensures result == 0 ==> At(list, t, i + 1)
    ensures uri.Fields() == if HostOk(ts, i) then HostStored(ts, i, old(uri.Fields())) else old(uri.Fields())
  {
    t := tok;
    NextAt(list, t, i);
    if t.kind == SEGMENT {
      if t.len < MAX_HOST {
        uri.host := ReadText(t.lex, list.texts[i]);
        ghost var text := list.texts[i];
        assert t.lex[..|text|] == text;
        uri.isIpv4 := Ipv4.HostIsIpv4(t.lex, |text|);
        return 0, t.next;
      } else {
        return -1, t.next;
      }
    } else {
      return -1, t.next;
    }
  }

  /** The scan of http_syntax_port over the digits of a port, up to the end of the
      segment or a slash. */
  method ScanPort(lex: array<char>, ghost text: string) returns (ok: bool, ptr: nat)
    requires Reads(lex[..], text)
    ensures ok <==> DigitLen(text) == |text| || text[DigitLen(text)] == '/'
    ensures ok ==> ptr == DigitLen(text)
  {
    ptr := 0;
    while lex[ptr] != NUL
      invariant 0 <= ptr <= |text| && AllDigits(text[..ptr])
      decreases |text| - ptr
    {
      if !IsDigit(lex[ptr]) {
        DigitLenOf(text[..ptr], text[ptr..]);
        assert text[..ptr] + text[ptr..] == text;
        if lex[ptr] == '/' {
          return true, ptr;
        } else {
          return false, ptr;
        }
      }
      ptr := ptr + 1;
    }
    DigitLenOf(text, "");
    assert text + "" == text && text[..ptr] == text;
    ok := true;
  }

  /** atoi on the first ptr characters, with a NUL patched in behind them for the time
      of the call. */
  method PatchedAtoi(lex: array<char>, ptr: nat, ghost text: string) returns (port: nat)
    requires Reads(lex[..], text) && ptr == DigitLen(text)
    modifies lex
    ensures lex[..] == old(lex[..]) && port == Atoi(text)
  {
    var bck := lex[ptr];
    lex[ptr] := NUL;
    assert lex[..ptr] == text[..ptr];
    AtoiOfDigits(text[..ptr]);
    port := Atoi(lex[..ptr]);
    lex[ptr] := bck;
  }

  /** `len = strlen(ptr) + 1` and the memmove: what follows the port becomes the whole
      lexeme. */
  method KeepPath(lex: array<char>, ptr: nat, ghost text: string) returns (len: nat)
    requires Reads(lex[..], text) && ptr <= |text|
    modifies lex
    ensures Reads(lex[..], text[ptr..]) && len == |text| - ptr + 1
  {
    len := 0;
    while lex[ptr + len] != NUL
      invariant 0 <= len <= |text| - ptr
      decreases |text| - len
    {
      len := len + 1;
    }
    len := len + 1;
    ghost var whole := text + [NUL];
    var i := 0;
    while i < len
      invariant 0 <= i <= len
      invariant forall k :: 0 <= k < i ==> lex[k] == whole[ptr + k]
      invariant forall m :: ptr + i <= m < ptr + len ==> lex[m] == whole[m]
    {
      lex[i] := lex[ptr + i];
      i := i + 1;
    }
    assert lex[..|text| - ptr] == text[ptr..];
  }

  /** http_syntax_port */
  method SyntaxPort(uri: Uri, list: TokList, tok: UriTok, ghost i: nat, ghost ts: seq<Tok>)
    returns (result: int, t: UriTok?, ghost k: nat)
    requires list.Linked() && list.EndsOnce() && LexedBut(list, i - 1) && Sees(list, ts) && At(list, tok, i)
    modifies uri`port, list.buffers, list.toks`len
    ensures list.Linked()
    ensures KindAt(ts, i, COLON) ==>
      && result == (if KindAt(ts, i + 1, SEGMENT) && PortText(ts[i + 1].lex) then 0 else -1)
      && (result == 0 ==>
            && k == i + 1 && At(list, t, k) && t != null && uri.port == Atoi(ts[k].lex)
            && Reads(t.lex[..], PathText(ts[k].lex)) && t.len == |PathText(ts[k].lex)| + 1)
      && (result == -1 ==> uri.port == old(uri.port))
    ensures !KindAt(ts, i, COLON) ==>
      && result == 0 && k == i + 1 && At(list, t, k) && uri.port == old(uri.port)
      && Sees(list, ts) && LexedBut(list, i - 1)
  {
    t := tok;
    k := i + 1;
    NextAt(list, t, i);
    if t.kind == COLON {
      t := t.next;
      if t.kind == SEGMENT {
        result := ReadPort(uri, t, list.texts[k]);
        return result, t, k;
      } else {
        return -1, t.next, k;
      }
    }
    return 0, t.next, k;
  }

  method ReadPort(uri: Uri, t: UriTok, ghost text: string) returns (result: int)
    requires Reads(t.lex[..], text)
    modifies uri`port, t.lex, t`len
    ensures
      && result == (if PortText(text) then 0 else -1)
      && (result == 0 ==>
            uri.port == Atoi(text) && Reads(t.lex[..], PathText(text)) && t.len == |PathText(text)| + 1)
      && (result == -1 ==> uri.port == old(uri.port))
  {
    var ok, ptr := ScanPort(t.lex, text);
    if !ok {
      return -1;
    }
    var port := PatchedAtoi(t.lex, ptr, text);
    if 0 <= port <= URI_MAX_PORT {
      uri.port := port;
      t.len := KeepPath(t.lex, ptr, text);
      return 0;
    } else {
      return -1;
    }
  }

  /** The end of http_syntax_uri: an optional path, and then the END token.  ts shows
      the segment at k as it is now. */
  method SyntaxPath(uri: Uri, list: TokList, tok: UriTok?, ghost k: nat, ghost ts: seq<Tok>)
    returns (result: int)
    requires list.Linked() && list.EndsOnce() && At(list, tok, k) && |ts| == |list.toks|
    requires forall j :: 0 <= j < |ts| ==> ts[j].kind == list.toks[j].kind
    requires tok != null && tok.kind == SEGMENT ==> Reads(tok.lex[..], ts[k].lex) && ts[k].len == tok.len
    modifies uri`path
    ensures result == TailCode(TailAt(ts, k)) && uri.Fields() == WritePath(ts, k, old(uri.Fields()))
  {
    if tok == null {
      return FOLLOWS_NULL;
    }
    var t: UriTok := tok;
    NextAt(list, t, k);
    if t.kind == SEGMENT {
      if t.len < MAX_URI_PATH {
        uri.path := ReadText(t.lex, ts[k].lex);
        t := t.next;
      } else {
        return -1;
      }
    }
    if t.kind != END {
      return -1;
    }
    return 0;
  }

  /** http_syntax_port and the path, with the host at i - 1 already read. */
  method SyntaxPortAndPath(uri: Uri, list: TokList, first: UriTok, ghost i: nat, ghost ts: seq<Tok>)
    returns (result: int)
    requires list.Linked() && list.EndsOnce() && LexedBut(list, i - 1) && Sees(list, ts) && At(list, first, i)
    modifies uri`port, uri`path, list.buffers, list.toks`len
    ensures result == PortCode(ts, i) && uri.Fields() == WritePort(ts, i, old(uri.Fields()))
  {
    var tok;
    ghost var k;
    result, tok, k := SyntaxPort(uri, list, first, i, ts);
    if result == -1 {
      return;
    }
    ghost var seen := if first.kind == COLON then ts[k := PathToken(ts[k])] else ts;
    result := SyntaxPath(uri, list, tok, k, seen);
  }

  /** http_syntax_host and what follows it. */
  method SyntaxHostAndPort(uri: Uri, list: TokList, first: UriTok, ghost i: nat, ghost ts: seq<Tok>)
    returns (result: int)
    requires list.Valid() && list.EndsOnce() && Sees(list, ts) && At(list, first, i)
    modifies uri`host, uri`isIpv4, uri`port, uri`path, list.buffers, list.toks`len
    ensures result == HostCode(ts, i) && uri.Fields() == WriteHost(ts, i, old(uri.Fields()))
  {
    var tok;
    result, tok := SyntaxHost(uri, list, first, i, ts);
    if result == -1 {
      return;
    }
    result := SyntaxPortAndPath(uri, list, tok, i + 1, ts);
  }

  /** The part of http_syntax_uri behind the two slashes. */
  method SyntaxBehindSlashes(uri: Uri, list: TokList, first: UriTok, ghost ts: seq<Tok>) returns (result: int)
    requires list.Valid() && list.EndsOnce() && Sees(list, ts) && At(list, first, 3)
    modifies uri, list.buffers, list.toks`len
    ensures result == Code(BehindSlashes(ts)) && uri.Fields() == WriteUserInfo(ts, old(uri.Fields()))
  {
    var tok: UriTok;
    ghost var k;
    result, tok, k := SyntaxUserInfo(uri, list, first, 3, ts);
    if result == -1 {
      return;
    }
    HostCodeIs(ts, k, uri.userName, uri.password);
    result := SyntaxHostAndPort(uri, list, tok, k, ts);
  }

  /** http_syntax_uri */
  method SyntaxUri(uri: Uri, list: TokList, ghost ts: seq<Tok>) returns (result: int)
    requires list.Valid() && list.EndsOnce() && Sees(list, ts)
    modifies uri, list.buffers, list.toks`len
    ensures result == Code(Syntax(ts)) && uri.Fields() == Write(ts, old(uri.Fields()))
  {
    var tok: UriTok?;
    result, tok := SyntaxScheme(uri, list, ts);
    if result == -1 {
      return;
    }
    if tok.kind != HIER {
      return -1;
    }
    NextAt(list, tok, 2);
    result := SyntaxBehindSlashes(uri, list, tok.next, ts);
  }

  /** ts is a token sequence with these lexemes, whatever its lengths are. */
  ghost predicate Fits(ts: seq<Tok>, ls: seq<Lexeme>) {
    && |ts| == |ls|
    && forall i :: 0 <= i < |ts| ==> ts[i].kind == ls[i].kind && ts[i].lex == ls[i].text
  }

  ghost function View(list: TokList): (ts: seq<Tok>)
    requires list.Lexed()
    reads list, list.toks, list.buffers
    ensures Sees(list, ts) && Fits(ts, list.Lexemes())
  {
    seq(|list.toks|, i requires 0 <= i < |list.toks| && |list.texts| == |list.toks| reads list, list.toks =>
      Tok(list.toks[i].kind, list.texts[i], list.toks[i].len))
  }

  lemma FitsWellLexed(ts: seq<Tok>, ls: seq<Lexeme>)
    requires Fits(ts, ls) && WellLexed(KindsOf(ls))
    ensures WellLexed(Kinds(ts)) && Kinds(ts) == KindsOf(ls)
  {
    assert Kinds(ts) == KindsOf(ls);
  }

  lemma LexedEndsOnce(list: TokList, s: string)
    requires list.Lexed() && list.Lexemes() == Lex(s)
    ensures list.EndsOnce()
  {
    LexFromWellLexed(s, 0, 0);
    var kinds := KindsOf(list.Lexemes());
    assert forall i :: 0 <= i < |kinds| ==> kinds[i] == list.toks[i].kind;
  }

  /** What http_parse_uri can make of s: a text that is too long is refused before there
      are tokens; otherwise ts are its tokens, with the lengths that the memory of the new
      tokens happened to hold, and o is what the analysis makes of them. */
  ghost predicate ParsesTo(s: string, ts: seq<Tok>, o: Outcome) {
    match Tokens(s)
    case None => o == Rejected
    case Some(ls) => Fits(ts, ls) && o == Syntax(ts)
  }

  /** What it makes of a record that held r. */
  function Parsed(s: string, ts: seq<Tok>, r: UriRecord): UriRecord {
    if Tokens(s).None? then r else Write(ts, r)
  }

  /** http_parse_uri on the URI raw[..n]. */
  method ParseUri(uri: Uri, raw: array<char>, ghost n: nat)
    returns (result: int, ghost ts: seq<Tok>, ghost o: Outcome)
    requires IsText(raw[..], n)
    modifies uri
    ensures ParsesTo(raw[..n], ts, o)
    ensures (result == 0 <==> o.Accepted?) && (result == -1 <==> o == Rejected)
    ensures uri.Fields() == Parsed(raw[..n], ts, old(uri.Fields()))
    ensures o.Accepted? ==> uri.Fields() == Filled(o.uri, old(uri.Fields()))
  {
    var list := new TokList();
    ts, o := [], Rejected;
    result := LexUri(list, raw, n);
    if result == -1 {
      return;
    }
    ts := View(list);
    o := Syntax(ts);
    LexedEndsOnce(list, raw[..n]);
    result := SyntaxUri(uri, list, ts);
    if o.Accepted? {
      AcceptedIsFilled(ts, old(uri.Fields()));
    }
  }
}
