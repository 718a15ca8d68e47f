/** The grammar of http_syntax_uri (http.c 287-417, 445-493) over token sequences, and
    exactly which sequences it accepts. */
module UriSyntax {
  import opened Wrappers
  import opened CStrings
  import opened Ipv4

  const MAX_USERINFO: nat := 64
  const MAX_HOST: nat := 128
  const MAX_URI_PATH: nat := 128
  const URI_MAX_PORT: nat := 65535

  datatype Kind = SEGMENT | HIER | AT | COLON | END

  /** A token as the syntax analysis sees it.  `len` is the field of uri_tok_s, which the
      lexer never sets: nothing relates it to the lexeme until the port has been read. */
  datatype Tok = Tok(kind: Kind, lex: string, len: nat)

  /** A token list as the lexer makes it: its only END token is the last one, and a
      segment is followed by a mark or by END. */
  ghost predicate WellLexed(kinds: seq<Kind>) {
    && kinds != [] && kinds[|kinds| - 1] == END
    && (forall i :: 0 <= i < |kinds| - 1 ==> kinds[i] != END)
    && (forall i, k :: 0 <= i && k == i + 1 < |kinds| ==> kinds[i] == SEGMENT ==>
          kinds[k] != SEGMENT && kinds[k] != HIER)
  }

  function Kinds(ts: seq<Tok>): (kinds: seq<Kind>)
    ensures |kinds| == |ts| && forall i :: 0 <= i < |ts| ==> kinds[i] == ts[i].kind
  {
    seq(|ts|, i requires 0 <= i < |ts| => ts[i].kind)
  }

  /** What the analysis stores; None where it stores nothing. */
  datatype UriValue = UriValue(user: string, password: string, host: string, isIpv4: bool,
                               port: Option<nat>, path: Option<string>)

  /** NullDeref: the analysis would follow the null link behind the END token. */
  datatype Outcome = Accepted(uri: UriValue) | Rejected | NullDeref

  predicate KindAt(ts: seq<Tok>, i: nat, kind: Kind) {
    i < |ts| && ts[i].kind == kind
  }

  /** http_syntax_scheme */
  predicate SchemeOk(ts: seq<Tok>) {
    KindAt(ts, 0, SEGMENT) && KindAt(ts, 1, COLON) && ts[0].lex == "http"
  }

  /** Where http_syntax_user_info leaves the cursor, and whether it fails. */
  datatype UserInfo = TooLong | UserInfo(next: nat, user: string, password: string)

  function UserInfoAt(ts: seq<Tok>, i: nat): UserInfo {
    if !KindAt(ts, i, SEGMENT) then UserInfo(i, "", "")
    else if !KindAt(ts, i + 1, COLON) then UserInfo(i + 1, "", "")
    else if !KindAt(ts, i + 2, SEGMENT) then UserInfo(i + 2, "", "")
    else if !KindAt(ts, i + 3, AT) then UserInfo(i + 3, "", "")
    else if ts[i].len >= MAX_USERINFO || ts[i + 2].len >= MAX_USERINFO then TooLong
    else UserInfo(i + 4, ts[i].lex, ts[i + 2].lex)
  }

  predicate HostOk(ts: seq<Tok>, i: nat) {
    KindAt(ts, i, SEGMENT) && ts[i].len < MAX_HOST
  }

  /** The digits in front of the path in a port segment. */
  predicate PortText(s: string) {
    var n := DigitLen(s);
    (n == |s| || s[n] == '/') && Atoi(s) <= URI_MAX_PORT
  }

  function PathText(s: string): string {
    s[DigitLen(s)..]
  }

  /** What remains behind the port: a path segment or none, and then END. */
  datatype Tail = Ends(path: Option<string>) | Wrong | OffEnd

  function TailAt(ts: seq<Tok>, k: nat): Tail {
    if k >= |ts| then OffEnd
    else if ts[k].kind != SEGMENT then (if ts[k].kind == END then Ends(None) else Wrong)
    else if ts[k].len >= MAX_URI_PATH || !KindAt(ts, k + 1, END) then Wrong
    else Ends(Some(ts[k].lex))
  }

  function Rest(ts: seq<Tok>, k: nat, v: UriValue): Outcome {
    match TailAt(ts, k)
    case OffEnd => NullDeref
    case Wrong => Rejected
    case Ends(path) => Accepted(v.(path := path))
  }

  /** The port segment at k keeps only its path, with a length that is now set. */
  function PathToken(t: Tok): Tok {
    Tok(SEGMENT, PathText(t.lex), |PathText(t.lex)| + 1)
  }

  /** http_syntax_port and the rest of http_syntax_uri, with the cursor at i. */
  function PortAndPath(ts: seq<Tok>, i: nat, v: UriValue): Outcome {
    if !KindAt(ts, i, COLON) then Rest(ts, i + 1, v)
    else if !KindAt(ts, i + 1, SEGMENT) || !PortText(ts[i + 1].lex) then Rejected
    else Rest(ts[i + 1 := PathToken(ts[i + 1])], i + 1, v.(port := Some(Atoi(ts[i + 1].lex))))
  }

  /** The host at i, and what follows it. */
  function HostAndPort(ts: seq<Tok>, i: nat, user: string, password: string): Outcome {
    if !HostOk(ts, i) then Rejected
    else PortAndPath(ts, i + 1, UriValue(user, password, ts[i].lex, Scan(ts[i].lex, 0, 0).ok, None, None))
  }

  /** http_syntax_uri behind the two slashes. */
  function BehindSlashes(ts: seq<Tok>): Outcome {
    match UserInfoAt(ts, 3)
    case TooLong => Rejected
    case UserInfo(i, user, password) => HostAndPort(ts, i, user, password)
  }

  /** http_syntax_uri */
  function Syntax(ts: seq<Tok>): Outcome {
    if SchemeOk(ts) && KindAt(ts, 2, HIER) then BehindSlashes(ts) else Rejected
  }

  // ---- What is stored, whether or not the URI is accepted ----

  /** The fields of uri_s. */
  datatype UriRecord = UriRecord(scheme: string, user: string, password: string, host: string, isIpv4: bool,
                                 port: int, path: string)

  /** A path segment is stored before the token behind it has been looked at. */
  function WritePath(ts: seq<Tok>, k: nat, r: UriRecord): UriRecord {
    if KindAt(ts, k, SEGMENT) && ts[k].len < MAX_URI_PATH then r.(path := ts[k].lex) else r
  }

  function WritePort(ts: seq<Tok>, i: nat, r: UriRecord): UriRecord {
    if !KindAt(ts, i, COLON) then WritePath(ts, i + 1, r)
    else if !KindAt(ts, i + 1, SEGMENT) || !PortText(ts[i + 1].lex) then r
    else WritePath(ts[i + 1 := PathToken(ts[i + 1])], i + 1, r.(port := Atoi(ts[i + 1].lex)))
  }

  /** A record with the host at i in it. */
  function HostStored(ts: seq<Tok>, i: nat, r: UriRecord): UriRecord
    requires HostOk(ts, i)
  {
    r.(host := ts[i].lex, isIpv4 := Scan(ts[i].lex, 0, 0).ok)
  }

  function WriteHost(ts: seq<Tok>, i: nat, r: UriRecord): UriRecord {
    if HostOk(ts, i) then WritePort(ts, i + 1, HostStored(ts, i, r)) else r
  }

  function WriteUserInfo(ts: seq<Tok>, r: UriRecord): UriRecord {
    match UserInfoAt(ts, 3)
    case TooLong => r
    case UserInfo(i, user, password) => WriteHost(ts, i, r.(user := user, password := password))
  }

  /** What http_syntax_uri makes of a record that held r. */
  function Write(ts: seq<Tok>, r: UriRecord): UriRecord {
    if !SchemeOk(ts) then r
    else if !KindAt(ts, 2, HIER) then r.(scheme := "http")
    else WriteUserInfo(ts, r.(scheme := "http"))
  }

  /** The record with an accepted URI in it: a part that is None keeps what was there. */
  function Filled(v: UriValue, r: UriRecord): UriRecord {
    UriRecord("http", v.user, v.password, v.host, v.isIpv4,
              if v.port.Some? then v.port.value else r.port, if v.path.Some? then v.path.value else r.path)
  }

  /** An accepted URI has all its parts stored. */
  lemma AcceptedIsFilled(ts: seq<Tok>, r: UriRecord)
    requires Syntax(ts).Accepted?
    ensures Write(ts, r) == Filled(Syntax(ts).uri, r)
  {
    var i, user, password := UserInfoAt(ts, 3).next, UserInfoAt(ts, 3).user, UserInfoAt(ts, 3).password;
    assert Syntax(ts) == HostAndPort(ts, i, user, password);
    HostIsFilled(ts, i, r.(scheme := "http", user := user, password := password));
  }

  lemma HostIsFilled(ts: seq<Tok>, i: nat, r: UriRecord)
    requires HostAndPort(ts, i, r.user, r.password).Accepted? && r.scheme == "http"
    ensures WriteHost(ts, i, r) == Filled(HostAndPort(ts, i, r.user, r.password).uri, r)
  {
  }

  // ---- What a port segment is, with the limits of the analysis written out here and below ----

  /** The first n characters are the digits of a port, and the path begins behind them. */
  ghost predicate PortEnds(s: string, n: nat) {
    n <= |s| && DigitsIn(s, 0, n) && (n == |s| || s[n] == '/')
  }

  ghost predicate IsPort(s: string) {
    exists n: nat :: PortEnds(s, n) && Value(s, 0, n) <= 65535
  }

  /** A port may have no digits at all, and is 0 then. */
  lemma PortExactly(s: string)
    ensures PortText(s) <==> IsPort(s)
    ensures forall n: nat :: PortEnds(s, n) ==> Atoi(s) == Value(s, 0, n) && PathText(s) == s[n..]
  {
    forall n: nat | PortEnds(s, n)
      ensures n == DigitLen(s)
    {
      DigitLenOf(s[..n], s[n..]);
      assert s[..n] + s[n..] == s;
    }
    var n := DigitLen(s);
    assert PortText(s) ==> PortEnds(s, n);
    if PortEnds(s, n) {
      PortValue(s, n);
    }
  }

  lemma PortValue(s: string, n: nat)
    requires n == DigitLen(s)
    ensures DigitsIn(s, 0, n) && Atoi(s) == Value(s, 0, n)
  {
    assert forall k :: 0 <= k < n ==> IsDigit(s[..n][k]);
    ValueIsAtoi(s, 0, n);
    assert s[0..n] == s[..n];
    AtoiOfDigits(s[..n]);
  }

  // ---- Exactly what is accepted ----

  /** http : // user : password @ host */
  ghost predicate Authority(ts: seq<Tok>) {
    && SchemeOk(ts) && KindAt(ts, 2, HIER)
    && KindAt(ts, 3, SEGMENT) && KindAt(ts, 4, COLON) && KindAt(ts, 5, SEGMENT) && KindAt(ts, 6, AT)
    && KindAt(ts, 7, SEGMENT)
    && ts[3].len < 64 && ts[5].len < 64 && ts[7].len < 128
  }

  /** ... : port/path, and nothing more. */
  ghost predicate FullForm(ts: seq<Tok>) {
    && Authority(ts) && |ts| == 11 && KindAt(ts, 8, COLON) && KindAt(ts, 9, SEGMENT)
    && IsPort(ts[9].lex) && |PathText(ts[9].lex)| + 1 < 128
  }

  /** ... and an @ where the colon would be, which is skipped, with or without one more
      segment behind it. */
  ghost predicate SkippedForm(ts: seq<Tok>) {
    && Authority(ts) && KindAt(ts, 8, AT)
    && (|ts| == 10 || (|ts| == 11 && KindAt(ts, 9, SEGMENT) && ts[9].len < 128))
  }

  function AuthorityValue(ts: seq<Tok>): UriValue
    requires |ts| > 7
  {
    UriValue(ts[3].lex, ts[5].lex, ts[7].lex, Scan(ts[7].lex, 0, 0).ok, None, None)
  }

  /** Without a complete user:password@ the analysis always fails: it does not back up
      over the segments it has read in looking for one. */
  lemma UserInfoIsRequired(ts: seq<Tok>)
    requires WellLexed(Kinds(ts)) && !Authority(ts)
    ensures Syntax(ts) == Rejected
  {
    assert Kinds(ts)[|ts| - 1] == END;
    assert |ts| > 4 ==> Kinds(ts)[3] != SEGMENT || Kinds(ts)[4] != SEGMENT;
    assert |ts| > 6 ==> Kinds(ts)[5] != SEGMENT || Kinds(ts)[6] != SEGMENT;
  }

  lemma AuthoritySyntax(ts: seq<Tok>)
    requires Authority(ts)
    ensures Syntax(ts) == PortAndPath(ts, 8, AuthorityValue(ts))
  {
  }

  /** The three ways a token list can end well or badly. */
  lemma SyntaxExactly(ts: seq<Tok>)
    requires WellLexed(Kinds(ts))
    ensures Syntax(ts).Accepted? <==> FullForm(ts) || SkippedForm(ts)
    ensures Syntax(ts) == NullDeref <==> Authority(ts) && |ts| == 9
    ensures FullForm(ts) ==>
      Syntax(ts).uri == AuthorityValue(ts).(port := Some(Atoi(ts[9].lex)), path := Some(PathText(ts[9].lex)))
    ensures SkippedForm(ts) ==>
      Syntax(ts).uri == AuthorityValue(ts).(path := if |ts| == 11 then Some(ts[9].lex) else None)
  {
    if Authority(ts) {
      AuthoritySyntax(ts);
      if |ts| > 9 {
        PortExactly(ts[9].lex);
      }
      EndIsLast(ts);
      assert |ts| > 8 ==> Kinds(ts)[7] == SEGMENT && Kinds(ts)[8] != HIER;
    } else {
      UserInfoIsRequired(ts);
    }
  }

  lemma EndIsLast(ts: seq<Tok>)
    requires WellLexed(Kinds(ts))
    ensures forall i: nat :: KindAt(ts, i, END) <==> i == |ts| - 1
  {
    assert forall i :: 0 <= i < |ts| ==> Kinds(ts)[i] == ts[i].kind;
  }

  // ---- Exactly what is stored, accepted or not ----

  /** http : // user : password @ */
  predicate FrontTokens(ts: seq<Tok>) {
    && SchemeOk(ts) && KindAt(ts, 2, HIER)
    && KindAt(ts, 3, SEGMENT) && KindAt(ts, 4, COLON) && KindAt(ts, 5, SEGMENT) && KindAt(ts, 6, AT)
  }

  /** The record with what the seven tokens of the front and the host token say. */
  function Named(ts: seq<Tok>, r: UriRecord): UriRecord
    requires |ts| > 7
  {
    UriRecord("http", ts[3].lex, ts[5].lex, ts[7].lex, Scan(ts[7].lex, 0, 0).ok, r.port, r.path)
  }

  /** An analysis that fails has stored the parts before the failure: the scheme; empty
      strings where there is no complete user:password@, and otherwise both or neither;
      and then the host. */
  lemma StoresExactly(ts: seq<Tok>, r: UriRecord)
    requires WellLexed(Kinds(ts))
    ensures !SchemeOk(ts) ==> Write(ts, r) == r
    ensures SchemeOk(ts) && !KindAt(ts, 2, HIER) ==> Write(ts, r) == r.(scheme := "http")
    ensures SchemeOk(ts) && KindAt(ts, 2, HIER) && !FrontTokens(ts) ==>
      Write(ts, r) == r.(scheme := "http", user := "", password := "")
    ensures FrontTokens(ts) && (ts[3].len >= 64 || ts[5].len >= 64) ==> Write(ts, r) == r.(scheme := "http")
    ensures FrontTokens(ts) && ts[3].len < 64 && ts[5].len < 64 && !Authority(ts) ==>
      Write(ts, r) == r.(scheme := "http", user := ts[3].lex, password := ts[5].lex)
    ensures Authority(ts) ==> Write(ts, r) == WritePort(ts, 8, Named(ts, r))
  {
    assert |ts| > 4 ==> Kinds(ts)[3] == SEGMENT ==> Kinds(ts)[4] != SEGMENT && Kinds(ts)[4] != HIER;
    assert |ts| > 6 ==> Kinds(ts)[5] == SEGMENT ==> Kinds(ts)[6] != SEGMENT && Kinds(ts)[6] != HIER;
  }

  /** A colon and a port behind the host. */
  ghost predicate PortBehind(ts: seq<Tok>) {
    KindAt(ts, 8, COLON) && KindAt(ts, 9, SEGMENT) && IsPort(ts[9].lex)
  }

  /** An @ and a path behind the host. */
  ghost predicate AtBehind(ts: seq<Tok>) {
    KindAt(ts, 8, AT) && KindAt(ts, 9, SEGMENT) && ts[9].len < 128
  }

  /** Behind the host it has stored a port with its path, unless that is too long, or what
      follows a second @, or nothing. */
  lemma StoresBehindHost(ts: seq<Tok>, r: UriRecord)
    requires WellLexed(Kinds(ts)) && Authority(ts)
    ensures PortBehind(ts) ==>
      var path := PathText(ts[9].lex);
      Write(ts, r) == Named(ts, r).(port := Atoi(ts[9].lex), path := if |path| + 1 < 128 then path else r.path)
    ensures AtBehind(ts) ==> Write(ts, r) == Named(ts, r).(path := ts[9].lex)
    ensures !PortBehind(ts) && !AtBehind(ts) ==> Write(ts, r) == Named(ts, r)
  {
    StoresExactly(ts, r);
    assert |ts| > 8 ==> Kinds(ts)[7] == SEGMENT && Kinds(ts)[8] != HIER && Kinds(ts)[8] != SEGMENT;
    if |ts| > 9 {
      PortExactly(ts[9].lex);
    }
    if |ts| > 8 && ts[8].kind == END {
      EndIsLast(ts);
      assert KindAt(ts, 8, END);
    }
  }
}
