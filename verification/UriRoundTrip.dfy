/** What http_parse_uri (http.c 207-225) makes of a URI text: which texts it accepts with
    a port, and that it returns the parts a full URI was put together from. */
module UriRoundTrip {
  import opened Wrappers
  import opened CStrings
  import opened UriSyntax
  import opened UriLexer
  import opened UriText
  import opened UriParser
  import Ipv4

  /** The limits on the tokens of a full URI.  The port token's length is set by the
      analysis itself; the others are what the lexer left in them. */
  ghost predicate InLimits(ts: seq<Tok>)
    requires |ts| == 11
  {
    && ts[3].len < 64 && ts[5].len < 64 && ts[7].len < 128
    && IsPort(ts[9].lex) && |PathText(ts[9].lex)| + 1 < 128
  }

  /** The parts of a full text. */
  function Parts(s: string, h: nat, c: nat, a: nat, p: nat): UriValue
    requires FullText(s, h, c, a, p)
  {
    UriValue(s[h + 2..c], s[c + 1..a], s[a + 1..p], Ipv4.Scan(s[a + 1..p], 0, 0).ok,
             Some(Atoi(s[p + 1..])), Some(PathText(s[p + 1..])))
  }

  /** What the analysis needs to know of the tokens of a text. */
  lemma TokensWellLexed(s: string, ts: seq<Tok>, o: Outcome)
    requires ParsesTo(s, ts, o) && Tokens(s).Some?
    ensures WellLexed(Kinds(ts)) && Kinds(ts) == KindsOf(Tokens(s).value)
  {
    LexFromWellLexed(s, 0, 0);
    FitsWellLexed(ts, Lex(s));
  }

  lemma FullTokensSyntax(ts: seq<Tok>)
    requires WellLexed(Kinds(ts)) && Kinds(ts) == FULL && ts[0].lex == "http"
    ensures |ts| == 11 && Syntax(ts) ==
      if InLimits(ts) then
        Accepted(AuthorityValue(ts).(port := Some(Atoi(ts[9].lex)), path := Some(PathText(ts[9].lex))))
      else Rejected
  {
    assert |ts| == 11;
    SyntaxExactly(ts);
  }

  /** A full text is accepted exactly within the limits, and gives its parts. */
  lemma FullTextSyntax(s: string, ts: seq<Tok>, o: Outcome, h: nat, c: nat, a: nat, p: nat)
    requires ParsesTo(s, ts, o) && FullText(s, h, c, a, p)
    ensures |ts| == 11 && o == if InLimits(ts) then Accepted(Parts(s, h, c, a, p)) else Rejected
  {
    FullTextLexes(s, h, c, a, p);
    TokensWellLexed(s, ts, o);
    assert Kinds(ts) == FULL;
    FullTokensSyntax(ts);
  }

  lemma FullIsText(s: string, ts: seq<Tok>)
    requires Tokens(s).Some? && Fits(ts, Tokens(s).value) && WellLexed(Kinds(ts)) && FullForm(ts)
    ensures exists h: nat, c: nat, a: nat, p: nat :: FullText(s, h, c, a, p)
  {
    EndIsLast(ts);
    assert KindAt(ts, 10, END);
    assert KindsOf(Lex(s)) == FULL;
    var h, c, a, p := FullTextFound(s);
  }

  /** A text is accepted with a port exactly when it is a full text within the limits. */
  lemma AcceptsWithPortExactly(s: string, ts: seq<Tok>, o: Outcome)
    requires ParsesTo(s, ts, o)
    ensures o.Accepted? && o.uri.port.Some?
      <==> |ts| == 11 && InLimits(ts) && exists h: nat, c: nat, a: nat, p: nat :: FullText(s, h, c, a, p)
  {
    if h: nat, c: nat, a: nat, p: nat :| FullText(s, h, c, a, p) {
      FullTextSyntax(s, ts, o, h, c, a, p);
    }
    if o.Accepted? && o.uri.port.Some? {
      TokensWellLexed(s, ts, o);
      SyntaxExactly(ts);
      FullIsText(s, ts);
    }
  }

  /** The limits on the tokens of a text with a second @; the last segment is optional. */
  ghost predicate InSkippedLimits(ts: seq<Tok>) {
    && (|ts| == 10 || (|ts| == 11 && ts[9].len < 128))
    && ts[3].len < 64 && ts[5].len < 64 && ts[7].len < 128
  }

  /** The parts of such a text: no port, and what follows the second @ as the path. */
  function SkippedParts(s: string, h: nat, c: nat, a: nat, p: nat): UriValue
    requires SkippedText(s, h, c, a, p)
  {
    UriValue(s[h + 2..c], s[c + 1..a], s[a + 1..p], Ipv4.Scan(s[a + 1..p], 0, 0).ok,
             None, if p + 1 < |s| then Some(s[p + 1..]) else None)
  }

  lemma SkippedTextSyntax(s: string, ts: seq<Tok>, o: Outcome, h: nat, c: nat, a: nat, p: nat)
    requires ParsesTo(s, ts, o) && SkippedText(s, h, c, a, p)
    ensures o == if InSkippedLimits(ts) then Accepted(SkippedParts(s, h, c, a, p)) else Rejected
  {
    SkippedTextLexes(s, h, c, a, p);
    TokensWellLexed(s, ts, o);
    SyntaxExactly(ts);
  }

  lemma SkippedIsText(s: string, ts: seq<Tok>)
    requires Tokens(s).Some? && Fits(ts, Tokens(s).value) && WellLexed(Kinds(ts)) && SkippedForm(ts)
    ensures exists h: nat, c: nat, a: nat, p: nat :: SkippedText(s, h, c, a, p)
  {
    EndIsLast(ts);
    assert KindAt(ts, |ts| - 1, END);
    assert KindsOf(Lex(s)) == if |ts| == 10 then SKIPPED else SKIPPED_PATH;
    var h, c, a, p := SkippedTextFound(s);
  }

  /** The accepted texts without a port are exactly those with a second @ behind the host,
      within the limits: the @ is taken for the missing port and skipped. */
  lemma AcceptsWithoutPortExactly(s: string, ts: seq<Tok>, o: Outcome)
    requires ParsesTo(s, ts, o)
    ensures o.Accepted? && o.uri.port.None?
      <==> InSkippedLimits(ts) && exists h: nat, c: nat, a: nat, p: nat :: SkippedText(s, h, c, a, p)
  {
    if h: nat, c: nat, a: nat, p: nat :| SkippedText(s, h, c, a, p) {
      SkippedTextSyntax(s, ts, o, h, c, a, p);
    }
    if o.Accepted? && o.uri.port.None? {
      TokensWellLexed(s, ts, o);
      SyntaxExactly(ts);
      SkippedIsText(s, ts);
    }
  }

  /** Tokens with these lexemes whose lengths are all n. */
  function WithLengths(ls: seq<Lexeme>, n: nat): (ts: seq<Tok>)
    ensures Fits(ts, ls) && forall i :: 0 <= i < |ts| ==> ts[i].len == n
  {
    seq(|ls|, i requires 0 <= i < |ls| => Tok(ls[i].kind, ls[i].text, n))
  }

  /** On a text that ends with the host the analysis follows the null link behind the END
      token exactly when the three lengths pass. */
  lemma RunsOffWhen(s: string, ts: seq<Tok>, o: Outcome, h: nat, c: nat, a: nat)
    requires ParsesTo(s, ts, o) && PortlessText(s, h, c, a)
    ensures |ts| == 9
    ensures o == if ts[3].len < 64 && ts[5].len < 64 && ts[7].len < 128 then NullDeref else Rejected
  {
    PortlessExactly(s);
    TokensWellLexed(s, ts, o);
    assert |KindsOf(Lex(s))| == 9;
    assert forall i :: 0 <= i < 9 ==> ts[i].kind == PORTLESS[i];
    SyntaxExactly(ts);
  }

  lemma NullIsPortless(s: string, ts: seq<Tok>)
    requires ParsesTo(s, ts, NullDeref)
    ensures exists h: nat, c: nat, a: nat :: PortlessText(s, h, c, a)
  {
    TokensWellLexed(s, ts, NullDeref);
    SyntaxExactly(ts);
    EndIsLast(ts);
    assert KindAt(ts, 8, END);
    assert KindsOf(Lex(s)) == PORTLESS;
    PortlessExactly(s);
  }

  /** The texts on which http_parse_uri can follow that null link are exactly those. */
  lemma RunsOffExactly(s: string)
    ensures (exists ts :: ParsesTo(s, ts, NullDeref)) <==> exists h: nat, c: nat, a: nat :: PortlessText(s, h, c, a)
  {
    if ts :| ParsesTo(s, ts, NullDeref) {
      NullIsPortless(s, ts);
    }
    if h: nat, c: nat, a: nat :| PortlessText(s, h, c, a) {
      var ts := WithLengths(Lex(s), 0);
      RunsOffWhen(s, ts, Syntax(ts), h, c, a);
      assert ParsesTo(s, ts, NullDeref);
    }
  }

  lemma {:induction false} NoAtToken(s: string, b: nat, f: nat)
    requires b <= f <= |s| && '@' !in s
    ensures forall l :: l in LexFrom(s, b, f) ==> l.kind != AT
    decreases |s| - f
  {
    if f == |s| {
    } else if IsMark(s[f]) {
      NoAtToken(s, f + 1, f + 1);
    } else if SlashesAt(s, f) {
      NoAtToken(s, f + 2, f + 2);
    } else {
      NoAtToken(s, b, f + 1);
    }
  }

  /** Every URI without user information is rejected, whatever the lengths are. */
  lemma WithoutUserInfo(s: string, ts: seq<Tok>, o: Outcome)
    requires '@' !in s && ParsesTo(s, ts, o)
    ensures o == Rejected
  {
    if Tokens(s).Some? {
      NoAtToken(s, 0, 0);
      assert |ts| > 6 ==> Lex(s)[6] in Lex(s);
      TokensWellLexed(s, ts, o);
      UserInfoIsRequired(ts);
    }
  }

  // ---- Putting a URI together and taking it apart ----

  datatype FullUri = FullUri(user: string, password: string, host: string, port: nat, path: string)

  function Render(u: FullUri): string {
    "http://" + (u.user + ([':'] + (u.password + (['@'] + (u.host + ([':'] + (Decimal(u.port) + u.path)))))))
  }

  /** None of the lexer's delimiters is in the part. */
  predicate DelimiterFree(part: string) {
    Plain(part, 0, |part|)
  }

  predicate WellFormed(u: FullUri) {
    && DelimiterFree(u.user) && DelimiterFree(u.password) && DelimiterFree(u.host) && DelimiterFree(u.path)
    && (u.path == "" || u.path[0] == '/')
  }

  function Returned(u: FullUri): UriValue {
    UriValue(u.user, u.password, u.host, Ipv4.Scan(u.host, 0, 0).ok, Some(u.port), Some(u.path))
  }

  /** A delimiter-free part with a mark behind it, as it stands in the whole text. */
  lemma PartAt(s: string, i: nat, part: string, mark: char, after: string) returns (j: nat)
    requires i <= |s| && s[i..] == part + ([mark] + after) && DelimiterFree(part) && IsMark(mark)
    ensures Plain(s, i, j) && s[i..j] == part && j < |s| && s[j] == mark && s[j + 1..] == after
  {
    j := i + |part|;
    assert forall k :: i <= k < j ==> s[k] == s[i..][k - i] == part[k - i];
    assert s[j] == s[i..][|part|] == mark;
    assert s[j + 1..] == s[i..][|part| + 1..];
    forall k | i <= k < j ensures !IsMark(s[k]) && !SlashesAt(s, k) {
      assert !SlashesAt(part, k - i);
    }
  }

  lemma DigitsArePlain(digits: string, path: string)
    requires AllDigits(digits) && DelimiterFree(path)
    ensures DelimiterFree(digits + path)
  {
    forall k | 0 <= k < |digits + path| ensures !IsMark((digits + path)[k]) && !SlashesAt(digits + path, k) {
      if k >= |digits| {
        assert !IsMark(path[k - |digits|]) && !SlashesAt(path, k - |digits|);
      }
    }
  }

  lemma RenderFront(s: string, user: string, password: string, rest: string) returns (c: nat, a: nat)
    requires s == "http://" + (user + ([':'] + (password + (['@'] + rest))))
    requires |s| < URI_BUF_SIZE && DelimiterFree(user) && DelimiterFree(password)
    ensures Front(s, 5, c, a) && s[7..c] == user && s[c + 1..a] == password && s[a + 1..] == rest
  {
    assert s[..5] == "http:";
    assert s[7..] == user + ([':'] + (password + (['@'] + rest)));
    c := PartAt(s, 7, user, ':', password + (['@'] + rest));
    a := PartAt(s, c + 1, password, '@', rest);
  }

  /** The rendered URI is a full text with these parts, unless it is too long. */
  lemma RenderIsFull(u: FullUri) returns (c: nat, a: nat, p: nat)
    requires WellFormed(u) && |Render(u)| < URI_BUF_SIZE
    ensures var s := Render(u);
      && FullText(s, 5, c, a, p) && s[7..c] == u.user && s[c + 1..a] == u.password
      && s[a + 1..p] == u.host && s[p + 1..] == Decimal(u.port) + u.path
  {
    var s, last := Render(u), Decimal(u.port) + u.path;
    c, a := RenderFront(s, u.user, u.password, u.host + ([':'] + last));
    p := PartAt(s, a + 1, u.host, ':', last);
    DigitsArePlain(Decimal(u.port), u.path);
    LastIsPlain(s, p + 1, last);
  }

  lemma LastIsPlain(s: string, i: nat, last: string)
    requires i <= |s| && s[i..] == last && DelimiterFree(last)
    ensures Plain(s, i, |s|)
  {
    forall k | i <= k < |s| ensures !IsMark(s[k]) && !SlashesAt(s, k) {
      assert s[k] == last[k - i] && !SlashesAt(last, k - i);
      assert k + 1 < |s| ==> s[k + 1] == last[k + 1 - i];
    }
  }

  lemma PortReadsBack(port: nat, path: string)
    requires path == "" || path[0] == '/'
    ensures var s := Decimal(port) + path;
      Atoi(s) == port && PathText(s) == path && (IsPort(s) <==> port <= 65535)
  {
    var digits, s := Decimal(port), Decimal(port) + path;
    DigitLenOf(digits, path);
    assert s[..|digits|] == digits && s[|digits|..] == path;
    DecimalRoundTrip(port);
    AtoiOfDigits(digits);
    PortExactly(s);
  }

  /** The rendered URI has one token for each part, but one for port and path together. */
  lemma RenderedTokens(u: FullUri, ts: seq<Tok>, o: Outcome)
    requires WellFormed(u) && |Render(u)| < URI_BUF_SIZE && ParsesTo(Render(u), ts, o)
    ensures |ts| == 11 && ts[3].lex == u.user && ts[5].lex == u.password && ts[7].lex == u.host
    ensures ts[9].lex == Decimal(u.port) + u.path
  {
    var c, a, p := RenderIsFull(u);
    FullTextLexes(Render(u), 5, c, a, p);
  }

  lemma RenderedSyntax(u: FullUri, ts: seq<Tok>, o: Outcome)
    requires WellFormed(u) && |Render(u)| < URI_BUF_SIZE && ParsesTo(Render(u), ts, o)
    ensures |ts| == 11 && o == if InLimits(ts) then Accepted(Returned(u)) else Rejected
  {
    var c, a, p := RenderIsFull(u);
    FullTextSyntax(Render(u), ts, o, 5, c, a, p);
    PortReadsBack(u.port, u.path);
    assert Parts(Render(u), 5, c, a, p) == Returned(u);
  }

  /** The limits that do not depend on what the lexer has left in the tokens. */
  predicate Parsable(u: FullUri) {
    |Render(u)| < 512 && u.port <= 65535 && |u.path| + 1 < 128
  }

  ghost predicate LengthsPass(ts: seq<Tok>) {
    |ts| == 11 && ts[3].len < 64 && ts[5].len < 64 && ts[7].len < 128
  }

  /** Rendering a URI from delimiter-free parts and parsing it returns exactly these
      parts, if and only if the whole text, the port and the path are short enough, and
      the lengths that the lexer has left in three tokens happen to be. */
  lemma RoundTripExactly(u: FullUri, ts: seq<Tok>, o: Outcome)
    requires WellFormed(u) && ParsesTo(Render(u), ts, o)
    ensures o == if Parsable(u) && LengthsPass(ts) then Accepted(Returned(u)) else Rejected
  {
    if |Render(u)| < URI_BUF_SIZE {
      RenderedSyntax(u, ts, o);
      RenderedTokens(u, ts, o);
      PortReadsBack(u.port, u.path);
    }
  }

  /** Tokens whose lengths are those of their copies, as http_add_token is told them. */
  ghost predicate Measured(ts: seq<Tok>) {
    forall i :: 0 <= i < |ts| ==> ts[i].len == |ts[i].lex| + 1
  }

  /** Each part fits its field with room to spare, as the tests demand. */
  predicate PartsPass(u: FullUri) {
    && |u.user| + 1 < 64 && |u.password| + 1 < 64 && |u.host| + 1 < 128
    && u.port <= 65535 && |u.path| + 1 < 128
  }

  /** Parts that pass make a text that is not too long. */
  lemma PartsAreShort(u: FullUri)
    requires PartsPass(u)
    ensures Parsable(u)
  {
    assert Pow10(3) == 1000 && Pow10(5) == 100 * Pow10(3);
    DecimalLength(u.port, 5);
    assert |Render(u)| == 10 + |u.user| + |u.password| + |u.host| + |Decimal(u.port)| + |u.path|;
  }

  /** Had the lengths been stored, parsing would give back the parts exactly when each of
      them fits into its field. */
  lemma RoundTripMeasured(u: FullUri, ts: seq<Tok>, o: Outcome)
    requires WellFormed(u) && ParsesTo(Render(u), ts, o) && Measured(ts)
    ensures o == if PartsPass(u) then Accepted(Returned(u)) else Rejected
  {
    RoundTripExactly(u, ts, o);
    if Parsable(u) {
      RenderedTokens(u, ts, o);
    }
    if PartsPass(u) {
      PartsAreShort(u);
    }
  }

  lemma CanBeRejected(u: FullUri) returns (ts: seq<Tok>)
    requires WellFormed(u)
    ensures ParsesTo(Render(u), ts, Rejected)
  {
    ts := WithLengths(Lex(Render(u)), MAX_HOST);
    if Tokens(Render(u)).Some? {
      RoundTripExactly(u, ts, Syntax(ts));
    }
  }

  lemma CanBeAccepted(u: FullUri) returns (ts: seq<Tok>)
    requires WellFormed(u) && Parsable(u)
    ensures ParsesTo(Render(u), ts, Accepted(Returned(u)))
  {
    ts := WithLengths(Lex(Render(u)), 0);
    RenderedTokens(u, ts, Syntax(ts));
    RoundTripExactly(u, ts, Syntax(ts));
  }

  ghost predicate Acceptable(s: string) {
    exists ts, o :: ParsesTo(s, ts, o) && o.Accepted?
  }

  /** As they are not stored, every such URI can be rejected for what memory held before,
      and it can be accepted exactly within the other limits. */
  lemma LengthsDecide(u: FullUri)
    requires WellFormed(u)
    ensures exists ts :: ParsesTo(Render(u), ts, Rejected)
    ensures Acceptable(Render(u)) <==> Parsable(u)
    ensures Parsable(u) ==> exists ts :: ParsesTo(Render(u), ts, Accepted(Returned(u)))
  {
    var bad := CanBeRejected(u);
    if Parsable(u) {
      var good := CanBeAccepted(u);
      assert ParsesTo(Render(u), good, Accepted(Returned(u)));
    }
    if ts, o :| ParsesTo(Render(u), ts, o) && o.Accepted? {
      RoundTripExactly(u, ts, o);
    }
  }
}
