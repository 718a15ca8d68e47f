/** Which texts http_parse_uri (http.c 207-225) can make write past an array of uri_s
    (http.c 32-39), whether it accepts them or not. */
module UriArrays {
  import opened Wrappers
  import opened CStrings
  import opened UriSyntax
  import opened UriLexer
  import opened UriText
  import opened UriParser
  import opened UriRoundTrip
  import Ipv4

  /** Every string fits into its array, with its terminator. */
  predicate FitsArrays(r: UriRecord) {
    |r.scheme| < 5 && |r.user| < 64 && |r.password| < 64 && |r.host| < 128 && |r.path| < 128
  }

  predicate KeepsInside(s: string, ts: seq<Tok>, r: UriRecord) {
    FitsArrays(r) ==> FitsArrays(Parsed(s, ts, r))
  }

  /** Whatever the token lengths are, and whether or not the text is accepted, nothing is
      stored past the end of an array. */
  ghost predicate StaysInside(s: string) {
    forall ts, o, r :: ParsesTo(s, ts, o) ==> KeepsInside(s, ts, r)
  }

  // ---- On tokens ----

  predicate LongSegment(ts: seq<Tok>, i: nat, limit: nat) {
    KindAt(ts, i, SEGMENT) && |ts[i].lex| >= limit
  }

  /** The user, the password, the host, or what follows an @ behind the host is too long. */
  predicate Oversize(ts: seq<Tok>) {
    || LongSegment(ts, 3, 64) || LongSegment(ts, 5, 64) || LongSegment(ts, 7, 128)
    || (KindAt(ts, 7, SEGMENT) && KindAt(ts, 8, AT) && LongSegment(ts, 9, 128))
  }

  /** The tail behind the host token at 7 stores a path that has been measured, or the one
      behind an @. */
  lemma TailFits(ts: seq<Tok>, r: UriRecord)
    requires WellLexed(Kinds(ts)) && FitsArrays(r) && KindAt(ts, 7, SEGMENT)
    requires KindAt(ts, 8, AT) ==> !LongSegment(ts, 9, 128)
    ensures FitsArrays(WritePort(ts, 8, r))
  {
    assert |ts| > 8 ==> Kinds(ts)[7] == SEGMENT && Kinds(ts)[8] != HIER && Kinds(ts)[8] != SEGMENT;
    if |ts| > 8 && ts[8].kind == END {
      EndIsLast(ts);
      assert KindAt(ts, 8, END);
    }
  }

  lemma FrontFits(ts: seq<Tok>, r: UriRecord)
    requires WellLexed(Kinds(ts)) && FitsArrays(r) && FrontTokens(ts) && !Oversize(ts)
    ensures FitsArrays(Write(ts, r))
  {
    var named := r.(scheme := "http", user := ts[3].lex, password := ts[5].lex);
    if HostOk(ts, 7) {
      TailFits(ts, named.(host := ts[7].lex, isIpv4 := Ipv4.Scan(ts[7].lex, 0, 0).ok));
    }
  }

  lemma PortKeepsNames(ts: seq<Tok>, i: nat, r: UriRecord)
    ensures var w := WritePort(ts, i, r);
      w.user == r.user && w.password == r.password && w.host == r.host && w.scheme == r.scheme
  {
  }

  /** With lengths of 0 every test passes, and an oversized part is stored. */
  lemma FrontOverruns(ts: seq<Tok>, r: UriRecord)
    requires FrontTokens(ts) && Oversize(ts) && forall i :: 0 <= i < |ts| ==> ts[i].len == 0
    ensures !FitsArrays(Write(ts, r))
  {
    var named := r.(scheme := "http", user := ts[3].lex, password := ts[5].lex);
    assert Write(ts, r) == WriteHost(ts, 7, named);
    if HostOk(ts, 7) {
      var hosted := named.(host := ts[7].lex, isIpv4 := Ipv4.Scan(ts[7].lex, 0, 0).ok);
      assert WriteHost(ts, 7, named) == WritePort(ts, 8, hosted);
      PortKeepsNames(ts, 8, hosted);
    }
  }

  const BLANK: UriRecord := UriRecord("", "", "", "", false, 0, "")

  /** A text stays inside the arrays exactly when its tokens are none of these. */
  lemma StaysInsideTokens(s: string)
    requires Tokens(s).Some?
    ensures var ts := WithLengths(Lex(s), 0);
      StaysInside(s) <==> !(FrontTokens(ts) && Oversize(ts))
  {
    var zero := WithLengths(Lex(s), 0);
    if FrontTokens(zero) && Oversize(zero) {
      FrontOverruns(zero, BLANK);
      assert ParsesTo(s, zero, Syntax(zero)) && !KeepsInside(s, zero, BLANK);
    } else {
      forall ts, o, r | ParsesTo(s, ts, o)
        ensures KeepsInside(s, ts, r)
      {
        StaysInsideWith(s, ts, o, r);
      }
    }
  }

  lemma StaysInsideWith(s: string, ts: seq<Tok>, o: Outcome, r: UriRecord)
    requires ParsesTo(s, ts, o) && Tokens(s).Some? && !(FrontTokens(ts) && Oversize(ts))
    ensures KeepsInside(s, ts, r)
  {
    TokensWellLexed(s, ts, o);
    if FitsArrays(r) {
      if FrontTokens(ts) {
        FrontFits(ts, r);
      } else {
        StoresExactly(ts, r);
      }
    }
  }

  // ---- On texts ----

  /** The text from b on begins with a segment, up to a mark or the end. */
  predicate IsPiece(s: string, b: nat)
    requires b <= |s|
  {
    Stop(s, b) == |s| || IsMark(s[Stop(s, b)])
  }

  predicate LongPiece(s: string, b: nat, limit: nat) {
    b <= |s| && IsPiece(s, b) && Stop(s, b) - b >= limit
  }

  /** A front with an oversized user or password, or before an oversized host, or before a
      host and an @ and an oversized rest. */
  predicate LongText(s: string, h: nat, c: nat, a: nat) {
    && Front(s, h, c, a)
    && (|| c - (h + 2) >= 64
        || a - (c + 1) >= 64
        || LongPiece(s, a + 1, 128)
        || (IsPiece(s, a + 1) && Stop(s, a + 1) < |s| && s[Stop(s, a + 1)] == '@'
            && LongPiece(s, Stop(s, a + 1) + 1, 128)))
  }

  /** What the first tokens from b on are. */
  lemma PieceLexes(s: string, b: nat)
    requires 1 < b <= |s|
    ensures var e, ls := Stop(s, b), LexFrom(s, b, b);
      if !IsPiece(s, b) then ls != [] && ls[0].kind == HIER
      else if e < |s| then ls == [Lexeme(SEGMENT, s[b..e]), Mark(s[e])] + LexFrom(s, e + 1, e + 1)
      else ls == LastLexemes(s, b)
  {
    var e := Stop(s, b);
    LexSkips(s, b, b, e);
    if e < |s| && IsMark(s[e]) {
      SegmentAndMark(s, b, e);
    }
  }

  lemma PieceIsSegment(s: string, b: nat, limit: nat)
    requires 1 < b <= |s| && limit > 0
    ensures LexFrom(s, b, b) != []
    ensures LongPiece(s, b, limit) <==> LexFrom(s, b, b)[0].kind == SEGMENT && |LexFrom(s, b, b)[0].text| >= limit
  {
    PieceLexes(s, b);
  }

  /** The tokens behind a front. */
  lemma BehindFront(s: string, ts: seq<Tok>, h: nat, c: nat, a: nat, i: nat)
    requires Front(s, h, c, a) && Fits(ts, Lex(s)) && i < |LexFrom(s, a + 1, a + 1)|
    ensures 7 + i < |ts| && ts[7 + i].kind == LexFrom(s, a + 1, a + 1)[i].kind
    ensures ts[7 + i].lex == LexFrom(s, a + 1, a + 1)[i].text
  {
    FrontLexes(s, h, c, a);
  }

  lemma FrontIsTokens(s: string, ts: seq<Tok>, h: nat, c: nat, a: nat)
    requires Front(s, h, c, a) && Fits(ts, Lex(s))
    ensures FrontTokens(ts) && |ts| == 7 + |LexFrom(s, a + 1, a + 1)|
    ensures ts[3].lex == s[h + 2..c] && ts[5].lex == s[c + 1..a]
  {
    FrontLexes(s, h, c, a);
  }

  /** An @ behind the host, and a long segment behind that. */
  lemma AtIsToken(s: string, ts: seq<Tok>, h: nat, c: nat, a: nat)
    requires Front(s, h, c, a) && Fits(ts, Lex(s))
    ensures KindAt(ts, 7, SEGMENT) && KindAt(ts, 8, AT) && LongSegment(ts, 9, 128)
      <==> IsPiece(s, a + 1) && Stop(s, a + 1) < |s| && s[Stop(s, a + 1)] == '@'
           && LongPiece(s, Stop(s, a + 1) + 1, 128)
  {
    var b, e := a + 1, Stop(s, a + 1);
    FrontIsTokens(s, ts, h, c, a);
    PieceLexes(s, b);
    BehindFront(s, ts, h, c, a, 0);
    if IsPiece(s, b) && e < |s| {
      BehindFront(s, ts, h, c, a, 1);
      PieceIsSegment(s, e + 1, 128);
      BehindFront(s, ts, h, c, a, 2);
    } else if |LexFrom(s, b, b)| > 1 {
      BehindFront(s, ts, h, c, a, 1);
    }
  }

  lemma LongIsOversize(s: string, ts: seq<Tok>, h: nat, c: nat, a: nat)
    requires Front(s, h, c, a) && Fits(ts, Lex(s))
    ensures LongText(s, h, c, a) <==> Oversize(ts)
  {
    FrontIsTokens(s, ts, h, c, a);
    PieceIsSegment(s, a + 1, 128);
    BehindFront(s, ts, h, c, a, 0);
    AtIsToken(s, ts, h, c, a);
  }

  lemma TokensHaveFront(s: string, ts: seq<Tok>) returns (h: nat, c: nat, a: nat)
    requires Tokens(s).Some? && Fits(ts, Lex(s)) && FrontTokens(ts)
    ensures Front(s, h, c, a)
  {
    var kinds := KindsOf(Lex(s));
    assert forall i :: 0 <= i < 7 ==> kinds[i] == ts[i].kind == FRONT[i];
    assert kinds == FRONT + kinds[7..];
    h, c, a := FrontFound(s, kinds[7..]);
  }

  /** The texts that keep to the arrays, whatever the token lengths are, are exactly those
      without an oversized part that the analysis comes to store. */
  lemma StaysInsideExactly(s: string)
    ensures StaysInside(s) <==> !exists h: nat, c: nat, a: nat :: LongText(s, h, c, a)
  {
    if Tokens(s).Some? {
      var ts := WithLengths(Lex(s), 0);
      StaysInsideTokens(s);
      if h: nat, c: nat, a: nat :| LongText(s, h, c, a) {
        FrontIsTokens(s, ts, h, c, a);
        LongIsOversize(s, ts, h, c, a);
      }
      if FrontTokens(ts) && Oversize(ts) {
        var h, c, a := TokensHaveFront(s, ts);
        LongIsOversize(s, ts, h, c, a);
      }
    }
  }

  lemma RenderedIsOversize(u: FullUri)
    requires WellFormed(u) && Tokens(Render(u)).Some?
    ensures var ts := WithLengths(Lex(Render(u)), 0);
      FrontTokens(ts) && (Oversize(ts)
        <==> |u.user| >= 64 || |u.password| >= 64 || |u.host| >= 128)
  {
    var ts := WithLengths(Lex(Render(u)), 0);
    var c, a, p := RenderIsFull(u);
    FrontIsTokens(Render(u), ts, 5, c, a);
    FullTextLexes(Render(u), 5, c, a, p);
    assert ts[7].kind == SEGMENT && ts[8].kind == COLON;
    RenderedTokens(u, ts, Syntax(ts));
  }

  /** A full URI keeps to the arrays exactly when its user, password and host fit them, or
      it is too long to have tokens: its port and path do not matter, as those three are
      stored before them. */
  lemma KeepsToArraysExactly(u: FullUri)
    requires WellFormed(u)
    ensures StaysInside(Render(u))
      <==> (|u.user| < 64 && |u.password| < 64 && |u.host| < 128)
           || |Render(u)| >= 512
  {
    if Tokens(Render(u)).Some? {
      RenderedIsOversize(u);
      StaysInsideTokens(Render(u));
    }
  }

  /** Had the lengths been stored, every text would keep to the arrays. */
  lemma MeasuredKeepsToArrays(s: string, ts: seq<Tok>, o: Outcome, r: UriRecord)
    requires ParsesTo(s, ts, o) && Measured(ts) && FitsArrays(r)
    ensures FitsArrays(Parsed(s, ts, r))
  {
    if Tokens(s).Some? {
      MeasuredWrite(ts, r);
    }
  }

  lemma MeasuredWrite(ts: seq<Tok>, r: UriRecord)
    requires Measured(ts) && FitsArrays(r)
    ensures FitsArrays(Write(ts, r))
  {
    if SchemeOk(ts) && KindAt(ts, 2, HIER) && UserInfoAt(ts, 3).UserInfo? {
      var info := UserInfoAt(ts, 3);
      MeasuredHost(ts, info.next, r.(scheme := "http", user := info.user, password := info.password));
    }
  }

  lemma MeasuredHost(ts: seq<Tok>, i: nat, r: UriRecord)
    requires Measured(ts) && FitsArrays(r)
    ensures FitsArrays(WriteHost(ts, i, r))
  {
  }
}
