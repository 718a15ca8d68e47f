/** The HTTP request line of http.c (104-177); its form is that of section 3 of RFC 9112. */
module RequestLine {
  import opened CStrings
  import opened Buffers

  const MAX_METHOD_LEN: nat := 16
  const MAX_URI_LEN: nat := 2048
  const MAX_VERSION_LEN: nat := 16
  const HTTP_BAD_REQUEST: int := -2
  const HTTP_UNSUPPORTED_METHOD: int := -3

  const SUPPORTED_METHODS: seq<string> := ["GET", "POST"]

  // ---- What a request line is to give ----

  /** Where the delimiter of a field of fewer than `limit` characters is. */
  datatype Field = Found(at: nat) | TooLong | RunsOff

  function FieldAt(memory: seq<char>, p: nat, stop: char, limit: nat): (f: Field)
    requires p <= |memory|
    ensures f.Found? ==> p <= f.at < |memory|
    decreases limit
  {
    if limit == 0 then TooLong
    else if p == |memory| then RunsOff
    else if memory[p] == stop then Found(p)
    else FieldAt(memory, p + 1, stop, limit - 1)
  }

  /** The C string at the start of some memory. */
  function CString(s: seq<char>): string {
    if s == [] || s[0] == NUL then "" else [s[0]] + CString(s[1..])
  }

  predicate IsSupported(verb: seq<char>) {
    CString(verb) in SUPPORTED_METHODS
  }

  /** RunsOffEnd: the parser would read past the memory it was given. */
  datatype Outcome =
    | Parsed(verb: seq<char>, uri: seq<char>, version: seq<char>, next: nat)
    | BadRequest
    | UnsupportedMethod
    | RunsOffEnd

  function Version(memory: seq<char>, p: nat, verb: seq<char>, uri: seq<char>): Outcome
    requires p <= |memory|
  {
    match FieldAt(memory, p, '\r', MAX_VERSION_LEN)
    case RunsOff => RunsOffEnd
    case TooLong => BadRequest
    case Found(n) =>
      if n + 1 == |memory| then RunsOffEnd
      else if memory[n + 1] != '\n' then BadRequest
      else Parsed(verb, uri, memory[p..n], n + 2)
  }

  function Uri(memory: seq<char>, p: nat, verb: seq<char>): Outcome
    requires p <= |memory|
  {
    match FieldAt(memory, p, ' ', MAX_URI_LEN)
    case RunsOff => RunsOffEnd
    case TooLong => BadRequest
    case Found(n) => Version(memory, n + 1, verb, memory[p..n])
  }

  /** The outcome of parsing with the cursor at p. */
  function Parse(memory: seq<char>, p: nat): Outcome
    requires p <= |memory|
  {
    match FieldAt(memory, p, ' ', MAX_METHOD_LEN)
    case RunsOff => RunsOffEnd
    case TooLong => BadRequest
    case Found(n) => if IsSupported(memory[p..n]) then Uri(memory, n + 1, memory[p..n]) else UnsupportedMethod
  }

  /** The field at p ends at n: there is its first delimiter, within the limit. */
  ghost predicate Ends(memory: seq<char>, p: nat, stop: char, limit: nat, n: nat) {
    p <= n < p + limit && n < |memory| && memory[n] == stop && forall k :: p <= k < n ==> memory[k] != stop
  }

  /** The first `limit` characters at p are all there, with no delimiter among them. */
  ghost predicate Overlong(memory: seq<char>, p: nat, stop: char, limit: nat) {
    p + limit <= |memory| && forall k :: p <= k < p + limit ==> memory[k] != stop
  }

  lemma {:induction false} FieldExactly(memory: seq<char>, p: nat, stop: char, limit: nat, n: nat)
    requires p <= |memory|
    ensures FieldAt(memory, p, stop, limit) == Found(n) <==> Ends(memory, p, stop, limit, n)
    decreases limit
  {
    if limit > 0 && p < |memory| && memory[p] != stop {
      FieldExactly(memory, p + 1, stop, limit - 1, n);
    }
  }

  lemma {:induction false} OverlongExactly(memory: seq<char>, p: nat, stop: char, limit: nat)
    requires p <= |memory|
    ensures FieldAt(memory, p, stop, limit) == TooLong <==> Overlong(memory, p, stop, limit)
    decreases limit
  {
    if limit > 0 && p < |memory| && memory[p] != stop {
      OverlongExactly(memory, p + 1, stop, limit - 1);
    }
  }

  /** The text of a request line, up to and including its CRLF. */
  function Line(verb: seq<char>, uri: seq<char>, version: seq<char>): seq<char> {
    verb + " " + uri + " " + version + "\r\n"
  }

  /** A supported method, as far as a comparison that stops at a NUL can tell. */
  predicate NamesMethod(verb: seq<char>) {
    verb == "GET" || verb == "POST" || "GET\0" <= verb || "POST\0" <= verb
  }

  ghost predicate Acceptable(verb: seq<char>, uri: seq<char>, version: seq<char>) {
    && ' ' !in verb && |verb| < 16 && NamesMethod(verb)
    && ' ' !in uri && |uri| < 2048
    && '\r' !in version && |version| < 16
  }

  lemma {:induction false} CStringIsPrefix(s: seq<char>)
    ensures CString(s) <= s && NUL !in CString(s)
    ensures CString(s) == s || CString(s) + [NUL] <= s
  {
    if s != [] && s[0] != NUL {
      CStringIsPrefix(s[1..]);
      assert CString(s)[1..] == CString(s[1..]);
    }
  }

  lemma {:induction false} CStringEnds(s: seq<char>, m: string)
    requires NUL !in m && m <= s && (m == s || s[|m|] == NUL)
    ensures CString(s) == m
    decreases |s|
  {
    if m != "" {
      assert m == [m[0]] + m[1..];
      CStringEnds(s[1..], m[1..]);
    }
  }

  /** The comparison stops at a NUL, so a supported method is one of the two names,
      or one of them followed by a NUL and anything else. */
  lemma SupportedExactly(verb: seq<char>)
    ensures IsSupported(verb) <==> NamesMethod(verb)
  {
    NameEnds(verb, "GET");
    NameEnds(verb, "POST");
    assert "GET\0" == "GET" + [NUL] && "POST\0" == "POST" + [NUL];
    assert SUPPORTED_METHODS[0] == "GET" && SUPPORTED_METHODS[1] == "POST";
  }

  lemma NameEnds(verb: seq<char>, m: string)
    requires NUL !in m
    ensures CString(verb) == m <==> verb == m || m + [NUL] <= verb
  {
    CStringIsPrefix(verb);
    if m + [NUL] <= verb {
      assert verb[|m|] == (m + [NUL])[|m|] && m == verb[..|m|];
    }
    if verb == m || m + [NUL] <= verb {
      CStringEnds(verb, m);
    }
  }

  /** The line stands in memory at p, its URI at u and its version at v. */
  ghost predicate Stands(memory: seq<char>, p: nat, u: nat, v: nat, end: nat) {
    && p < u < v < end - 1 < |memory|
    && memory[u - 1] == ' ' && memory[v - 1] == ' ' && memory[end - 2] == '\r' && memory[end - 1] == '\n'
  }

  lemma LineStands(memory: seq<char>, p: nat, u: nat, v: nat, end: nat)
    requires Stands(memory, p, u, v, end)
    ensures memory[p..end] == Line(memory[p..u - 1], memory[u..v - 1], memory[v..end - 2])
  {
  }

  lemma StandsLine(memory: seq<char>, p: nat, verb: seq<char>, uri: seq<char>, version: seq<char>, end: nat)
    requires p <= end <= |memory| && memory[p..end] == Line(verb, uri, version)
    ensures var u := p + |verb| + 1;
      var v := u + |uri| + 1;
      && Stands(memory, p, u, v, end)
      && memory[p..u - 1] == verb && memory[u..v - 1] == uri && memory[v..end - 2] == version
  {
    var line := Line(verb, uri, version);
    var u := p + |verb| + 1;
    var v := u + |uri| + 1;
    assert forall k :: p <= k < end ==> memory[k] == line[k - p];
    assert line[|verb|] == ' ' && line[|verb| + 1 + |uri|] == ' ';
    assert memory[p..u - 1] == line[..|verb|];
    assert memory[u..v - 1] == line[|verb| + 1..|verb| + 1 + |uri|];
    assert memory[v..end - 2] == line[|verb| + |uri| + 2..|line| - 2];
  }

  lemma NotIn(memory: seq<char>, a: nat, b: nat, c: char)
    requires a <= b <= |memory|
    ensures c !in memory[a..b] <==> forall k :: a <= k < b ==> memory[k] != c
  {
    if c !in memory[a..b] {
      assert forall k :: a <= k < b ==> memory[a..b][k - a] == memory[k];
    }
  }

  /** A field that ends at n, short enough and without its delimiter inside, is found,
      and what is found is such a field. */
  lemma FieldIs(memory: seq<char>, p: nat, stop: char, limit: nat, n: nat)
    requires p <= n < |memory|
    ensures FieldAt(memory, p, stop, limit) == Found(n) <==>
      n - p < limit && memory[n] == stop && stop !in memory[p..n]
  {
    NotIn(memory, p, n, stop);
    FieldExactly(memory, p, stop, limit, n);
  }

  lemma VersionParses(memory: seq<char>, v: nat, end: nat, verb: seq<char>, uri: seq<char>)
    requires v + 2 <= end <= |memory| && memory[end - 2] == '\r' && memory[end - 1] == '\n'
    requires '\r' !in memory[v..end - 2] && end - 2 - v < MAX_VERSION_LEN
    ensures Version(memory, v, verb, uri) == Parsed(verb, uri, memory[v..end - 2], end)
  {
    FieldIs(memory, v, '\r', MAX_VERSION_LEN, end - 2);
  }

  lemma UriParses(memory: seq<char>, u: nat, v: nat, end: nat, verb: seq<char>)
    requires u < v && v + 2 <= end <= |memory|
    requires memory[v - 1] == ' ' && memory[end - 2] == '\r' && memory[end - 1] == '\n'
    requires ' ' !in memory[u..v - 1] && v - 1 - u < MAX_URI_LEN
    requires '\r' !in memory[v..end - 2] && end - 2 - v < MAX_VERSION_LEN
    ensures Uri(memory, u, verb) == Parsed(verb, memory[u..v - 1], memory[v..end - 2], end)
  {
    FieldIs(memory, u, ' ', MAX_URI_LEN, v - 1);
    VersionParses(memory, v, end, verb, memory[u..v - 1]);
  }

  lemma MethodParses(memory: seq<char>, p: nat, u: nat)
    requires p < u <= |memory| && memory[u - 1] == ' '
    requires ' ' !in memory[p..u - 1] && u - 1 - p < MAX_METHOD_LEN && NamesMethod(memory[p..u - 1])
    ensures Parse(memory, p) == Uri(memory, u, memory[p..u - 1])
  {
    FieldIs(memory, p, ' ', MAX_METHOD_LEN, u - 1);
    SupportedExactly(memory[p..u - 1]);
  }

  lemma StandsParses(memory: seq<char>, p: nat, u: nat, v: nat, end: nat)
    requires Stands(memory, p, u, v, end)
    requires Acceptable(memory[p..u - 1], memory[u..v - 1], memory[v..end - 2])
    ensures Parse(memory, p) == Parsed(memory[p..u - 1], memory[u..v - 1], memory[v..end - 2], end)
  {
    MethodParses(memory, p, u);
    UriParses(memory, u, v, end, memory[p..u - 1]);
  }

  /** Parsing what was put together gives the parts back and stops right behind it,
      wherever it stands and whatever follows. */
  lemma LineParses(memory: seq<char>, p: nat, verb: seq<char>, uri: seq<char>, version: seq<char>, end: nat)
    requires Acceptable(verb, uri, version)
    requires p <= end <= |memory| && memory[p..end] == Line(verb, uri, version)
    ensures Parse(memory, p) == Parsed(verb, uri, version, end)
  {
    StandsLine(memory, p, verb, uri, version, end);
    var u := p + |verb| + 1;
    var v := u + |uri| + 1;
    assert Acceptable(memory[p..u - 1], memory[u..v - 1], memory[v..end - 2]);
    StandsParses(memory, p, u, v, end);
  }

  lemma VersionIs(memory: seq<char>, v: nat, verb: seq<char>, uri: seq<char>) returns (end: nat)
    requires v <= |memory| && Version(memory, v, verb, uri).Parsed?
    ensures v + 2 <= end <= |memory| && memory[end - 2] == '\r' && memory[end - 1] == '\n'
    ensures Version(memory, v, verb, uri) == Parsed(verb, uri, memory[v..end - 2], end)
    ensures '\r' !in memory[v..end - 2] && end - 2 - v < MAX_VERSION_LEN
  {
    var n := FieldAt(memory, v, '\r', MAX_VERSION_LEN).at;
    FieldIs(memory, v, '\r', MAX_VERSION_LEN, n);
    end := n + 2;
  }

  lemma UriIs(memory: seq<char>, u: nat, verb: seq<char>) returns (v: nat, end: nat)
    requires u <= |memory| && Uri(memory, u, verb).Parsed?
    ensures u < v && v + 2 <= end <= |memory|
    ensures memory[v - 1] == ' ' && memory[end - 2] == '\r' && memory[end - 1] == '\n'
    ensures ' ' !in memory[u..v - 1] && v - 1 - u < MAX_URI_LEN
    ensures '\r' !in memory[v..end - 2] && end - 2 - v < MAX_VERSION_LEN
    ensures Uri(memory, u, verb) == Parsed(verb, memory[u..v - 1], memory[v..end - 2], end)
  {
    var n := FieldAt(memory, u, ' ', MAX_URI_LEN).at;
    FieldIs(memory, u, ' ', MAX_URI_LEN, n);
    v := n + 1;
    end := VersionIs(memory, v, verb, memory[u..n]);
  }

  /** Whatever is accepted is an acceptable line, and exactly that line is consumed. */
  lemma ParsedIsLine(memory: seq<char>, p: nat)
    requires p <= |memory| && Parse(memory, p).Parsed?
    ensures var r := Parse(memory, p);
      && Acceptable(r.verb, r.uri, r.version)
      && p <= r.next <= |memory| && memory[p..r.next] == Line(r.verb, r.uri, r.version)
  {
    var n := FieldAt(memory, p, ' ', MAX_METHOD_LEN).at;
    FieldIs(memory, p, ' ', MAX_METHOD_LEN, n);
    SupportedExactly(memory[p..n]);
    var v, end := UriIs(memory, n + 1, memory[p..n]);
    assert Acceptable(memory[p..n], memory[n + 1..v - 1], memory[v..end - 2]);
    LineStands(memory, p, n + 1, v, end);
  }

  /** The parser accepts exactly the memory that has an acceptable line at the cursor. */
  lemma AcceptsExactly(memory: seq<char>, p: nat)
    requires p <= |memory|
    ensures Parse(memory, p).Parsed? <==>
      exists verb, uri, version, end: nat ::
        Acceptable(verb, uri, version) && p <= end <= |memory| && memory[p..end] == Line(verb, uri, version)
  {
    if Parse(memory, p).Parsed? {
      ParsedIsLine(memory, p);
    }
    if verb, uri, version, end: nat :|
      Acceptable(verb, uri, version) && p <= end <= |memory| && memory[p..end] == Line(verb, uri, version)
    {
      LineParses(memory, p, verb, uri, version, end);
    }
  }

  // ---- Exactly which error a line gives ----

  /** A supported method of fewer than 16 characters ends at n. */
  ghost predicate MethodEnds(memory: seq<char>, p: nat, n: nat) {
    Ends(memory, p, ' ', 16, n) && NamesMethod(memory[p..n])
  }

  /** Behind the method, a URI of fewer than 2048 characters ends at m. */
  ghost predicate UriEnds(memory: seq<char>, p: nat, n: nat, m: nat) {
    MethodEnds(memory, p, n) && Ends(memory, n + 1, ' ', 2048, m)
  }

  /** The fields are there as far as a version of fewer than 16 characters and the CR
      behind it, and a character that is no LF follows. */
  ghost predicate BareCr(memory: seq<char>, p: nat, n: nat, m: nat, e: nat) {
    UriEnds(memory, p, n, m) && Ends(memory, m + 1, '\r', 16, e) && e + 1 < |memory| && memory[e + 1] != '\n'
  }

  /** What was found says which field is there. */
  lemma FieldCases(memory: seq<char>, p: nat, stop: char, limit: nat)
    requires p <= |memory|
    ensures match FieldAt(memory, p, stop, limit)
      case Found(n) =>
        && Ends(memory, p, stop, limit, n) && !Overlong(memory, p, stop, limit)
        && forall k: nat :: Ends(memory, p, stop, limit, k) ==> k == n
      case TooLong => Overlong(memory, p, stop, limit) && forall k: nat :: !Ends(memory, p, stop, limit, k)
      case RunsOff => !Overlong(memory, p, stop, limit) && forall k: nat :: !Ends(memory, p, stop, limit, k)
  {
    OverlongExactly(memory, p, stop, limit);
    forall k: nat
      ensures FieldAt(memory, p, stop, limit) == Found(k) <==> Ends(memory, p, stop, limit, k)
    {
      FieldExactly(memory, p, stop, limit, k);
    }
  }

  /** An unsupported method is one of fewer than 16 characters that is none of the two. */
  lemma UnsupportedExactly(memory: seq<char>, p: nat)
    requires p <= |memory|
    ensures Parse(memory, p) == UnsupportedMethod <==>
      exists n: nat :: Ends(memory, p, ' ', 16, n) && !NamesMethod(memory[p..n])
  {
    FieldCases(memory, p, ' ', 16);
    match FieldAt(memory, p, ' ', 16)
    case Found(n) => SupportedExactly(memory[p..n]);
    case _ =>
  }

  lemma VersionIsBad(memory: seq<char>, p: nat, n: nat, m: nat)
    requires UriEnds(memory, p, n, m)
    ensures Version(memory, m + 1, memory[p..n], memory[n + 1..m]) == BadRequest <==>
      Overlong(memory, m + 1, '\r', 16) || exists e: nat :: BareCr(memory, p, n, m, e)
  {
    FieldCases(memory, m + 1, '\r', 16);
    match FieldAt(memory, m + 1, '\r', 16)
    case Found(e) => assert e + 1 < |memory| && memory[e + 1] != '\n' ==> BareCr(memory, p, n, m, e);
    case _ =>
  }

  /** Behind the method the URI is too long, or behind the URI the version is, or has a CR
      that stands alone. */
  ghost predicate BadBehind(memory: seq<char>, p: nat, n: nat) {
    || Overlong(memory, n + 1, ' ', 2048)
    || exists m: nat :: UriEnds(memory, p, n, m) &&
         (Overlong(memory, m + 1, '\r', 16) || exists e: nat :: BareCr(memory, p, n, m, e))
  }

  lemma UriIsBad(memory: seq<char>, p: nat, n: nat)
    requires MethodEnds(memory, p, n)
    ensures Uri(memory, n + 1, memory[p..n]) == BadRequest <==> BadBehind(memory, p, n)
  {
    FieldCases(memory, n + 1, ' ', 2048);
    match FieldAt(memory, n + 1, ' ', 2048)
    case Found(m) =>
      assert UriEnds(memory, p, n, m);
      VersionIsBad(memory, p, n, m);
    case _ =>
  }

  /** A bad request is a method of 16 characters or more, or a supported one with a bad
      line behind it. */
  lemma BadExactly(memory: seq<char>, p: nat)
    requires p <= |memory|
    ensures Parse(memory, p) == BadRequest <==>
      || Overlong(memory, p, ' ', 16)
      || exists n: nat :: MethodEnds(memory, p, n) && BadBehind(memory, p, n)
  {
    FieldCases(memory, p, ' ', 16);
    match FieldAt(memory, p, ' ', 16)
    case Found(n) =>
      SupportedExactly(memory[p..n]);
      if NamesMethod(memory[p..n]) {
        assert MethodEnds(memory, p, n);
        UriIsBad(memory, p, n);
      }
    case _ =>
  }

  // ---- The parser ----

  class HttpRequest {
    const verb: array<char>
    const version: array<char>
    var uri: CharBuf?

    constructor ()
      ensures verb.Length == MAX_METHOD_LEN && version.Length == MAX_VERSION_LEN && fresh(verb) && fresh(version)
      ensures verb != version
    {
      verb := new char[MAX_METHOD_LEN];
      version := new char[MAX_VERSION_LEN];
    }
  }

  /** A buffer holds a C string. */
  ghost predicate HoldsString(buffer: seq<char>, text: seq<char>) {
    |text| < |buffer| && buffer[..|text|] == text && buffer[|text|] == NUL
  }

  ghost predicate HoldsUri(uri: CharBuf?, text: seq<char>)
    reads uri, if uri == null then null else uri.data
  {
    uri != null && uri.Valid() && uri.Contents() == text + [NUL]
  }

  /** http_check_method */
  method CheckMethod(verb: seq<char>) returns (ok: bool)
    ensures ok <==> IsSupported(verb)
  {
    var i := 0;
    while i < |SUPPORTED_METHODS|
      invariant 0 <= i <= |SUPPORTED_METHODS|
      invariant CString(verb) !in SUPPORTED_METHODS[..i]
    {
      if CString(verb) == SUPPORTED_METHODS[i] {
        return true;
      }
      i := i + 1;
    }
    return false;
  }

  lemma {:induction false} CStringCut(s: seq<char>, rest: seq<char>)
    ensures CString(s + [NUL] + rest) == CString(s)
    decreases |s|
  {
    if s != [] {
      assert (s + [NUL] + rest)[1..] == s[1..] + [NUL] + rest;
      CStringCut(s[1..], rest);
    }
  }

  /** Lines 113-114: terminate the method and look it up. */
  method CheckMethodField(verb: array<char>, i: nat) returns (ok: bool)
    requires i < verb.Length
    modifies verb
    ensures verb[..] == old(verb[..])[i := NUL] && ok == IsSupported(verb[..i])
  {
    verb[i] := NUL;
    assert verb[..] == verb[..i] + [NUL] + verb[i + 1..];
    CStringCut(verb[..i], verb[i + 1..]);
    ok := CheckMethod(verb[..]);
  }

  /** The method loop, lines 111-127. */
  method ReadMethod(verb: array<char>, raw: array<char>, p: nat) returns (result: int, q: nat)
    requires verb.Length == MAX_METHOD_LEN && verb != raw && p <= raw.Length
    requires !FieldAt(raw[..], p, ' ', MAX_METHOD_LEN).RunsOff?
    modifies verb
    ensures match FieldAt(raw[..], p, ' ', MAX_METHOD_LEN)
      case Found(n) =>
        && result == (if IsSupported(raw[p..n]) then 0 else HTTP_UNSUPPORTED_METHOD)
        && (result == 0 ==> q == n + 1 && HoldsString(verb[..], raw[p..n]))
      case _ => result == HTTP_BAD_REQUEST
  {
    var i := 0;
    q := p;
    while i < MAX_METHOD_LEN
      invariant 0 <= i <= MAX_METHOD_LEN && q == p + i <= raw.Length && verb[..i] == raw[p..q]
      invariant FieldAt(raw[..], p, ' ', MAX_METHOD_LEN) == FieldAt(raw[..], q, ' ', MAX_METHOD_LEN - i)
    {
      if raw[q] == ' ' {
        var ok := CheckMethodField(verb, i);
        if !ok {
          return HTTP_UNSUPPORTED_METHOD, q;
        }
        return 0, q + 1;
      }
      verb[i] := raw[q];
      q := q + 1;
      i := i + 1;
    }
    verb[i - 1] := NUL;
    return HTTP_BAD_REQUEST, q;
  }

  /** The URI loop, lines 128-142: the URI is copied into a fresh buffer and
      terminated. */
  method ReadUri(raw: array<char>, p: nat) returns (result: int, q: nat, uri: CharBuf)
    requires p <= raw.Length && !FieldAt(raw[..], p, ' ', MAX_URI_LEN).RunsOff?
    ensures fresh(uri) && fresh(uri.data) && uri.Valid()
    ensures match FieldAt(raw[..], p, ' ', MAX_URI_LEN)
      case Found(n) => result == 0 && q == n + 1 && HoldsUri(uri, raw[p..n])
      case _ => result == HTTP_BAD_REQUEST
  {
    uri := new CharBuf();
    var i := 0;
    q := p;
    while i < MAX_URI_LEN
      invariant 0 <= i <= MAX_URI_LEN && q == p + i <= raw.Length
      invariant fresh(uri) && fresh(uri.data) && uri.Valid() && uri.Contents() == raw[p..q]
      invariant FieldAt(raw[..], p, ' ', MAX_URI_LEN) == FieldAt(raw[..], q, ' ', MAX_URI_LEN - i)
    {
      if raw[q] == ' ' {
        uri.Add(NUL);
        return 0, q + 1, uri;
      }
      uri.Add(raw[q]);
      q := q + 1;
      i := i + 1;
    }
    uri.Add(NUL);
    return HTTP_BAD_REQUEST, q, uri;
  }

  /** The version loop, lines 143-163. */
  method ReadVersion(version: array<char>, raw: array<char>, p: nat, ghost verb: seq<char>, ghost uri: seq<char>)
    returns (result: int, q: nat)
    requires version.Length == MAX_VERSION_LEN && version != raw
    requires p <= raw.Length && !Version(raw[..], p, verb, uri).RunsOffEnd?
    modifies version
    ensures match Version(raw[..], p, verb, uri)
      case Parsed(_, _, text, next) => result == 0 && q == next && HoldsString(version[..], text)
      case _ => result == HTTP_BAD_REQUEST
  {
    var i := 0;
    q := p;
    while i < MAX_VERSION_LEN
      invariant 0 <= i <= MAX_VERSION_LEN && q == p + i <= raw.Length && version[..i] == raw[p..q]
      invariant FieldAt(raw[..], p, '\r', MAX_VERSION_LEN) == FieldAt(raw[..], q, '\r', MAX_VERSION_LEN - i)
    {
      if raw[q] == '\r' {
        if raw[q + 1] == '\n' {
          version[i] := NUL;
          return 0, q + 2;
        } else {
          return HTTP_BAD_REQUEST, q;
        }
      }
      version[i] := raw[q];
      q := q + 1;
      i := i + 1;
    }
    version[i - 1] := NUL;
    return HTTP_BAD_REQUEST, q;
  }

  /** Lines 128-163, for a method that has been accepted. */
  method ParseUri(req: HttpRequest, raw: array<char>, p: nat, ghost verb: seq<char>) returns (result: int, q: nat)
    requires req.version.Length == MAX_VERSION_LEN && req.version != raw
    requires p <= raw.Length && !Uri(raw[..], p, verb).RunsOffEnd?
    modifies req`uri, req.version
    ensures match Uri(raw[..], p, verb)
      case Parsed(_, uri, version, next) =>
        result == 0 && q == next && HoldsUri(req.uri, uri) && HoldsString(req.version[..], version)
      case _ => result == HTTP_BAD_REQUEST
  {
    var uri;
    result, q, uri := ReadUri(raw, p);
    req.uri := uri;
    if result != 0 {
      return;
    }
    result, q := ReadVersion(req.version, raw, q, verb, raw[p..q - 1]);
  }

  /** http_parse_request_line, with the cursor at p before and at q afterwards.  The
      source reads as far as its fields take it, so the memory must reach that far. */
  method ParseRequestLine(req: HttpRequest, raw: array<char>, p: nat) returns (result: int, q: nat)
    requires req.verb.Length == MAX_METHOD_LEN && req.version.Length == MAX_VERSION_LEN
    requires req.verb != raw && req.version != raw && req.verb != req.version
    requires p <= raw.Length && !Parse(raw[..], p).RunsOffEnd?
    modifies req`uri, req.verb, req.version
    ensures match Parse(raw[..], p)
      case UnsupportedMethod => result == -3 && q == p
      case Parsed(verb, uri, version, next) =>
        && result == 0 && q == next
        && HoldsString(req.verb[..], verb) && HoldsUri(req.uri, uri) && HoldsString(req.version[..], version)
      case _ => result == -2 && q == p
  {
    var fptr;
    result, fptr := ReadMethod(req.verb, raw, p);
    if result != 0 {
      return result, p;
    }
    result, fptr := ParseUri(req, raw, fptr, raw[p..fptr - 1]);
    if result != 0 {
      return result, p;
    }
    return 0, fptr;
  }
}
