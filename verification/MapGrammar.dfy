/** The grammar of an arena map file, over the tokens of sa-map.c: a parser for
    token streams, and the sentences it accepts. */
module MapGrammar {
  import opened Wrappers
  import opened CStrings
  import opened MapLexer

  const MAX_ARENA_NAME_SIZE: nat := 64
  const SA_TILE_LEN: nat := 8

  /** The tokens of s, up to the end of the file or to the first lexical error. */
  function Scan(s: string): seq<Token>
    decreases |s|
  {
    var l := Lex(s);
    if l.tok.None? then []
    else if l.tok.value == Eof then [l.tok.value]
    else [l.tok.value] + Scan(s[l.used..])
  }

  /** The lexer makes no empty token. */
  ghost predicate Nonempty(ts: seq<Token>) {
    forall i :: 0 <= i < |ts| ==> ts[i].Lexeme() != ""
  }

  lemma {:induction false} ScanNonempty(s: string)
    ensures Nonempty(Scan(s))
    decreases |s|
  {
    var l := Lex(s);
    if l.tok.Some? && l.tok.value != Eof {
      ScanNonempty(s[l.used..]);
    }
  }

  /** What is left after taking one token: the end of the file is never consumed. */
  function Advance(ts: seq<Token>): seq<Token>
    requires ts != []
  {
    if ts[0] == Eof then ts else ts[1..]
  }

  lemma ScanStep(s: string)
    ensures Scan(s) == [] <==> Lex(s).tok == None
    ensures Scan(s) != [] ==> Lex(s).tok == Some(Scan(s)[0]) && Scan(s[Lex(s).used..]) == Advance(Scan(s))
  {
    var n := SpaceLen(s);
    if n == |s| {
      assert s[n..] == [];
    }
  }

  // ---- The parser ----

  datatype Res<+T> = Fail | Ok(value: T, rest: seq<Token>) {
    predicate IsFailure() {
      Fail?
    }
    function PropagateFailure<U>(): Res<U>
      requires Fail?
    {
      Fail
    }
    function Extract(): (T, seq<Token>)
      requires Ok?
    {
      (value, rest)
    }
  }

  function Next(ts: seq<Token>): Res<Token> {
    if ts == [] then Fail else Ok(ts[0], Advance(ts))
  }

  /** `id =` */
  function Key(ts: seq<Token>, id: string): Res<()> {
    var (t, ts1) :- Next(ts);
    if t != Ident(id) then Fail else
    var (eq, ts2) :- Next(ts1);
    if eq != Eq then Fail else Ok((), ts2)
  }

  function Integer(ts: seq<Token>): Res<nat> {
    var (t, ts1) :- Next(ts);
    if !t.Int? then Fail else Ok(Atoi(t.word), ts1)
  }

  /** The words of a name up to `&`, joined by single spaces behind `sofar`. */
  function Name(ts: seq<Token>, sofar: string): Res<string>
    requires |sofar| < MAX_ARENA_NAME_SIZE
    decreases MAX_ARENA_NAME_SIZE - |sofar|, |ts|
  {
    var (t, ts1) :- Next(ts);
    if t == Amp then Ok(sofar, ts1)
    else if |sofar| > 0 && |sofar| >= MAX_ARENA_NAME_SIZE - 1 then Fail
    else
      var padded := if |sofar| > 0 then sofar + " " else sofar;
      if |padded| + |t.Lexeme()| + 1 >= MAX_ARENA_NAME_SIZE then Fail
      else Name(ts1, padded + t.Lexeme())
  }

  datatype Header = Header(x: nat, y: nat, name: string)

  function Heading(ts: seq<Token>): Res<Header> {
    var (_, ts1) :- Key(ts, "inf");
    var (x, ts2) :- Integer(ts1);
    var (y, ts3) :- Integer(ts2);
    var (name, ts4) :- Name(ts3, "");
    Ok(Header(x, y, name), ts4)
  }

  /** Exactly `missing` more tiles, then `&`. */
  function TileList(ts: seq<Token>, missing: int): Res<seq<string>>
    decreases |ts|
  {
    var (t, ts1) :- Next(ts);
    match t
    case Amp => if missing == 0 then Ok([], ts1) else Fail
    case Ident(word) =>
      if |word| >= SA_TILE_LEN || missing <= 0 then Fail else
      var (more, ts2) :- TileList(ts1, missing - 1);
      Ok([word] + more, ts2)
    case _ => Fail
  }

  function Tiles(ts: seq<Token>, product: int): Res<seq<string>> {
    var (_, ts1) :- Key(ts, "tiles");
    TileList(ts1, product)
  }

  function Ints(ts: seq<Token>): Res<seq<int>>
    decreases |ts|
  {
    var (t, ts1) :- Next(ts);
    match t
    case Amp => Ok([], ts1)
    case Int(word) =>
      var (more, ts2) :- Ints(ts1);
      Ok([Atoi(word)] + more, ts2)
    case _ => Fail
  }

  function IntList(ts: seq<Token>, id: string): Res<seq<int>> {
    var (_, ts1) :- Key(ts, id);
    Ints(ts1)
  }

  predicate IsNumber(t: Token) {
    t.Int? || t == Ident("undefined")
  }

  function NumberValue(t: Token): int {
    if t.Int? then Atoi(t.word) else -1
  }

  function Value(ts: seq<Token>): Res<int> {
    var (t, ts1) :- Next(ts);
    if !IsNumber(t) then Fail else Ok(NumberValue(t), ts1)
  }

  function SectionEnd(ts: seq<Token>): Res<()> {
    var (t, ts1) :- Next(ts);
    if t != Amp && t != Eof then Fail else Ok((), ts1)
  }

  /** `id = INT` or `id = undefined`, then `&` or the end of the file. */
  function Number(ts: seq<Token>, id: string): Res<int> {
    var (_, ts1) :- Key(ts, id);
    var (v, ts2) :- Value(ts1);
    var (_, ts3) :- SectionEnd(ts2);
    Ok(v, ts3)
  }

  /** What sa_map_s holds. */
  datatype ArenaMap = ArenaMap(infx: int, infy: int, name: string, tiles: seq<string>,
                               sp: seq<int>, ws: seq<int>, rt: int, ts: int)

  datatype Trailer = Trailer(sp: seq<int>, ws: seq<int>, rt: int, ts: int)

  function TwoLists(ts: seq<Token>): Res<(seq<int>, seq<int>)> {
    var (sp, ts1) :- IntList(ts, "sp");
    var (ws, ts2) :- IntList(ts1, "ws");
    Ok((sp, ws), ts2)
  }

  function TwoNumbers(ts: seq<Token>): Res<(int, int)> {
    var (rt, ts1) :- Number(ts, "rt");
    var (last, ts2) :- Number(ts1, "ts");
    Ok((rt, last), ts2)
  }

  function Area(x: nat, y: nat): nat {
    x * y
  }

  /** The heading, and exactly as many tiles as it announces. */
  function FirstSections(ts: seq<Token>): Res<(Header, seq<string>)> {
    var (h, ts1) :- Heading(ts);
    var (tiles, ts2) :- Tiles(ts1, Area(h.x, h.y));
    Ok((h, tiles), ts2)
  }

  /** The four sections after the tiles. */
  function LastSections(ts: seq<Token>): Res<Trailer> {
    var (lists, ts1) :- TwoLists(ts);
    var (numbers, ts2) :- TwoNumbers(ts1);
    Ok(Trailer(lists.0, lists.1, numbers.0, numbers.1), ts2)
  }

  /** sa_parse_map.  `before` is what the map held: without any name word the name is
      not written, and the value of `ts` goes to rt, so ts is never written. */
  function ParseMap(ts: seq<Token>, before: ArenaMap): Res<ArenaMap> {
    var (first, ts1) :- FirstSections(ts);
    var (h, tiles) := first;
    var (t, ts2) :- LastSections(ts1);
    Ok(ArenaMap(h.x, h.y, if h.name == "" then before.name else h.name, tiles, t.sp, t.ws, t.ts, before.ts), ts2)
  }

  // ---- The sentences of the grammar, with the limits of the parser written out ----

  /** The variable parts of a map file. */
  datatype Parts = Parts(x: Token, y: Token, words: seq<Token>, tiles: seq<Token>, sp: seq<Token>, ws: seq<Token>,
                         rt: Token, ts: Token)

  function Assign(id: string, body: seq<Token>): seq<Token> {
    [Ident(id), Eq] + body
  }

  /** inf = x y words & tiles = tiles & sp = sp & ws = ws & rt = rt & ts = ts,
      without what follows the last value. */
  function Sentence(p: Parts): seq<Token> {
    Assign("inf", [p.x, p.y] + p.words + [Amp])
    + Assign("tiles", p.tiles + [Amp])
    + Assign("sp", p.sp + [Amp])
    + Assign("ws", p.ws + [Amp])
    + Assign("rt", [p.rt, Amp])
    + Assign("ts", [p.ts])
  }

  ghost predicate AllInts(ts: seq<Token>) {
    forall i :: 0 <= i < |ts| ==> ts[i].Int?
  }

  function Joined(words: seq<Token>): string {
    if words == [] then ""
    else if |words| == 1 then words[0].Lexeme()
    else Joined(words[..|words| - 1]) + " " + words[|words| - 1].Lexeme()
  }

  /** Any tokens but `&`, short enough to be joined into a name. */
  ghost predicate IsName(words: seq<Token>) {
    && (forall i :: 0 <= i < |words| ==> words[i] != Amp && words[i] != Eof)
    && |Joined(words)| <= 62
  }

  ghost predicate AreTiles(tiles: seq<Token>) {
    forall i :: 0 <= i < |tiles| ==> tiles[i].Ident? && |tiles[i].word| < 8
  }

  ghost predicate WellFormed(p: Parts) {
    && p.x.Int? && p.y.Int? && IsName(p.words)
    && AreTiles(p.tiles) && |p.tiles| == Atoi(p.x.Lexeme()) * Atoi(p.y.Lexeme())
    && AllInts(p.sp) && AllInts(p.ws)
    && (p.rt.Int? || p.rt == Ident("undefined")) && (p.ts.Int? || p.ts == Ident("undefined"))
  }

  function Lexemes(ts: seq<Token>): seq<string> {
    seq(|ts|, i requires 0 <= i < |ts| => ts[i].Lexeme())
  }

  function Values(ts: seq<Token>): seq<int> {
    seq(|ts|, i requires 0 <= i < |ts| => Atoi(ts[i].Lexeme()))
  }

  function Meaning(p: Parts, before: ArenaMap): ArenaMap {
    ArenaMap(Atoi(p.x.Lexeme()), Atoi(p.y.Lexeme()), if p.words == [] then before.name else Joined(p.words),
             Lexemes(p.tiles), Values(p.sp), Values(p.ws), if p.ts.Int? then Atoi(p.ts.word) else -1, before.ts)
  }
}
