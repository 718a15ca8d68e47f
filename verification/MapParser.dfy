/** The recursive-descent parser of sa-map.c (39-64, 137-355), working in place on
    the source buffer and on the map. */
module MapParser {
  import opened CStrings
  import opened Buffers
  import opened MapLexer
  import opened MapGrammar

  /** sa_map_s */
  class SaMap {
    var infx: int
    var infy: int
    const name: array<char>
    var tiles: array?<string>
    var sp: IntBuf?
    var ws: IntBuf?
    var rt: int
    var ts: int

    constructor ()
      ensures name.Length == MAX_ARENA_NAME_SIZE && fresh(name)
    {
      name := new char[MAX_ARENA_NAME_SIZE];
    }
  }

  /** The source text ends at n, and tokens[p] is the token stream from index p on. */
  ghost predicate Source(memory: seq<char>, n: nat, tokens: seq<seq<Token>>) {
    && IsString(memory, 0, n) && |tokens| == n + 1
    && forall p {:trigger Scan(memory[p..n])} :: 0 <= p <= n ==> tokens[p] == Scan(memory[p..n])
  }

  ghost function Streams(memory: seq<char>, n: nat): (tokens: seq<seq<Token>>)
    requires IsString(memory, 0, n)
    ensures Source(memory, n, tokens)
  {
    seq(n + 1, p requires 0 <= p <= n => Scan(memory[p..n]))
  }

  method NextToken(tok: MapToken, src: array<char>, p: nat, ghost n: nat, ghost tokens: seq<seq<Token>>)
    returns (result: int, q: nat)
    requires tok.lex.Length == MAX_LEX_LEN && src != tok.lex && Source(src[..], n, tokens) && p <= n
    modifies tok, tok.lex, src
    ensures src[..] == old(src[..]) && q <= n
    ensures result == if tokens[p] == [] then -1 else 0
    ensures result == 0 ==>
      var t := tokens[p][0];
      t.Lexeme() != "" && tok.Holds(t) && tokens[q] == Advance(tokens[p])
  {
    result, q := NextTok(tok, src, p, n);
    ScanStep(src[p..n]);
    ScanNonempty(src[p..n]);
    assert src[p..n][Lex(src[p..n]).used..] == src[q..n];
    assert tokens[q] == Scan(src[q..n]);
  }

  /** The test for `id =` that opens every section. */
  method ParseKey(src: array<char>, p: nat, ghost n: nat, ghost tokens: seq<seq<Token>>,
                id: string) returns (result: int, q: nat)
    requires Source(src[..], n, tokens) && p <= n
    modifies src
    ensures src[..] == old(src[..]) && q <= n
    ensures match Key(tokens[p], id)
      case Fail => result == -1
      case Ok(_, rest) => result == 0 && tokens[q] == rest
  {
    var tok := new MapToken();
    result, q := NextToken(tok, src, p, n, tokens);
    if result != 0 {
      return;
    }
    if !(tok.kind == IDENT && tok.Lexeme() == id) {
      return -1, q;
    }
    result, q := NextToken(tok, src, q, n, tokens);
    if result != 0 {
      return;
    }
    if tok.kind != EQ {
      result := -1;
    }
  }

  method ParseInteger(src: array<char>, p: nat, ghost n: nat, ghost tokens: seq<seq<Token>>)
    returns (result: int, q: nat, value: nat)
    requires Source(src[..], n, tokens) && p <= n
    modifies src
    ensures src[..] == old(src[..]) && q <= n
    ensures match Integer(tokens[p])
      case Fail => result == -1
      case Ok(v, rest) => result == 0 && value == v && tokens[q] == rest
  {
    value := 0;
    var tok := new MapToken();
    result, q := NextToken(tok, src, p, n, tokens);
    if result != 0 {
      return;
    }
    if tok.kind != INT {
      return -1, q, value;
    }
    value := Atoi(tok.Lexeme());
  }

  /** strcpy into the name buffer. */
  method CopyLexeme(name: array<char>, at: nat, tok: MapToken)
    requires tok.Valid() && at + tok.len < name.Length && name != tok.lex
    modifies name
    ensures name[..at] == old(name[..at])
    ensures name[at..at + tok.len] == tok.Lexeme() && name[at + tok.len] == NUL
  {
    var i := 0;
    while tok.lex[i] != NUL
      invariant 0 <= i <= tok.len
      invariant name[..at] == old(name[..at]) && name[at..at + i] == tok.lex[..i]
      decreases tok.len - i
    {
      name[at + i] := tok.lex[i];
      i := i + 1;
    }
    name[at + i] := NUL;
  }

  /** The buffer holds `text`, unless that is empty: then nothing was written. */
  ghost predicate NameIs(after: seq<char>, before: seq<char>, text: string) {
    if text == "" then after == before
    else |text| < |after| && after[..|text|] == text && after[|text|] == NUL
  }

  method AppendSpace(name: array<char>, count: nat) returns (longer: nat)
    requires count < name.Length
    modifies name
    ensures longer == count + 1 && name[..longer] == old(name[..count]) + " "
  {
    name[count] := ' ';
    longer := count + 1;
  }

  /** Lines 177-189: a space, unless this is the first word, and then the word. */
  method AppendWord(name: array<char>, count: nat, tok: MapToken) returns (result: int, longer: nat)
    requires name.Length == MAX_ARENA_NAME_SIZE && name != tok.lex && tok.Valid() && tok.len > 0
    requires count <= MAX_ARENA_NAME_SIZE - 2
    modifies name
    ensures var sofar := old(name[..count]);
      var padded := if |sofar| > 0 then sofar + " " else sofar;
      && result == (if |padded| + tok.len + 1 >= MAX_ARENA_NAME_SIZE then -1 else 0)
      && (result == 0 ==>
            && count < longer <= MAX_ARENA_NAME_SIZE - 2
            && name[..longer] == padded + tok.Lexeme() && name[longer] == NUL)
  {
    longer := count;
    if longer > 0 {
      if longer >= MAX_ARENA_NAME_SIZE - 1 {
        return -1, longer;
      }
      longer := AppendSpace(name, longer);
    }
    if longer + tok.len + 1 >= MAX_ARENA_NAME_SIZE {
      return -1, longer;
    }
    ghost var padded := name[..longer];
    CopyLexeme(name, longer, tok);
    longer := longer + tok.len;
    assert name[..longer] == padded + tok.Lexeme();
    result := 0;
  }

  /** The name loop of sa_parse_heading.  It ends on every input: each turn that does
      not leave it makes the name longer. */
  method ParseName(name: array<char>, src: array<char>, p: nat, ghost n: nat, ghost tokens: seq<seq<Token>>)
    returns (result: int, q: nat)
    requires name.Length == MAX_ARENA_NAME_SIZE && name != src && Source(src[..], n, tokens) && p <= n
    modifies name, src
    ensures src[..] == old(src[..]) && q <= n
    ensures match Name(tokens[p], "")
      case Fail => result == -1
      case Ok(text, rest) => result == 0 && tokens[q] == rest && NameIs(name[..], old(name[..]), text)
  {
    var tok := new MapToken();
    var count := 0;
    q := p;
    while true
      invariant 0 <= count <= MAX_ARENA_NAME_SIZE - 2
      invariant src[..] == old(src[..]) && q <= n
      invariant NameIs(name[..], old(name[..]), name[..count])
      invariant Name(tokens[p], "") == Name(tokens[q], name[..count])
      decreases MAX_ARENA_NAME_SIZE - count
    {
      result, q := NextToken(tok, src, q, n, tokens);
      if result != 0 {
        return;
      }
      if tok.kind == AMP {
        return 0, q;
      }
      result, count := AppendWord(name, count, tok);
      if result != 0 {
        return;
      }
    }
  }

  method ParseHeading(m: SaMap, src: array<char>, p: nat, ghost n: nat, ghost tokens: seq<seq<Token>>)
    returns (result: int, q: nat)
    requires m.name.Length == MAX_ARENA_NAME_SIZE && m.name != src && Source(src[..], n, tokens) && p <= n
    modifies m`infx, m`infy, m.name, src
    ensures src[..] == old(src[..]) && q <= n
    ensures match Heading(tokens[p])
      case Fail => result == -1
      case Ok(h, rest) =>
        && result == 0 && tokens[q] == rest && m.infx == h.x && m.infy == h.y
        && NameIs(m.name[..], old(m.name[..]), h.name)
  {
    result, q := ParseKey(src, p, n, tokens, "inf");
    if result != 0 {
      return;
    }
    var value;
    result, q, value := ParseInteger(src, q, n, tokens);
    if result != 0 {
      return;
    }
    m.infx := value;
    result, q, value := ParseInteger(src, q, n, tokens);
    if result != 0 {
      return;
    }
    m.infy := value;
    result, q := ParseName(m.name, src, q, n, tokens);
  }

  ghost function Prepend<T>(front: seq<T>, r: Res<seq<T>>): Res<seq<T>> {
    match r
    case Fail => Fail
    case Ok(back, rest) => Ok(front + back, rest)
  }

  lemma PrependNothing<T>(r: Res<seq<T>>)
    ensures Prepend([], r) == r
  {
    if r.Ok? {
      assert [] + r.value == r.value;
    }
  }

  lemma PrependMore<T>(front: seq<T>, x: T, r: Res<seq<T>>)
    ensures Prepend(front + [x], r) == Prepend(front, Prepend([x], r))
  {
    if r.Ok? {
      assert front + [x] + r.value == front + ([x] + r.value);
    }
  }

  lemma IntStep(done: seq<int>, ts: seq<Token>)
    requires ts != [] && ts[0].Int?
    ensures Prepend(done, Ints(ts)) == Prepend(done + [Atoi(ts[0].word)], Ints(Advance(ts)))
  {
    PrependMore(done, Atoi(ts[0].word), Ints(Advance(ts)));
  }

  /** How one turn of a list-reading loop ends. */
  datatype Turn = Failed | Stored | Ended

  /** One turn of the loop of sa_parse_tile_list: `&`, or one more tile at `size`. */
  method TileTurn(tok: MapToken, buffer: array<string>, size: nat,
                  src: array<char>, p: nat, ghost n: nat, ghost tokens: seq<seq<Token>>)
    returns (turn: Turn, q: nat)
    requires tok.lex.Length == MAX_LEX_LEN && src != tok.lex && Source(src[..], n, tokens) && p <= n
    requires size <= buffer.Length
    modifies tok, tok.lex, src, buffer
    ensures src[..] == old(src[..]) && q <= n && buffer[..size] == old(buffer[..size])
    ensures var spec := TileList(tokens[p], buffer.Length - size);
      match turn
      case Failed => spec == Fail
      case Ended => size == buffer.Length && spec == Ok([], tokens[q])
      case Stored =>
        && size < buffer.Length && |tokens[q]| < |tokens[p]|
        && spec == Prepend([buffer[size]], TileList(tokens[q], buffer.Length - size - 1))
  {
    var result;
    result, q := NextToken(tok, src, p, n, tokens);
    if result == -1 {
      return Failed, q;
    }
    if tok.kind == AMP {
      if size != buffer.Length {
        return Failed, q;
      }
      return Ended, q;
    } else if tok.kind == IDENT {
      if tok.len >= SA_TILE_LEN {
        return Failed, q;
      }
      if size >= buffer.Length {
        return Failed, q;
      }
      buffer[size] := tok.Lexeme();
      return Stored, q;
    } else {
      return Failed, q;
    }
  }

  /** The loop of sa_parse_tile_list, which is to fill the whole buffer. */
  method FillTiles(buffer: array<string>, src: array<char>, p: nat, ghost n: nat, ghost tokens: seq<seq<Token>>)
    returns (result: int, q: nat)
    requires Source(src[..], n, tokens) && p <= n
    modifies src, buffer
    ensures src[..] == old(src[..]) && q <= n
    ensures match TileList(tokens[p], buffer.Length)
      case Fail => result == -1
      case Ok(v, rest) => result == 0 && tokens[q] == rest && buffer[..] == v
  {
    var tok := new MapToken();
    var size := 0;
    q := p;
    PrependNothing(TileList(tokens[p], buffer.Length));
    while true
      invariant 0 <= size <= buffer.Length && src[..] == old(src[..]) && q <= n
      invariant TileList(tokens[p], buffer.Length) == Prepend(buffer[..size], TileList(tokens[q], buffer.Length - size))
      decreases |tokens[q]|
    {
      ghost var done := buffer[..size];
      var turn;
      turn, q := TileTurn(tok, buffer, size, src, q, n, tokens);
      match turn {
        case Failed =>
          return -1, q;
        case Ended =>
          assert done + [] == buffer[..];
          return 0, q;
        case Stored =>
          size := size + 1;
          PrependMore(done, buffer[size - 1], TileList(tokens[q], buffer.Length - size));
          assert buffer[..size] == done + [buffer[size - 1]];
      }
    }
  }

  /** sa_parse_tile_list; product is infx * infy. */
  method ParseTileList(src: array<char>, p: nat, ghost n: nat, ghost tokens: seq<seq<Token>>, product: nat)
    returns (result: int, q: nat, tiles: array<string>)
    requires Source(src[..], n, tokens) && p <= n
    modifies src
    ensures src[..] == old(src[..]) && q <= n && fresh(tiles)
    ensures match TileList(tokens[p], product)
      case Fail => result == -1
      case Ok(v, rest) => result == 0 && tokens[q] == rest && tiles[..] == v
  {
    tiles := new string[product];
    result, q := FillTiles(tiles, src, p, n, tokens);
  }

  /** sa_parse_tiles; product is infx * infy. */
  method ParseTiles(m: SaMap, src: array<char>, p: nat, ghost n: nat, ghost tokens: seq<seq<Token>>,
                product: nat) returns (result: int, q: nat)
    requires Source(src[..], n, tokens) && p <= n
    modifies m`tiles, src
    ensures src[..] == old(src[..]) && q <= n
    ensures match Tiles(tokens[p], product)
      case Fail => result == -1
      case Ok(v, rest) =>
        result == 0 && tokens[q] == rest && m.tiles != null && fresh(m.tiles) && m.tiles[..] == v
  {
    result, q := ParseKey(src, p, n, tokens, "tiles");
    if result != 0 {
      return;
    }
    var tiles;
    result, q, tiles := ParseTileList(src, q, n, tokens, product);
    if result == 0 {
      m.tiles := tiles;
    }
  }

  /** sa_parse_intlist; the buffer is the one the caller passes for initialisation. */
  method ParseIntList(src: array<char>, p: nat, ghost n: nat, ghost tokens: seq<seq<Token>>,
                id: string)
    returns (result: int, q: nat, buf: IntBuf?)
    requires Source(src[..], n, tokens) && p <= n
    modifies src
    ensures src[..] == old(src[..]) && q <= n
    ensures match IntList(tokens[p], id)
      case Fail => result == -1
      case Ok(v, rest) =>
        && result == 0 && tokens[q] == rest
        && buf != null && fresh(buf) && fresh(buf.data) && buf.Valid() && buf.Contents() == v
  {
    buf := null;
    result, q := ParseKey(src, p, n, tokens, id);
    if result != 0 {
      return;
    }
    result, q, buf := ParseInts(src, q, n, tokens);
  }

  method ParseInts(src: array<char>, p: nat, ghost n: nat, ghost tokens: seq<seq<Token>>)
    returns (result: int, q: nat, buf: IntBuf?)
    requires Source(src[..], n, tokens) && p <= n
    modifies src
    ensures src[..] == old(src[..]) && q <= n
    ensures match Ints(tokens[p])
      case Fail => result == -1
      case Ok(v, rest) =>
        && result == 0 && tokens[q] == rest
        && buf != null && fresh(buf) && fresh(buf.data) && buf.Valid() && buf.Contents() == v
  {
    var tok := new MapToken();
    var ints := new IntBuf();
    buf, q := null, p;
    PrependNothing(Ints(tokens[p]));
    while true
      invariant fresh(ints) && fresh(ints.data) && ints.Valid()
      invariant src[..] == old(src[..]) && q <= n
      invariant Ints(tokens[p]) == Prepend(ints.Contents(), Ints(tokens[q]))
      decreases |tokens[q]|
    {
      ghost var ts := tokens[q];
      result, q := NextToken(tok, src, q, n, tokens);
      if result != 0 {
        return;
      }
      if tok.kind == INT {
        var i := Atoi(tok.Lexeme());
        IntStep(ints.Contents(), ts);
        ints.Add(i);
      } else if tok.kind == AMP {
        assert ints.Contents() + [] == ints.Contents();
        return 0, q, ints;
      } else {
        return -1, q, null;
      }
    }
  }

  /** The value in sa_parse_int: an integer, or the word `undefined` for -1. */
  method ParseValue(src: array<char>, p: nat, ghost n: nat, ghost tokens: seq<seq<Token>>)
    returns (result: int, q: nat, i: int)
    requires Source(src[..], n, tokens) && p <= n
    modifies src
    ensures src[..] == old(src[..]) && q <= n
    ensures match Value(tokens[p])
      case Fail => result == -1
      case Ok(v, rest) => result == 0 && i == v && tokens[q] == rest
  {
    i := 0;
    var tok := new MapToken();
    result, q := NextToken(tok, src, p, n, tokens);
    if result != 0 {
      return;
    }
    if tok.kind != INT {
      if tok.kind == IDENT && tok.Lexeme() == "undefined" {
        i := -1;
      } else {
        return -1, q, i;
      }
    } else {
      i := Atoi(tok.Lexeme());
    }
  }

  /** The end of sa_parse_int: `&` or the end of the file. */
  method ParseEnd(src: array<char>, p: nat, ghost n: nat, ghost tokens: seq<seq<Token>>) returns (result: int, q: nat)
    requires Source(src[..], n, tokens) && p <= n
    modifies src
    ensures src[..] == old(src[..]) && q <= n
    ensures match SectionEnd(tokens[p])
      case Fail => result == -1
      case Ok(_, rest) => result == 0 && tokens[q] == rest
  {
    var tok := new MapToken();
    result, q := NextToken(tok, src, p, n, tokens);
    if result != 0 {
      return;
    }
    if tok.kind != AMP && tok.kind != EOF {
      result := -1;
    }
  }

  /** sa_parse_int */
  method ParseInt(src: array<char>, p: nat, ghost n: nat, ghost tokens: seq<seq<Token>>,
                id: string) returns (result: int, q: nat, i: int)
    requires Source(src[..], n, tokens) && p <= n
    modifies src
    ensures src[..] == old(src[..]) && q <= n
    ensures match Number(tokens[p], id)
      case Fail => result == -1
      case Ok(v, rest) => result == 0 && i == v && tokens[q] == rest
  {
    i := 0;
    result, q := ParseKey(src, p, n, tokens, id);
    if result != 0 {
      return;
    }
    result, q, i := ParseValue(src, q, n, tokens);
    if result != 0 {
      return;
    }
    result, q := ParseEnd(src, q, n, tokens);
  }

  ghost predicate BufHolds(buf: IntBuf?, ints: seq<int>)
    reads buf, if buf == null then null else buf.data
  {
    buf != null && buf.Valid() && buf.Contents() == ints
  }

  /** Every field of the map but its name holds v's. */
  ghost predicate Holds(m: SaMap, v: ArenaMap)
    reads m, m.tiles, m.sp, m.ws, if m.sp == null then null else m.sp.data, if m.ws == null then null else m.ws.data
  {
    && m.infx == v.infx && m.infy == v.infy
    && m.tiles != null && m.tiles[..] == v.tiles
    && BufHolds(m.sp, v.sp) && BufHolds(m.ws, v.ws)
    && m.rt == v.rt && m.ts == v.ts
  }

  /** The state of a map of which only the name and ts matter to the parser. */
  function Unparsed(name: string, ts: int): ArenaMap {
    ArenaMap(0, 0, name, [], [], [], 0, ts)
  }

  method ParseTwoLists(m: SaMap, src: array<char>, p: nat, ghost n: nat, ghost tokens: seq<seq<Token>>)
    returns (result: int, q: nat)
    requires Source(src[..], n, tokens) && p <= n
    modifies m`sp, m`ws, src
    ensures src[..] == old(src[..]) && q <= n
    ensures match TwoLists(tokens[p])
      case Fail => result == -1
      case Ok(v, rest) =>
        result == 0 && tokens[q] == rest && BufHolds(m.sp, v.0) && BufHolds(m.ws, v.1)
  {
    var buf;
    result, q, buf := ParseIntList(src, p, n, tokens, "sp");
    if result != 0 {
      return;
    }
    m.sp := buf;
    result, q, buf := ParseIntList(src, q, n, tokens, "ws");
    if result != 0 {
      return;
    }
    m.ws := buf;
  }

  /** Both values are stored in rt. */
  method ParseTwoNumbers(m: SaMap, src: array<char>, p: nat, ghost n: nat, ghost tokens: seq<seq<Token>>)
    returns (result: int, q: nat)
    requires Source(src[..], n, tokens) && p <= n
    modifies m`rt, src
    ensures src[..] == old(src[..]) && q <= n
    ensures match TwoNumbers(tokens[p])
      case Fail => result == -1
      case Ok(v, rest) => result == 0 && tokens[q] == rest && m.rt == v.1
  {
    var i;
    result, q, i := ParseInt(src, p, n, tokens, "rt");
    if result != 0 {
      return;
    }
    m.rt := i;
    result, q, i := ParseInt(src, q, n, tokens, "ts");
    if result != 0 {
      return;
    }
    m.rt := i;
  }

  method ParseFirstSections(m: SaMap, src: array<char>, p: nat, ghost n: nat, ghost tokens: seq<seq<Token>>)
    returns (result: int, q: nat)
    requires m.name.Length == MAX_ARENA_NAME_SIZE && m.name != src && Source(src[..], n, tokens) && p <= n
    modifies m`infx, m`infy, m`tiles, m.name, src
    ensures src[..] == old(src[..]) && q <= n
    ensures match FirstSections(tokens[p])
      case Fail => result == -1
      case Ok((h, tiles), rest) =>
        && result == 0 && tokens[q] == rest
        && m.infx == h.x && m.infy == h.y && NameIs(m.name[..], old(m.name[..]), h.name)
        && m.tiles != null && fresh(m.tiles) && m.tiles[..] == tiles
  {
    result, q := ParseHeading(m, src, p, n, tokens);
    if result != 0 {
      return;
    }
    result, q := ParseTiles(m, src, q, n, tokens, Area(m.infx, m.infy));
  }

  method ParseLastSections(m: SaMap, src: array<char>, p: nat, ghost n: nat, ghost tokens: seq<seq<Token>>)
    returns (result: int, q: nat)
    requires Source(src[..], n, tokens) && p <= n
    modifies m`sp, m`ws, m`rt, src
    ensures src[..] == old(src[..]) && q <= n
    ensures match LastSections(tokens[p])
      case Fail => result == -1
      case Ok(v, rest) =>
        result == 0 && tokens[q] == rest && BufHolds(m.sp, v.sp) && BufHolds(m.ws, v.ws) && m.rt == v.ts
  {
    result, q := ParseTwoLists(m, src, p, n, tokens);
    if result != 0 {
      return;
    }
    result, q := ParseTwoNumbers(m, src, q, n, tokens);
  }

  /** The fields hold what the sections say; the last number is in rt. */
  ghost predicate Loaded(m: SaMap, h: Header, tiles: seq<string>, t: Trailer)
    reads m, m.tiles, m.sp, m.ws, if m.sp == null then null else m.sp.data, if m.ws == null then null else m.ws.data
  {
    && m.infx == h.x && m.infy == h.y && m.tiles != null && m.tiles[..] == tiles
    && BufHolds(m.sp, t.sp) && BufHolds(m.ws, t.ws) && m.rt == t.ts
  }

  method ParseAllSections(m: SaMap, src: array<char>, ghost n: nat, ghost tokens: seq<seq<Token>>)
    returns (result: int, ghost first: Res<(Header, seq<string>)>, ghost last: Res<Trailer>)
    requires m.name.Length == MAX_ARENA_NAME_SIZE && m.name != src && Source(src[..], n, tokens)
    modifies m`infx, m`infy, m`tiles, m`sp, m`ws, m`rt, m.name, src
    ensures src[..] == old(src[..])
    ensures first == FirstSections(tokens[0]) && last == if first.Ok? then LastSections(first.rest) else Fail
    ensures result == if last.Ok? then 0 else -1
    ensures result == 0 ==>
      && Loaded(m, first.value.0, first.value.1, last.value)
      && NameIs(m.name[..], old(m.name[..]), first.value.0.name)
  {
    var q;
    first, last := FirstSections(tokens[0]), Fail;
    result, q := ParseFirstSections(m, src, 0, n, tokens);
    if result != 0 {
      return -1, first, last;
    }
    last := LastSections(first.rest);
    result, q := ParseLastSections(m, src, q, n, tokens);
  }

  /** sa_parse_map, on a source that ends at its first NUL, n. */
  method ParseArenaMap(m: SaMap, src: array<char>, ghost n: nat) returns (result: int)
    requires m.name.Length == MAX_ARENA_NAME_SIZE && m.name != src && IsString(src[..], 0, n)
    modifies m, m.name, src
    ensures src[..] == old(src[..])
    ensures match ParseMap(Scan(src[..n]), Unparsed("", old(m.ts)))
      case Fail => result == -1
      case Ok(v, _) => result == 0 && Holds(m, v) && NameIs(m.name[..], old(m.name[..]), v.name)
  {
    ghost var tokens := Streams(src[..], n);
    assert src[..][0..n] == src[..n];
    assert tokens[0] == Scan(src[..n]);
    ghost var first, last;
    result, first, last := ParseAllSections(m, src, n, tokens);
  }
}
