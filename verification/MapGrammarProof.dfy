/** The parser accepts exactly the sentences of the grammar, with their meaning. */
module MapGrammarProof {
  import opened CStrings
  import opened MapLexer
  import opened MapGrammar

  /** ts begins with s and then one more token, `&` or the end of the file. */
  ghost predicate BeginsWith(ts: seq<Token>, s: seq<Token>) {
    |s| < |ts| && s <= ts && (ts[|s|] == Amp || ts[|s|] == Eof)
  }

  lemma KeyExactly(ts: seq<Token>, id: string)
    ensures Key(ts, id).Ok? <==> |ts| > 1 && ts[0] == Ident(id) && ts[1] == Eq
    ensures Key(ts, id).Ok? ==> Key(ts, id).rest == ts[2..] && ts == Assign(id, ts[2..])
  {
  }

  lemma LexemesCons(t: Token, ts: seq<Token>)
    ensures Lexemes([t] + ts) == [t.Lexeme()] + Lexemes(ts)
  {
  }

  lemma ValuesCons(t: Token, ts: seq<Token>)
    ensures Values([t] + ts) == [Atoi(t.Lexeme())] + Values(ts)
  {
  }

  // ---- Tiles ----

  lemma {:induction false} TileListSound(ts: seq<Token>, missing: int)
    requires TileList(ts, missing).Ok?
    ensures 0 <= missing < |ts| && ts[missing] == Amp && AreTiles(ts[..missing])
    ensures TileList(ts, missing) == Ok(Lexemes(ts[..missing]), ts[missing + 1..])
    decreases |ts|
  {
    if ts[0] == Amp {
      assert Lexemes(ts[..missing]) == [];
    } else {
      TileListSound(ts[1..], missing - 1);
      LexemesCons(ts[0], ts[1..][..missing - 1]);
      assert ts[..missing] == [ts[0]] + ts[1..][..missing - 1];
    }
  }

  lemma {:induction false} TileListComplete(body: seq<Token>, tail: seq<Token>)
    requires AreTiles(body)
    ensures TileList(body + [Amp] + tail, |body|) == Ok(Lexemes(body), tail)
    decreases |body|
  {
    var ts: seq<Token> := body + [Amp] + tail;
    if body == [] {
      assert ts[1..] == tail && Lexemes(body) == [];
    } else {
      TileListComplete(body[1..], tail);
      assert ts[1..] == body[1..] + [Amp] + tail;
      LexemesCons(body[0], body[1..]);
      assert [body[0]] + body[1..] == body;
    }
  }

  // ---- Lists of integers ----

  lemma {:induction false} IntsSound(ts: seq<Token>) returns (n: nat)
    requires Ints(ts).Ok?
    ensures n < |ts| && ts[n] == Amp && AllInts(ts[..n])
    ensures Ints(ts) == Ok(Values(ts[..n]), ts[n + 1..])
    decreases |ts|
  {
    if ts[0] == Amp {
      n := 0;
      assert Values(ts[..n]) == [];
    } else {
      var m := IntsSound(ts[1..]);
      n := m + 1;
      var body := ts[1..][..m];
      ValuesCons(ts[0], body);
      assert ts[..n] == [ts[0]] + body && ts[n + 1..] == ts[1..][m + 1..];
    }
  }

  lemma {:induction false} IntsComplete(body: seq<Token>, tail: seq<Token>)
    requires AllInts(body)
    ensures Ints(body + [Amp] + tail) == Ok(Values(body), tail)
    decreases |body|
  {
    var ts: seq<Token> := body + [Amp] + tail;
    if body == [] {
      assert ts[1..] == tail && Values(body) == [];
    } else {
      IntsComplete(body[1..], tail);
      assert ts[1..] == body[1..] + [Amp] + tail;
      ValuesCons(body[0], body[1..]);
      assert [body[0]] + body[1..] == body;
    }
  }

  // ---- Names ----

  /** At the end of the file the cursor stands still, but the room left for the name
      shrinks with every "EOF" appended to it, so the loop gives up. */
  lemma {:induction false} NameFailsAtEof(ts: seq<Token>, sofar: string)
    requires |sofar| < MAX_ARENA_NAME_SIZE && ts != [] && ts[0] == Eof
    ensures Name(ts, sofar) == Fail
    decreases MAX_ARENA_NAME_SIZE - |sofar|
  {
    var padded := if |sofar| > 0 then sofar + " " else sofar;
    if |padded| + |ts[0].Lexeme()| + 1 < MAX_ARENA_NAME_SIZE {
      NameFailsAtEof(ts, padded + ts[0].Lexeme());
    }
  }

  lemma JoinedSnoc(words: seq<Token>, t: Token)
    requires Nonempty(words)
    ensures Joined(words + [t]) == (if words == [] then "" else Joined(words) + " ") + t.Lexeme()
    ensures words != [] ==> Joined(words) != ""
  {
    assert (words + [t])[..|words|] == words;
  }

  /** One turn of the name loop takes one more word, if the joined name still fits. */
  lemma NameStep(ts: seq<Token>, words: seq<Token>)
    requires Nonempty(words) && |Joined(words)| <= MAX_ARENA_NAME_SIZE - 2 && ts != [] && ts[0] != Amp
    ensures var longer := Joined(words + [ts[0]]);
      Name(ts, Joined(words))
      == if |longer| <= MAX_ARENA_NAME_SIZE - 2 then Name(Advance(ts), longer) else Fail
  {
    JoinedSnoc(words, ts[0]);
  }

  lemma {:induction false} JoinedGrows(words: seq<Token>, more: seq<Token>)
    requires Nonempty(words) && Nonempty(more)
    ensures |Joined(words)| <= |Joined(words + more)|
    decreases |more|
  {
    if more == [] {
      assert words + more == words;
    } else {
      var n := |more| - 1;
      JoinedGrows(words, more[..n]);
      JoinedSnoc(words + more[..n], more[n]);
      assert words + more[..n] + [more[n]] == words + more;
    }
  }

  /** On words followed by `&`, the name is all of them joined, if that fits. */
  lemma {:induction false} NameOfWords(words: seq<Token>, more: seq<Token>, tail: seq<Token>)
    requires forall i :: 0 <= i < |more| ==> more[i] != Amp && more[i] != Eof
    requires Nonempty(words) && Nonempty(more) && |Joined(words)| <= MAX_ARENA_NAME_SIZE - 2
    ensures var all := Joined(words + more);
      Name(more + [Amp] + tail, Joined(words)) == if |all| <= 62 then Ok(all, tail) else Fail
    decreases |more|
  {
    var ts: seq<Token> := more + [Amp] + tail;
    if more == [] {
      assert ts[1..] == tail && words + more == words;
    } else {
      var longer := words + [more[0]];
      assert longer + more[1..] == words + more;
      assert ts[1..] == more[1..] + [Amp] + tail;
      NameStep(ts, words);
      JoinedGrows(longer, more[1..]);
      if |Joined(longer)| <= MAX_ARENA_NAME_SIZE - 2 {
        NameOfWords(longer, more[1..], tail);
      }
    }
  }

  /** A name that is accepted is a run of words ended by `&` within the stream. */
  lemma {:induction false} NameHasEnd(ts: seq<Token>, sofar: string) returns (n: nat)
    requires |sofar| < MAX_ARENA_NAME_SIZE && Name(ts, sofar).Ok?
    ensures n < |ts| && ts[n] == Amp
    ensures forall i :: 0 <= i < n ==> ts[i] != Amp && ts[i] != Eof
    decreases |ts|
  {
    if ts[0] == Amp {
      n := 0;
    } else {
      if ts[0] == Eof {
        NameFailsAtEof(ts, sofar);
      }
      var padded := if |sofar| > 0 then sofar + " " else sofar;
      n := NameHasEnd(ts[1..], padded + ts[0].Lexeme());
      n := n + 1;
    }
  }

  // ---- Whole sections: what each accepts, and what it makes of it ----

  lemma NameSound(ts: seq<Token>) returns (words: seq<Token>)
    requires Nonempty(ts) && Name(ts, "").Ok?
    ensures IsName(words) && Nonempty(words) && ts == words + [Amp] + Name(ts, "").rest
    ensures Name(ts, "").value == Joined(words)
  {
    var n := NameHasEnd(ts, "");
    words := ts[..n];
    assert ts == words + [Amp] + ts[n + 1..];
    NameOfWords([], words, ts[n + 1..]);
    assert [] + words == words;
  }

  lemma NameComplete(words: seq<Token>, tail: seq<Token>)
    requires Nonempty(words) && IsName(words)
    ensures Name(words + [Amp] + tail, "") == Ok(Joined(words), tail)
  {
    NameOfWords([], words, tail);
    assert [] + words == words;
  }

  lemma HeadingExactly(ts: seq<Token>)
    ensures Heading(ts).Ok? <==>
      Assign("inf", []) <= ts && |ts| >= 4 && ts[2].Int? && ts[3].Int? && Name(ts[4..], "").Ok?
    ensures Heading(ts).Ok? ==>
      var name := Name(ts[4..], "");
      Heading(ts) == Ok(Header(Atoi(ts[2].word), Atoi(ts[3].word), name.value), name.rest)
  {
    KeyExactly(ts, "inf");
    if |ts| >= 4 {
      assert ts[2..][1..][1..] == ts[4..];
    }
  }

  lemma HeadingSound(ts: seq<Token>) returns (x: Token, y: Token, words: seq<Token>)
    requires Nonempty(ts) && Heading(ts).Ok?
    ensures x.Int? && y.Int? && IsName(words) && Nonempty(words)
    ensures ts == Assign("inf", [x, y] + words + [Amp]) + Heading(ts).rest
    ensures Heading(ts).value == Header(Atoi(x.word), Atoi(y.word), Joined(words))
  {
    HeadingExactly(ts);
    words := NameSound(ts[4..]);
    x, y := ts[2], ts[3];
    HeadingShape(ts, words, Name(ts[4..], "").rest);
  }

  lemma HeadingShape(ts: seq<Token>, words: seq<Token>, rest: seq<Token>)
    requires |ts| >= 4 && Assign("inf", []) <= ts && ts[4..] == words + [Amp] + rest
    ensures ts == Assign("inf", [ts[2], ts[3]] + words + [Amp]) + rest
  {
    assert ts == ts[..4] + ts[4..];
    assert ts[..4] == Assign("inf", [ts[2], ts[3]]);
  }

  lemma HeadingComplete(x: Token, y: Token, words: seq<Token>, tail: seq<Token>)
    requires x.Int? && y.Int? && Nonempty(words) && IsName(words)
    ensures Heading(Assign("inf", [x, y] + words + [Amp]) + tail)
      == Ok(Header(Atoi(x.word), Atoi(y.word), Joined(words)), tail)
  {
    var ts: seq<Token> := Assign("inf", [x, y] + words + [Amp]) + tail;
    assert ts[4..] == words + [Amp] + tail;
    NameComplete(words, tail);
    HeadingExactly(ts);
  }

  lemma TilesSound(ts: seq<Token>, product: int) returns (tiles: seq<Token>)
    requires Tiles(ts, product).Ok?
    ensures AreTiles(tiles) && |tiles| == product
    ensures ts == Assign("tiles", tiles + [Amp]) + Tiles(ts, product).rest
    ensures Tiles(ts, product).value == Lexemes(tiles)
  {
    KeyExactly(ts, "tiles");
    TileListSound(ts[2..], product);
    tiles := ts[2..][..product];
  }

  lemma TilesComplete(tiles: seq<Token>, tail: seq<Token>)
    requires AreTiles(tiles)
    ensures Tiles(Assign("tiles", tiles + [Amp]) + tail, |tiles|) == Ok(Lexemes(tiles), tail)
  {
    var ts: seq<Token> := Assign("tiles", tiles + [Amp]) + tail;
    KeyExactly(ts, "tiles");
    assert ts[2..] == tiles + [Amp] + tail;
    TileListComplete(tiles, tail);
  }

  lemma IntListSound(ts: seq<Token>, id: string) returns (ints: seq<Token>)
    requires IntList(ts, id).Ok?
    ensures AllInts(ints) && IntList(ts, id).value == Values(ints)
    ensures ts == Assign(id, ints + [Amp]) + IntList(ts, id).rest
  {
    KeyExactly(ts, id);
    var n := IntsSound(ts[2..]);
    ints := ts[2..][..n];
  }

  lemma IntListComplete(id: string, ints: seq<Token>, tail: seq<Token>)
    requires AllInts(ints)
    ensures IntList(Assign(id, ints + [Amp]) + tail, id) == Ok(Values(ints), tail)
  {
    var ts: seq<Token> := Assign(id, ints + [Amp]) + tail;
    KeyExactly(ts, id);
    assert ts[2..] == ints + [Amp] + tail;
    IntsComplete(ints, tail);
  }

  /** A number section is a key, an integer or the one word that stands for -1, and `&`,
      which is consumed, or the end of the file, which is not. */
  lemma NumberExactly(ts: seq<Token>, id: string)
    ensures Number(ts, id).Ok? <==>
      && |ts| > 3 && ts[0] == Ident(id) && ts[1] == Eq
      && (ts[2].Int? || ts[2] == Ident("undefined")) && (ts[3] == Amp || ts[3] == Eof)
    ensures Number(ts, id).Ok? ==>
      Number(ts, id) == Ok(if ts[2].Int? then Atoi(ts[2].word) else -1, if ts[3] == Amp then ts[4..] else ts[3..])
  {
    KeyExactly(ts, id);
  }

  lemma NumberSound(ts: seq<Token>, id: string)
    requires Number(ts, id).Ok?
    ensures |ts| > 3 && ts[0] == Ident(id) && IsNumber(ts[2]) && (ts[3] == Amp || ts[3] == Eof)
    ensures ts == Assign(id, [ts[2]]) + ts[3..] && Number(ts, id).rest == Advance(ts[3..])
    ensures ts[3] == Amp ==> ts == Assign(id, [ts[2], Amp]) + Number(ts, id).rest
  {
    NumberExactly(ts, id);
  }

  lemma NumberComplete(ts: seq<Token>, id: string, t: Token, tail: seq<Token>)
    requires ts == Assign(id, [t]) + tail && IsNumber(t) && tail != [] && (tail[0] == Amp || tail[0] == Eof)
    ensures Number(ts, id) == Ok(NumberValue(t), Advance(tail))
  {
    NumberExactly(ts, id);
    assert ts[3..] == tail;
  }

  // ---- The main results ----

  /** The stream after each of the first five sections. */
  datatype Rests = Rests(r1: seq<Token>, r2: seq<Token>, r3: seq<Token>, r4: seq<Token>, r5: seq<Token>)

  ghost predicate LastFour(ts: seq<Token>, p: Parts, r: Rests) {
    && ts == Assign("sp", p.sp + [Amp]) + r.r3
    && r.r3 == Assign("ws", p.ws + [Amp]) + r.r4
    && r.r4 == Assign("rt", [p.rt, Amp]) + r.r5
    && |r.r5| > 3 && Assign("ts", [p.ts]) <= r.r5 && (r.r5[3] == Amp || r.r5[3] == Eof)
  }

  /** ts is the six sections of p in order, and one token that may end the last. */
  ghost predicate Sections(ts: seq<Token>, p: Parts, r: Rests) {
    && ts == Assign("inf", [p.x, p.y] + p.words + [Amp]) + r.r1
    && r.r1 == Assign("tiles", p.tiles + [Amp]) + r.r2
    && LastFour(r.r2, p, r)
  }

  lemma SectionsAreSentence(ts: seq<Token>, p: Parts, r: Rests)
    requires Sections(ts, p, r)
    ensures ts == Sentence(p) + r.r5[3..]
  {
    assert r.r5 == Assign("ts", [p.ts]) + r.r5[3..];
  }

  lemma SentenceIsSections(ts: seq<Token>, p: Parts) returns (r: Rests)
    requires BeginsWith(ts, Sentence(p))
    ensures Sections(ts, p, r) && r.r5[3..] == ts[|Sentence(p)|..]
    ensures |ts| >= 4 + |p.words| && p.words == ts[4..][..|p.words|]
  {
    var tail := ts[|Sentence(p)|..];
    var r5 := Assign("ts", [p.ts]) + tail;
    var r4 := Assign("rt", [p.rt, Amp]) + r5;
    var r3 := Assign("ws", p.ws + [Amp]) + r4;
    var r2 := Assign("sp", p.sp + [Amp]) + r3;
    var r1 := Assign("tiles", p.tiles + [Amp]) + r2;
    r := Rests(r1, r2, r3, r4, r5);
    assert ts == Sentence(p) + tail;
    assert ts == Assign("inf", [p.x, p.y] + p.words + [Amp]) + r1;
  }

  lemma LastFourSound(ts: seq<Token>)
    returns (sp: seq<Token>, ws: seq<Token>, r3: seq<Token>, r4: seq<Token>, r5: seq<Token>)
    requires LastSections(ts).Ok?
    ensures AllInts(sp) && AllInts(ws) && |r4| > 3 && |r5| > 3 && IsNumber(r4[2]) && IsNumber(r5[2])
    ensures ts == Assign("sp", sp + [Amp]) + r3
    ensures r3 == Assign("ws", ws + [Amp]) + r4
    ensures r4 == Assign("rt", [r4[2], Amp]) + r5
    ensures Assign("ts", [r5[2]]) <= r5 && (r5[3] == Amp || r5[3] == Eof)
  {
    r3 := IntList(ts, "sp").rest;
    r4 := IntList(r3, "ws").rest;
    r5 := Number(r4, "rt").rest;
    sp := IntListSound(ts, "sp");
    ws := IntListSound(r3, "ws");
    NumberSound(r4, "rt");
    NumberSound(r5, "ts");
    assert r4 == Assign("rt", [r4[2], Amp]) + r5;
  }

  lemma TwoListsComplete(ts: seq<Token>, sp: seq<Token>, ws: seq<Token>, tail: seq<Token>)
    requires AllInts(sp) && AllInts(ws)
    requires ts == Assign("sp", sp + [Amp]) + (Assign("ws", ws + [Amp]) + tail)
    ensures TwoLists(ts) == Ok((Values(sp), Values(ws)), tail)
  {
    IntListComplete("sp", sp, Assign("ws", ws + [Amp]) + tail);
    IntListComplete("ws", ws, tail);
  }

  lemma TwoNumbersComplete(ts: seq<Token>, rt: Token, last: Token, tail: seq<Token>)
    requires IsNumber(rt) && IsNumber(last) && tail != [] && (tail[0] == Amp || tail[0] == Eof)
    requires ts == Assign("rt", [rt, Amp]) + (Assign("ts", [last]) + tail)
    ensures TwoNumbers(ts) == Ok((NumberValue(rt), NumberValue(last)), Advance(tail))
  {
    var rest := Assign("ts", [last]) + tail;
    NumberComplete(ts, "rt", rt, [Amp] + rest);
    NumberComplete(rest, "ts", last, tail);
  }

  lemma LastFourComplete(ts: seq<Token>, p: Parts, r: Rests)
    requires WellFormed(p) && LastFour(ts, p, r)
    ensures LastSections(ts)
      == Ok(Trailer(Values(p.sp), Values(p.ws), NumberValue(p.rt), NumberValue(p.ts)), Advance(r.r5[3..]))
  {
    TwoListsComplete(ts, p.sp, p.ws, r.r4);
    assert r.r5 == Assign("ts", [p.ts]) + r.r5[3..];
    TwoNumbersComplete(r.r4, p.rt, p.ts, r.r5[3..]);
  }

  lemma NameWritten(words: seq<Token>)
    requires Nonempty(words)
    ensures Joined(words) == "" <==> words == []
  {
  }

  lemma ParseSections(ts: seq<Token>, p: Parts, r: Rests, before: ArenaMap)
    requires Nonempty(p.words) && WellFormed(p) && Sections(ts, p, r)
    ensures ParseMap(ts, before) == Ok(Meaning(p, before), Advance(r.r5[3..]))
  {
    HeadingComplete(p.x, p.y, p.words, r.r1);
    TilesComplete(p.tiles, r.r2);
    LastFourComplete(r.r2, p, r);
    NameWritten(p.words);
  }

  /** Whatever sa_parse_map accepts begins with a sentence of the grammar, and the
      map it fills in is that sentence's meaning. */
  lemma GrammarSound(ts: seq<Token>, before: ArenaMap) returns (p: Parts)
    requires Nonempty(ts) && ParseMap(ts, before).Ok?
    ensures WellFormed(p) && BeginsWith(ts, Sentence(p))
    ensures ParseMap(ts, before).value == Meaning(p, before)
  {
    var h := Heading(ts);
    var product := Area(h.value.x, h.value.y);
    var r2 := Tiles(h.rest, product).rest;
    var x, y, words := HeadingSound(ts);
    var tiles := TilesSound(h.rest, product);
    var sp, ws, r3, r4, r5 := LastFourSound(r2);
    p := Parts(x, y, words, tiles, sp, ws, r4[2], r5[2]);
    var r := Rests(h.rest, r2, r3, r4, r5);
    SectionsAreSentence(ts, p, r);
    ParseSections(ts, p, r, before);
  }

  /** A stream that begins with a well-formed sentence is accepted with its meaning. */
  lemma GrammarComplete(ts: seq<Token>, p: Parts, before: ArenaMap)
    requires Nonempty(ts) && WellFormed(p) && BeginsWith(ts, Sentence(p))
    ensures ParseMap(ts, before) == Ok(Meaning(p, before), Advance(ts[|Sentence(p)|..]))
  {
    var r := SentenceIsSections(ts, p);
    assert Nonempty(p.words) by {
      assert forall i :: 0 <= i < |p.words| ==> p.words[i] == ts[4 + i];
    }
    ParseSections(ts, p, r, before);
  }

  /** sa_parse_map accepts a token stream exactly when it begins with a well-formed
      sentence and one more token that is `&` or the end of the file. */
  lemma AcceptsExactly(ts: seq<Token>, before: ArenaMap)
    requires Nonempty(ts)
    ensures ParseMap(ts, before).Ok? <==> exists p :: WellFormed(p) && BeginsWith(ts, Sentence(p))
  {
    if ParseMap(ts, before).Ok? {
      var p := GrammarSound(ts, before);
    }
    if p :| WellFormed(p) && BeginsWith(ts, Sentence(p)) {
      GrammarComplete(ts, p, before);
    }
  }
}
