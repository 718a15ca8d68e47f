/** Writing an arena map down and parsing it again. */
module MapRoundTrip {
  import opened Wrappers
  import opened CStrings
  import opened MapLexer
  import opened MapGrammar
  import opened MapGrammarProof
  import opened MapLayout

  const MAX_INT: nat := 0x7FFF_FFFF

  // ---- Rendering ----

  function Spaced(items: seq<string>): string {
    if items == [] then "" else " " + items[0] + Spaced(items[1..])
  }

  function Section(id: string, items: seq<string>): string {
    id + "=" + Spaced(items)
  }

  predicate Fits(v: int) {
    0 <= v <= MAX_INT
  }

  predicate AllFit(ints: seq<int>) {
    forall i :: 0 <= i < |ints| ==> Fits(ints[i])
  }

  function Decimals(ints: seq<int>): seq<string>
    requires AllFit(ints)
  {
    seq(|ints|, i requires 0 <= i < |ints| => Decimal(ints[i]))
  }

  function NumberText(v: int): string
    requires v >= -1
  {
    if v == -1 then "undefined" else Decimal(v)
  }

  function JoinWords(words: seq<string>): string {
    if words == [] then ""
    else if |words| == 1 then words[0]
    else JoinWords(words[..|words| - 1]) + " " + words[|words| - 1]
  }

  predicate IsWordString(w: string) {
    w != "" && |w| < 128 && forall i :: 0 <= i < |w| ==> IsWord(w[i])
  }

  predicate AreWords(items: seq<string>) {
    forall i :: 0 <= i < |items| ==> IsWordString(items[i])
  }

  /** A map that can be written down, whose name consists of these words. */
  ghost predicate Renderable(m: ArenaMap, words: seq<string>) {
    && Fits(m.infx) && Fits(m.infy)
    && words != [] && AreWords(words)
    && m.name == JoinWords(words) && |m.name| <= 62
    && (forall i :: 0 <= i < |m.tiles| ==>
          IsWordString(m.tiles[i]) && !AllDigits(m.tiles[i]) && |m.tiles[i]| < 8)
    && |m.tiles| == m.infx * m.infy
    && AllFit(m.sp) && AllFit(m.ws)
    && (m.rt == -1 || Fits(m.rt)) && (m.ts == -1 || Fits(m.ts))
  }

  function Render(m: ArenaMap, words: seq<string>): string
    requires Renderable(m, words)
  {
    Section("inf", [Decimal(m.infx), Decimal(m.infy)] + words) + "&"
    + (Section("tiles", m.tiles) + "&"
    + (Section("sp", Decimals(m.sp)) + "&"
    + RenderEnd(m, words)))
  }

  function RenderEnd(m: ArenaMap, words: seq<string>): string
    requires Renderable(m, words)
  {
    Section("ws", Decimals(m.ws)) + "&"
    + (Section("rt", [NumberText(m.rt)]) + "&"
    + Section("ts", [NumberText(m.ts)]))
  }

  // ---- Scanning what was rendered ----

  function WordToken(w: string): Token {
    if AllDigits(w) then Int(w) else Ident(w)
  }

  function WordTokens(ws: seq<string>): seq<Token> {
    seq(|ws|, i requires 0 <= i < |ws| => WordToken(ws[i]))
  }

  lemma BareWord(w: string, rest: string)
    requires IsWordString(w) && (rest == "" || !IsWord(rest[0]))
    ensures LexBare(w + rest) == Lexed(Some(WordToken(w)), |w|)
  {
    WordLenOf(w, rest);
    assert (w + rest)[..|w|] == w;
    assert (w + rest)[0] == w[0];
  }

  lemma ScanWord(w: string, rest: string)
    requires IsWordString(w) && (rest == "" || !IsWord(rest[0]))
    ensures Scan(w + rest) == [WordToken(w)] + Scan(rest)
  {
    BareWord(w, rest);
    assert (w + rest)[0] == w[0] && SpaceLen(w + rest) == 0;
    assert (w + rest)[0..] == w + rest && (w + rest)[|w|..] == rest;
    ScanBare(w + rest);
  }

  lemma ScanPunctuation(c: char, rest: string)
    requires c == '=' || c == '&'
    ensures Scan([c] + rest) == [if c == '=' then Eq else Amp] + Scan(rest)
  {
    assert ([c] + rest)[0..] == [c] + rest && ([c] + rest)[1..] == rest;
    ScanBare([c] + rest);
  }

  lemma SpacedCons(items: seq<string>, rest: string)
    requires items != []
    ensures Spaced(items) + rest == " " + (items[0] + (Spaced(items[1..]) + rest))
  {
    var more := Spaced(items[1..]);
    assert Spaced(items) == " " + items[0] + more;
  }

  lemma WordTokensCons(items: seq<string>)
    requires items != []
    ensures WordTokens(items) == [WordToken(items[0])] + WordTokens(items[1..])
  {
  }

  lemma SectionShape(id: string, items: seq<string>, rest: string)
    ensures Section(id, items) + rest == id + (['='] + (Spaced(items) + rest))
    ensures Section(id, items) + "&" + rest == Section(id, items) + (['&'] + rest)
  {
  }

  /** One blank and one word. */
  lemma ScanItem(s: string, w: string, tail: string)
    requires s == " " + (w + tail) && IsWordString(w) && (tail == "" || !IsWord(tail[0]))
    ensures Scan(s) == [WordToken(w)] + Scan(tail)
  {
    SpaceOf(w + tail);
    ScanWord(w, tail);
  }

  lemma {:induction false} ScanSpaced(items: seq<string>, rest: string)
    requires AreWords(items)
    requires rest == "" || rest[0] == '&'
    ensures Scan(Spaced(items) + rest) == WordTokens(items) + Scan(rest)
    decreases |items|
  {
    if items == [] {
      assert Spaced(items) + rest == rest;
      assert WordTokens(items) == [];
    } else {
      var tail := Spaced(items[1..]) + rest;
      SpacedCons(items, rest);
      WordTokensCons(items);
      ScanSpaced(items[1..], rest);
      SpacedStart(items[1..], rest);
      ScanItem(Spaced(items) + rest, items[0], tail);
      ConsAppend(WordToken(items[0]), WordTokens(items[1..]), Scan(rest));
    }
  }

  lemma ConsAppend(t: Token, ts: seq<Token>, more: seq<Token>)
    ensures [t] + (ts + more) == [t] + ts + more
  {
  }

  lemma SpacedStart(items: seq<string>, rest: string)
    requires rest == "" || rest[0] == '&'
    ensures var s := Spaced(items) + rest; s == "" || !IsWord(s[0])
  {
  }

  lemma ScanKey(s: string, id: string, body: string)
    requires s == id + (['='] + body) && IsWordString(id) && !AllDigits(id)
    ensures Scan(s) == Assign(id, Scan(body))
  {
    ScanWord(id, ['='] + body);
    ScanPunctuation('=', body);
  }

  lemma ScanSection(id: string, items: seq<string>, rest: string)
    requires IsWordString(id) && !AllDigits(id) && AreWords(items)
    requires rest == "" || rest[0] == '&'
    ensures Scan(Section(id, items) + rest) == Assign(id, WordTokens(items)) + Scan(rest)
  {
    SectionShape(id, items, rest);
    ScanKey(Section(id, items) + rest, id, Spaced(items) + rest);
    ScanSpaced(items, rest);
  }

  /** A section and the `&` behind it. */
  lemma ScanClosedSection(id: string, items: seq<string>, rest: string)
    requires IsWordString(id) && !AllDigits(id) && AreWords(items)
    ensures Scan(Section(id, items) + "&" + rest) == Assign(id, WordTokens(items) + [Amp]) + Scan(rest)
  {
    SectionShape(id, items, rest);
    ScanSection(id, items, ['&'] + rest);
    ScanPunctuation('&', rest);
  }

  lemma DecimalIsWord(v: int)
    requires Fits(v)
    ensures IsWordString(Decimal(v)) && WordToken(Decimal(v)) == Int(Decimal(v))
  {
    TenDigits();
    DecimalLength(v, 10);
  }

  lemma TenDigits()
    ensures MAX_INT < Pow10(10)
  {
    assert Pow10(3) == 1000;
    assert Pow10(6) == 1000 * Pow10(3);
    assert Pow10(10) == 10000 * Pow10(6);
  }

  lemma NumberTextIsWord(v: int)
    requires v == -1 || Fits(v)
    ensures IsWordString(NumberText(v)) && IsNumber(WordToken(NumberText(v)))
    ensures NumberValue(WordToken(NumberText(v))) == v
  {
    if v == -1 {
      assert !IsDigit("undefined"[0]);
    } else {
      DecimalIsWord(v);
      DecimalRoundTrip(v);
    }
  }

  // ---- The sentence that a rendered map scans to ----

  function PartsOf(m: ArenaMap, words: seq<string>): Parts
    requires Renderable(m, words)
  {
    Parts(WordToken(Decimal(m.infx)), WordToken(Decimal(m.infy)), WordTokens(words), WordTokens(m.tiles),
          WordTokens(Decimals(m.sp)), WordTokens(Decimals(m.ws)),
          WordToken(NumberText(m.rt)), WordToken(NumberText(m.ts)))
  }

  lemma RenderedItems(m: ArenaMap, words: seq<string>)
    requires Renderable(m, words)
    ensures AreWords([Decimal(m.infx), Decimal(m.infy)] + words)
    ensures AreWords(m.tiles) && AreWords(Decimals(m.sp)) && AreWords(Decimals(m.ws))
    ensures AreWords([NumberText(m.rt)]) && AreWords([NumberText(m.ts)])
  {
    forall v: int | Fits(v)
      ensures IsWordString(Decimal(v))
    {
      DecimalIsWord(v);
    }
    NumberTextIsWord(m.rt);
    NumberTextIsWord(m.ts);
  }

  lemma OneToken(w: string)
    requires IsWordString(w)
    ensures AreWords([w]) && WordTokens([w]) == [WordToken(w)]
  {
  }

  lemma ScanLastSection(id: string, w: string)
    requires IsWordString(id) && !AllDigits(id) && IsWordString(w)
    ensures Scan(Section(id, [w])) == Assign(id, [WordToken(w)]) + [Eof]
  {
    OneToken(w);
    ScanSection(id, [w], "");
    assert Section(id, [w]) + "" == Section(id, [w]);
  }

  lemma ScanTwoSections(v: string, w: string)
    requires IsWordString(v) && IsWordString(w)
    ensures Scan(Section("rt", [v]) + "&" + Section("ts", [w]))
      == Assign("rt", [WordToken(v), Amp]) + (Assign("ts", [WordToken(w)]) + [Eof])
  {
    var last := Section("ts", [w]);
    OneToken(v);
    Letters();
    ScanClosedSection("rt", [v], last);
    ScanLastSection("ts", w);
    assert WordTokens([v]) + [Amp] == [WordToken(v), Amp];
    assert Scan(last) == Assign("ts", [WordToken(w)]) + [Eof];
  }

  lemma ScanEnd(m: ArenaMap, words: seq<string>, p: Parts)
    requires Renderable(m, words) && p == PartsOf(m, words)
    ensures Scan(RenderEnd(m, words))
      == Assign("ws", p.ws + [Amp]) + (Assign("rt", [p.rt, Amp]) + (Assign("ts", [p.ts]) + [Eof]))
  {
    RenderedItems(m, words);
    Letters();
    NumberTextIsWord(m.rt);
    NumberTextIsWord(m.ts);
    ScanTwoSections(NumberText(m.rt), NumberText(m.ts));
    ScanClosedSection("ws", Decimals(m.ws),
                      Section("rt", [NumberText(m.rt)]) + "&" + Section("ts", [NumberText(m.ts)]));
  }

  lemma ScanSections(m: ArenaMap, words: seq<string>, p: Parts)
    requires Renderable(m, words) && p == PartsOf(m, words)
    ensures Scan(Render(m, words))
      == Assign("inf", [p.x, p.y] + p.words + [Amp])
         + (Assign("tiles", p.tiles + [Amp])
         + (Assign("sp", p.sp + [Amp]) + Scan(RenderEnd(m, words))))
  {
    var t2 := Section("sp", Decimals(m.sp)) + "&" + RenderEnd(m, words);
    var t1 := Section("tiles", m.tiles) + "&" + t2;
    RenderedItems(m, words);
    Letters();
    ScanClosedSection("sp", Decimals(m.sp), RenderEnd(m, words));
    ScanClosedSection("tiles", m.tiles, t2);
    ScanClosedSection("inf", [Decimal(m.infx), Decimal(m.infy)] + words, t1);
    HeadTokens(Decimal(m.infx), Decimal(m.infy), words);
  }

  lemma HeadTokens(x: string, y: string, words: seq<string>)
    ensures WordTokens([x, y] + words) == [WordToken(x), WordToken(y)] + WordTokens(words)
  {
  }

  lemma Letters()
    ensures forall id :: id in {"inf", "tiles", "sp", "ws", "rt", "ts"} ==> IsWordString(id) && !AllDigits(id)
  {
    forall id | id in {"inf", "tiles", "sp", "ws", "rt", "ts"}
      ensures IsWordString(id) && !AllDigits(id)
    {
      assert !IsDigit(id[0]);
    }
  }

  /** A rendered map scans to its own sentence. */
  lemma ScanRendered(m: ArenaMap, words: seq<string>)
    requires Renderable(m, words)
    ensures Scan(Render(m, words)) == Sentence(PartsOf(m, words)) + [Eof]
  {
    var p := PartsOf(m, words);
    ScanEnd(m, words, p);
    ScanSections(m, words, p);
    SentenceNested(p);
  }

  lemma SentenceNested(p: Parts)
    ensures Sentence(p) + [Eof]
      == Assign("inf", [p.x, p.y] + p.words + [Amp])
         + (Assign("tiles", p.tiles + [Amp])
         + (Assign("sp", p.sp + [Amp])
         + (Assign("ws", p.ws + [Amp]) + (Assign("rt", [p.rt, Amp]) + (Assign("ts", [p.ts]) + [Eof])))))
  {
  }

  // ---- What the sentence means ----

  lemma {:induction false} JoinedWords(words: seq<string>)
    ensures Joined(WordTokens(words)) == JoinWords(words)
    decreases |words|
  {
    if |words| > 1 {
      var n := |words| - 1;
      JoinedWords(words[..n]);
      assert WordTokens(words)[..n] == WordTokens(words[..n]);
    }
  }

  lemma LexemesOf(ws: seq<string>)
    ensures Lexemes(WordTokens(ws)) == ws
  {
  }

  lemma ValuesOf(ints: seq<int>)
    requires AllFit(ints)
    ensures Values(WordTokens(Decimals(ints))) == ints && AllInts(WordTokens(Decimals(ints)))
  {
    forall i | 0 <= i < |ints|
      ensures Values(WordTokens(Decimals(ints)))[i] == ints[i] && WordTokens(Decimals(ints))[i].Int?
    {
      DecimalIsWord(ints[i]);
      DecimalRoundTrip(ints[i]);
    }
  }

  lemma PartsWellFormed(m: ArenaMap, words: seq<string>, before: ArenaMap)
    requires Renderable(m, words)
    ensures WellFormed(PartsOf(m, words))
    ensures Meaning(PartsOf(m, words), before) == m.(rt := m.ts, ts := before.ts)
  {
    DecimalIsWord(m.infx);
    DecimalIsWord(m.infy);
    DecimalRoundTrip(m.infx);
    DecimalRoundTrip(m.infy);
    JoinedWords(words);
    LexemesOf(m.tiles);
    ValuesOf(m.sp);
    ValuesOf(m.ws);
    NumberTextIsWord(m.rt);
    NumberTextIsWord(m.ts);
  }

  /** Parsing a rendered map gives back every field but the last two: `ts` arrives in
      rt, and the ts field keeps what it held. */
  lemma RoundTrip(m: ArenaMap, words: seq<string>, before: ArenaMap)
    requires Renderable(m, words)
    ensures ParseMap(Scan(Render(m, words)), before) == Ok(m.(rt := m.ts, ts := before.ts), [Eof])
  {
    var p := PartsOf(m, words);
    var ts := Scan(Render(m, words));
    ScanRendered(m, words);
    ScanNonempty(Render(m, words));
    PartsWellFormed(m, words, before);
    GrammarComplete(ts, p, before);
    assert ts[|Sentence(p)|..] == [Eof];
  }

  /** So the round trip is exact only for maps whose rt and ts agree, read into a map
      that already holds that ts. */
  lemma RoundTripExactly(m: ArenaMap, words: seq<string>, before: ArenaMap)
    requires Renderable(m, words)
    ensures ParseMap(Scan(Render(m, words)), before) == Ok(m, [Eof]) <==> m.rt == m.ts == before.ts
  {
    RoundTrip(m, words, before);
  }

  // ---- A repair ----

  /** sa_parse_map with `&map->ts` as the last target, as the key it reads suggests. */
  function Repaired(ts: seq<Token>): Res<ArenaMap> {
    var (first, ts1) :- FirstSections(ts);
    var (h, tiles) := first;
    var (t, ts2) :- LastSections(ts1);
    Ok(ArenaMap(h.x, h.y, h.name, tiles, t.sp, t.ws, t.rt, t.ts), ts2)
  }

  /** With that one word changed the round trip holds for every map that can be
      written down. */
  lemma RepairedRoundTrip(m: ArenaMap, words: seq<string>)
    requires Renderable(m, words)
    ensures Repaired(Scan(Render(m, words))) == Ok(m, [Eof])
  {
    var p := PartsOf(m, words);
    var ts := Scan(Render(m, words));
    ScanRendered(m, words);
    ScanNonempty(Render(m, words));
    PartsWellFormed(m, words, m);
    RepairedSentence(ts, p, m);
    NumberTextIsWord(m.rt);
    assert ts[|Sentence(p)|..] == [Eof];
  }

  lemma RepairedSentence(ts: seq<Token>, p: Parts, before: ArenaMap)
    requires Nonempty(ts) && WellFormed(p) && p.words != [] && BeginsWith(ts, Sentence(p))
    ensures Repaired(ts)
      == Ok(Meaning(p, before).(rt := NumberValue(p.rt), ts := NumberValue(p.ts)), Advance(ts[|Sentence(p)|..]))
  {
    var r := SentenceIsSections(ts, p);
    assert Nonempty(p.words) by {
      assert forall i :: 0 <= i < |p.words| ==> p.words[i] == ts[4 + i];
    }
    HeadingComplete(p.x, p.y, p.words, r.r1);
    TilesComplete(p.tiles, r.r2);
    LastFourComplete(r.r2, p, r);
  }
}
