/** The amount and the kind of white space in a map file do not matter. */
module MapLayout {
  import opened Wrappers
  import opened CStrings
  import opened MapLexer
  import opened MapGrammar

  /** s with every run of white space replaced by one blank. */
  function Squeeze(s: string): string
    decreases |s|
  {
    if s == "" then ""
    else if IsSpace(s[0]) then " " + Squeeze(s[SpaceLen(s)..])
    else [s[0]] + Squeeze(s[1..])
  }

  lemma {:induction false} SqueezeWord(w: string, u: string)
    requires forall i :: 0 <= i < |w| ==> IsWord(w[i])
    ensures Squeeze(w + u) == w + Squeeze(u)
    decreases |w|
  {
    if w == "" {
      assert w + u == u;
    } else {
      assert (w + u)[1..] == w[1..] + u;
      SqueezeWord(w[1..], u);
    }
  }

  lemma WordSqueezed(t: string)
    ensures WordLen(Squeeze(t)) == WordLen(t)
    ensures Squeeze(t)[..WordLen(t)] == t[..WordLen(t)]
    ensures Squeeze(t)[WordLen(t)..] == Squeeze(t[WordLen(t)..])
  {
    var w, u := t[..WordLen(t)], t[WordLen(t)..];
    WordLenIsLongest(t);
    assert t == w + u;
    SqueezeWord(w, u);
    WordLenOf(w, Squeeze(u));
  }

  /** The first token of a text that begins with no space survives squeezing. */
  lemma BareSqueezed(t: string)
    requires t == "" || !IsSpace(t[0])
    ensures LexBare(Squeeze(t)) == LexBare(t)
    ensures LexBare(t).used <= |t|
    ensures LexBare(t).tok != None ==> Squeeze(t)[LexBare(t).used..] == Squeeze(t[LexBare(t).used..])
  {
    WordSqueezed(t);
  }

  lemma LexSpace(s: string)
    ensures Lex(" " + s) == Lex(s).(used := Lex(s).used + 1)
  {
    assert (" " + s)[1..] == s;
    assert (" " + s)[1 + SpaceLen(s)..] == s[SpaceLen(s)..];
  }

  lemma SpaceOf(s: string)
    ensures Scan(" " + s) == Scan(s)
  {
    LexSpace(s);
    assert (" " + s)[1 + Lex(s).used..] == s[Lex(s).used..];
  }

  /** Squeezing leaves the tokens as they are. */
  lemma {:induction false} ScanSqueezed(s: string)
    ensures Scan(Squeeze(s)) == Scan(s)
    decreases |s|
  {
    var n := SpaceLen(s);
    var t := s[n..];
    SpaceLenIsLongest(s);
    SqueezeSpaces(s);
    ScanBare(s);
    BareSqueezed(t);
    ScanBare(Squeeze(t));
    var l := LexBare(t);
    if l.tok != None && l.tok != Some(Eof) {
      ScanSqueezed(t[l.used..]);
    }
  }

  /** Scanning starts with the first token behind any spaces. */
  lemma ScanBare(s: string)
    ensures var t := s[SpaceLen(s)..];
      var l := LexBare(t);
      Scan(s) == (match l.tok
        case None => []
        case Some(tok) => if tok == Eof then [Eof] else [tok] + Scan(t[l.used..]))
  {
    var t := s[SpaceLen(s)..];
    assert s[Lex(s).used..] == t[LexBare(t).used..];
  }

  lemma SqueezeSpaces(s: string)
    ensures Scan(Squeeze(s)) == Scan(Squeeze(s[SpaceLen(s)..]))
  {
    if SpaceLen(s) == 0 {
      assert s[0..] == s;
    } else {
      SpaceOf(Squeeze(s[SpaceLen(s)..]));
    }
  }

  /** Two sources that differ only in the length or kind of their white space give
      the same outcome and the same fields. */
  lemma LayoutIndependence(s: string, t: string, before: ArenaMap)
    requires Squeeze(s) == Squeeze(t)
    ensures ParseMap(Scan(s), before) == ParseMap(Scan(t), before)
  {
    ScanSqueezed(s);
    ScanSqueezed(t);
  }
}
