/** http_host_is_ipv4 of http.c (419-443). */
module Ipv4 {
  import opened CStrings

  predicate DigitsIn(s: string, p: nat, e: nat) {
    p <= e <= |s| && forall k :: p <= k < e ==> IsDigit(s[k])
  }

  /** The number that the digits s[p..e] denote. */
  function Value(s: string, p: nat, e: nat): nat
    requires DigitsIn(s, p, e)
  {
    if e == p then 0 else 10 * Value(s, p, e - 1) + (s[e - 1] as int - '0' as int)
  }

  lemma {:induction false} ValueIsAtoi(s: string, p: nat, e: nat)
    requires DigitsIn(s, p, e)
    ensures Value(s, p, e) == Atoi(s[p..e])
    decreases e
  {
    AtoiOfDigits(s[p..e]);
    if p < e {
      ValueIsAtoi(s, p, e - 1);
      AtoiOfDigits(s[p..e - 1]);
      assert s[p..e][..e - 1 - p] == s[p..e - 1];
    }
  }

  /** s[p..e] is a run of digits that denotes a number up to 255. */
  predicate IsOctet(s: string, p: nat, e: nat) {
    p < e && DigitsIn(s, p, e) && Value(s, p, e) <= 255
  }

  /** An octet and the dot behind it. */
  predicate Dotted(s: string, p: nat, e: nat) {
    IsOctet(s, p, e) && e < |s| && s[e] == '.'
  }

  /** An octet at the end of the text or before a dot. */
  predicate Closed(s: string, p: nat, e: nat) {
    IsOctet(s, p, e) && (e == |s| || s[e] == '.')
  }

  /** Four octets, ending at e0 to e3, with dots between them, and then the end of the
      text or a dot. */
  predicate Quad(s: string, e0: nat, e1: nat, e2: nat, e3: nat) {
    Dotted(s, 0, e0) && Dotted(s, e0 + 1, e1) && Dotted(s, e1 + 1, e2) && Closed(s, e2 + 1, e3)
  }

  function DigitEnd(s: string, p: nat): (e: nat)
    requires p <= |s|
    ensures DigitsIn(s, p, e) && (e < |s| ==> !IsDigit(s[e]))
    decreases |s| - p
  {
    if p < |s| && IsDigit(s[p]) then DigitEnd(s, p + 1) else p
  }

  /** Whether the test succeeds, and whether it leaves a dot in place of the terminator. */
  datatype Verdict = Verdict(ok: bool, overwritten: bool)

  /** What the loop finds from p on, when i octets are behind it. */
  function Scan(s: string, p: nat, i: nat): Verdict
    requires p <= |s|
    decreases 4 - i
  {
    var e := DigitEnd(s, p);
    if i >= 4 then Verdict(true, false)
    else if e == p then Verdict(false, false)
    else if e == |s| then Verdict(i == 3 && Value(s, p, e) <= 255, i == 3)
    else if s[e] != '.' || Value(s, p, e) > 255 then Verdict(false, false)
    else Scan(s, e + 1, i + 1)
  }

  lemma OctetScans(s: string, p: nat, i: nat, e: nat)
    requires i < 3 && Dotted(s, p, e)
    ensures Scan(s, p, i) == Scan(s, e + 1, i + 1)
  {
    assert DigitEnd(s, p) == e;
  }

  lemma OctetFound(s: string, p: nat, i: nat) returns (e: nat)
    requires p <= |s| && i < 3 && Scan(s, p, i).ok
    ensures Dotted(s, p, e) && Scan(s, e + 1, i + 1).ok
  {
    e := DigitEnd(s, p);
  }

  lemma LastOctetScans(s: string, p: nat, e: nat)
    requires Closed(s, p, e)
    ensures Scan(s, p, 3).ok
  {
    assert DigitEnd(s, p) == e;
    assert e < |s| ==> Scan(s, e + 1, 4).ok;
  }

  lemma QuadScans(s: string, e0: nat, e1: nat, e2: nat, e3: nat)
    requires Quad(s, e0, e1, e2, e3)
    ensures Scan(s, 0, 0) == Scan(s, e2 + 1, 3)
  {
    OctetScans(s, 0, 0, e0);
    OctetScans(s, e0 + 1, 1, e1);
    OctetScans(s, e1 + 1, 2, e2);
  }

  lemma LastOctetFound(s: string, p: nat) returns (e: nat)
    requires p <= |s| && Scan(s, p, 3).ok
    ensures Closed(s, p, e)
  {
    e := DigitEnd(s, p);
  }

  lemma LastTwoFound(s: string, p: nat) returns (e2: nat, e3: nat)
    requires p <= |s| && Scan(s, p, 2).ok
    ensures Dotted(s, p, e2) && Closed(s, e2 + 1, e3)
  {
    e2 := OctetFound(s, p, 2);
    e3 := LastOctetFound(s, e2 + 1);
  }

  lemma LastThreeFound(s: string, p: nat) returns (e1: nat, e2: nat, e3: nat)
    requires p <= |s| && Scan(s, p, 1).ok
    ensures Dotted(s, p, e1) && Dotted(s, e1 + 1, e2) && Closed(s, e2 + 1, e3)
  {
    e1 := OctetFound(s, p, 1);
    e2, e3 := LastTwoFound(s, e1 + 1);
  }

  lemma QuadFound(s: string) returns (e0: nat, e1: nat, e2: nat, e3: nat)
    requires Scan(s, 0, 0).ok
    ensures Quad(s, e0, e1, e2, e3)
  {
    e0 := OctetFound(s, 0, 0);
    e1, e2, e3 := LastThreeFound(s, e0 + 1);
  }

  /** The test succeeds exactly on a text that begins with a dotted quad. */
  lemma ScanExactly(s: string)
    ensures Scan(s, 0, 0).ok <==> exists e0: nat, e1: nat, e2: nat, e3: nat :: Quad(s, e0, e1, e2, e3)
  {
    if Scan(s, 0, 0).ok {
      var e0, e1, e2, e3 := QuadFound(s);
    }
    if e0: nat, e1: nat, e2: nat, e3: nat :| Quad(s, e0, e1, e2, e3) {
      QuadScans(s, e0, e1, e2, e3);
      LastOctetScans(s, e2 + 1, e3);
    }
  }

  /** On success the terminator is overwritten exactly when the fourth octet ends the text. */
  lemma OverwritesExactly(s: string, e0: nat, e1: nat, e2: nat, e3: nat)
    requires Quad(s, e0, e1, e2, e3)
    ensures Scan(s, 0, 0).overwritten <==> e3 == |s|
  {
    QuadScans(s, e0, e1, e2, e3);
    assert DigitEnd(s, e2 + 1) == e3;
  }

  /** The end of the run of digits that starts at p. */
  method RunOfDigits(lex: array<char>, p: nat, ghost n: nat) returns (q: nat)
    requires IsText(lex[..], n) && p < n && IsDigit(lex[p])
    ensures p < q <= n && q == DigitEnd(lex[..n], p)
  {
    q := p + 1;
    while IsDigit(lex[q])
      invariant p < q <= n && DigitEnd(lex[..n], p) == DigitEnd(lex[..n], q)
      decreases n - q
    {
      q := q + 1;
    }
  }

  /** atoi on the run of digits lex[p..q], with a NUL patched in behind it and then a dot
      put there. */
  method OctetValue(lex: array<char>, p: nat, q: nat, ghost s: string) returns (octet: nat)
    requires p <= q < lex.Length && DigitsIn(s, p, q) && lex[p..q] == s[p..q]
    modifies lex
    ensures lex[..] == old(lex[..])[q := '.'] && octet == Value(s, p, q)
  {
    lex[q] := NUL;
    ValueIsAtoi(s, p, q);
    octet := Atoi(lex[p..q]);
    lex[q] := '.';
  }

  /** The buffer after the test: only its terminator may have changed. */
  ghost predicate After(after: seq<char>, before: seq<char>, n: nat, overwritten: bool) {
    n < |before| && after == before[n := if overwritten then '.' else NUL]
  }

  /** The body of the loop, with i octets behind the cursor p; q is the cursor after it. */
  method TestOctet(lex: array<char>, p: nat, i: nat, ghost n: nat) returns (ok: bool, q: nat)
    requires IsText(lex[..], n) && p <= n && i < 4
    modifies lex
    ensures var v := Scan(old(lex[..n]), p, i);
      && (!ok ==> !v.ok && After(lex[..], old(lex[..]), n, v.overwritten))
      && (ok && q <= n ==> lex[..] == old(lex[..]) && v == Scan(old(lex[..n]), q, i + 1))
      && (ok && q > n ==> i == 3 && v == Verdict(true, true) && After(lex[..], old(lex[..]), n, true))
  {
    if !IsDigit(lex[p]) {
      return false, p;
    }
    q := RunOfDigits(lex, p, n);
    if lex[q] != '.' {
      if lex[q] != NUL || (lex[q] == NUL && i < 3) {
        return false, q;
      }
    }
    ok := TakeOctet(lex, p, q, i, n);
    q := q + 1;
  }

  /** The rest of the body, for a run of digits with a dot behind it, or the fourth one at
      the end of the text. */
  method TakeOctet(lex: array<char>, p: nat, q: nat, i: nat, ghost n: nat) returns (ok: bool)
    requires IsText(lex[..], n) && i < 4 && p < q <= n && q == DigitEnd(lex[..n], p)
    requires lex[q] == '.' || (q == n && i == 3)
    modifies lex
    ensures lex[..] == old(lex[..])[q := '.']
    ensures var v := Scan(old(lex[..n]), p, i);
      && ok == (Value(old(lex[..n]), p, q) <= 255)
      && (q == n ==> v == Verdict(ok, true))
      && (q < n && ok ==> v == Scan(old(lex[..n]), q + 1, i + 1))
      && (q < n && !ok ==> v == Verdict(false, false))
  {
    var octet := OctetValue(lex, p, q, lex[..n]);
    ok := octet <= 255;
  }

  /** http_host_is_ipv4 on the text lex[..n]. */
  method HostIsIpv4(lex: array<char>, ghost n: nat) returns (ok: bool)
    requires IsText(lex[..], n)
    modifies lex
    ensures ok == Scan(old(lex[..n]), 0, 0).ok
    ensures After(lex[..], old(lex[..]), n, Scan(old(lex[..n]), 0, 0).overwritten)
  {
    ghost var before, verdict := lex[..], Scan(lex[..n], 0, 0);
    var at := 0;
    var i := 0;
    while i < 4
      invariant 0 <= i <= 4 && 0 <= at
      invariant i < 4 ==> at <= n
      invariant at <= n ==> lex[..] == before && verdict == Scan(lex[..n], at, i)
      invariant at > n ==> verdict == Verdict(true, true) && After(lex[..], before, n, true)
    {
      var more;
      more, at := TestOctet(lex, at, i, n);
      if !more {
        return false;
      }
      i := i + 1;
    }
    return true;
  }
}
