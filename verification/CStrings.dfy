/** Characters and strings of C: the <ctype.h> classes in the "C" locale, and atoi. */
module CStrings {
  const NUL: char := '\0'

  /** A C string of length n at the start of some memory. */
  ghost predicate IsText(memory: seq<char>, n: nat) {
    n < |memory| && memory[n] == NUL && forall k :: 0 <= k < n ==> memory[k] != NUL
  }

  predicate IsSpace(c: char) {
    c == ' ' || '\t' <= c <= '\r'
  }

  predicate IsDigit(c: char) {
    '0' <= c <= '9'
  }

  predicate IsAlpha(c: char) {
    'a' <= c <= 'z' || 'A' <= c <= 'Z'
  }

  /** Letters, digits and underscores. */
  predicate IsWord(c: char) {
    IsAlpha(c) || IsDigit(c) || c == '_'
  }

  predicate AllDigits(s: string) {
    forall i :: 0 <= i < |s| ==> IsDigit(s[i])
  }

  /** The length of the longest run of digits at the front of s. */
  function DigitLen(s: string): (n: nat)
    ensures n <= |s| && AllDigits(s[..n])
    ensures n < |s| ==> !IsDigit(s[n])
  {
    if s != [] && IsDigit(s[0]) then
      var n := 1 + DigitLen(s[1..]);
      assert forall i :: 0 < i < n ==> s[i] == s[1..][i - 1];
      n
    else 0
  }

  /** The number that a run of digits denotes. */
  function DigitsValue(s: string): nat
    requires AllDigits(s)
  {
    if s == [] then 0
    else 10 * DigitsValue(s[..|s| - 1]) + (s[|s| - 1] as int - '0' as int)
  }

  /** atoi on a string without leading spaces or sign: the value of its digits. */
  function Atoi(s: string): nat {
    DigitsValue(s[..DigitLen(s)])
  }

  lemma {:induction false} DigitLenOf(digits: string, rest: string)
    requires AllDigits(digits) && (rest == [] || !IsDigit(rest[0]))
    ensures DigitLen(digits + rest) == |digits|
    decreases |digits|
  {
    if digits == [] {
      assert digits + rest == rest;
    } else {
      assert (digits + rest)[1..] == digits[1..] + rest;
      DigitLenOf(digits[1..], rest);
    }
  }

  lemma AtoiOfDigits(digits: string)
    requires AllDigits(digits)
    ensures Atoi(digits) == DigitsValue(digits)
  {
    DigitLenOf(digits, []);
    assert digits + [] == digits;
    assert digits[..|digits|] == digits;
  }

  /** atoi reads digits from left to right and stops at the first other character. */
  lemma AtoiExactly(digits: string, c: char, rest: string)
    requires forall i :: 0 <= i < |digits| ==> '0' <= digits[i] <= '9'
    requires rest == "" || rest[0] < '0' || '9' < rest[0]
    ensures Atoi("") == 0
    ensures '0' <= c <= '9' ==> Atoi(digits + [c]) == 10 * Atoi(digits) + (c as int - 48)
    ensures Atoi(digits + rest) == Atoi(digits)
  {
    DigitLenOf(digits, rest);
    assert (digits + rest)[..|digits|] == digits;
    AtoiOfDigits(digits);
    if '0' <= c <= '9' {
      AtoiOfDigits(digits + [c]);
      assert (digits + [c])[..|digits|] == digits;
    }
  }

  /** The decimal notation of n. */
  function Decimal(n: nat): (s: string)
    ensures s != [] && AllDigits(s)
  {
    var digit := [('0' as int + n % 10) as char];
    if n < 10 then digit else Decimal(n / 10) + digit
  }

  lemma {:induction false} DecimalRoundTrip(n: nat)
    ensures Atoi(Decimal(n)) == n
  {
    var s := Decimal(n);
    AtoiOfDigits(s);
    if n >= 10 {
      DecimalRoundTrip(n / 10);
      AtoiOfDigits(Decimal(n / 10));
      assert s[..|s| - 1] == Decimal(n / 10);
    } else {
      assert s[..|s| - 1] == [];
    }
  }

  ghost function Pow10(k: nat): nat {
    if k == 0 then 1 else 10 * Pow10(k - 1)
  }

  lemma {:induction false} DecimalLength(n: nat, k: nat)
    requires k > 0 && n < Pow10(k)
    ensures |Decimal(n)| <= k
  {
    if n >= 10 {
      assert Pow10(0) == 1;
      DecimalLength(n / 10, k - 1);
    }
  }
}
