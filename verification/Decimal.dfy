/** Rust's decimal printing and parsing of unsigned integers, for a type whose largest value is `limit`. */
module Decimal {
  import opened Wrappers

  predicate IsDigit(c: char) { '0' <= c <= '9' }

  function DigitValue(c: char): nat
    requires IsDigit(c)
  {
    (c - '0') as nat
  }

  function DigitChar(d: nat): char
    requires d < 10
  {
    '0' + d as char
  }

  predicate AllDigits(s: string) {
    forall i :: 0 <= i < |s| ==> IsDigit(s[i])
  }

  /** The number a string of digits denotes. */
  function ValueOf(s: string): nat
    requires AllDigits(s)
  {
    if s == [] then 0 else 10 * ValueOf(s[..|s| - 1]) + DigitValue(s[|s| - 1])
  }

  function Print(n: nat): string {
    if n < 10 then [DigitChar(n)] else Print(n / 10) + [DigitChar(n % 10)]
  }

  /** Digit by digit, with both overflow checks. */
  function ParseDigits(s: string, acc: nat, limit: nat): Option<nat>
    decreases |s|
  {
    if s == [] then Some(acc)
    else if !IsDigit(s[0]) || acc * 10 > limit || acc * 10 + DigitValue(s[0]) > limit then None
    else ParseDigits(s[1..], acc * 10 + DigitValue(s[0]), limit)
  }

  /** A leading `+` is accepted before at least one digit; a `-` never is. */
  function Parse(s: string, limit: nat): Option<nat> {
    if s == "" || s == "+" || s == "-" then None
    else if s[0] == '+' then ParseDigits(s[1..], 0, limit)
    else ParseDigits(s, 0, limit)
  }

  // ---- parsing ----

  lemma {:induction false} ParseDigitsSnoc(s: string, c: char, acc: nat, limit: nat)
    ensures ParseDigits(s + [c], acc, limit) ==
      match ParseDigits(s, acc, limit)
      case None => None
      case Some(v) => ParseDigits([c], v, limit)
    decreases |s|
  {
    if s == [] {
      assert s + [c] == [c];
    } else {
      assert (s + [c])[1..] == s[1..] + [c];
      if IsDigit(s[0]) && acc * 10 + DigitValue(s[0]) <= limit {
        ParseDigitsSnoc(s[1..], c, acc * 10 + DigitValue(s[0]), limit);
      }
    }
  }

  /** The digit loop accepts exactly the strings of digits whose value fits. */
  lemma {:induction false} ParseDigitsIff(s: string, limit: nat)
    ensures ParseDigits(s, 0, limit).Some? <==> AllDigits(s) && ValueOf(s) <= limit
    ensures AllDigits(s) && ValueOf(s) <= limit ==> ParseDigits(s, 0, limit) == Some(ValueOf(s))
    decreases |s|
  {
    if s != [] {
      var n := |s| - 1;
      var front, c := s[..n], s[n];
      assert s == front + [c];
      ParseDigitsIff(front, limit);
      ParseDigitsSnoc(front, c, 0, limit);
      assert [c][1..] == [];
      if ParseDigits(s, 0, limit).Some? {
        assert forall i :: 0 <= i < n ==> s[i] == front[i];
      }
    }
  }

  /** The digits after the optional plus sign. */
  function Unsigned(s: string): string {
    if s != "" && s[0] == '+' then s[1..] else s
  }

  /** An optional plus sign and at least one digit. */
  predicate Numeral(s: string, n: nat) {
    Unsigned(s) != "" && AllDigits(Unsigned(s)) && ValueOf(Unsigned(s)) == n
  }

  /** `str::parse` accepts exactly the numerals in range: leading zeros and one plus sign included. */
  lemma ParseIff(s: string, n: nat, limit: nat)
    ensures Parse(s, limit) == Some(n) <==> Numeral(s, n) && n <= limit
  {
    ParseDigitsIff(Unsigned(s), limit);
    if s == "-" { assert !IsDigit(s[0]); }
  }

  // ---- printing ----

  lemma {:induction false} PrintDenotes(n: nat)
    ensures Print(n) != "" && AllDigits(Print(n)) && ValueOf(Print(n)) == n
    decreases n
  {
    if n >= 10 {
      PrintDenotes(n / 10);
      assert Print(n)[..|Print(n)| - 1] == Print(n / 10);
    }
  }

  lemma PrintIsNumeral(n: nat)
    ensures Numeral(Print(n), n) && '-' !in Print(n)
  {
    PrintDenotes(n);
    assert IsDigit(Print(n)[0]);
    assert forall i :: 0 <= i < |Print(n)| ==> IsDigit(Print(n)[i]) && Print(n)[i] != '-';
  }

  /** A printed number parses to itself. */
  lemma ParsePrinted(n: nat, limit: nat)
    requires n <= limit
    ensures Parse(Print(n), limit) == Some(n)
  {
    PrintIsNumeral(n);
    ParseIff(Print(n), n, limit);
  }

  lemma NumeralHasNoDash(s: string, n: nat)
    requires Numeral(s, n)
    ensures '-' !in s
  {
    forall i | 0 <= i < |s| ensures s[i] != '-' {
      var k := if s[0] == '+' then i - 1 else i;
      assert 0 <= k ==> IsDigit(Unsigned(s)[k]);
    }
  }

  /** Digits without a superfluous leading zero. */
  predicate Canonical(s: string) {
    s != "" && AllDigits(s) && (|s| == 1 || s[0] != '0')
  }

  lemma {:induction false} PrintsCanonical(s: string)
    requires Canonical(s)
    ensures Print(ValueOf(s)) == s
    ensures s[0] != '0' ==> 0 < ValueOf(s)
    decreases |s|
  {
    var n := |s| - 1;
    assert s == s[..n] + [s[n]];
    if n > 0 { PrintsCanonical(s[..n]); }
  }

  lemma {:induction false} PrintIsCanonical(n: nat)
    ensures Canonical(Print(n)) && (0 < n ==> Print(n)[0] != '0')
    decreases n
  {
    PrintDenotes(n);
    if n >= 10 { PrintIsCanonical(n / 10); }
  }

  /** Printing picks one numeral of each number: the canonical one. */
  lemma PrintedIff(s: string, n: nat)
    ensures s == Print(n) <==> Canonical(s) && ValueOf(s) == n
  {
    if Canonical(s) { PrintsCanonical(s); }
    PrintIsCanonical(n);
    PrintDenotes(n);
  }
}
