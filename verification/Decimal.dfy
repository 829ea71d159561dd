/**
 * Decimal printing and Go's strconv parsing rules (base 10, 64 bits),
 * including the order in which syntax and range errors are reported.
 */
module Decimal {
  import opened Common

  datatype Parsed = Number(n: int) | Syntax | Range(clamped: int)

  predicate IsDigit(c: char) {
    '0' <= c <= '9'
  }

  function DigitValue(c: char): nat
    requires IsDigit(c)
  {
    c as int - '0' as int
  }

  /** fmt "%d" of a non-negative number. */
  function Print(n: nat): (s: string)
    ensures s != []
    ensures forall i :: 0 <= i < |s| ==> IsDigit(s[i])
  {
    if n < 10 then [('0' as int + n) as char]
    else Print(n / 10) + [('0' as int + n % 10) as char]
  }

  /** The digit loop of strconv.ParseUint: the range error wins over later syntax. */
  function ParseDigits(s: string, acc: nat): (r: Parsed)
    requires acc < TWO_64
    ensures r.Number? ==> 0 <= r.n < TWO_64
  {
    if s == [] then Number(acc)
    else if !IsDigit(s[0]) then Syntax
    else
      var next := 10 * acc + DigitValue(s[0]);
      if next >= TWO_64 then Range(TWO_64 - 1) else ParseDigits(s[1..], next)
  }

  /** strconv.ParseUint(s, 10, 64). */
  function ParseUint(s: string): (r: Parsed)
    ensures r.Number? ==> 0 <= r.n < TWO_64
  {
    if s == [] then Syntax else ParseDigits(s, 0)
  }

  /** strconv.ParseInt(s, 10, 64); strconv.Atoi agrees on a 64-bit platform. */
  function ParseInt(s: string): Parsed {
    if s == [] then Syntax
    else
      var negative := s[0] == '-';
      var digits := if s[0] == '-' || s[0] == '+' then s[1..] else s;
      match ParseUint(digits)
      case Syntax => Syntax
      case Range(_) => Range(if negative then -TWO_63 else TWO_63 - 1)
      case Number(n) =>
        if !negative && n >= TWO_63 then Range(TWO_63 - 1)
        else if negative && n > TWO_63 then Range(-TWO_63)
        else Number(if negative then -n else n)
  }

  /** The value ParseInt returns next to its error, for callers that drop the error. */
  function ValueOf(p: Parsed): int {
    match p
    case Number(n) => n
    case Syntax => 0
    case Range(c) => c
  }

  function Digits(s: string, acc: nat): nat
    requires forall i :: 0 <= i < |s| ==> IsDigit(s[i])
  {
    if s == [] then acc else Digits(s[1..], 10 * acc + DigitValue(s[0]))
  }

  lemma {:induction false} DigitsSnoc(s: string, c: char, acc: nat)
    requires forall i :: 0 <= i < |s| ==> IsDigit(s[i])
    requires IsDigit(c)
    ensures Digits(s + [c], acc) == 10 * Digits(s, acc) + DigitValue(c)
  {
    if s == [] {
    } else {
      assert (s + [c])[1..] == s[1..] + [c];
      DigitsSnoc(s[1..], c, 10 * acc + DigitValue(s[0]));
    }
  }

  lemma {:induction false} DigitsOfPrint(n: nat)
    ensures Digits(Print(n), 0) == n
  {
    if n < 10 {
    } else {
      DigitsOfPrint(n / 10);
      DigitsSnoc(Print(n / 10), ('0' as int + n % 10) as char, 0);
    }
  }

  lemma {:induction false} DigitsGrow(s: string, acc: nat)
    requires forall i :: 0 <= i < |s| ==> IsDigit(s[i])
    ensures Digits(s, acc) >= acc
  {
    if s == [] {
    } else {
      DigitsGrow(s[1..], 10 * acc + DigitValue(s[0]));
    }
  }

  lemma {:induction false} ParseDigitsIsDigits(s: string, acc: nat)
    requires forall i :: 0 <= i < |s| ==> IsDigit(s[i])
    requires Digits(s, acc) < TWO_64
    ensures acc < TWO_64 && ParseDigits(s, acc) == Number(Digits(s, acc))
  {
    DigitsGrow(s, acc);
    if s == [] {
    } else {
      DigitsGrow(s[1..], 10 * acc + DigitValue(s[0]));
      ParseDigitsIsDigits(s[1..], 10 * acc + DigitValue(s[0]));
    }
  }

  predicate AllDigits(s: string) {
    forall i :: 0 <= i < |s| ==> IsDigit(s[i])
  }

  lemma {:induction false} ParseDigitsExactly(s: string, acc: nat)
    requires acc < TWO_64
    ensures ParseDigits(s, acc).Number? <==> AllDigits(s) && Digits(s, acc) < TWO_64
  {
    if s == [] {
    } else if IsDigit(s[0]) {
      var next := 10 * acc + DigitValue(s[0]);
      assert AllDigits(s) <==> AllDigits(s[1..]) by {
        assert s == [s[0]] + s[1..];
      }
      if next < TWO_64 {
        ParseDigitsExactly(s[1..], next);
      } else if AllDigits(s) {
        DigitsGrow(s[1..], next);
      }
    }
  }

  /** ParseUint accepts exactly the non-empty digit strings whose value fits 64 bits, and returns that value. */
  lemma ParseUintExactly(s: string)
    ensures ParseUint(s).Number? <==> s != [] && AllDigits(s) && Digits(s, 0) < TWO_64
    ensures ParseUint(s).Number? ==> ParseUint(s).n == Digits(s, 0)
  {
    ParseDigitsExactly(s, 0);
    if s != [] && AllDigits(s) && Digits(s, 0) < TWO_64 {
      ParseDigitsIsDigits(s, 0);
    }
  }

  /** Printing then parsing is the identity exactly on the range of the parsed type. */
  lemma ParseUintOfPrint(n: nat)
    ensures ParseUint(Print(n)) == Number(n) <==> n < TWO_64
  {
    if n < TWO_64 {
      DigitsOfPrint(n);
      ParseDigitsIsDigits(Print(n), 0);
    }
  }

  lemma ParseIntOfPrint(n: nat)
    ensures ParseInt(Print(n)) == Number(n) <==> n < TWO_63
  {
    ParseUintOfPrint(n);
    var s := Print(n);
    assert IsDigit(s[0]);
  }

  /** ParseInt accepts exactly an optional sign before digits whose value fits, and returns that value. */
  lemma ParseIntExactly(s: string)
    ensures
      var signed := s != [] && s[0] in ['+', '-'];
      var digits, negative := if signed then s[1..] else s, signed && s[0] == '-';
      && (ParseInt(s).Number? <==>
            digits != [] && AllDigits(digits)
            && (if negative then Digits(digits, 0) <= TWO_63 else Digits(digits, 0) < TWO_63))
      && (ParseInt(s).Number? ==> ParseInt(s).n == (if negative then -1 else 1) * Digits(digits, 0))
  {
    if s != [] {
      ParseUintExactly(if s[0] in ['+', '-'] then s[1..] else s);
    }
  }
}
