/**
 * The part of Go's `strconv.Atoi` the handler relies on: an optional sign,
 * one or more decimal digits, and a result that must fit in a 64-bit `int`.
 */
module Strconv {
  import opened Wrappers
  import opened GoInt

  predicate IsDigit(c: char)
  {
    '0' <= c <= '9'
  }

  predicate AllDigits(s: string)
  {
    forall i :: 0 <= i < |s| ==> IsDigit(s[i])
  }

  function DigitValue(c: char): (d: nat)
    requires IsDigit(c)
    ensures d < 10
  {
    c as int - '0' as int
  }

  function DigitChar(d: nat): (c: char)
    requires d < 10
    ensures IsDigit(c) && DigitValue(c) == d
  {
    ('0' as int + d) as char
  }

  /** The number a string of decimal digits denotes, most significant digit first. */
  function DecimalValue(s: string): nat
    requires AllDigits(s)
  {
    if s == [] then 0 else DecimalValue(s[..|s| - 1]) * 10 + DigitValue(s[|s| - 1])
  }

  /** The digits of a string once a leading '+' or '-' is taken off. */
  function Unsigned(s: string): string
  {
    if s != [] && (s[0] == '+' || s[0] == '-') then s[1..] else s
  }

  /** The signed value of a sign-prefixed digit string. */
  function SignedValue(s: string): int
    requires s != [] && AllDigits(Unsigned(s))
  {
    var v: int := DecimalValue(Unsigned(s));
    if s[0] == '-' then -v else v
  }

  function Abs(v: int): nat
  {
    if v < 0 then -v else v
  }

  /** A digit string without its leading zeros, keeping at least one digit. */
  function TrimZeros(ds: string): string
  {
    if |ds| > 1 && ds[0] == '0' then TrimZeros(ds[1..]) else ds
  }

  /**
   * s spells v in decimal: an optional '+' or '-', then any number of '0's,
   * then the shortest spelling of |v|; a '-' only before a value <= 0 and a
   * value < 0 only after a '-'.
   */
  predicate Denotes(s: string, v: int)
  {
    && s != []
    && Unsigned(s) != [] && AllDigits(Unsigned(s))
    && TrimZeros(Unsigned(s)) == NatDigits(Abs(v))
    && (v < 0 ==> s[0] == '-')
    && (v > 0 ==> s[0] != '-')
  }

  /**
   * strconv.Atoi: it accepts exactly the strings that spell a 64-bit value,
   * and returns that value; None is Go's non-nil error.
   */
  function Atoi(s: string): (r: Option<int>)
    ensures r.Some? ==> InInt64(r.value) && Denotes(s, r.value)
    ensures forall v :: InInt64(v) && Denotes(s, v) ==> r == Some(v)
  {
    if s == [] then None
    else
      var digits := Unsigned(s);
      if digits == [] || !AllDigits(digits) then None
      else
        SignedValueDenotes(s);
        DenotesOnlySignedValue(s);
        var v := SignedValue(s);
        if InInt64(v) then Some(v) else None
  }

  lemma {:induction false} DropLeadingZero(ds: string)
    requires |ds| >= 1 && AllDigits(ds) && ds[0] == '0'
    ensures DecimalValue(ds[1..]) == DecimalValue(ds)
    decreases |ds|
  {
    if |ds| > 1 {
      var p := ds[..|ds| - 1];
      assert ds[1..][..|ds| - 2] == p[1..];
      DropLeadingZero(p);
    }
  }

  /** A digit string of length one, or one not starting with '0'. */
  predicate Canonical(t: string)
  {
    |t| >= 1 && AllDigits(t) && (|t| == 1 || t[0] != '0')
  }

  lemma {:induction false} TrimZerosKeepsValue(ds: string)
    requires |ds| >= 1 && AllDigits(ds)
    ensures Canonical(TrimZeros(ds)) && DecimalValue(TrimZeros(ds)) == DecimalValue(ds)
    decreases |ds|
  {
    if |ds| > 1 && ds[0] == '0' {
      DropLeadingZero(ds);
      TrimZerosKeepsValue(ds[1..]);
    }
  }

  lemma {:induction false} LeadingNonZeroPositive(t: string)
    requires |t| >= 1 && AllDigits(t) && t[0] != '0'
    ensures DecimalValue(t) >= 1
    decreases |t|
  {
    if |t| > 1 {
      LeadingNonZeroPositive(t[..|t| - 1]);
    }
  }

  /** A canonical digit string is the shortest spelling of its own value. */
  lemma {:induction false} CanonicalIsNatDigits(t: string)
    requires Canonical(t)
    ensures t == NatDigits(DecimalValue(t))
    decreases |t|
  {
    var c := t[|t| - 1];
    assert DigitChar(DigitValue(c)) == c;
    if |t| > 1 {
      var p := t[..|t| - 1];
      CanonicalIsNatDigits(p);
      LeadingNonZeroPositive(p);
      var k := DecimalValue(t);
      assert k / 10 == DecimalValue(p) && k % 10 == DigitValue(c);
      assert t == p + [c];
    }
  }

  lemma SignedValueDenotes(s: string)
    requires s != [] && Unsigned(s) != [] && AllDigits(Unsigned(s))
    ensures Denotes(s, SignedValue(s))
  {
    var u := Unsigned(s);
    TrimZerosKeepsValue(u);
    CanonicalIsNatDigits(TrimZeros(u));
    assert Abs(SignedValue(s)) == DecimalValue(u);
  }

  lemma DenotesOnlySignedValue(s: string)
    requires s != [] && Unsigned(s) != [] && AllDigits(Unsigned(s))
    ensures forall v :: Denotes(s, v) ==> v == SignedValue(s)
  {
    forall v | Denotes(s, v)
      ensures v == SignedValue(s)
    {
      var u := Unsigned(s);
      TrimZerosKeepsValue(u);
      DecimalValueOfNatDigits(Abs(v));
      assert DecimalValue(u) == Abs(v);
    }
  }

  /** Shortest decimal spelling of a natural number. */
  function NatDigits(k: nat): (s: string)
    ensures |s| >= 1 && AllDigits(s)
    decreases k
  {
    if k < 10 then [DigitChar(k)] else NatDigits(k / 10) + [DigitChar(k % 10)]
  }

  /** Decimal spelling of an integer, as `strconv.Itoa` and the JSON encoder write it. */
  function Itoa(i: int): (s: string)
    ensures |s| >= 1
  {
    if i < 0 then "-" + NatDigits(-i) else NatDigits(i)
  }

  lemma {:induction false} DecimalValueOfNatDigits(k: nat)
    ensures DecimalValue(NatDigits(k)) == k
    decreases k
  {
    if k >= 10 {
      var s := NatDigits(k);
      assert s[..|s| - 1] == NatDigits(k / 10);
      DecimalValueOfNatDigits(k / 10);
    }
  }

  /** Atoi reads back every 64-bit integer that Itoa writes. */
  lemma AtoiItoa(i: int)
    requires InInt64(i)
    ensures Atoi(Itoa(i)) == Some(i)
  {
    var s := Itoa(i);
    if i < 0 {
      assert Unsigned(s) == NatDigits(-i);
      DecimalValueOfNatDigits(-i);
    } else {
      assert IsDigit(s[0]);
      assert Unsigned(s) == NatDigits(i);
      DecimalValueOfNatDigits(i);
    }
  }
}
