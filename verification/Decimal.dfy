/** Decimal integers as text: strconv.Atoi and the %d verb. */
module Decimal {

  datatype Option<+T> = None | Some(value: T)

  const INT64_LIMIT: int := 0x8000_0000_0000_0000

  /** The range of Go's int and int64 on 64-bit platforms. */
  predicate FitsInt64(n: int) { -INT64_LIMIT <= n < INT64_LIMIT }

  predicate IsDigit(c: char) { '0' <= c <= '9' }

  predicate AllDigits(s: string) { forall i :: 0 <= i < |s| ==> IsDigit(s[i]) }

  function DigitValue(c: char): (n: nat)
    requires IsDigit(c)
    ensures n < 10
  {
    c as int - '0' as int
  }

  function DigitChar(n: nat): (c: char)
    requires n < 10
    ensures IsDigit(c) && DigitValue(c) == n
  {
    ('0' as int + n) as char
  }

  /** The number a run of digits stands for. */
  function ValueOf(s: string): nat
    requires AllDigits(s)
  {
    if s == "" then 0 else 10 * ValueOf(s[..|s| - 1]) + DigitValue(s[|s| - 1])
  }

  /** A natural number printed with %d. */
  function Digits(n: nat): (s: string)
    ensures s != "" && AllDigits(s)
    ensures ValueOf(s) == n
  {
    if n < 10 then [DigitChar(n)]
    else
      var s := Digits(n / 10) + [DigitChar(n % 10)];
      assert s[..|s| - 1] == Digits(n / 10);
      s
  }

  function PrintInt(n: int): (s: string)
    ensures s != ""
    ensures forall c :: c in s ==> c == '-' || IsDigit(c)
  {
    if n < 0 then "-" + Digits(-n) else Digits(n)
  }

  /** strconv.Atoi: an optional sign, at least one digit, nothing else, within int64. */
  function Atoi(s: string): Option<int> {
    var signed := s != "" && (s[0] == '+' || s[0] == '-');
    var digits := if signed then s[1..] else s;
    if digits == "" || !AllDigits(digits) then None
    else
      var n: int := if signed && s[0] == '-' then -(ValueOf(digits) as int) else ValueOf(digits);
      if FitsInt64(n) then Some(n) else None
  }

  lemma AtoiPrint(n: int)
    ensures Atoi(PrintInt(n)) == if FitsInt64(n) then Some(n) else None
  {
    if n < 0 {
      assert PrintInt(n)[1..] == Digits(-n);
    } else {
      assert IsDigit(Digits(n)[0]);
    }
  }

  /** Digits, with or without a sign, are read up to the bounds of int64. */
  lemma AtoiReads(digits: string)
    requires digits != "" && AllDigits(digits)
    ensures var n := ValueOf(digits);
            Atoi(digits) == (if n <= 9223372036854775807 then Some(n) else None) &&
            Atoi("+" + digits) == (if n <= 9223372036854775807 then Some(n) else None) &&
            Atoi("-" + digits) == (if n <= 9223372036854775808 then Some(-(n as int)) else None)
  {
    assert IsDigit(digits[0]);
    assert ("+" + digits)[1..] == digits && ("-" + digits)[1..] == digits;
  }

  /** Anything else is refused. */
  lemma AtoiRefuses(s: string)
    requires var digits := if s != "" && (s[0] == '+' || s[0] == '-') then s[1..] else s;
             digits == "" || exists c :: c in digits && !('0' <= c <= '9')
    ensures Atoi(s) == None
  {
  }
}
