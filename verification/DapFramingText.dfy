/**
 The base protocol as it is written: frames character by character, lengths with white space
 and signs around them, and messages behind any header lines.
 */
module DapFramingText {
  import opened Decimal
  import opened Text
  import opened DapFraming
  import opened DapFramingLaws
  import opened DapFramingEnds

  lemma FieldText()
    ensures LENGTH_FIELD + " " == "Content-Length: "
  {
  }

  lemma BlankText()
    ensures CRLF + CRLF == "\r\n\r\n"
  {
  }

  lemma FrameRegrouped(p: string)
    ensures Frame(p) == (LENGTH_FIELD + " ") + (Digits(|p|) + ((CRLF + CRLF) + p))
  {
    Regroup(LENGTH_FIELD + " ", Digits(|p|), CRLF, CRLF, p);
  }

  /** A frame, character by character. */
  lemma FrameText(p: string)
    ensures Frame(p) == "Content-Length: " + (Digits(|p|) + ("\r\n\r\n" + p))
  {
    FrameRegrouped(p);
    FieldText();
    BlankText();
  }

  lemma Regroup(a: string, b: string, c: string, d: string, e: string)
    ensures ((a + b) + c) + (d + e) == a + (b + ((c + d) + e))
  {
    Assoc(a + b, c, d + e);
    Assoc(c, d, e);
    Assoc(a, b, (c + d) + e);
  }

  // -----------------------------------------------------------------------------------
  // Trimming

  predicate White(c: char) {
    c == ' ' || c == '\t' || c == '\n' || c == '\r' || c == '\U{000B}' || c == '\U{000C}'
  }

  predicate AllWhite(s: string) { forall c :: c in s ==> White(c) }

  lemma {:induction false} TrimLeading(a: string, t: string)
    requires AllWhite(a) && (t != "" ==> !White(t[0]))
    ensures TrimSpaceLeft(a + t) == t
    decreases |a|
  {
    if a == "" {
      Unit(t);
    } else {
      assert a[0] in a && forall c :: c in a[1..] ==> c in a;
      TailOfConcat(a, t);
      TrimLeading(a[1..], t);
    }
  }

  lemma {:induction false} TrimTrailing(t: string, b: string)
    requires AllWhite(b) && (t != "" ==> !White(t[|t| - 1]))
    ensures TrimSpaceRight(t + b) == t
    decreases |b|
  {
    if b == "" {
      Unit(t);
    } else {
      var init, last := b[..|b| - 1], b[|b| - 1];
      assert last in b && forall c :: c in init ==> c in b;
      assert (t + b)[..|t + b| - 1] == t + init;
      TrimTrailing(t, init);
    }
  }

  /** White space around a text is taken off, and nothing else. */
  lemma PaddedIsTrimmed(a: string, t: string, b: string)
    requires AllWhite(a) && AllWhite(b) && t != "" && !White(t[0]) && !White(t[|t| - 1])
    ensures TrimSpace(a + (t + b)) == t
  {
    TrimLeading(a, t + b);
    TrimTrailing(t, b);
  }

  predicate AllEol(s: string) { forall c :: c in s ==> c == '\r' || c == '\n' }

  lemma {:induction false} EolIsTrimmed(t: string, b: string)
    requires AllEol(b) && (t != "" ==> t[|t| - 1] != '\r' && t[|t| - 1] != '\n')
    ensures TrimEol(t + b) == t
    decreases |b|
  {
    if b == "" {
      Unit(t);
    } else {
      var init, last := b[..|b| - 1], b[|b| - 1];
      assert last in b && forall c :: c in init ==> c in b;
      assert (t + b)[..|t + b| - 1] == t + init;
      EolIsTrimmed(t, init);
    }
  }

  // -----------------------------------------------------------------------------------
  // Numbers

  lemma {:induction false} DigitsThenOther(digits: string, rest: string)
    requires AllDigits(digits) && (rest != "" ==> !('0' <= rest[0] <= '9'))
    ensures DigitRun(digits + rest) == digits
    decreases |digits|
  {
    if digits == "" {
      Unit(rest);
    } else {
      TailOfConcat(digits, rest);
      DigitsThenOther(digits[1..], rest);
      Recons(digits);
    }
  }

  lemma UnsignedIsRead(digits: string, rest: string)
    requires digits != "" && AllDigits(digits) && (rest != "" ==> !('0' <= rest[0] <= '9'))
    ensures var n := ValueOf(digits);
            ScanInt(digits + rest) == if n <= 9223372036854775807 then Number(n) else NotANumber
  {
    assert IsDigit(digits[0]) && (digits + rest)[0] == digits[0];
    DigitsThenOther(digits, rest);
  }

  lemma SignedIsRead(digits: string, rest: string)
    requires digits != "" && AllDigits(digits) && (rest != "" ==> !('0' <= rest[0] <= '9'))
    ensures var n := ValueOf(digits);
            ScanInt("+" + (digits + rest)) == (if n <= 9223372036854775807 then Number(n) else NotANumber) &&
            ScanInt("-" + (digits + rest)) == (if n <= 9223372036854775808 then Number(-(n as int)) else NotANumber)
  {
    Uncons('+', digits + rest);
    Uncons('-', digits + rest);
    assert "+" == ['+'] && "-" == ['-'] && digits + rest != "";
    DigitsThenOther(digits, rest);
  }

  /** A sign and digits are read as a number within int64, whatever text stands behind them. */
  lemma ScanReads(digits: string, rest: string)
    requires digits != "" && AllDigits(digits) && (rest != "" ==> !('0' <= rest[0] <= '9'))
    ensures var n := ValueOf(digits);
            ScanInt(digits + rest) == (if n <= 9223372036854775807 then Number(n) else NotANumber) &&
            ScanInt("+" + (digits + rest)) == (if n <= 9223372036854775807 then Number(n) else NotANumber) &&
            ScanInt("-" + (digits + rest)) == (if n <= 9223372036854775808 then Number(-(n as int)) else NotANumber)
  {
    UnsignedIsRead(digits, rest);
    SignedIsRead(digits, rest);
  }

  lemma ScanRefuses(t: string)
    requires var unsigned := if t != "" && (t[0] == '+' || t[0] == '-') then t[1..] else t;
             unsigned != "" && !('0' <= unsigned[0] <= '9')
    ensures ScanInt(t) == NotANumber
  {
  }

  // -----------------------------------------------------------------------------------
  // Header lines

  /** White space that can stand in a line. */
  predicate Blanks(s: string) { forall c :: c in s ==> c == ' ' || c == '\t' }

  function LengthLine(a: string, digits: string, b: string): string {
    "Content-Length:" + (a + (digits + b)) + "\r\n"
  }

  lemma LineOf(t: string)
    requires t != "" && '\n' !in t && t[|t| - 1] != '\r'
    ensures IsLine(t + "\r\n") && TrimEol(t + "\r\n") == t
  {
    assert t[|t| - 1] in t;
    assert (t + "\r\n")[..|t| + 1] == t + "\r";
    EolIsTrimmed(t, "\r\n");
  }

  lemma LengthLineText(a: string, digits: string, b: string)
    requires Blanks(a) && Blanks(b) && digits != "" && AllDigits(digits)
    ensures var t := "Content-Length:" + (a + (digits + b));
            IsLine(LengthLine(a, digits, b)) && TrimEol(LengthLine(a, digits, b)) == t &&
            LENGTH_FIELD <= t && t[|LENGTH_FIELD|..] == a + (digits + b)
  {
    var padded := a + (digits + b);
    var t := "Content-Length:" + padded;
    assert forall c :: c in padded ==> c in a || c in digits || c in b;
    assert forall c :: c in digits ==> IsDigit(c);
    assert forall c :: c in t ==> c in "Content-Length:" || c in padded;
    assert forall c :: c in t ==> c != '\n' && c != '\r';
    assert t[|t| - 1] in t;
    LineOf(t);
  }

  /** Blanks around the number of a length line do not matter. */
  lemma LengthIsRead(a: string, digits: string, b: string, rest: string, length: int)
    requires Blanks(a) && Blanks(b) && digits != "" && AllDigits(digits) && ValueOf(digits) <= 9223372036854775807
    ensures ReadHeaders(LengthLine(a, digits, b) + rest, length) == ReadHeaders(rest, ValueOf(digits))
  {
    var l := LengthLine(a, digits, b);
    LengthLineText(a, digits, b);
    assert IsDigit(digits[0]) && IsDigit(digits[|digits| - 1]);
    PaddedIsTrimmed(a, digits, b);
    Unit(digits);
    ScanReads(digits, "");
    assert IsHeader(l) && LengthGiven(l, length) == ValueOf(digits);
    ReadHeader(l, rest, length);
  }

  /** Any other header line is read past. */
  lemma OtherHeaderIsSkipped(text: string, rest: string, length: int)
    requires text != "" && '\n' !in text && text[|text| - 1] != '\r' && !("Content-Length:" <= text)
    ensures ReadHeaders((text + "\r\n") + rest, length) == ReadHeaders(rest, length)
  {
    var l := text + "\r\n";
    LineOf(text);
    assert IsLine(l) && IsHeader(l) && !IsLengthLine(l);
    ReadHeader(l, rest, length);
  }

  /** Both readers take the message behind any header lines, by the length given last. */
  lemma MessageBehindHeaders<M>(reader: Reader, decode: string -> Option<M>, lines: seq<string>, p: string,
      rest: string)
    requires AllHeaders(lines) && Readable(decode, p)
    requires LengthAfter(lines, if reader == Interactive then -1 else 0) == |p|
    ensures ReadOne(reader, decode, Lines(lines) + ("\r\n" + (p + rest))) == Got(decode(p).value, rest)
  {
    ReadPastHeaders(lines, CRLF + (p + rest), if reader == Interactive then -1 else 0);
    BlankLine(p + rest, |p|);
    assert (p + rest)[..|p|] == p && (p + rest)[|p|..] == rest;
  }
}
