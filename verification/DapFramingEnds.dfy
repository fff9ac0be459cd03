/**
 When Run ends without an error, for any input: it takes io.EOF for the end, and errors that
 wrap it, wherever in a message they come from.
 */
module DapFramingEnds {
  import opened Decimal
  import opened Sequences
  import opened Text
  import opened DapFraming
  import opened DapFramingLaws

  // -----------------------------------------------------------------------------------
  // Header lines, each with its newline

  predicate IsLine(l: string) { l != "" && l[|l| - 1] == '\n' && '\n' !in l[..|l| - 1] }

  predicate IsBlank(l: string) { IsLine(l) && TrimEol(l) == "" }

  /** A line that gives the length. */
  predicate IsLengthLine(l: string) { IsLine(l) && LENGTH_FIELD <= TrimEol(l) }

  function LengthText(l: string): string
    requires IsLengthLine(l)
  {
    TrimSpace(TrimEol(l)[|LENGTH_FIELD|..])
  }

  /** A line that is read past: it gives a length that is a number, or is about something else. */
  predicate IsHeader(l: string) {
    IsLine(l) && TrimEol(l) != "" && (IsLengthLine(l) ==> ScanInt(LengthText(l)).Number?)
  }

  predicate AllHeaders(lines: seq<string>) { forall l :: l in lines ==> IsHeader(l) }

  function Itself(): string -> string { (l: string) => l }

  /** The lines, one after the other. */
  function Lines(lines: seq<string>): string { FlatMap(Itself(), lines) }

  function LengthGiven(l: string, length: int): int
    requires IsHeader(l)
  {
    if IsLengthLine(l) then ScanInt(LengthText(l)).n else length
  }

  /** The length given last. */
  function LengthAfter(lines: seq<string>, length: int): int
    requires AllHeaders(lines)
  {
    if lines == [] then length
    else
      assert lines[0] in lines && forall l :: l in lines[1..] ==> l in lines;
      LengthAfter(lines[1..], LengthGiven(lines[0], length))
  }

  // -----------------------------------------------------------------------------------
  // What the header loop does with each kind of line

  lemma ReadLineOf(l: string, rest: string)
    requires IsLine(l)
    ensures ReadLine(l + rest) == Line(l, rest, true)
  {
    var text := l[..|l| - 1];
    assert l == text + "\n";
    ReadLineAt(text, rest);
  }

  lemma ReadHeader(l: string, rest: string, length: int)
    requires IsHeader(l)
    ensures ReadHeaders(l + rest, length) == ReadHeaders(rest, LengthGiven(l, length))
  {
    ReadLineOf(l, rest);
  }

  lemma ReadBlank(l: string, rest: string, length: int)
    requires IsBlank(l)
    ensures ReadHeaders(l + rest, length) == Complete(length, rest)
  {
    ReadLineOf(l, rest);
  }

  lemma ReadBadLength(l: string, rest: string, length: int)
    requires IsLengthLine(l) && !ScanInt(LengthText(l)).Number?
    ensures ReadHeaders(l + rest, length) == Malformed(ScanInt(LengthText(l)))
  {
    ReadLineOf(l, rest);
  }

  lemma {:induction false} ReadPastHeaders(lines: seq<string>, rest: string, length: int)
    requires AllHeaders(lines)
    ensures ReadHeaders(Lines(lines) + rest, length) == ReadHeaders(rest, LengthAfter(lines, length))
    decreases |lines|
  {
    if lines == [] {
      Unit(rest);
    } else {
      assert lines[0] in lines && forall l :: l in lines[1..] ==> l in lines;
      Assoc(lines[0], Lines(lines[1..]), rest);
      ReadHeader(lines[0], Lines(lines[1..]) + rest, length);
      ReadPastHeaders(lines[1..], rest, LengthGiven(lines[0], length));
    }
  }

  // -----------------------------------------------------------------------------------
  // The headers at the front of any input

  /** The header lines an input starts with, and what comes behind them. */
  datatype Front = Front(lines: seq<string>, left: string)

  function FrontOf(s: string): Front
    decreases |s|
  {
    var l := ReadLine(s);
    if l.found && IsHeader(l.text) then
      var later := FrontOf(l.rest);
      Front([l.text] + later.lines, later.left)
    else Front([], s)
  }

  lemma ReadLineSplits(s: string)
    ensures ReadLine(s).found ==> IsLine(ReadLine(s).text) && s == ReadLine(s).text + ReadLine(s).rest
    ensures !ReadLine(s).found ==> ReadLine(s) == Line(s, "", false)
  {
  }

  lemma {:induction false} FrontSplits(s: string)
    ensures AllHeaders(FrontOf(s).lines) && s == Lines(FrontOf(s).lines) + FrontOf(s).left
    ensures var l := ReadLine(FrontOf(s).left); !l.found || !IsHeader(l.text)
    decreases |s|
  {
    var l := ReadLine(s);
    ReadLineSplits(s);
    if l.found && IsHeader(l.text) {
      FrontSplits(l.rest);
      var later := FrontOf(l.rest);
      Uncons(l.text, later.lines);
      Assoc(l.text, Lines(later.lines), later.left);
    } else {
      Unit(s);
    }
  }

  // -----------------------------------------------------------------------------------
  // Where Run ends without an error

  /** No digits in a text without leading white space: nothing, or a sign alone. */
  lemma ScanEndsExactly(t: string)
    ensures ScanInt(t) == NoDigits <==> t == "" || t == "+" || t == "-"
  {
  }

  /** A length line whose text is empty or a sign. */
  predicate LacksLength(l: string) {
    IsLengthLine(l) && var t := LengthText(l); t == "" || t == "+" || t == "-"
  }

  /**
   An input at whose end, or inside it, the reader reports io.EOF: headers without a length, or
   with a negative one, and nothing behind; headers with a length, the blank line and nothing
   behind; or headers and a length line that lacks its number, with anything behind.
   */
  predicate EndsBy(lines: seq<string>, last: string, rest: string)
    requires AllHeaders(lines)
  {
    (last == "" && rest == "" && LengthAfter(lines, -1) < 0) ||
    (IsBlank(last) && rest == "" && LengthAfter(lines, -1) > 0) ||
    LacksLength(last)
  }

  ghost predicate EndsCleanly(s: string) {
    exists lines, last, rest :: IsCleanEnd(lines, last, rest, s)
  }

  predicate IsCleanEnd(lines: seq<string>, last: string, rest: string, s: string) {
    AllHeaders(lines) && EndsBy(lines, last, rest) && s == Lines(lines) + (last + rest)
  }

  predicate StopsCleanly<M>(r: Read<M>) { r.Stopped? && RunEndsCleanly(r.why) }

  lemma CleanEndStops<M>(decode: string -> Option<M>, lines: seq<string>, last: string, rest: string)
    requires AllHeaders(lines) && EndsBy(lines, last, rest)
    ensures StopsCleanly(ReadMessage(decode, Lines(lines) + (last + rest)))
  {
    var length := LengthAfter(lines, -1);
    ReadPastHeaders(lines, last + rest, -1);
    if IsBlank(last) {
      ReadBlank(last, rest, length);
    } else if LacksLength(last) {
      ScanEndsExactly(LengthText(last));
      ReadBadLength(last, rest, length);
    } else {
      CutLine("", length);
    }
  }

  lemma StopsAtCleanEnd<M>(decode: string -> Option<M>, s: string)
    requires StopsCleanly(ReadMessage(decode, s))
    ensures EndsCleanly(s)
  {
    var front := FrontOf(s);
    FrontSplits(s);
    ReadPastHeaders(front.lines, front.left, -1);
    var l := ReadLine(front.left);
    ReadLineSplits(front.left);
    LastLine(decode, front.lines, l.text, l.rest, s);
    if l.found {
      assert IsCleanEnd(front.lines, l.text, l.rest, s);
    } else {
      Unit(front.left);
      assert IsCleanEnd(front.lines, "", "", s);
    }
  }

  lemma LastLine<M>(decode: string -> Option<M>, lines: seq<string>, last: string, rest: string, s: string)
    requires StopsCleanly(ReadMessage(decode, s)) && AllHeaders(lines)
    requires ReadHeaders(s, -1) == ReadHeaders(last + rest, LengthAfter(lines, -1))
    requires if '\n' in last then IsLine(last) && !IsHeader(last) else rest == ""
    ensures EndsBy(lines, last, rest)
  {
    var length := LengthAfter(lines, -1);
    if '\n' !in last {
      Unit(last);
      CutLine(last, length);
    } else if TrimEol(last) == "" {
      ReadBlank(last, rest, length);
    } else {
      ReadBadLength(last, rest, length);
      ScanEndsExactly(LengthText(last));
    }
  }

  /** The reader reports the end of the input exactly on such inputs. */
  lemma CleanEndExactly<M>(decode: string -> Option<M>, s: string)
    ensures StopsCleanly(ReadMessage(decode, s)) <==> EndsCleanly(s)
  {
    if StopsCleanly(ReadMessage(decode, s)) {
      StopsAtCleanEnd(decode, s);
    }
    if EndsCleanly(s) {
      var lines, last, rest :| IsCleanEnd(lines, last, rest, s);
      CleanEndStops(decode, lines, last, rest);
    }
  }

  lemma {:induction false} ReadPastFrames<M>(reader: Reader, decode: string -> Option<M>, ps: seq<string>, s: string)
    requires AllReadable(decode, ps)
    ensures var later := ReadAll(ReadWith(reader, decode), s);
            ReadAll(ReadWith(reader, decode), FrameAll(ps) + s)
              == Reading(Decoded(decode, ps) + later.messages, later.why)
    decreases |ps|
  {
    var later := ReadAll(ReadWith(reader, decode), s);
    if ps == [] {
      Unit(s);
      Unit(later.messages);
    } else {
      assert ps[0] in ps && forall p :: p in ps[1..] ==> p in ps;
      ReadPastFrames(reader, decode, ps[1..], s);
      Assoc(Frame(ps[0]), FrameAll(ps[1..]), s);
      ReadWholeFrame(reader, decode, ps[0], FrameAll(ps[1..]) + s);
      Assoc([decode(ps[0]).value], Decoded(decode, ps[1..]), later.messages);
    }
  }

  /**
   Whatever stands behind some frames and is not read as a message: Run handles the frames,
   and ends without an error exactly when what stands there ends cleanly.
   */
  lemma RunEndsExactly<M>(decode: string -> Option<M>, ps: seq<string>, s: string)
    requires AllReadable(decode, ps) && ReadMessage(decode, s).Stopped?
    ensures var r := ReadAll(ReadWith(Interactive, decode), FrameAll(ps) + s);
            r.messages == Decoded(decode, ps) && (RunEndsCleanly(r.why) <==> EndsCleanly(s))
  {
    ReadPastFrames(Interactive, decode, ps, s);
    CleanEndExactly(decode, s);
    Unit(Decoded(decode, ps));
  }
}
