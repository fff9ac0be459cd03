/**
 Framing is a code: what is written is read back, and where a stream that breaks off is cut
 decides how the reading ends.
 */
module DapFramingLaws {
  import opened Decimal
  import opened Sequences
  import opened Text
  import opened DapFraming

  // -----------------------------------------------------------------------------------
  // One line at a time

  lemma ReadLineAt(a: string, b: string)
    requires '\n' !in a
    ensures ReadLine((a + "\n") + b) == Line(a + "\n", b, true)
  {
    Assoc(a, "\n", b);
    IndexCharAfter(a, "\n" + b, '\n');
    assert ((a + "\n") + b)[..|a| + 1] == a + "\n";
    assert ((a + "\n") + b)[|a| + 1..] == b;
  }

  lemma CutLine(s: string, length: int)
    requires '\n' !in s
    ensures ReadHeaders(s, length) == Cut(s, length)
  {
  }

  lemma BlankLine(rest: string, length: int)
    ensures ReadHeaders(CRLF + rest, length) == Complete(length, rest)
  {
    ReadLineAt("\r", rest);
    assert "\r" + "\n" == CRLF;
    assert TrimEol("") == "";
    assert CRLF[..1] == "\r" && "\r"[..0] == "";
  }

  /** The header without its line end. */
  function HeaderText(n: nat): string { (LENGTH_FIELD + " ") + Digits(n) }

  lemma HeaderTextHasNoNewline(n: nat)
    ensures '\n' !in HeaderText(n) + "\r"
  {
    assert '\n' !in LENGTH_FIELD + " ";
    assert forall c :: c in Digits(n) ==> IsDigit(c);
  }

  lemma TrimHeaderEol(n: nat)
    ensures TrimEol((HeaderText(n) + "\r") + "\n") == HeaderText(n)
  {
    var text := HeaderText(n);
    TrimOneEol(text + "\r", '\n');
    TrimOneEol(text, '\r');
    assert text[|text| - 1] == Digits(n)[|Digits(n)| - 1];
    assert IsDigit(text[|text| - 1]);
  }

  lemma TrimOneEol(s: string, c: char)
    requires c == '\r' || c == '\n'
    ensures TrimEol(s + [c]) == TrimEol(s)
  {
    assert (s + [c])[..|s|] == s;
  }

  lemma {:induction false} DigitRunOfDigits(d: string)
    requires AllDigits(d)
    ensures DigitRun(d) == d
    decreases |d|
  {
    if d != "" {
      DigitRunOfDigits(d[1..]);
      Recons(d);
    }
  }

  lemma ScanDigits(n: nat)
    requires FitsInt64(n)
    ensures ScanInt(Digits(n)) == Number(n)
  {
    DigitRunOfDigits(Digits(n));
    assert IsDigit(Digits(n)[0]);
  }

  lemma TrimLengthSpace(n: nat)
    ensures TrimSpace(" " + Digits(n)) == Digits(n)
  {
    var d := Digits(n);
    Uncons(' ', d);
    assert " " + d == [' '] + d;
    assert IsDigit(d[0]) && IsDigit(d[|d| - 1]);
    assert TrimSpaceLeft(d) == d && TrimSpaceRight(d) == d;
  }

  lemma HeaderFieldOf(n: nat)
    ensures LENGTH_FIELD <= HeaderText(n) && HeaderText(n)[|LENGTH_FIELD|..] == " " + Digits(n)
  {
    Assoc(LENGTH_FIELD, " ", Digits(n));
  }

  /** The header line of a payload sets the length to that of the payload. */
  lemma HeaderSetsLength(p: string, rest: string, length: int)
    requires FitsInt64(|p|)
    ensures ReadHeaders(HeaderLine(p) + rest, length) == ReadHeaders(rest, |p|)
  {
    var text := HeaderText(|p|);
    assert HeaderLine(p) == (text + "\r") + "\n";
    HeaderTextHasNoNewline(|p|);
    ReadLineAt(text + "\r", rest);
    TrimHeaderEol(|p|);
    HeaderFieldOf(|p|);
    TrimLengthSpace(|p|);
    ScanDigits(|p|);
  }

  /** A header line that breaks off is read as it is. */
  lemma HeaderLineCut(p: string, c: nat, length: int)
    requires c < |HeaderLine(p)|
    ensures ReadHeaders(HeaderLine(p)[..c], length) == Cut(HeaderLine(p)[..c], length)
  {
    var text := HeaderText(|p|);
    assert HeaderLine(p) == (text + "\r") + "\n";
    HeaderTextHasNoNewline(|p|);
    assert HeaderLine(p)[..c] == (text + "\r")[..c];
    CutLine(HeaderLine(p)[..c], length);
  }

  // -----------------------------------------------------------------------------------
  // One frame

  /** A payload a reader can take: not empty, as long as a Go string can be, and decodable. */
  predicate Readable<M>(decode: string -> Option<M>, p: string) {
    p != "" && FitsInt64(|p|) && decode(p).Some?
  }

  lemma ReadWholeFrame<M>(reader: Reader, decode: string -> Option<M>, p: string, rest: string)
    requires Readable(decode, p)
    ensures ReadOne(reader, decode, Frame(p) + rest) == Got(decode(p).value, rest)
  {
    var initial := if reader == Interactive then -1 else 0;
    Assoc(HeaderLine(p), CRLF + p, rest);
    Assoc(CRLF, p, rest);
    HeaderSetsLength(p, CRLF + (p + rest), initial);
    BlankLine(p + rest, |p|);
    assert (p + rest)[..|p|] == p && (p + rest)[|p|..] == rest;
  }

  /** How reading ends c characters into a frame. */
  function StopWithin(reader: Reader, p: string, c: nat): DapFraming.Stop {
    var header := |HeaderLine(p)|;
    if c == 0 then AtEnd
    else if c == header && reader == Batch then AtEnd
    else if c == header + 2 then NoBody
    else Broken
  }

  /** Past the header line: the line break may be cut, or the payload. */
  lemma CutAfterHeader<M>(reader: Reader, decode: string -> Option<M>, p: string, tail: string, c: nat)
    requires Readable(decode, p) && c < |CRLF + p| && tail == (CRLF + p)[..c]
    ensures ReadOne(reader, decode, HeaderLine(p) + tail) == Stopped(StopWithin(reader, p, |HeaderLine(p)| + c))
  {
    HeaderSetsLength(p, tail, if reader == Interactive then -1 else 0);
    if c < 2 {
      assert tail == CRLF[..c];
      CutLine(tail, |p|);
    } else {
      assert tail == CRLF + p[..c - 2];
      BlankLine(p[..c - 2], |p|);
    }
  }

  lemma ReadPartOfFrame<M>(reader: Reader, decode: string -> Option<M>, p: string, c: nat)
    requires Readable(decode, p) && c < |Frame(p)|
    ensures ReadOne(reader, decode, Frame(p)[..c]) == Stopped(StopWithin(reader, p, c))
  {
    var header := HeaderLine(p);
    if c < |header| {
      assert Frame(p)[..c] == header[..c];
      HeaderLineCut(p, c, if reader == Interactive then -1 else 0);
    } else {
      assert Frame(p)[..c] == header + (CRLF + p)[..c - |header|];
      CutAfterHeader(reader, decode, p, (CRLF + p)[..c - |header|], c - |header|);
    }
  }

  // -----------------------------------------------------------------------------------
  // Positions in a concatenation, whatever the pieces are

  datatype Position = Position(pieces: nat, into: nat)

  /** How many whole pieces lie before a position, and how far into the next piece it is. */
  function Locate(f: string -> string, ps: seq<string>, c: nat): (at: Position)
    ensures at.pieces <= |ps|
    ensures at.pieces < |ps| ==> at.into < |f(ps[at.pieces])|
  {
    if ps == [] || c < |f(ps[0])| then Position(0, c)
    else
      var later := Locate(f, ps[1..], c - |f(ps[0])|);
      Position(later.pieces + 1, later.into)
  }

  lemma FlatMapUpTo(f: string -> string, ps: seq<string>, j: nat)
    requires 0 < j <= |ps|
    ensures FlatMap(f, ps[..j]) == f(ps[0]) + FlatMap(f, ps[1..][..j - 1])
  {
    assert ps[..j][0] == ps[0] && ps[..j][1..] == ps[1..][..j - 1];
  }

  /** Positions are unique. */
  lemma {:induction false} LocateAt(f: string -> string, ps: seq<string>, j: nat, x: nat)
    requires j <= |ps| && if j < |ps| then x < |f(ps[j])| else x == 0
    ensures Locate(f, ps, |FlatMap(f, ps[..j])| + x) == Position(j, x)
    decreases |ps|
  {
    if j > 0 {
      FlatMapUpTo(f, ps, j);
      LocateAt(f, ps[1..], j - 1, x);
    }
  }

  lemma {:induction false} Located(f: string -> string, ps: seq<string>, c: nat)
    requires c <= |FlatMap(f, ps)|
    ensures var at := Locate(f, ps, c);
            |FlatMap(f, ps[..at.pieces])| + at.into == c && (at.pieces == |ps| ==> at.into == 0)
    decreases |ps|
  {
    if ps != [] && c >= |f(ps[0])| {
      FlatMapUpTo(f, ps, Locate(f, ps, c).pieces);
      Located(f, ps[1..], c - |f(ps[0])|);
    }
  }

  /** A position as many characters into a piece as the piece is marked with. */
  ghost predicate AtMark(f: string -> string, mark: string -> nat, ps: seq<string>, c: nat) {
    exists j :: 0 <= j < |ps| && IsMark(f, mark, ps, j, c)
  }

  predicate IsMark(f: string -> string, mark: string -> nat, ps: seq<string>, j: nat, c: nat)
    requires j < |ps|
  {
    c == |FlatMap(f, ps[..j])| + mark(ps[j])
  }

  lemma AtMarkMeaning(f: string -> string, mark: string -> nat, ps: seq<string>, c: nat)
    requires c <= |FlatMap(f, ps)| && forall p :: p in ps ==> mark(p) < |f(p)|
    ensures AtMark(f, mark, ps, c) <==>
      var at := Locate(f, ps, c); at.pieces < |ps| && at.into == mark(ps[at.pieces])
  {
    var at := Locate(f, ps, c);
    Located(f, ps, c);
    if at.pieces < |ps| && at.into == mark(ps[at.pieces]) {
      assert IsMark(f, mark, ps, at.pieces, c);
    }
    if AtMark(f, mark, ps, c) {
      var j: nat :| j < |ps| && IsMark(f, mark, ps, j, c);
      LocateAt(f, ps, j, mark(ps[j]));
    }
  }

  // -----------------------------------------------------------------------------------
  // A stream of frames, cut anywhere

  /** The payloads decoded, as far as they can be. */
  function Decoded<M>(decode: string -> Option<M>, ps: seq<string>): seq<M> {
    if ps == [] then []
    else
      match decode(ps[0])
      case None => []
      case Some(m) => [m] + Decoded(decode, ps[1..])
  }

  /** How reading a stream ends that is cut at a position. */
  function StopOf(stop: (string, nat) -> DapFraming.Stop, ps: seq<string>, at: Position): DapFraming.Stop
    requires at.pieces <= |ps|
  {
    if at.pieces == |ps| then AtEnd else stop(ps[at.pieces], at.into)
  }

  /** A framing a reader understands: whole frames are read, cut ones stop it in a known way. */
  ghost predicate Understands<M>(read: string -> Read<M>, decode: string -> Option<M>, f: string -> string,
    stop: (string, nat) -> DapFraming.Stop, p: string)
  {
    decode(p).Some? &&
    (forall rest :: read(f(p) + rest) == Got(decode(p).value, rest)) &&
    (forall c :: 0 <= c < |f(p)| ==> read(f(p)[..c]) == Stopped(stop(p, c)))
  }

  ghost predicate UnderstandsAll<M>(read: string -> Read<M>, decode: string -> Option<M>, f: string -> string,
    stop: (string, nat) -> DapFraming.Stop, ps: seq<string>)
  {
    ps == [] || (Understands(read, decode, f, stop, ps[0]) && UnderstandsAll(read, decode, f, stop, ps[1..]))
  }

  lemma DecodedUpTo<M>(decode: string -> Option<M>, ps: seq<string>, k: nat)
    requires 0 < k <= |ps| && decode(ps[0]).Some?
    ensures Decoded(decode, ps[..k]) == [decode(ps[0]).value] + Decoded(decode, ps[1..][..k - 1])
  {
    assert ps[..k][0] == ps[0] && ps[..k][1..] == ps[1..][..k - 1];
  }

  lemma CutInFirst(a: string, b: string, c: nat)
    ensures c <= |a| ==> (a + b)[..c] == a[..c]
    ensures |a| <= c <= |a| + |b| ==> (a + b)[..c] == a + b[..c - |a|]
  {
  }

  /** What is read of a stream, given what is read of it after its first frame. */
  lemma ReadAfterFirst<M>(read: string -> Read<M>, decode: string -> Option<M>, frame: string, later: string,
      ps: seq<string>, k: nat, c: nat, why: DapFraming.Stop)
    requires Shrinks(read) && |frame| <= c <= |frame| + |later| && k < |ps| && decode(ps[0]).Some?
    requires read(frame + later[..c - |frame|]) == Got(decode(ps[0]).value, later[..c - |frame|])
    requires ReadAll(read, later[..c - |frame|]) == Reading(Decoded(decode, ps[1..][..k]), why)
    ensures ReadAll(read, (frame + later)[..c]) == Reading(Decoded(decode, ps[..k + 1]), why)
  {
    CutInFirst(frame, later, c);
    DecodedUpTo(decode, ps, k + 1);
  }

  lemma ReadNoneOfFirst<M>(read: string -> Read<M>, f: string -> string, stop: (string, nat) -> DapFraming.Stop,
      ps: seq<string>, c: nat)
    requires Shrinks(read) && ps != [] && c < |f(ps[0])| && read(f(ps[0])[..c]) == Stopped(stop(ps[0], c))
    ensures ReadAll(read, FlatMap(f, ps)[..c]) == Reading([], stop(ps[0], c))
  {
    CutInFirst(f(ps[0]), FlatMap(f, ps[1..]), c);
  }

  /** A stream cut anywhere yields exactly the frames that are whole; where it is cut says how the reading ends. */
  lemma {:induction false} ReadCutStream<M>(read: string -> Read<M>, decode: string -> Option<M>, f: string -> string,
      stop: (string, nat) -> DapFraming.Stop, ps: seq<string>, c: nat)
    requires Shrinks(read) && read("") == Stopped(AtEnd)
    requires c <= |FlatMap(f, ps)| && UnderstandsAll(read, decode, f, stop, ps)
    ensures var at := Locate(f, ps, c);
            ReadAll(read, FlatMap(f, ps)[..c]) == Reading(Decoded(decode, ps[..at.pieces]), StopOf(stop, ps, at))
    decreases |ps|
  {
    if ps == [] {
    } else if c < |f(ps[0])| {
      ReadNoneOfFirst(read, f, stop, ps, c);
    } else {
      var later, left := ps[1..], c - |f(ps[0])|;
      ReadCutStream(read, decode, f, stop, later, left);
      var at := Locate(f, later, left);
      ReadAfterFirst(read, decode, f(ps[0]), FlatMap(f, later), ps, at.pieces, c, StopOf(stop, later, at));
    }
  }

  function Stops(reader: Reader): (string, nat) -> DapFraming.Stop {
    (p: string, c: nat) => StopWithin(reader, p, c)
  }

  lemma UnderstandsFrames<M>(reader: Reader, decode: string -> Option<M>, p: string)
    requires Readable(decode, p)
    ensures Understands(ReadWith(reader, decode), decode, Framing(), Stops(reader), p)
  {
    assert Framing()(p) == Frame(p);
    forall rest
      ensures ReadWith(reader, decode)(Framing()(p) + rest) == Got(decode(p).value, rest)
    {
      ReadWholeFrame(reader, decode, p, rest);
    }
    forall c | 0 <= c < |Framing()(p)|
      ensures ReadWith(reader, decode)(Framing()(p)[..c]) == Stopped(Stops(reader)(p, c))
    {
      ReadPartOfFrame(reader, decode, p, c);
    }
  }

  ghost predicate AllReadable<M>(decode: string -> Option<M>, ps: seq<string>) {
    forall p :: p in ps ==> Readable(decode, p)
  }

  lemma {:induction false} UnderstandsAllFrames<M>(reader: Reader, decode: string -> Option<M>, ps: seq<string>)
    requires AllReadable(decode, ps)
    ensures UnderstandsAll(ReadWith(reader, decode), decode, Framing(), Stops(reader), ps)
    decreases |ps|
  {
    if ps != [] {
      assert ps[0] in ps && forall p :: p in ps[1..] ==> p in ps;
      UnderstandsFrames(reader, decode, ps[0]);
      UnderstandsAllFrames(reader, decode, ps[1..]);
    }
  }

  lemma NothingToRead<M>(reader: Reader, decode: string -> Option<M>)
    ensures ReadWith(reader, decode)("") == Stopped(AtEnd)
  {
    CutLine("", if reader == Interactive then -1 else 0);
  }

  lemma ReadCutFrames<M>(reader: Reader, decode: string -> Option<M>, ps: seq<string>, c: nat)
    requires c <= |FrameAll(ps)| && AllReadable(decode, ps)
    ensures var at := Locate(Framing(), ps, c);
            ReadAll(ReadWith(reader, decode), FrameAll(ps)[..c])
            == Reading(Decoded(decode, ps[..at.pieces]), StopOf(Stops(reader), ps, at))
  {
    NothingToRead(reader, decode);
    UnderstandsAllFrames(reader, decode, ps);
    ReadCutStream(ReadWith(reader, decode), decode, Framing(), Stops(reader), ps, c);
  }

  // -----------------------------------------------------------------------------------
  // How reading ends

  function Zero(): string -> nat { (p: string) => 0 }

  function HeaderLength(): string -> nat { (p: string) => |HeaderLine(p)| }

  function BlockLength(): string -> nat { (p: string) => |HeaderLine(p)| + 2 }

  /** The cut is where a frame ends, or at the start. */
  ghost predicate OnBoundary(ps: seq<string>, c: nat) { Between(Framing(), ps, c) }

  ghost predicate Between(f: string -> string, ps: seq<string>, c: nat) {
    c == |FlatMap(f, ps)| || AtMark(f, Zero(), ps, c)
  }

  /** The cut is right after the header line of a frame. */
  ghost predicate AfterHeaderLine(ps: seq<string>, c: nat) { AtMark(Framing(), HeaderLength(), ps, c) }

  /** The cut is right after the blank line of a frame, before its payload. */
  ghost predicate AfterHeaderBlock(ps: seq<string>, c: nat) { AtMark(Framing(), BlockLength(), ps, c) }

  lemma BetweenMeaning(f: string -> string, ps: seq<string>, c: nat)
    requires c <= |FlatMap(f, ps)| && forall p :: p in ps ==> 0 < |f(p)|
    ensures Between(f, ps, c) <==> Locate(f, ps, c).into == 0
  {
    Located(f, ps, c);
    assert ps[..|ps|] == ps;
    LocateAt(f, ps, |ps|, 0);
    AtMarkMeaning(f, Zero(), ps, c);
  }

  /** A reader cut in a piece finds an end at its start, and for some at one mark; it misses the body at another. */
  ghost predicate StopsAt(stop: (string, nat) -> DapFraming.Stop, batch: bool, line: string -> nat,
      block: string -> nat, p: string) {
    forall x: nat ::
      (stop(p, x) == AtEnd <==> x == 0 || (batch && x == line(p))) &&
      (stop(p, x) == NoBody <==> x == block(p) && x != 0 && !(batch && x == line(p))) &&
      stop(p, x) != NoLength
  }

  /** How a cut stream of any pieces ends that stop a reader at the start, at one mark and at another. */
  lemma EndsByMarks(f: string -> string, stop: (string, nat) -> DapFraming.Stop, batch: bool, line: string -> nat,
      block: string -> nat, ps: seq<string>, c: nat)
    requires c <= |FlatMap(f, ps)| && forall p :: p in ps ==> 0 < line(p) < block(p) < |f(p)|
    requires forall p :: p in ps ==> StopsAt(stop, batch, line, block, p)
    ensures var why := StopOf(stop, ps, Locate(f, ps, c));
            (why == AtEnd <==> Between(f, ps, c) || (batch && AtMark(f, line, ps, c))) &&
            (why == NoBody <==> AtMark(f, block, ps, c)) && why != NoLength
  {
    BetweenMeaning(f, ps, c);
    AtMarkMeaning(f, line, ps, c);
    AtMarkMeaning(f, block, ps, c);
    Located(f, ps, c);
    var at := Locate(f, ps, c);
    if at.pieces < |ps| {
      assert ps[at.pieces] in ps;
    }
  }

  lemma FrameMarks<M>(reader: Reader, decode: string -> Option<M>, p: string)
    requires Readable(decode, p)
    ensures 0 < HeaderLength()(p) < BlockLength()(p) < |Framing()(p)|
    ensures StopsAt(Stops(reader), reader == Batch, HeaderLength(), BlockLength(), p)
  {
    assert Framing()(p) == Frame(p);
  }

  /** How reading a cut stream ends, by where it is cut. */
  lemma EndMeaning<M>(reader: Reader, decode: string -> Option<M>, ps: seq<string>, c: nat)
    requires c <= |FrameAll(ps)| && AllReadable(decode, ps)
    ensures var why := ReadAll(ReadWith(reader, decode), FrameAll(ps)[..c]).why;
            (why == AtEnd <==> OnBoundary(ps, c) || (reader == Batch && AfterHeaderLine(ps, c))) &&
            (why == NoBody <==> AfterHeaderBlock(ps, c)) && why != NoLength
  {
    ReadCutFrames(reader, decode, ps, c);
    forall p | p in ps
      ensures 0 < HeaderLength()(p) < BlockLength()(p) < |Framing()(p)|
      ensures StopsAt(Stops(reader), reader == Batch, HeaderLength(), BlockLength(), p)
    {
      FrameMarks(reader, decode, p);
    }
    EndsByMarks(Framing(), Stops(reader), reader == Batch, HeaderLength(), BlockLength(), ps, c);
  }

  /**
   The interactive reader ends with a bare end of input exactly on frame boundaries. Run is
   content with less: it also ends without an error right after a header block.
   */
  lemma InteractiveEnds<M>(decode: string -> Option<M>, ps: seq<string>, c: nat)
    requires c <= |FrameAll(ps)| && AllReadable(decode, ps)
    ensures var why := ReadAll(ReadWith(Interactive, decode), FrameAll(ps)[..c]).why;
            (why == AtEnd <==> OnBoundary(ps, c)) &&
            (RunEndsCleanly(why) <==> OnBoundary(ps, c) || AfterHeaderBlock(ps, c))
  {
    EndMeaning(Interactive, decode, ps, c);
  }

  /** The batch reader reports no error on frame boundaries, nor between a header line and the blank one. */
  lemma BatchEnds<M>(decode: string -> Option<M>, ps: seq<string>, c: nat)
    requires c <= |FrameAll(ps)| && AllReadable(decode, ps)
    ensures ReadAll(ReadWith(Batch, decode), FrameAll(ps)[..c]).why == AtEnd
      <==> OnBoundary(ps, c) || AfterHeaderLine(ps, c)
  {
    EndMeaning(Batch, decode, ps, c);
  }

  // -----------------------------------------------------------------------------------
  // Round trips

  lemma LocateEnd(f: string -> string, ps: seq<string>)
    ensures Locate(f, ps, |FlatMap(f, ps)|) == Position(|ps|, 0) && ps[..|ps|] == ps
  {
    assert ps[..|ps|] == ps;
    LocateAt(f, ps, |ps|, 0);
  }

  /** Both readers return exactly the payloads written, whatever they contain, and end at the end. */
  lemma ReadsBackPayloads<M>(reader: Reader, decode: string -> Option<M>, ps: seq<string>)
    requires AllReadable(decode, ps)
    ensures ReadAll(ReadWith(reader, decode), FrameAll(ps)) == Reading(Decoded(decode, ps), AtEnd)
  {
    var all := FrameAll(ps);
    assert all[..|all|] == all;
    ReadCutFrames(reader, decode, ps, |all|);
    LocateEnd(Framing(), ps);
  }

  function Encoded<M>(encode: M -> string, ms: seq<M>): seq<string> {
    if ms == [] then [] else [encode(ms[0])] + Encoded(encode, ms[1..])
  }

  /** With any codec for messages that decodes what it encodes, messages are read back as sent. */
  lemma ReadsBackMessages<M>(reader: Reader, encode: M -> string, decode: string -> Option<M>, ms: seq<M>)
    requires forall i :: 0 <= i < |ms| ==> Coded(encode, decode, ms[i])
    ensures ReadAll(ReadWith(reader, decode), FrameAll(Encoded(encode, ms))) == Reading(ms, AtEnd)
  {
    EncodedDecodes(encode, decode, ms);
    ReadsBackPayloads(reader, decode, Encoded(encode, ms));
  }

  ghost predicate Coded<M>(encode: M -> string, decode: string -> Option<M>, m: M) {
    Readable(decode, encode(m)) && decode(encode(m)) == Some(m)
  }

  lemma {:induction false} EncodedDecodes<M>(encode: M -> string, decode: string -> Option<M>, ms: seq<M>)
    requires forall i :: 0 <= i < |ms| ==> Coded(encode, decode, ms[i])
    ensures AllReadable(decode, Encoded(encode, ms)) && Decoded(decode, Encoded(encode, ms)) == ms
    decreases |ms|
  {
    if ms != [] {
      EncodedDecodes(encode, decode, ms[1..]);
      var p, later := encode(ms[0]), Encoded(encode, ms[1..]);
      Uncons(p, later);
      forall q | q in [p] + later ensures Readable(decode, q) {
        assert Coded(encode, decode, ms[0]);
        assert q == p || q in later;
      }
      Recons(ms);
    }
  }
}
