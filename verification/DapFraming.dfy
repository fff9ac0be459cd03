/**
 The base protocol of DAP: messages framed by a Content-Length header (readDAPMessage and
 writeDAPMessage in cmd/exec-history-dap/serve.go, ReadDAPMessages in main.go). A character
 stands for a byte. The JSON inside a frame is a parameter of the readers.
 */
module DapFraming {
  import opened Decimal
  import opened Sequences
  import opened Text

  const LENGTH_FIELD := "Content-Length:"
  const CRLF := "\r\n"

  function HeaderLine(p: string): string { ((LENGTH_FIELD + " ") + Digits(|p|)) + CRLF }

  /** writeDAPMessage: the header, a blank line, the payload. */
  function Frame(p: string): string { HeaderLine(p) + (CRLF + p) }

  function Framing(): string -> string { (p: string) => Frame(p) }

  /** The frames of some payloads, one after the other. */
  function FrameAll(ps: seq<string>): string { FlatMap(Framing(), ps) }

  // -----------------------------------------------------------------------------------
  // Library functions

  datatype Line = Line(text: string, rest: string, found: bool)

  /** bufio's ReadString('\n'): up to and with the newline, or all that is left. */
  function ReadLine(s: string): Line {
    var i := IndexChar(s, '\n');
    if i < 0 then Line(s, "", false) else Line(s[..i + 1], s[i + 1..], true)
  }

  /** strings.TrimRight(s, "\r\n"). */
  function TrimEol(s: string): string {
    if s != "" && (s[|s| - 1] == '\r' || s[|s| - 1] == '\n') then TrimEol(s[..|s| - 1]) else s
  }

  predicate IsSpace(c: char) {
    c == ' ' || c == '\t' || c == '\n' || c == '\r' || c as int == 11 || c as int == 12
  }

  /** strings.TrimSpace, for ASCII white space. */
  function TrimSpace(s: string): string { TrimSpaceRight(TrimSpaceLeft(s)) }

  function TrimSpaceLeft(s: string): string {
    if s != "" && IsSpace(s[0]) then TrimSpaceLeft(s[1..]) else s
  }

  function TrimSpaceRight(s: string): string {
    if s != "" && IsSpace(s[|s| - 1]) then TrimSpaceRight(s[..|s| - 1]) else s
  }

  /** The digits s starts with. */
  function DigitRun(s: string): (d: string)
    ensures AllDigits(d)
  {
    if s == "" || !IsDigit(s[0]) then "" else [s[0]] + DigitRun(s[1..])
  }

  /** A number, the end of the text before any digit (Go reports io.EOF), or another error. */
  datatype Scanned = Number(n: int) | NoDigits | NotANumber

  /** fmt.Sscanf with %d: a sign and digits, within int64; what follows is not looked at. */
  function ScanInt(s: string): Scanned {
    var signed := s != "" && (s[0] == '+' || s[0] == '-');
    var unsigned := if signed then s[1..] else s;
    var digits := DigitRun(unsigned);
    if unsigned == "" then NoDigits
    else if digits == "" then NotANumber
    else
      var n: int := if signed && s[0] == '-' then -(ValueOf(digits) as int) else ValueOf(digits);
      if FitsInt64(n) then Number(n) else NotANumber
  }

  // -----------------------------------------------------------------------------------
  // Reading

  datatype Headers =
    | Complete(length: int, rest: string)
    | Cut(line: string, length: int)
    | Malformed(error: Scanned)

  /** The header lines up to the blank one; length is the last Content-Length seen. */
  function ReadHeaders(s: string, length: int): Headers
    decreases |s|
  {
    var l := ReadLine(s);
    if !l.found then Cut(l.text, length)
    else
      var line := TrimEol(l.text);
      if line == "" then Complete(length, l.rest)
      else if LENGTH_FIELD <= line then
        match ScanInt(TrimSpace(line[|LENGTH_FIELD|..]))
        case Number(n) => ReadHeaders(l.rest, n)
        case error => Malformed(error)
      else ReadHeaders(l.rest, length)
  }

  /**
   Why reading stops: at the end between messages, at the end after a header block, at a
   length without digits, or for any other reason.
   */
  datatype Stop = AtEnd | NoBody | NoLength | Broken

  datatype Read<+M> = Got(message: M, rest: string) | Stopped(why: Stop)

  /** io.ReadFull and decoding, once the headers are read. */
  function ReadBody<M>(decode: string -> Option<M>, length: int, s: string): Read<M> {
    if length <= 0 then Stopped(Broken)
    else if |s| < length then Stopped(if s == "" then NoBody else Broken)
    else
      match decode(s[..length])
      case None => Stopped(Broken)
      case Some(m) => Got(m, s[length..])
  }

  function BadLength(error: Scanned): Stop { if error == NoDigits then NoLength else Broken }

  /** readDAPMessage. */
  function ReadMessage<M>(decode: string -> Option<M>, s: string): (r: Read<M>)
    ensures r.Got? ==> |r.rest| < |s|
  {
    HeadersShorten(s, -1);
    match ReadHeaders(s, -1)
    case Complete(length, rest) => ReadBody(decode, length, rest)
    case Cut(line, length) => Stopped(if line == "" && length < 0 then AtEnd else Broken)
    case Malformed(error) => Stopped(BadLength(error))
  }

  lemma {:induction false} HeadersShorten(s: string, length: int)
    ensures ReadHeaders(s, length).Complete? ==> |ReadHeaders(s, length).rest| < |s|
    decreases |s|
  {
    var l := ReadLine(s);
    if l.found {
      var line := TrimEol(l.text);
      if line != "" {
        if LENGTH_FIELD <= line {
          var n := ScanInt(TrimSpace(line[|LENGTH_FIELD|..]));
          if n.Number? {
            HeadersShorten(l.rest, n.n);
          }
        } else {
          HeadersShorten(l.rest, length);
        }
      }
    }
  }

  /** One turn of ReadDAPMessages, which takes the end of input in a header block for the end. */
  function ReadNext<M>(decode: string -> Option<M>, s: string): (r: Read<M>)
    ensures r.Got? ==> |r.rest| < |s|
  {
    HeadersShorten(s, 0);
    match ReadHeaders(s, 0)
    case Complete(length, rest) => ReadBody(decode, length, rest)
    case Cut(line, _) => Stopped(if line == "" then AtEnd else Broken)
    case Malformed(error) => Stopped(BadLength(error))
  }

  datatype Reader = Interactive | Batch

  function ReadOne<M>(reader: Reader, decode: string -> Option<M>, s: string): (r: Read<M>)
    ensures r.Got? ==> |r.rest| < |s|
  {
    match reader case Interactive => ReadMessage(decode, s) case Batch => ReadNext(decode, s)
  }

  datatype Reading<+M> = Reading(messages: seq<M>, why: Stop)

  /** A reader takes its messages off the front of the input. */
  ghost predicate Shrinks<M>(read: string -> Read<M>) {
    forall s :: read(s).Got? ==> |read(s).rest| < |s|
  }

  function ReadWith<M>(reader: Reader, decode: string -> Option<M>): (read: string -> Read<M>)
    ensures Shrinks(read)
  {
    (s: string) => ReadOne(reader, decode, s)
  }

  /** Message after message, until the reading stops. */
  function ReadAll<M>(read: string -> Read<M>, s: string): Reading<M>
    requires Shrinks(read)
    decreases |s|
  {
    match read(s)
    case Stopped(why) => Reading([], why)
    case Got(m, rest) => Prepend(m, ReadAll(read, rest))
  }

  function Prepend<M>(m: M, later: Reading<M>): Reading<M> { later.(messages := [m] + later.messages) }

  /**
   Run ends without an error on io.EOF and on errors that wrap it, those of the body and of a
   length without digits.
   */
  predicate RunEndsCleanly(why: Stop) { why == AtEnd || why == NoBody || why == NoLength }

  // -----------------------------------------------------------------------------------
  // The readers and the writer of the source

  class Input {
    var rest: string

    constructor (bytes: string)
      ensures rest == bytes
    {
      rest := bytes;
    }

    method ReadString() returns (line: string, eof: bool)
      modifies this
      ensures Line(line, rest, !eof) == ReadLine(old(rest))
    {
      var l := ReadLine(rest);
      line, rest, eof := l.text, l.rest, !l.found;
    }

    /** io.ReadFull: none when fewer than n bytes are left. */
    method ReadFull(n: nat) returns (bytes: Option<string>)
      modifies this
      ensures bytes == if n <= |old(rest)| then Some(old(rest)[..n]) else None
      ensures bytes.Some? ==> rest == old(rest)[n..]
    {
      if n <= |rest| {
        bytes := Some(rest[..n]);
        rest := rest[n..];
      } else {
        bytes := None;
        rest := "";
      }
    }

    /** The header loop, common to both readers; cut is the line at which the input ended. */
    method ReadHeaderBlock(initial: int) returns (length: int, cut: Option<string>, malformed: Option<Scanned>)
      modifies this
      ensures ReadHeaders(old(rest), initial) ==
              if malformed.Some? then Malformed(malformed.value)
              else if cut.Some? then Cut(cut.value, length)
              else Complete(length, rest)
    {
      length, cut, malformed := initial, None, None;
      while true
        invariant ReadHeaders(rest, length) == ReadHeaders(old(rest), initial)
        decreases |rest|
      {
        var line, eof := ReadString();
        if eof {
          cut := Some(line);
          return;
        }
        line := TrimEol(line);
        if line == "" {
          return;
        }
        if LENGTH_FIELD <= line {
          var n := ScanInt(TrimSpace(line[|LENGTH_FIELD|..]));
          if !n.Number? {
            malformed := Some(n);
            return;
          }
          length := n.n;
        }
      }
    }

    method ReadPayload<M>(decode: string -> Option<M>, length: int) returns (r: Read<M>)
      modifies this
      ensures r == ReadBody(decode, length, old(rest))
      ensures r.Got? ==> rest == r.rest
    {
      if length <= 0 {
        return Stopped(Broken);
      }
      var empty := rest == "";
      var bytes := ReadFull(length);
      if bytes.None? {
        return Stopped(if empty then NoBody else Broken);
      }
      var m := decode(bytes.value);
      r := if m.None? then Stopped(Broken) else Got(m.value, rest);
    }

    /** readDAPMessage. */
    method ReadDAPMessage<M>(decode: string -> Option<M>) returns (r: Read<M>)
      modifies this
      ensures r == ReadMessage(decode, old(rest))
      ensures r.Got? ==> rest == r.rest
    {
      var length, cut, malformed := ReadHeaderBlock(-1);
      if malformed.Some? {
        r := Stopped(BadLength(malformed.value));
      } else if cut.Some? {
        r := Stopped(if cut.value == "" && length < 0 then AtEnd else Broken);
      } else {
        r := ReadPayload(decode, length);
      }
    }

    /** One turn of the loop of ReadDAPMessages. */
    method ReadNextMessage<M>(decode: string -> Option<M>) returns (r: Read<M>)
      modifies this
      ensures r == ReadNext(decode, old(rest))
      ensures r.Got? ==> rest == r.rest
    {
      var length, cut, malformed := ReadHeaderBlock(0);
      if malformed.Some? {
        r := Stopped(BadLength(malformed.value));
      } else if cut.Some? {
        r := Stopped(if cut.value == "" then AtEnd else Broken);
      } else {
        r := ReadPayload(decode, length);
      }
    }

    /** ReadDAPMessages: all messages, and why it stopped; AtEnd is its nil error. */
    method ReadDAPMessages<M>(decode: string -> Option<M>) returns (out: seq<M>, why: Stop)
      modifies this
      ensures Reading(out, why) == ReadAll(ReadWith(Batch, decode), old(rest))
    {
      out := [];
      ghost var all := ReadAll(ReadWith(Batch, decode), rest);
      Unit(all.messages);
      while true
        invariant Continues(out, ReadAll(ReadWith(Batch, decode), rest), all)
        decreases |rest|
      {
        ContinuesNext(decode, rest, out, all);
        var r := ReadNextMessage(decode);
        if r.Stopped? {
          return out, r.why;
        }
        out := out + [r.message];
      }
    }
  }

  /** What is read so far and what there is to read make the whole. */
  ghost predicate Continues<M>(out: seq<M>, later: Reading<M>, all: Reading<M>) {
    out + later.messages == all.messages && later.why == all.why
  }

  lemma ContinuesNext<M>(decode: string -> Option<M>, s: string, out: seq<M>, all: Reading<M>)
    requires Continues(out, ReadAll(ReadWith(Batch, decode), s), all)
    ensures match ReadNext(decode, s)
            case Stopped(why) => Reading(out, why) == all
            case Got(m, rest) => Continues(out + [m], ReadAll(ReadWith(Batch, decode), rest), all)
  {
    match ReadNext(decode, s) {
      case Stopped(why) => Unit(out);
      case Got(m, rest) => Assoc(out, [m], ReadAll(ReadWith(Batch, decode), rest).messages);
    }
  }

  class Output {
    var written: string

    constructor ()
      ensures written == ""
    {
      written := "";
    }

    /** writeDAPMessage and writeMessage, given the marshalled message. */
    method WriteDAPMessage(payload: string)
      modifies this
      ensures written == old(written) + Frame(payload)
    {
      written := written + (((LENGTH_FIELD + " ") + Digits(|payload|)) + CRLF);
      written := written + CRLF;
      written := written + payload;
    }
  }
}
