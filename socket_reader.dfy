/** `socket_reader.Reader`: reads a TCP connection one byte at a time and
    returns when a line end arrives, when nothing arrives in time, when a byte
    cannot be decoded or when the peer closes the connection. */
module SocketReader {
  import opened Base
  import opened Text
  import opened Utf8
  import opened FloatText
  import opened Interpretations
  import opened Records

  /** What one `select` with a 0.5 s timeout, followed by `recv(1)`, gives. */
  datatype Event =
    | Byte(b: byte)   // one byte arrived
    | Timeout         // nothing arrived in time
    | Hangup          // `recv` returned no bytes: the peer closed the connection

  /** Why gathering a line stopped. */
  datatype Ending = Newline | TimedOut | Undecodable | HungUp

  /** The line gathered, why gathering stopped, and how many events it used. */
  datatype Framed = Framed(line: string, ending: Ending, used: nat)

  /** `recv(1).decode()`: a single byte decodes only when it is ASCII. */
  function DecodeByte(b: byte): (c: Option<char>)
    ensures c.Some? <==> b < 0x80
    ensures c.Some? ==> c.value as int == b as int
  {
    SingleByteDecodes(b);
    match Decode([b])
    case None => None
    case Some(s) => Some(s[0])
  }

  /** The loop of `reader()` as a function of the events still to come: `\r` is
      dropped, `\n` ends the line, anything else is appended. With no event left,
      the connection stays silent and the wait times out. */
  function Frame(evs: seq<Event>): (fr: Framed)
    ensures fr.used <= |evs|
    ensures '\r' !in fr.line && '\n' !in fr.line && Ascii(fr.line)
    ensures fr.ending != TimedOut ==> fr.used >= 1
  {
    if evs == [] then Framed("", TimedOut, 0)
    else match evs[0]
      case Timeout => Framed("", TimedOut, 1)
      case Hangup => Framed("", HungUp, 1)
      case Byte(b) =>
        match DecodeByte(b)
        case None => Framed("", Undecodable, 1)
        case Some(c) =>
          if c == '\n' then Framed("", Newline, 1)
          else
            var rest := Frame(evs[1..]);
            Framed(if c == '\r' then rest.line else [c] + rest.line, rest.ending, rest.used + 1)
  }

  /** What the call returns once the line is gathered. A line end hands the line
      to the shared classification, or returns it as it is in raw mode; every
      other exit returns `(line, [], False)`, a tuple even in raw mode, because
      the conditional expression binds tighter than the tuple. */
  function Finish(f: Integrity, want: Option<string>, raw: bool, fr: Framed): Reply {
    if fr.ending == Newline then
      if raw then RawText(fr.line)
      else match Classify(f, want, fr.line)
        case Accepted(name, values) => Answer(Numeric(name, values))
        case NotNumeric(name, fields, _) => Answer(NonNumeric(name, fields))
        case Rejected(checked) => Answer(NonNumeric(checked, []))
        case Failed(e) => Raised(e)
    else Answer(NonNumeric(fr.line, []))
  }

  /** The events a stream of bytes arrives as, one `recv(1)` per byte. */
  function Events(bs: seq<byte>): (evs: seq<Event>)
    ensures |evs| == |bs|
  {
    if bs == [] then [] else [Byte(bs[0])] + Events(bs[1..])
  }

  /** `s` without its carriage returns. */
  function DropReturns(s: string): (r: string)
    ensures '\r' !in r
  {
    if s == [] then [] else (if s[0] == '\r' then [] else [s[0]]) + DropReturns(s[1..])
  }

  /** An event that ends the gathering of a line: a line feed, a byte that does
      not decode on its own, silence or a hang-up. */
  predicate Stops(ev: Event) {
    ev == Byte(10) || (ev.Byte? && ev.b >= 0x80) || ev.Timeout? || ev.Hangup?
  }

  function EndingOf(ev: Event): Ending
    requires Stops(ev)
  {
    match ev
    case Byte(b) => if b == 10 then Newline else Undecodable
    case Timeout => TimedOut
    case Hangup => HungUp
  }

  /** ASCII text arriving byte by byte, then a stopping event: the line is the
      text without its carriage returns, and every event up to the stop is used. */
  lemma {:induction false} FrameText(s: string, stop: Event, rest: seq<Event>)
    requires Ascii(s) && '\n' !in s && Stops(stop)
    ensures Frame(Events(Encode(s)) + [stop] + rest) == Framed(DropReturns(s), EndingOf(stop), |s| + 1)
  {
    var evs := Events(Encode(s)) + [stop] + rest;
    if s == [] {
      assert evs == [stop] + rest;
      if stop == Byte(10) {
        assert DecodeByte(stop.b).value == '\n';
      }
    } else {
      var c := s[0];
      var b := c as int as byte;
      assert Encode(s) == [b] + Encode(s[1..]);
      assert evs == [Byte(b)] + (Events(Encode(s[1..])) + [stop] + rest);
      assert DecodeByte(b) == Some(c);
      FrameText(s[1..], stop, rest);
    }
  }

  lemma {:induction false} EncodeAppend(a: string, b: string)
    ensures Encode(a + b) == Encode(a) + Encode(b)
  {
    if a == [] {
      assert a + b == b;
    } else {
      assert (a + b)[0] == a[0] && (a + b)[1..] == a[1..] + b;
      EncodeAppend(a[1..], b);
    }
  }

  lemma {:induction false} EventsAppend(a: seq<byte>, b: seq<byte>)
    ensures Events(a + b) == Events(a) + Events(b)
  {
    if a == [] {
      assert a + b == b;
    } else {
      assert (a + b)[0] == a[0] && (a + b)[1..] == a[1..] + b;
      EventsAppend(a[1..], b);
    }
  }

  lemma {:induction false} DropReturnsLast(s: string)
    requires '\r' !in s
    ensures DropReturns(s + "\r") == s
  {
    if s == [] {
      assert s + "\r" == "\r";
    } else {
      assert (s + "\r")[1..] == s[1..] + "\r";
      DropReturnsLast(s[1..]);
      assert s == [s[0]] + s[1..];
    }
  }

  /** A line written `text\r\n` is gathered as `text`, ended by the line feed. */
  lemma FrameLine(text: string, rest: seq<Event>)
    requires Plain(text)
    ensures Frame(Events(Encode(text + "\r\n")) + rest) == Framed(text, Newline, |text| + 2)
  {
    var s := text + "\r";
    assert text + "\r\n" == s + "\n";
    EncodeAppend(s, "\n");
    assert Encode("\n") == [10 as byte];
    EventsAppend(Encode(s), [10 as byte]);
    assert Events([10 as byte]) == [Byte(10)];
    assert Ascii(s) && '\n' !in s;
    FrameText(s, Byte(10), rest);
    DropReturnsLast(text);
  }

  /** A data line sent as `line\r\n` (a checksum character before the line end
      under `Checksum`) is read as the record it encodes, or as the line itself
      when the reader waits for another label. A checksum that is itself a
      line-end character would cut the line short, so it is excluded. */
  lemma SocketDataLine(f: Integrity, want: Option<string>, name: string, ds: seq<Decimal>, rest: seq<Event>)
    requires ',' !in name && Plain(name)
    requires forall i :: 0 <= i < |ds| ==> WellFormed(ds[i])
    requires f == Checksum ==> XorAll(DataLine(name, ds, "")) != 10 && XorAll(DataLine(name, ds, "")) != 13
    ensures Latin1(DataLine(name, ds, ""))
    ensures Finish(f, want, false, Frame(Events(Encode(Sent(f, DataLine(name, ds, "")) + "\r\n")) + rest))
      == if want.None? || want.value == name then Answer(Numeric(name, Values(ds)))
         else Answer(NonNumeric(DataLine(name, ds, ""), []))
  {
    var line := DataLine(name, ds, "");
    PlainDataLine(name, ds);
    var text := Sent(f, line);
    if f == Checksum {
      XorBelow128(line);
      assert text == line + [ChecksumChar(line)];
    }
    assert Plain(text);
    FrameLine(text, rest);
    ClassifyDataLine(f, want, name, ds, "");
  }

  /** A line cut short by silence or by the peer hanging up is returned as the
      triple `(line, [], False)`, in raw mode too; with nothing read the line is
      empty. */
  lemma SocketCutShort(f: Integrity, want: Option<string>, raw: bool, s: string, stop: Event, rest: seq<Event>)
    requires Ascii(s) && '\n' !in s
    requires stop.Timeout? || stop.Hangup?
    ensures Finish(f, want, raw, Frame(Events(Encode(s)) + [stop] + rest))
      == Answer(NonNumeric(DropReturns(s), []))
  {
    FrameText(s, stop, rest);
  }

  /** With no event left the wait times out and the empty line is returned. */
  lemma SocketSilent(f: Integrity, want: Option<string>, raw: bool)
    ensures Finish(f, want, raw, Frame([])) == Answer(NonNumeric("", []))
  {
  }

  /** A byte outside ASCII ends the line, which is returned as it stands. */
  lemma SocketUndecodable(f: Integrity, want: Option<string>, raw: bool, s: string, b: byte, rest: seq<Event>)
    requires Ascii(s) && '\n' !in s && b >= 0x80
    ensures Frame(Events(Encode(s)) + [Byte(b)] + rest).ending == Undecodable
    ensures Finish(f, want, raw, Frame(Events(Encode(s)) + [Byte(b)] + rest))
      == Answer(NonNumeric(DropReturns(s), []))
  {
    FrameText(s, Byte(b), rest);
  }

  class Reader {
    const integrity: Integrity
    /** The events the connection will deliver from now on. */
    var incoming: seq<Event>
    var closed: bool
    /** The bytes `write` has sent. */
    var outgoing: seq<byte>

    constructor(f: Integrity, events: seq<Event>)
      ensures integrity == f && incoming == events && !closed && outgoing == []
    {
      integrity := f;
      incoming := events;
      closed := false;
      outgoing := [];
    }

    /** `closeConnection()`. */
    method CloseConnection()
      modifies this
      ensures closed && incoming == old(incoming) && outgoing == old(outgoing)
    {
      closed := true;
    }

    /** `write(data)`: sends the UTF-8 bytes of the message; on a closed socket
        `sendall` raises. */
    method Write(data: string) returns (r: Result<(), PyError>)
      modifies this
      ensures r.Ok? <==> !old(closed)
      ensures r.Err? ==> r.error == OSError
      ensures outgoing == if old(closed) then old(outgoing) else old(outgoing) + Encode(data)
      ensures incoming == old(incoming) && closed == old(closed)
    {
      if closed {
        return Err(OSError);
      }
      outgoing := outgoing + Encode(data);
      return Ok(());
    }

    /** One call `reader(label, raw)`. On a connection already closed, `select`
        raises ValueError before anything is read. */
    method Call(want: Option<string>, raw: bool) returns (r: Reply)
      modifies this
      ensures old(closed) ==> r == Raised(ValueError) && incoming == old(incoming) && closed
      ensures !old(closed) ==> incoming == old(incoming)[Frame(old(incoming)).used..]
      ensures !old(closed) ==> closed == (Frame(old(incoming)).ending == HungUp)
      ensures !old(closed) ==> r == Finish(integrity, want, raw, Frame(old(incoming)))
      ensures outgoing == old(outgoing)
    {
      if closed {
        return Raised(ValueError);
      }
      var all := incoming;
      var rawData := "";
      var ending: Ending;
      while true
        invariant |incoming| <= |all| && incoming == all[|all| - |incoming|..]
        invariant !closed && outgoing == old(outgoing)
        invariant Frame(all) == Framed(rawData + Frame(incoming).line, Frame(incoming).ending,
                                       |all| - |incoming| + Frame(incoming).used)
        decreases |incoming|
      {
        if incoming == [] || incoming[0].Timeout? {
          if incoming != [] {
            incoming := incoming[1..];
          }
          ending := TimedOut;
          break;
        }
        var ev := incoming[0];
        ghost var rest := incoming[1..];
        incoming := incoming[1..];
        if ev.Hangup? {
          CloseConnection();
          ending := HungUp;
          break;
        }
        var c := DecodeByte(ev.b);
        if c.None? {
          ending := Undecodable;
          break;
        }
        if c.value == '\r' {
          continue;
        }
        if c.value == '\n' {
          ending := Newline;
          break;
        }
        assert rawData + ([c.value] + Frame(rest).line) == rawData + [c.value] + Frame(rest).line;
        rawData := rawData + [c.value];
      }
      assert Frame(all) == Framed(rawData, ending, |all| - |incoming|);
      r := Finish(integrity, want, raw, Framed(rawData, ending, |all| - |incoming|));
    }
  }
}
