/** `serial_reader.Reader`: reads one line of bytes from a serial port per call. */
module SerialReader {
  import opened Base
  import opened Text
  import opened Utf8
  import opened FloatText
  import opened Interpretations
  import opened Records

  /** What waiting 0.02 s on the port gives: nothing, or one line of bytes as
      `readline` returns it. */
  datatype Arrival = Quiet | Line(bytes: seq<byte>)

  /** The bytes `rawData` holds after the wait: `b''` when nothing arrived. */
  function RawData(a: Arrival): seq<byte> {
    match a
    case Quiet => []
    case Line(bytes) => bytes
  }

  /** One call `reader(label, raw)`. The loop body never runs twice: every path
      returns or breaks; a break returns the bytes read. */
  function Call(f: Integrity, want: Option<string>, raw: bool, a: Arrival): Reply {
    var rawData := RawData(a);
    if raw then RawBytes(rawData)
    else match Decode(rawData)
      case None => Answer(Undecoded(rawData))
      case Some(text) =>
        match Classify(f, want, text)
        case Accepted(name, values) => Answer(Numeric(name, values))
        case NotNumeric(name, fields, _) => Answer(NonNumeric(name, fields))
        case Rejected(_) => Answer(Undecoded(rawData))
        case Failed(e) => Raised(e)
  }

  /** `write(data)`: the UTF-8 bytes of the message, which decode back to it. */
  function Write(data: string): (wire: seq<byte>)
    ensures Decode(wire) == Some(data)
  {
    DecodeEncode(data);
    Encode(data)
  }

  /** A data line sent over the port in UTF-8, line end included, is read back as
      the record it encodes. */
  lemma SerialDataLine(want: Option<string>, name: string, ds: seq<Decimal>)
    requires ',' !in name && Latin1(name) && ds != []
    requires forall i :: 0 <= i < |ds| ==> WellFormed(ds[i])
    ensures Call(AcceptAll, want, false, Line(Encode(DataLine(name, ds, "\n"))))
      == if want.None? || want.value == name then Answer(Numeric(name, Values(ds)))
         else Answer(Undecoded(Encode(DataLine(name, ds, "\n"))))
  {
    var line := DataLine(name, ds, "\n");
    assert AllSpace("\n");
    ClassifyDataLine(AcceptAll, want, name, ds, "\n");
    assert Sent(AcceptAll, line) == line;
    DecodedLine(AcceptAll, want, line);
  }

  /** A line of UTF-8 text is classified as that text. */
  lemma DecodedLine(f: Integrity, want: Option<string>, text: string)
    ensures Classify(f, want, text).Accepted? ==>
              Call(f, want, false, Line(Encode(text)))
              == Answer(Numeric(Classify(f, want, text).name, Classify(f, want, text).values))
    ensures Classify(f, want, text).Rejected? ==>
              Call(f, want, false, Line(Encode(text))) == Answer(Undecoded(Encode(text)))
  {
    DecodeEncode(text);
  }

  /** When nothing arrives in time the empty bytes are classified: without a
      checksum that is the numeric record `('', [], True)`; with one, IndexError. */
  lemma SerialQuiet(want: Option<string>)
    ensures Call(AcceptAll, None, false, Quiet) == Answer(Numeric("", []))
    ensures Call(Checksum, want, false, Quiet) == Raised(IndexError)
    ensures Call(AcceptAll, want, true, Quiet) == RawBytes([])
  {
    assert Decode([]) == Some("");
    assert Split("", ',') == [""];
    assert ToFloat([""][1..], FloatOf) == Ok([]);
  }

  /** A line that is not valid UTF-8 comes back as the bytes read, marked not numerical. */
  lemma SerialUndecodable(f: Integrity, want: Option<string>, bytes: seq<byte>)
    requires Decode(bytes).None?
    ensures Call(f, want, false, Line(bytes)) == Answer(Undecoded(bytes))
  {
  }

  /** A lone byte of 0x80 or above is such a line. */
  lemma SerialHighByte(f: Integrity, want: Option<string>, b: byte)
    requires b >= 0x80
    ensures Call(f, want, false, Line([b])) == Answer(Undecoded([b]))
  {
    SingleByteDecodes(b);
  }

}
