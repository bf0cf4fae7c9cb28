/** `pipe_reader.Reader`: reads one line of standard input per call. */
module PipeReader {
  import opened Base
  import opened Text
  import opened FloatText
  import opened Interpretations
  import opened Records

  /** One call `reader(label, raw)`, given the line `sys.stdin.readline()` returned
      (with its line end; the empty string at the end of the input). The loop
      around the body always returns on its first pass. */
  function Call(f: Integrity, want: Option<string>, raw: bool, line: string): Reply {
    if raw then RawText(line)
    else match Classify(f, want, line)
      case Accepted(name, values) => Answer(Numeric(name, values))
      case NotNumeric(name, fields, checked) =>
        if |[name] + fields| > 1 then Answer(NonNumeric(name, fields))
        else Answer(NonNumeric(checked, []))
      case Rejected(checked) => Answer(NonNumeric(checked, []))
      case Failed(e) => Raised(e)
  }

  /** `write(data)`: the message is reported and discarded; no byte reaches the
      other end of the pipe. */
  function Write(data: string): (wire: seq<byte>)
    ensures |wire| == 0
  {
    []
  }

  /** A data line read from the pipe, line end included, is the record it encodes. */
  lemma PipeDataLine(want: Option<string>, name: string, ds: seq<Decimal>)
    requires ',' !in name && Latin1(name) && ds != []
    requires forall i :: 0 <= i < |ds| ==> WellFormed(ds[i])
    ensures Call(AcceptAll, want, false, DataLine(name, ds, "\n"))
      == if want.None? || want.value == name then Answer(Numeric(name, Values(ds)))
         else Answer(NonNumeric(DataLine(name, ds, "\n"), []))
  {
    assert AllSpace("\n");
    ClassifyDataLine(AcceptAll, want, name, ds, "\n");
  }

  /** A line whose conversion fails has at least one field after its label, so
      the pipe's `len(splittedData) > 1` test always passes and the reply is the
      label with the remaining fields as strings. */
  lemma PipeNotNumeric(f: Integrity, want: Option<string>, line: string)
    requires Classify(f, want, line).NotNumeric?
    ensures Call(f, want, false, line)
      == Answer(NonNumeric(Classify(f, want, line).name, Classify(f, want, line).fields))
    ensures |Classify(f, want, line).fields| >= 1
  {
  }

  /** At the end of the input `readline` gives the empty string: without a checksum
      that reads as the numeric record `('', [], True)`, with one it raises IndexError. */
  lemma PipeEndOfInput(want: Option<string>)
    ensures Call(AcceptAll, None, false, "") == Answer(Numeric("", []))
    ensures Call(Checksum, want, false, "") == Raised(IndexError)
  {
    assert Split("", ',') == [""];
    assert ToFloat([""][1..], FloatOf) == Ok([]);
  }
}
