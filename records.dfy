/** What a reader hands to a plotter, and the classification of one line of text
    that the pipe, serial and socket readers share. */
module Records {
  import opened Base
  import opened Text
  import opened FloatText
  import opened Interpretations

  /** The `(label, data, isNumerical)` triple a reader returns. */
  datatype Record =
    | Numeric(name: string, values: seq<real>)        // (first field, converted fields, True)
    | NonNumeric(name: string, fields: seq<string>)   // (a string, a list of strings, False)
    | Undecoded(raw: seq<byte>)                         // (the bytes read, [], False)

  /** What one call of a reader gives back. */
  datatype Reply =
    | RawText(text: string)        // raw mode: the text as read
    | RawBytes(bytes: seq<byte>)   // raw mode of the serial reader
    | Answer(record: Record)
    | Raised(error: PyError)       // an exception escapes the call

  /** The outcome of checking, splitting and converting one line. */
  datatype Verdict =
    | Accepted(name: string, values: seq<real>)
    | NotNumeric(name: string, fields: seq<string>, checked: string)
    | Rejected(checked: string)    // integrity failure or another label
    | Failed(error: PyError)       // the integrity function raised

  /** Integrity check, split on `,`, first field as label, optional label
      filter, then all-or-nothing conversion of the remaining fields. */
  function Classify(f: Integrity, want: Option<string>, line: string): (v: Verdict)
    ensures v.Failed? <==> f == Checksum && line == []
    ensures v.Failed? ==> v.error == IndexError
    ensures v.Accepted? ==> ',' !in v.name && (want.None? || want.value == v.name)
    ensures v.NotNumeric? ==> ',' !in v.name && |v.fields| >= 1
    ensures v.NotNumeric? ==> want.None? || want.value == v.name
    ensures v.NotNumeric? ==> Join([v.name] + v.fields, ',') == v.checked
  {
    match Check(f, line)
    case Err(e) => Failed(e)
    case Ok((good, data)) =>
      if !good then Rejected(data)
      else
        var parts := Split(data, ',');
        if want.Some? && want.value != parts[0] then Rejected(data)
        else match ToFloat(parts[1..], FloatOf)
          case Ok(values) => Accepted(parts[0], values)
          case Err(_) =>
            assert [parts[0]] + parts[1..] == parts;
            NotNumeric(parts[0], parts[1..], data)
  }

  /** The characters a decimal literal is written with. */
  predicate NumberChar(c: char) {
    IsDigit(c) || c == '+' || c == '-' || c == '.' || c == 'e' || c == 'E'
  }

  lemma RenderChars(d: Decimal)
    requires WellFormed(d)
    ensures forall i :: 0 <= i < |Render(d)| ==> NumberChar(Render(d)[i])
  {
    var fracText := if d.dot then "." + d.frac else "";
    var expText := ExpText(d.exp);
    assert forall i :: 0 <= i < |SignText(d.sign)| ==> NumberChar(SignText(d.sign)[i]);
    assert forall i :: 0 <= i < |fracText| ==> NumberChar(fracText[i]);
    if d.exp.Some? {
      var x := d.exp.value;
      assert expText == [x.marker] + SignText(x.sign) + x.digits;
      assert forall i :: 0 <= i < |SignText(x.sign)| ==> NumberChar(SignText(x.sign)[i]);
    }
    assert forall i :: 0 <= i < |expText| ==> NumberChar(expText[i]);
  }

  /** The line a client sends for a record: its label and the values, separated
      by commas; `end` (a line end, say) follows the last value. */
  function DataLine(name: string, ds: seq<Decimal>, end: string): string {
    Join([name] + Rendered(ds, end), ',')
  }

  /** The text on the wire: the data line, followed by its checksum under `Checksum`. */
  function Sent(f: Integrity, line: string): string
    requires f == Checksum ==> Latin1(line)
  {
    match f
    case AcceptAll => line
    case Checksum => line + [ChecksumChar(line)]
  }

  lemma {:induction false} JoinLatin1(parts: seq<string>, sep: char)
    requires |parts| >= 1 && sep as int < 256
    requires forall k :: 0 <= k < |parts| ==> Latin1(parts[k])
    ensures Latin1(Join(parts, sep))
  {
    if |parts| > 1 {
      JoinLatin1(parts[1..], sep);
      var rest := Join(parts[1..], sep);
      assert Join(parts, sep) == parts[0] + [sep] + rest;
      assert Latin1(parts[0] + [sep]);
    }
  }

  lemma {:induction false} RenderedAt(ds: seq<Decimal>, end: string, i: nat)
    requires i < |ds|
    ensures Rendered(ds, end)[i] == Render(ds[i]) + (if i == |ds| - 1 then end else "")
  {
    if i > 0 {
      RenderedAt(ds[1..], end, i - 1);
    }
  }

  /** Each field of a data line is written with number characters, followed by
      white space for the last one. */
  lemma FieldChars(ds: seq<Decimal>, end: string, i: nat)
    requires forall i :: 0 <= i < |ds| ==> WellFormed(ds[i])
    requires AllSpace(end) && i < |ds|
    ensures ',' !in Rendered(ds, end)[i]
    ensures end == [] ==> Plain(Rendered(ds, end)[i])
  {
    RenderedAt(ds, end, i);
    RenderChars(ds[i]);
    var t := Rendered(ds, end)[i];
    forall k | 0 <= k < |t|
      ensures t[k] != ',' && (end == [] ==> t[k] as int < 128 && t[k] != '\r' && t[k] != '\n')
    {
      if k >= |Render(ds[i])| {
        assert t[k] == end[k - |Render(ds[i])|];
      } else {
        assert t[k] == Render(ds[i])[k];
      }
    }
  }

  /** ASCII text without a line-end character: what a socket reader can gather
      into one line. */
  predicate Plain(s: string) {
    Ascii(s) && '\r' !in s && '\n' !in s
  }

  /** A data line with a plain label and no line end is plain throughout. */
  lemma PlainDataLine(name: string, ds: seq<Decimal>)
    requires Plain(name)
    requires forall i :: 0 <= i < |ds| ==> WellFormed(ds[i])
    ensures Plain(DataLine(name, ds, ""))
  {
    var parts := [name] + Rendered(ds, "");
    forall k | 0 <= k < |parts| ensures Plain(parts[k]) {
      if k > 0 {
        FieldChars(ds, "", k - 1);
      }
    }
    JoinPlain(parts, ',');
  }

  lemma {:induction false} JoinPlain(parts: seq<string>, sep: char)
    requires |parts| >= 1 && Plain([sep])
    requires forall k :: 0 <= k < |parts| ==> Plain(parts[k])
    ensures Plain(Join(parts, sep))
  {
    if |parts| > 1 {
      JoinPlain(parts[1..], sep);
      var rest := Join(parts[1..], sep);
      assert Join(parts, sep) == parts[0] + [sep] + rest;
      assert Ascii(parts[0] + [sep] + rest);
    }
  }

  /** A data line the client writes (with its checksum when the reader checks one)
      is classified as the record it encodes, or rejected when the reader waits
      for another label. */
  lemma ClassifyDataLine(f: Integrity, want: Option<string>, name: string, ds: seq<Decimal>, end: string)
    requires ',' !in name && Latin1(name)
    requires forall i :: 0 <= i < |ds| ==> WellFormed(ds[i])
    requires AllSpace(end) && (ds == [] ==> end == [])
    requires f == Checksum ==> end == []
    ensures f == Checksum ==> Latin1(DataLine(name, ds, end))
    ensures Classify(f, want, Sent(f, DataLine(name, ds, end)))
      == if want.None? || want.value == name then Accepted(name, Values(ds))
         else Rejected(DataLine(name, ds, end))
  {
    var line := DataLine(name, ds, end);
    SplitDataLine(name, ds, end);
    if f == Checksum {
      CrcRoundTrip(line);
    }
    ToFloatRendered(ds, end);
    ClassifyGood(f, want, Sent(f, line), line, name, Rendered(ds, end), Values(ds));
  }

  /** Splitting a data line gives back its label and its fields. */
  lemma SplitDataLine(name: string, ds: seq<Decimal>, end: string)
    requires ',' !in name && Latin1(name)
    requires forall i :: 0 <= i < |ds| ==> WellFormed(ds[i])
    requires AllSpace(end)
    ensures Split(DataLine(name, ds, end), ',') == [name] + Rendered(ds, end)
    ensures end == [] ==> Latin1(DataLine(name, ds, end))
  {
    var parts := [name] + Rendered(ds, end);
    forall k | 0 <= k < |parts| ensures ',' !in parts[k] && (end == [] ==> Latin1(parts[k])) {
      if k > 0 {
        FieldChars(ds, end, k - 1);
      }
    }
    if end == [] {
      JoinLatin1(parts, ',');
    }
    SplitJoin(parts, ',');
  }

  /** A line that passes its check is classified by its label and its fields. */
  lemma ClassifyGood(f: Integrity, want: Option<string>, text: string, line: string,
                     name: string, fields: seq<string>, values: seq<real>)
    requires Check(f, text) == Ok((true, line))
    requires Split(line, ',') == [name] + fields
    requires ToFloat(fields, FloatOf) == Ok(values)
    ensures Classify(f, want, text)
      == if want.None? || want.value == name then Accepted(name, values) else Rejected(line)
  {
    assert ([name] + fields)[1..] == fields;
  }
}
