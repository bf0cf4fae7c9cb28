/** The integrity checks and the data conversion a reader applies to every line:
    a XOR checksum carried in the last character, a check that accepts
    everything, and the conversion of the fields to numbers. */
module Interpretations {
  import opened Base
  import opened Text
  import opened FloatText

  /** Python's `a ^ b` on non-negative integers, bit by bit from the lowest. */
  function Xor(a: nat, b: nat): nat
    decreases a + b
  {
    if a == 0 && b == 0 then 0 else 2 * Xor(a / 2, b / 2) + (a + b) % 2
  }

  lemma XorHalves(a: nat, b: nat)
    ensures Xor(a, b) / 2 == Xor(a / 2, b / 2)
    ensures Xor(a, b) % 2 == (a + b) % 2
  {
  }

  lemma {:induction false} XorZero(a: nat)
    ensures Xor(a, 0) == a && Xor(0, a) == a
    decreases a
  {
    if a != 0 {
      XorZero(a / 2);
    }
  }

  lemma {:induction false} XorCommutes(a: nat, b: nat)
    ensures Xor(a, b) == Xor(b, a)
    decreases a + b
  {
    if a != 0 || b != 0 {
      XorCommutes(a / 2, b / 2);
    }
  }

  lemma {:induction false} XorSelf(a: nat)
    ensures Xor(a, a) == 0
    decreases a
  {
    if a != 0 {
      XorSelf(a / 2);
    }
  }

  lemma {:induction false} XorAssociates(a: nat, b: nat, c: nat)
    ensures Xor(Xor(a, b), c) == Xor(a, Xor(b, c))
    decreases a + b + c
  {
    if a != 0 || b != 0 || c != 0 {
      var p, q := Xor(a, b), Xor(b, c);
      XorHalves(a, b);
      XorHalves(b, c);
      XorAssociates(a / 2, b / 2, c / 2);
      XorUnfold(p, c);
      XorUnfold(a, q);
      var m := Xor(a / 2, Xor(b / 2, c / 2));
      ParityStep(a, b, c, p, q, m, Xor(p, c), Xor(a, q));
    }
  }

  lemma ParityStep(a: int, b: int, c: int, p: int, q: int, m: int, left: int, right: int)
    requires p % 2 == (a + b) % 2 && q % 2 == (b + c) % 2
    requires left == 2 * m + (p + c) % 2 && right == 2 * m + (a + q) % 2
    ensures left == right
  {
    SameParity(p, a + b, c);
    SameParity(q, b + c, a);
  }

  lemma XorUnfold(a: nat, b: nat)
    ensures Xor(a, b) == 2 * Xor(a / 2, b / 2) + (a + b) % 2
  {
  }

  lemma SameParity(p: int, x: int, c: int)
    requires p % 2 == x % 2
    ensures (p + c) % 2 == (x + c) % 2
  {
  }

  /** XOR with the same number twice gives back what it started from. */
  lemma XorUndo(a: nat, x: nat)
    ensures Xor(a, Xor(a, x)) == x
  {
    XorAssociates(a, a, x);
    XorSelf(a);
    XorZero(x);
  }

  /** Two numbers below `2^k` have their XOR below `2^k` too. */
  lemma {:induction false} XorBelow(a: nat, b: nat, k: nat)
    requires a < Pow2(k) && b < Pow2(k)
    ensures Xor(a, b) < Pow2(k)
  {
    if k > 0 && (a != 0 || b != 0) {
      XorBelow(a / 2, b / 2, k - 1);
    }
  }

  function Pow2(k: nat): (p: nat)
    ensures p >= 1
  {
    if k == 0 then 1 else 2 * Pow2(k - 1)
  }

  /** `ord(c)`. */
  function Code(c: char): nat {
    c as int
  }

  /** The XOR of the codes of all the characters of `s`, taken from left to right. */
  function XorAll(s: string): nat {
    if s == [] then 0 else Xor(XorAll(s[..|s| - 1]), Code(s[|s| - 1]))
  }

  /** `calcCrc(s)`: folds the character codes into an accumulator that starts at 0. */
  method CalcCrc(s: string) returns (crc: nat)
    ensures crc == XorAll(s)
  {
    crc := 0;
    for i := 0 to |s|
      invariant crc == XorAll(s[..i])
    {
      assert s[..i + 1][..i] == s[..i];
      crc := Xor(crc, Code(s[i]));
    }
    assert s[..|s|] == s;
  }

  /** The empty string has checksum 0, and appending a character XORs its code in. */
  lemma XorAppend(s: string, c: char)
    ensures XorAll([]) == 0
    ensures XorAll(s + [c]) == Xor(XorAll(s), Code(c))
  {
    assert (s + [c])[..|s|] == s;
  }

  /** The checksum of a concatenation is the XOR of the two checksums. */
  lemma {:induction false} XorConcat(a: string, b: string)
    ensures XorAll(a + b) == Xor(XorAll(a), XorAll(b))
    decreases |b|
  {
    if b == [] {
      assert a + b == a;
      XorZero(XorAll(a));
    } else {
      var b' := b[..|b| - 1];
      assert (a + b)[..|a + b| - 1] == a + b';
      XorConcat(a, b');
      XorAssociates(XorAll(a), XorAll(b'), Code(b[|b| - 1]));
    }
  }

  predicate Latin1(s: string) {
    forall i :: 0 <= i < |s| ==> s[i] as int < 256
  }

  predicate Ascii(s: string) {
    forall i :: 0 <= i < |s| ==> s[i] as int < 128
  }

  /** When every code is below `2^k`, so is the checksum. */
  lemma {:induction false} XorAllBelow(s: string, k: nat)
    requires forall i :: 0 <= i < |s| ==> s[i] as int < Pow2(k)
    ensures XorAll(s) < Pow2(k)
  {
    if s != [] {
      XorAllBelow(s[..|s| - 1], k);
      XorBelow(XorAll(s[..|s| - 1]), Code(s[|s| - 1]), k);
    }
  }

  /** When every code is below 256, so is the checksum, which therefore fits in one character. */
  lemma XorBelow256(s: string)
    requires Latin1(s)
    ensures XorAll(s) < 256
  {
    assert Pow2(8) == 256;
    XorAllBelow(s, 8);
  }

  /** An ASCII line has an ASCII checksum. */
  lemma XorBelow128(s: string)
    requires Ascii(s)
    ensures XorAll(s) < 128
  {
    assert Pow2(7) == 128;
    XorAllBelow(s, 7);
  }

  /** The character a sender appends to a line of code points below 256. */
  function ChecksumChar(s: string): (c: char)
    requires Latin1(s)
    ensures Code(c) == XorAll(s)
  {
    XorBelow256(s);
    XorAll(s) as int as char
  }

  /** The result of an integrity check: whether the line is good, and the line it hands on. */
  type Checked = (bool, string)

  /** `crc(data)`: the last character carries the checksum of the rest. An empty
      line has no last character and raises IndexError. */
  function Crc(data: string): (r: Result<Checked, PyError>)
    ensures r.Err? <==> data == []
    ensures r.Err? ==> r.error == IndexError
    ensures r.Ok? ==> r.value.1 == data[..|data| - 1]
  {
    if data == [] then Err(IndexError)
    else
      var crc := Code(data[|data| - 1]);
      var rest := data[..|data| - 1];
      Ok((crc == XorAll(rest), rest))
  }

  /** `alwaysTrue(data)`: accepts every line and hands it on unchanged. */
  function AlwaysTrue(data: string): (r: Result<Checked, PyError>)
    ensures r == Ok((true, data))
  {
    Ok((true, data))
  }

  /** The integrity function a reader is built with. */
  datatype Integrity = AcceptAll | Checksum

  function Check(f: Integrity, data: string): Result<Checked, PyError> {
    match f
    case AcceptAll => AlwaysTrue(data)
    case Checksum => Crc(data)
  }

  /** A line followed by its checksum character passes `crc` and comes back without it. */
  lemma CrcRoundTrip(s: string)
    requires Latin1(s)
    ensures Crc(s + [ChecksumChar(s)]) == Ok((true, s))
  {
    var t := s + [ChecksumChar(s)];
    assert t[..|t| - 1] == s;
  }

  /** Changing one character of the payload makes `crc` reject the line, which
      still comes back without its last character. */
  lemma CrcDetectsChange(s: string, i: nat, c: char)
    requires Latin1(s) && i < |s| && c != s[i]
    ensures Crc(s[i := c] + [ChecksumChar(s)]) == Ok((false, s[i := c]))
  {
    var t := s[i := c];
    XorDiffers(s, i, c);
    var k := ChecksumChar(s);
    var u := t + [k];
    assert u[..|u| - 1] == t && u[|u| - 1] == k;
    assert Code(k) != XorAll(t);
  }

  /** Changing one character changes the checksum. */
  lemma XorDiffers(s: string, i: nat, c: char)
    requires i < |s| && c != s[i]
    ensures XorAll(s[i := c]) != XorAll(s)
  {
    var t := s[i := c];
    XorAround(s, i);
    XorAround(t, i);
    assert t[..i] == s[..i] && t[i + 1..] == s[i + 1..] && t[i] == c;
    XorCancel(XorAll(s[..i]), XorAll(s[i + 1..]), Code(s[i]), Code(c));
  }

  /** The checksum of `s` split around position `i`. */
  lemma XorAround(s: string, i: nat)
    requires i < |s|
    ensures XorAll(s) == Xor(Xor(XorAll(s[..i]), Code(s[i])), XorAll(s[i + 1..]))
  {
    assert s == (s[..i] + [s[i]]) + s[i + 1..];
    XorConcat(s[..i] + [s[i]], s[i + 1..]);
    XorAppend(s[..i], s[i]);
  }

  lemma XorCancel(a: nat, b: nat, x: nat, y: nat)
    requires x != y
    ensures Xor(Xor(a, x), b) != Xor(Xor(a, y), b)
  {
    XorCommutes(Xor(a, x), b);
    XorCommutes(Xor(a, y), b);
    XorUndo(b, Xor(a, x));
    XorUndo(b, Xor(a, y));
    XorUndo(a, x);
    XorUndo(a, y);
  }

  /** `float(s)`: the value of `s`, or None where `float` raises ValueError. */
  function FloatOf(s: string): (v: Option<real>)
    ensures v.Some? <==> IsNumeric(s)
  {
    if IsNumeric(s) then Some(ParseFloat(s)) else None
  }

  /** `toFloat(data, dtype)` as its body evidently intends: `dtype` applied to
      every field in turn, giving the list of values, or ValueError as soon as
      one field is refused. The readers use it with `dtype = float`. */
  function ToFloat(fields: seq<string>, dtype: string -> Option<real>): (r: Result<seq<real>, PyError>)
    ensures r.Err? ==> r.error == ValueError
    ensures r.Ok? ==> |r.value| == |fields|
  {
    if fields == [] then Ok([])
    else match dtype(fields[0])
      case None => Err(ValueError)
      case Some(v) =>
        match ToFloat(fields[1..], dtype)
        case Err(e) => Err(e)
        case Ok(rest) => Ok([v] + rest)
  }

  /** The conversion succeeds exactly when every field converts, and then holds
      the value of each field at its position. */
  lemma {:induction false} ToFloatAt(fields: seq<string>, dtype: string -> Option<real>)
    ensures ToFloat(fields, dtype).Ok? <==> forall i :: 0 <= i < |fields| ==> dtype(fields[i]).Some?
    ensures ToFloat(fields, dtype).Ok? ==>
              forall i :: 0 <= i < |fields| ==> Some(ToFloat(fields, dtype).value[i]) == dtype(fields[i])
  {
    if fields != [] {
      ToFloatAt(fields[1..], dtype);
      assert forall i :: 1 <= i < |fields| ==> fields[i] == fields[1..][i - 1];
    }
  }

  /** `toFloat(data, dtype)` as written: the array is built and dropped, so a list
      of numbers gives None; a field that is not a number still raises ValueError. */
  function ToFloatAsWritten(fields: seq<string>, dtype: string -> Option<real>): Result<Option<seq<real>>, PyError> {
    match ToFloat(fields, dtype)
    case Err(e) => Err(e)
    case Ok(_) => Ok(None)
  }

  /** The conversion as written hands back no values even for a line of numbers,
      where the corrected conversion gives the value of every field. */
  lemma ToFloatLosesValues(ds: seq<Decimal>)
    requires forall i :: 0 <= i < |ds| ==> WellFormed(ds[i])
    ensures ToFloatAsWritten(Rendered(ds, ""), FloatOf) == Ok(None)
    ensures ToFloat(Rendered(ds, ""), FloatOf) == Ok(Values(ds))
  {
    ToFloatRendered(ds, "");
  }

  /** The field `1.5` is the decimal 1.5. */
  lemma OnePointFive()
    ensures Rendered([Decimal(NoSign, "1", true, "5", None)], "") == ["1.5"]
    ensures Values([Decimal(NoSign, "1", true, "5", None)]) == [1.5]
  {
    var d := Decimal(NoSign, "1", true, "5", None);
    assert Render(d) == "1.5";
    assert Render(d) + "" == "1.5";
    assert DigitsValue("1") == 1;
    assert DigitsValue("5") == 5;
    assert Value(d) == 1.5;
  }

  /** Fields written out from decimals, the last one followed by white space such
      as a line end, convert to exactly the values of those decimals. */
  lemma {:induction false} ToFloatRendered(ds: seq<Decimal>, end: string)
    requires forall i :: 0 <= i < |ds| ==> WellFormed(ds[i])
    requires AllSpace(end)
    ensures ToFloat(Rendered(ds, end), FloatOf) == Ok(Values(ds))
  {
    if |ds| == 1 {
      LastField(ds[0], end);
    } else if ds != [] {
      ToFloatRendered(ds[1..], end);
      FieldThenRest(ds, end);
    }
  }

  lemma LastField(d: Decimal, end: string)
    requires WellFormed(d) && AllSpace(end)
    ensures ToFloat(Rendered([d], end), FloatOf) == Ok(Values([d]))
  {
    var f := Render(d) + end;
    FloatOfRender(d, end);
    ToFloatOne(f, FloatOf, Value(d));
    assert Rendered([d], end) == [f];
    assert Values([d]) == [Value(d)];
  }

  lemma FloatOfRender(d: Decimal, end: string)
    requires WellFormed(d) && AllSpace(end)
    ensures FloatOf(Render(d) + end) == Some(Value(d))
  {
    RenderParses(d, end);
  }

  lemma ToFloatOne(f: string, dtype: string -> Option<real>, v: real)
    requires dtype(f) == Some(v)
    ensures ToFloat([f], dtype) == Ok([v])
  {
    assert [f][1..] == [];
    assert ToFloat([], dtype) == Ok([]);
    assert [v] + [] == [v];
  }

  lemma FieldThenRest(ds: seq<Decimal>, end: string)
    requires |ds| > 1 && forall i :: 0 <= i < |ds| ==> WellFormed(ds[i])
    requires ToFloat(Rendered(ds[1..], end), FloatOf) == Ok(Values(ds[1..]))
    ensures ToFloat(Rendered(ds, end), FloatOf) == Ok(Values(ds))
  {
    var fs := Rendered(ds, end);
    assert fs[0] == Render(ds[0]);
    assert fs[1..] == Rendered(ds[1..], end);
    RenderParses(ds[0], "");
    assert Render(ds[0]) + "" == fs[0];
    assert FloatOf(fs[0]) == Some(Value(ds[0]));
  }

  /** The fields a client writes for the decimals `ds`; `end` follows the last one. */
  function Rendered(ds: seq<Decimal>, end: string): (fs: seq<string>)
    ensures |fs| == |ds|
  {
    if ds == [] then []
    else if |ds| == 1 then [Render(ds[0]) + end]
    else [Render(ds[0])] + Rendered(ds[1..], end)
  }

  function Values(ds: seq<Decimal>): seq<real>
    requires forall i :: 0 <= i < |ds| ==> WellFormed(ds[i])
  {
    if ds == [] then [] else [Value(ds[0])] + Values(ds[1..])
  }
}
