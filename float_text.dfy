/** The part of Python's `float(text)` the readers rely on: which texts are
    decimal numbers and which value they denote. White space around the number
    is allowed, as `float` allows it; the value is the exact decimal, before any
    rounding to a binary64. */
module FloatText {
  import opened Base
  import opened Text

  datatype Sign = NoSign | Plus | Minus

  datatype Exponent = Exponent(marker: char, sign: Sign, digits: string)

  /** The pieces of `[sign] whole [. frac] [e [sign] digits]`. */
  datatype Decimal = Decimal(sign: Sign, whole: string, dot: bool, frac: string, exp: Option<Exponent>)

  predicate IsDigit(c: char) {
    '0' <= c <= '9'
  }

  predicate AllDigits(s: string) {
    forall i :: 0 <= i < |s| ==> IsDigit(s[i])
  }

  /** Number of decimal digits at the start of `s`. */
  function DigitRun(s: string): (k: nat)
    ensures k <= |s|
    ensures AllDigits(s[..k])
    ensures k < |s| ==> !IsDigit(s[k])
  {
    if |s| > 0 && IsDigit(s[0]) then
      var k := 1 + DigitRun(s[1..]);
      assert s[..k] == [s[0]] + s[1..][..k - 1];
      k
    else 0
  }

  function SignOf(s: string): Sign {
    if |s| > 0 && s[0] == '+' then Plus
    else if |s| > 0 && s[0] == '-' then Minus
    else NoSign
  }

  function SignText(g: Sign): string {
    match g
    case NoSign => ""
    case Plus => "+"
    case Minus => "-"
  }

  /** Reads `[sign] digits` filling the whole of `s`. */
  function LexExponent(marker: char, s: string): Option<Exponent> {
    var g := SignOf(s);
    var rest := s[|SignText(g)|..];
    if |rest| > 0 && AllDigits(rest) then Some(Exponent(marker, g, rest)) else None
  }

  /** Recognises a whole decimal literal, with nothing before or after it. */
  function Lex(t: string): Option<Decimal> {
    var g := SignOf(t);
    LexUnsigned(g, t[|SignText(g)|..])
  }

  /** `a` is what follows the sign: the whole digits come first. */
  function LexUnsigned(g: Sign, a: string): Option<Decimal> {
    var w := DigitRun(a);
    LexPoint(g, a[..w], a[w..])
  }

  /** `b` is what follows the whole digits: an optional point and fraction digits. */
  function LexPoint(g: Sign, whole: string, b: string): Option<Decimal> {
    var dot := |b| > 0 && b[0] == '.';
    var c := if dot then b[1..] else b;
    var f := DigitRun(c);
    LexEnd(Decimal(g, whole, dot, c[..f], None), c[f..])
  }

  /** `e` is what follows the mantissa: nothing, or an exponent. */
  function LexEnd(m: Decimal, e: string): Option<Decimal> {
    if |m.whole| + |m.frac| == 0 then None
    else if e == [] then Some(m)
    else if e[0] == 'e' || e[0] == 'E' then
      match LexExponent(e[0], e[1..])
      case None => None
      case Some(x) => Some(m.(exp := Some(x)))
    else None
  }

  predicate WellFormed(d: Decimal) {
    && AllDigits(d.whole) && AllDigits(d.frac)
    && |d.whole| + |d.frac| > 0
    && (!d.dot ==> d.frac == [])
    && (d.exp.Some? ==>
          (d.exp.value.marker == 'e' || d.exp.value.marker == 'E')
          && |d.exp.value.digits| > 0 && AllDigits(d.exp.value.digits))
  }

  function ExpText(e: Option<Exponent>): string {
    match e
    case None => ""
    case Some(x) => [x.marker] + SignText(x.sign) + x.digits
  }

  /** The literal text of a decimal. */
  function Render(d: Decimal): string {
    SignText(d.sign) + d.whole + (if d.dot then "." + d.frac else "") + ExpText(d.exp)
  }

  function Pow10(k: nat): (p: nat)
    ensures p >= 1
  {
    if k == 0 then 1 else 10 * Pow10(k - 1)
  }

  function DigitsValue(s: string): nat
    requires AllDigits(s)
  {
    if s == [] then 0
    else 10 * DigitsValue(s[..|s| - 1]) + (s[|s| - 1] as int - '0' as int)
  }

  function Value(d: Decimal): real
    requires WellFormed(d)
  {
    var mantissa := (DigitsValue(d.whole) * Pow10(|d.frac|) + DigitsValue(d.frac)) as real
                    / Pow10(|d.frac|) as real;
    var signed := if d.sign == Minus then -mantissa else mantissa;
    match d.exp
    case None => signed
    case Some(x) =>
      var scale := Pow10(DigitsValue(x.digits)) as real;
      if x.sign == Minus then signed / scale else signed * scale
  }

  lemma LexWellFormed(t: string)
    ensures Lex(t).Some? ==> WellFormed(Lex(t).value)
  {
  }

  /** `float(s)` succeeds. */
  predicate IsNumeric(s: string) {
    Lex(Strip(s)).Some?
  }

  /** The value `float(s)` denotes. */
  function ParseFloat(s: string): real
    requires IsNumeric(s)
  {
    LexWellFormed(Strip(s));
    Value(Lex(Strip(s)).value)
  }

  lemma {:induction false} DigitRunOfDigits(s: string, t: string)
    requires AllDigits(s)
    requires t == [] || !IsDigit(t[0])
    ensures DigitRun(s + t) == |s|
  {
    if s == [] {
      assert s + t == t;
    } else {
      var u := s + t;
      assert u[0] == s[0];
      assert u[1..] == s[1..] + t;
      DigitRunOfDigits(s[1..], t);
    }
  }

  lemma LexExponentRender(x: Exponent)
    requires |x.digits| > 0 && AllDigits(x.digits)
    ensures LexExponent(x.marker, SignText(x.sign) + x.digits) == Some(x)
  {
    var s := SignText(x.sign) + x.digits;
    assert SignOf(s) == x.sign;
    assert s[|SignText(x.sign)|..] == x.digits;
  }

  /** Recognising the text of a well-formed decimal gives that decimal back. */
  lemma LexRender(d: Decimal)
    requires WellFormed(d)
    ensures Lex(Render(d)) == Some(d)
  {
    var expText := ExpText(d.exp);
    var fracText := if d.dot then "." + d.frac else "";
    var tail := fracText + expText;
    var t := Render(d);
    assert t == SignText(d.sign) + (d.whole + tail);
    assert SignOf(t) == d.sign;
    assert t[|SignText(d.sign)|..] == d.whole + tail;
    LexUnsignedRender(d, fracText, expText);
  }

  lemma LexUnsignedRender(d: Decimal, fracText: string, expText: string)
    requires WellFormed(d)
    requires expText == ExpText(d.exp)
    requires fracText == if d.dot then "." + d.frac else ""
    ensures LexUnsigned(d.sign, d.whole + (fracText + expText)) == Some(d)
  {
    var tail := fracText + expText;
    ExpTextStart(d.exp);
    assert tail == [] || !IsDigit(tail[0]);
    SplitDigits(d.whole, tail);
    LexPointRender(d, fracText, expText);
  }

  lemma LexPointRender(d: Decimal, fracText: string, expText: string)
    requires WellFormed(d)
    requires expText == ExpText(d.exp)
    requires fracText == if d.dot then "." + d.frac else ""
    ensures LexPoint(d.sign, d.whole, fracText + expText) == Some(d)
  {
    var b := fracText + expText;
    ExpTextStart(d.exp);
    var c := if d.dot then b[1..] else b;
    assert c == d.frac + expText;
    SplitDigits(d.frac, expText);
    LexEndRender(d);
  }

  lemma LexEndRender(d: Decimal)
    requires WellFormed(d)
    ensures LexEnd(d.(exp := None), ExpText(d.exp)) == Some(d)
  {
    if d.exp.Some? {
      var x := d.exp.value;
      assert ExpText(d.exp)[1..] == SignText(x.sign) + x.digits;
      LexExponentRender(x);
    }
  }

  lemma ExpTextStart(e: Option<Exponent>)
    requires e.Some? ==> e.value.marker == 'e' || e.value.marker == 'E'
    ensures ExpText(e) == [] <==> e.None?
    ensures e.Some? ==> ExpText(e)[0] == e.value.marker && !IsDigit(ExpText(e)[0]) && ExpText(e)[0] != '.'
  {
  }

  lemma SplitDigits(s: string, t: string)
    requires AllDigits(s)
    requires t == [] || !IsDigit(t[0])
    ensures DigitRun(s + t) == |s| && (s + t)[..|s|] == s && (s + t)[|s|..] == t
  {
    DigitRunOfDigits(s, t);
  }

  /** A decimal written out, with any white space around it, is numeric and
      parses to its value. */
  lemma ParseRender(d: Decimal, before: string, after: string)
    requires WellFormed(d)
    requires forall i :: 0 <= i < |before| ==> IsSpace(before[i])
    requires forall i :: 0 <= i < |after| ==> IsSpace(after[i])
    ensures IsNumeric(before + Render(d) + after)
    ensures ParseFloat(before + Render(d) + after) == Value(d)
  {
    var r := Render(d);
    var s := before + r + after;
    StripAround(before, r, after);
    LexRender(d);
  }

  /** The text of a well-formed decimal, followed by white space, is numeric and
      parses to its value. */
  lemma RenderParses(d: Decimal, end: string)
    requires WellFormed(d) && AllSpace(end)
    ensures IsNumeric(Render(d) + end) && ParseFloat(Render(d) + end) == Value(d)
  {
    var r := Render(d);
    var s := r + end;
    assert s == "" + r + end;
    ParseRender(d, "", end);
  }

  lemma StripAround(before: string, r: string, after: string)
    requires forall i :: 0 <= i < |before| ==> IsSpace(before[i])
    requires forall i :: 0 <= i < |after| ==> IsSpace(after[i])
    requires |r| > 0 && !IsSpace(r[0]) && !IsSpace(r[|r| - 1])
    ensures Strip(before + r + after) == r
  {
    var s := before + r + after;
    StartAfterSpaces(before, r + after);
    assert s == before + (r + after);
    assert StripStart(s) == |before|;
    EndBeforeSpaces(before + r, after, |before|);
    assert s[|before|..|before| + |r|] == r;
  }

  lemma {:induction false} StartAfterSpaces(before: string, x: string)
    requires forall i :: 0 <= i < |before| ==> IsSpace(before[i])
    requires |x| > 0 && !IsSpace(x[0])
    ensures StripStart(before + x) == |before|
  {
    if before != [] {
      assert (before + x)[1..] == before[1..] + x;
      StartAfterSpaces(before[1..], x);
    }
  }

  lemma {:induction false} EndBeforeSpaces(p: string, after: string, from: nat)
    requires from < |p| && !IsSpace(p[|p| - 1])
    requires forall i :: 0 <= i < |after| ==> IsSpace(after[i])
    ensures StripEnd(p + after, from) == |p|
    decreases |after|
  {
    var s := p + after;
    if after != [] {
      assert s[..|s| - 1] == p + after[..|after| - 1];
      EndBeforeSpaces(p, after[..|after| - 1], from);
    }
  }
}
