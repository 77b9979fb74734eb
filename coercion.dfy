/**
 * Numeric coercion of table cells. The Next.js handler tests cells with
 * JavaScript's Number(), the Flask handler with Python's float(); the two
 * disagree on empty strings, on null, on hexadecimal literals and on digit
 * separators, so each is written out.
 */
module Coercion {
  import opened Common
  import opened Text

  /** A cell of a parsed table: a number, a text, or a missing value. */
  datatype Cell = Num(x: real) | Str(s: string) | Null

  /** Which runtime performs the coercion. */
  datatype Runtime = Node | CPython

  /** White space that Number() trims (ECMAScript WhiteSpace and LineTerminator). */
  predicate IsJsSpace(c: char)
  {
    var k := c as int;
    (0x09 <= k <= 0x0D) || k == 0x20 || k == 0xA0 || k == 0x1680 || (0x2000 <= k <= 0x200A)
    || k == 0x2028 || k == 0x2029 || k == 0x202F || k == 0x205F || k == 0x3000 || k == 0xFEFF
  }

  /** White space that float() strips (str.isspace). */
  predicate IsPySpace(c: char)
  {
    var k := c as int;
    (0x09 <= k <= 0x0D) || (0x1C <= k <= 0x20) || k == 0x85 || k == 0xA0 || k == 0x1680
    || (0x2000 <= k <= 0x200A) || k == 0x2028 || k == 0x2029 || k == 0x202F || k == 0x205F || k == 0x3000
  }

  predicate IsSpace(c: char, rt: Runtime)
  {
    match rt
    case Node => IsJsSpace(c)
    case CPython => IsPySpace(c)
  }

  /** The text with leading and trailing white space removed. */
  function Trim(s: string, rt: Runtime): (t: string)
    ensures |t| <= |s|
    ensures t == "" || (!IsSpace(t[0], rt) && !IsSpace(t[|t| - 1], rt))
    ensures (forall i :: 0 <= i < |s| ==> !IsSpace(s[i], rt)) ==> t == s
    decreases |s|
  {
    if |s| > 0 && IsSpace(s[0], rt) then Trim(s[1..], rt)
    else if |s| > 0 && IsSpace(s[|s| - 1], rt) then Trim(s[..|s| - 1], rt)
    else s
  }

  /** `t` is `s[i..j]`, with only white space before `i` and after `j`. */
  predicate StripsTo(s: string, t: string, i: nat, j: nat, rt: Runtime)
  {
    i <= j <= |s| && t == s[i..j] &&
    (forall k :: 0 <= k < i ==> IsSpace(s[k], rt)) &&
    (forall k :: j <= k < |s| ==> IsSpace(s[k], rt))
  }

  /** What trimming removes: the result is a slice of the text with only white space around it. */
  lemma {:induction false} TrimStrips(s: string, rt: Runtime) returns (i: nat, j: nat)
    ensures StripsTo(s, Trim(s, rt), i, j, rt)
    decreases |s|
  {
    if |s| > 0 && IsSpace(s[0], rt) {
      var i', j' := TrimStrips(s[1..], rt);
      i, j := i' + 1, j' + 1;
      StripFront(s, Trim(s[1..], rt), i', j', rt);
    } else if |s| > 0 && IsSpace(s[|s| - 1], rt) {
      i, j := TrimStrips(s[..|s| - 1], rt);
      StripBack(s, Trim(s[..|s| - 1], rt), i, j, rt);
    } else {
      i, j := 0, |s|;
    }
  }

  lemma StripFront(s: string, t: string, i: nat, j: nat, rt: Runtime)
    requires |s| > 0 && IsSpace(s[0], rt) && StripsTo(s[1..], t, i, j, rt)
    ensures StripsTo(s, t, i + 1, j + 1, rt)
  {
    assert s[1..][i..j] == s[i + 1..j + 1];
    forall k | 0 < k < i + 1 ensures IsSpace(s[k], rt) {
      assert s[k] == s[1..][k - 1];
    }
    forall k | j + 1 <= k < |s| ensures IsSpace(s[k], rt) {
      assert s[k] == s[1..][k - 1];
    }
  }

  lemma StripBack(s: string, t: string, i: nat, j: nat, rt: Runtime)
    requires |s| > 0 && !IsSpace(s[0], rt) && IsSpace(s[|s| - 1], rt) && StripsTo(s[..|s| - 1], t, i, j, rt)
    ensures StripsTo(s, t, i, j, rt)
  {
    var init := s[..|s| - 1];
    assert init[i..j] == s[i..j];
    forall k | j <= k < |s| - 1 ensures IsSpace(s[k], rt) {
      assert s[k] == init[k];
    }
  }

  /**
   * Decimal digits; with `grouped`, a single '_' may stand between two digits
   * (the digit grouping float() accepts, PEP 515).
   */
  predicate DigitRun(s: string, grouped: bool)
  {
    forall i :: 0 <= i < |s| ==> DigitAt(s, i, grouped)
  }

  predicate DigitAt(s: string, i: int, grouped: bool)
    requires 0 <= i < |s|
  {
    IsDigit(s[i]) || (grouped && s[i] == '_' && 0 < i < |s| - 1 && IsDigit(s[i - 1]) && IsDigit(s[i + 1]))
  }

  /** The number of decimal digits in `s`. */
  function DigitCount(s: string): (k: nat)
    ensures k <= |s|
  {
    if s == [] then 0 else DigitCount(s[..|s| - 1]) + (if IsDigit(s[|s| - 1]) then 1 else 0)
  }

  function Pow10(k: nat): (p: nat)
    ensures p >= 1
  {
    if k == 0 then 1 else 10 * Pow10(k - 1)
  }

  /** v * 10^e as a real. */
  function Scale(v: nat, e: int): real
  {
    if e >= 0 then (v * Pow10(e)) as real else v as real / Pow10(-e) as real
  }

  /** Index of the first character satisfying `c == a || c == b`. */
  function IndexOfEither(s: string, a: char, b: char): (r: Option<nat>)
    ensures r.None? <==> (a !in s && b !in s)
    ensures r.Some? ==> r.value < |s| && (s[r.value] == a || s[r.value] == b)
  {
    if s == [] then None
    else if s[0] == a || s[0] == b then Some(0)
    else
      var r := IndexOfEither(s[1..], a, b);
      assert s == [s[0]] + s[1..];
      if r.None? then None else Some(r.value + 1)
  }

  /** A leading '+' or '-' and the rest. */
  function SplitSign(t: string): (int, string)
  {
    if |t| > 0 && (t[0] == '+' || t[0] == '-') then (if t[0] == '-' then -1 else 1, t[1..]) else (1, t)
  }

  /** The signed exponent after 'e' or 'E'. */
  function ExponentValue(e: string, grouped: bool): Option<int>
  {
    var (sign, digits) := SplitSign(e);
    if |digits| > 0 && DigitRun(digits, grouped) then Some(sign * DigitsValue(digits)) else None
  }

  /** The part before the first 'e' or 'E'. */
  function Mantissa(b: string): string
  {
    match IndexOfEither(b, 'e', 'E')
    case None => b
    case Some(k) => b[..k]
  }

  /** The exponent after the first 'e' or 'E'; 0 when there is none. */
  function Exponent(b: string, grouped: bool): Option<int>
  {
    match IndexOfEither(b, 'e', 'E')
    case None => Some(0)
    case Some(k) => ExponentValue(b[k + 1..], grouped)
  }

  /** The digits before the '.' of a mantissa. */
  function IntPart(m: string): string
  {
    match IndexOfEither(m, '.', '.')
    case None => m
    case Some(d) => m[..d]
  }

  /** The digits after the '.' of a mantissa. */
  function FracPart(m: string): string
  {
    match IndexOfEither(m, '.', '.')
    case None => ""
    case Some(d) => m[d + 1..]
  }

  /** `int [. frac] [(e|E) [sign] exp]` with at least one digit in int or frac. */
  function UnsignedDecimal(b: string, grouped: bool): Option<real>
  {
    var m := Mantissa(b);
    var exp := Exponent(b, grouped);
    var ip, fp := IntPart(m), FracPart(m);
    if exp.Some? && DigitRun(ip, grouped) && DigitRun(fp, grouped) && (|ip| > 0 || |fp| > 0)
    then Some(Scale(DigitsValue(ip + fp), exp.value - DigitCount(fp)))
    else None
  }

  /** A signed decimal literal. */
  function DecimalLiteral(t: string, grouped: bool): Option<real>
  {
    var (sign, body) := SplitSign(t);
    match UnsignedDecimal(body, grouped)
    case None => None
    case Some(v) => Some(sign as real * v)
  }

  /** The value of `c` as a digit of `base`, if it is one. */
  function BaseDigit(c: char, base: nat): Option<nat>
  {
    var d :=
      if '0' <= c <= '9' then c as int - '0' as int
      else if 'a' <= c <= 'f' then c as int - 'a' as int + 10
      else if 'A' <= c <= 'F' then c as int - 'A' as int + 10
      else 99;
    if d < base then Some(d) else None
  }

  function RadixOf(c: char): nat
  {
    if c == 'x' || c == 'X' then 16 else if c == 'o' || c == 'O' then 8 else if c == 'b' || c == 'B' then 2 else 0
  }

  /** The digits of `s` in `base`, if every character is one. */
  function BaseValue(s: string, base: nat): Option<nat>
  {
    if s == [] then Some(0)
    else match (BaseValue(s[..|s| - 1], base), BaseDigit(s[|s| - 1], base))
      case (Some(v), Some(d)) => Some(v * base + d)
      case _ => None
  }

  /** Number()'s unsigned 0x / 0o / 0b literals. */
  function NonDecimalLiteral(t: string): Option<real>
  {
    if |t| >= 3 && t[0] == '0' && RadixOf(t[1]) != 0 then
      match BaseValue(t[2..], RadixOf(t[1]))
      case Some(v) => Some(v as real)
      case None => None
    else None
  }

  /** JavaScript Number(cell); None stands for NaN. */
  function JsNumber(c: Cell): (r: Option<real>)
    ensures c.Num? ==> r == Some(c.x)
    ensures c.Null? ==> r == Some(0.0)
    ensures c.Str? && Trim(c.s, Node) == "" ==> r == Some(0.0)
  {
    match c
    case Num(x) => Some(x)
    case Null => Some(0.0)
    case Str(s) =>
      var t := Trim(s, Node);
      if t == "" then Some(0.0)
      else if NonDecimalLiteral(t).Some? then NonDecimalLiteral(t)
      else DecimalLiteral(t, false)
  }

  /** Python float(cell); None stands for the ValueError or TypeError it raises. */
  function PyFloat(c: Cell): (r: Option<real>)
    ensures c.Num? ==> r == Some(c.x)
    ensures c.Null? ==> r.None?
    ensures c.Str? && Trim(c.s, CPython) == "" ==> r.None?
  {
    match c
    case Num(x) => Some(x)
    case Null => None
    case Str(s) => DecimalLiteral(Trim(s, CPython), true)
  }

  function Coerce(rt: Runtime, c: Cell): Option<real>
  {
    match rt
    case Node => JsNumber(c)
    case CPython => PyFloat(c)
  }

  /** The empty text and the missing value: numeric for Number(), not for float(). */
  lemma EmptyAndNullDisagree()
    ensures JsNumber(Str("")) == Some(0.0) && PyFloat(Str("")) == None
    ensures JsNumber(Null) == Some(0.0) && PyFloat(Null) == None
  {
  }

  lemma DigitsAreNotSpace(s: string, rt: Runtime)
    requires AllDigits(s)
    ensures forall i :: 0 <= i < |s| ==> !IsSpace(s[i], rt)
  {
  }

  lemma {:induction false} DigitCountOfDigits(s: string)
    requires AllDigits(s)
    ensures DigitCount(s) == |s|
  {
    if s != [] {
      DigitCountOfDigits(s[..|s| - 1]);
    }
  }

  /** A plain digit string reads as its digits under both rules. */
  lemma DigitStringValue(s: string, grouped: bool)
    requires 0 < |s| && AllDigits(s)
    ensures DecimalLiteral(s, grouped) == Some(DigitsValue(s) as real)
  {
    assert SplitSign(s) == (1, s);
    assert IndexOfEither(s, 'e', 'E').None?;
    assert IndexOfEither(s, '.', '.').None?;
    assert s + "" == s;
    assert DigitCount("") == 0;
  }

  lemma DigitsUntrimmed(s: string)
    requires AllDigits(s)
    ensures Trim(s, Node) == s && Trim(s, CPython) == s
  {
    DigitsAreNotSpace(s, Node);
    DigitsAreNotSpace(s, CPython);
  }

  lemma DigitsNotNonDecimal(s: string)
    requires AllDigits(s)
    ensures NonDecimalLiteral(s).None?
  {
    assert |s| >= 3 ==> RadixOf(s[1]) == 0;
  }

  /** A rendered natural number coerces back to itself under both runtimes. */
  lemma RenderedNumberCoerces(n: nat)
    ensures JsNumber(Str(Decimal(n))) == Some(n as real)
    ensures PyFloat(Str(Decimal(n))) == Some(n as real)
  {
    var s := Decimal(n);
    DecimalRoundTrip(n);
    DigitStringValue(s, false);
    DigitStringValue(s, true);
    DigitsUntrimmed(s);
    DigitsNotNonDecimal(s);
  }

  lemma UngroupedRun(s: string)
    requires '_' !in s
    ensures DigitRun(s, true) == DigitRun(s, false)
  {
    forall i | 0 <= i < |s|
      ensures DigitAt(s, i, true) == DigitAt(s, i, false)
    {
      assert s[i] in s;
    }
  }

  /** A 0x / 0o / 0b literal is never a decimal literal. */
  lemma NonDecimalIsNotDecimal(t: string, grouped: bool)
    requires NonDecimalLiteral(t).Some?
    ensures DecimalLiteral(t, grouped).None?
  {
    assert SplitSign(t) == (1, t);
    var m := Mantissa(t);
    assert |m| >= 2 && m[1] == t[1];
    var ip := IntPart(m);
    assert |ip| >= 2 && ip[1] == t[1];
    assert !IsDigit(ip[1]) && ip[1] != '_';
    assert !DigitAt(ip, 1, grouped);
  }

  lemma UnsignedUngrouped(b: string)
    requires '_' !in b
    ensures UnsignedDecimal(b, true) == UnsignedDecimal(b, false)
  {
    var m := Mantissa(b);
    assert forall i :: 0 <= i < |m| ==> m[i] in b;
    UngroupedRun(IntPart(m));
    UngroupedRun(FracPart(m));
    match IndexOfEither(b, 'e', 'E')
    case None =>
    case Some(k) =>
      var (es, ed) := SplitSign(b[k + 1..]);
      assert forall i :: 0 <= i < |ed| ==> ed[i] in b;
      UngroupedRun(ed);
  }

  lemma LiteralUngrouped(t: string)
    requires '_' !in t
    ensures DecimalLiteral(t, true) == DecimalLiteral(t, false)
  {
    var body := SplitSign(t).1;
    assert body == t || body == t[1..];
    assert '_' !in body;
    UnsignedUngrouped(body);
  }

  /**
   * Where float() accepts a text without white space or digit separators,
   * Number() accepts it too and yields the same value.
   */
  lemma FloatAgreesWithNumber(s: string)
    requires '_' !in s
    requires forall i :: 0 <= i < |s| ==> !IsJsSpace(s[i]) && !IsPySpace(s[i])
    requires PyFloat(Str(s)).Some?
    ensures JsNumber(Str(s)) == PyFloat(Str(s))
  {
    assert forall i :: 0 <= i < |s| ==> !IsSpace(s[i], Node) && !IsSpace(s[i], CPython);
    assert Trim(s, Node) == s && Trim(s, CPython) == s;
    LiteralUngrouped(s);
    if NonDecimalLiteral(s).Some? {
      NonDecimalIsNotDecimal(s, true);
    }
  }

  /** A run of digits contains a digit at its first position. */
  predicate NoDigit(s: string)
  {
    forall i :: 0 <= i < |s| ==> !IsDigit(s[i])
  }

  lemma RunStartsWithDigit(s: string, grouped: bool)
    requires 0 < |s| && DigitRun(s, grouped)
    ensures IsDigit(s[0])
  {
    assert DigitAt(s, 0, grouped);
  }

  lemma DigitlessParts(b: string)
    requires NoDigit(b)
    ensures NoDigit(IntPart(Mantissa(b))) && NoDigit(FracPart(Mantissa(b)))
  {
    var m := Mantissa(b);
    assert NoDigit(m) by {
      match IndexOfEither(b, 'e', 'E')
      case None =>
      case Some(k) => assert forall i :: 0 <= i < k ==> b[..k][i] == b[i];
    }
    match IndexOfEither(m, '.', '.')
    case None =>
    case Some(d) =>
      assert forall i :: 0 <= i < d ==> m[..d][i] == m[i];
      assert forall i :: d + 1 <= i < |m| ==> m[d + 1..][i - d - 1] == m[i];
  }

  lemma DigitlessUnsigned(b: string, grouped: bool)
    requires NoDigit(b)
    ensures UnsignedDecimal(b, grouped).None?
  {
    var ip, fp := IntPart(Mantissa(b)), FracPart(Mantissa(b));
    DigitlessParts(b);
    if |ip| > 0 && DigitRun(ip, grouped) {
      RunStartsWithDigit(ip, grouped);
    }
    if |fp| > 0 && DigitRun(fp, grouped) {
      RunStartsWithDigit(fp, grouped);
    }
  }

  /** A non-blank text without any decimal digit coerces under neither runtime. */
  lemma DigitlessTextIsNotNumeric(s: string, rt: Runtime)
    requires s != []
    requires forall i :: 0 <= i < |s| ==> !IsDigit(s[i]) && !IsJsSpace(s[i]) && !IsPySpace(s[i])
    ensures Coerce(rt, Str(s)).None?
  {
    assert forall i :: 0 <= i < |s| ==> !IsSpace(s[i], Node) && !IsSpace(s[i], CPython);
    assert Trim(s, Node) == s && Trim(s, CPython) == s;
    var body := SplitSign(s).1;
    assert NoDigit(body) by {
      assert body == s || body == s[1..];
    }
    DigitlessUnsigned(body, rt == CPython);
  }
}
