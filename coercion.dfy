/** Value coercion of the writer: `get_smartsheet_cell_value` turns one scalar of
    the input table into the value sent to Smartsheet for a column of a given type. */
module Coercion {
  import opened Wrappers

  /** A scalar of the input table as pandas hands it over. `Null` stands for
      None / NaN / NA, everything `pd.isna` reports as missing. Floats are reals. */
  datatype Value = Null | Bool(b: bool) | Int(i: int) | Real(r: real) | Text(s: string)

  /** A cell value as sent to Smartsheet: the Python str, bool, int or float. */
  datatype Scalar = StrVal(s: string) | BoolVal(b: bool) | IntVal(i: int) | FloatVal(f: real)

  /** A Smartsheet column type, such as "TEXT_NUMBER", "DATE" or "CHECKBOX". */
  type ColumnType = string

  const Checkbox: ColumnType := "CHECKBOX"

  // ---------------------------------------------------------------------------
  // Python's int(str): an optional sign followed by decimal digits

  predicate IsDigit(c: char) { '0' <= c <= '9' }

  predicate AllDigits(s: string) { forall i :: 0 <= i < |s| ==> IsDigit(s[i]) }

  predicate IsNumeral(s: string) { |s| > 0 && AllDigits(s) }

  function DigitValue(c: char): nat
    requires IsDigit(c)
  {
    c as int - '0' as int
  }

  function Digit(d: nat): (c: char)
    requires d < 10
    ensures IsDigit(c) && DigitValue(c) == d
  {
    ('0' as int + d) as char
  }

  /** The number a string of decimal digits denotes. */
  function NumeralValue(s: string): nat
    requires AllDigits(s)
  {
    if s == [] then 0 else NumeralValue(s[..|s| - 1]) * 10 + DigitValue(s[|s| - 1])
  }

  /** `int(s)` for a string: Some(n) when Python accepts s, None when it raises. */
  function ParseInt(s: string): (r: Option<int>)
    ensures r.Some? <==> IsNumeral(s) || (|s| > 0 && (s[0] == '-' || s[0] == '+') && IsNumeral(s[1..]))
    ensures IsNumeral(s) ==> r == Some(NumeralValue(s))
  {
    if |s| > 0 && (s[0] == '-' || s[0] == '+') then
      if IsNumeral(s[1..]) then
        Some(if s[0] == '-' then 0 - NumeralValue(s[1..]) else NumeralValue(s[1..]) as int)
      else None
    else if IsNumeral(s) then Some(NumeralValue(s))
    else None
  }

  /** A signed numeral parses to the value of its digits, negated after `-`. */
  lemma ParseIntSigned(s: string)
    requires |s| > 0 && (s[0] == '-' || s[0] == '+') && IsNumeral(s[1..])
    ensures ParseInt(s) == Some(if s[0] == '-' then -(NumeralValue(s[1..]) as int) else NumeralValue(s[1..]) as int)
  {
  }

  /** `str(n)` for a non-negative int. */
  function NatToString(n: nat): (s: string)
    ensures IsNumeral(s)
    ensures IsDigit(s[0])
  {
    if n < 10 then [Digit(n)] else NatToString(n / 10) + [Digit(n % 10)]
  }

  /** `str(i)` for an int. */
  function IntToString(i: int): string
  {
    if i < 0 then "-" + NatToString(-i) else NatToString(i)
  }

  lemma {:induction false} NumeralOfNatToString(n: nat)
    ensures NumeralValue(NatToString(n)) == n
  {
    if n >= 10 {
      var s := NatToString(n);
      assert s[..|s| - 1] == NatToString(n / 10);
      NumeralOfNatToString(n / 10);
    }
  }

  /** int(str(i)) == i: the text form of an int parses back to it. */
  lemma ParseIntOfString(i: int)
    ensures ParseInt(IntToString(i)) == Some(i)
  {
    var s := IntToString(i);
    if i < 0 {
      var digits := NatToString(-i);
      assert s[0] == '-' && s[1..] == digits;
      NumeralOfNatToString(-i);
      assert ParseInt(s) == Some(0 - NumeralValue(digits));
    } else {
      assert IsDigit(s[0]) && IsNumeral(s);
      NumeralOfNatToString(i);
      assert ParseInt(s) == Some(NumeralValue(s));
    }
  }

  // ---------------------------------------------------------------------------
  // Python's bool(v), int(v) and float(v) on a non-missing scalar

  /** `bool(v)`: truthiness. */
  function Truthy(v: Value): (b: bool)
    requires !v.Null?
    ensures !b <==> v == Bool(false) || v == Int(0) || v == Real(0.0) || v == Text("")
  {
    match v
    case Bool(x) => x
    case Int(i) => i != 0
    case Real(r) => r != 0.0
    case Text(s) => s != ""
  }

  /** `int(r)` for a float: truncation toward zero. */
  function Trunc(r: real): (n: int)
    ensures 0.0 <= r ==> 0 <= n && n as real <= r < n as real + 1.0
    ensures r < 0.0 ==> n <= 0 && n as real - 1.0 < r <= n as real
  {
    if r >= 0.0 then r.Floor else -((-r).Floor)
  }

  predicate IsIntegral(r: real) { r.Floor as real == r }

  /** `int(v)`: Some(n) when the cast succeeds, None when it raises. */
  function IntCast(v: Value): (r: Option<int>)
    ensures r.None? <==> v.Null? || (v.Text? && ParseInt(v.s).None?)
  {
    match v
    case Null => None
    case Bool(b) => Some(if b then 1 else 0)
    case Int(i) => Some(i)
    case Real(x) => Some(Trunc(x))
    case Text(s) => ParseInt(s)
  }

  /** `float(v)`, only ever evaluated after `int(v)` has succeeded. */
  function FloatCast(v: Value): (f: real)
    requires IntCast(v).Some?
    ensures v.Real? ==> f == v.r
    ensures !v.Real? ==> f == IntCast(v).value as real
  {
    match v
    case Bool(b) => if b then 1.0 else 0.0
    case Int(i) => i as real
    case Real(x) => x
    case Text(s) => ParseInt(s).value as real
  }

  /** `get_smartsheet_cell_value(v, colType)`: missing becomes "", a checkbox gets
      bool(v), anything else becomes int when its int cast round-trips through float,
      float when it does not, and its text when the int cast raises. */
  function CellValue(v: Value, colType: ColumnType): (r: Scalar)
    ensures v.Null? ==> r == StrVal("")
    ensures !v.Null? && colType == Checkbox ==> r == BoolVal(Truthy(v))
    ensures r.BoolVal? ==> colType == Checkbox
    ensures !v.Null? && colType != Checkbox ==>
      match v
      case Bool(b) => r == IntVal(if b then 1 else 0)
      case Int(i) => r == IntVal(i)
      case Real(x) => r == if IsIntegral(x) then IntVal(x.Floor) else FloatVal(x)
      case Text(s) => r == if ParseInt(s).Some? then IntVal(ParseInt(s).value) else StrVal(s)
  {
    if v.Null? then StrVal("")
    else if colType == Checkbox then BoolVal(Truthy(v))
    else
      match IntCast(v)
      case None => StrVal(v.s)
      case Some(n) => if n as real == FloatCast(v) then IntVal(n) else FloatVal(FloatCast(v))
  }

  /** The input value a sent scalar reads back as. */
  function Reread(s: Scalar): Value
  {
    match s
    case StrVal(t) => Text(t)
    case BoolVal(b) => Bool(b)
    case IntVal(i) => Int(i)
    case FloatVal(f) => Real(f)
  }

  /** Coercing an already coerced value changes nothing, except for a missing
      value in a checkbox column (see CheckboxNullNotIdempotent). */
  lemma CellValueIdempotent(v: Value, colType: ColumnType)
    requires !(v.Null? && colType == Checkbox)
    ensures CellValue(Reread(CellValue(v, colType)), colType) == CellValue(v, colType)
  {
    if v.Null? {
      assert ParseInt("") == None;
    }
  }

  /** A missing value in a checkbox column is sent as "", which read back as
      text would be sent as False. */
  lemma CheckboxNullNotIdempotent()
    ensures CellValue(Null, Checkbox) == StrVal("")
    ensures CellValue(Reread(CellValue(Null, Checkbox)), Checkbox) == BoolVal(false)
  {
  }

  /** An integer-valued float, an int and the text of an int are all sent as that int. */
  lemma IntegralValuesSentAsInt(i: int, colType: ColumnType)
    requires colType != Checkbox
    ensures CellValue(Real(i as real), colType) == IntVal(i)
    ensures CellValue(Int(i), colType) == IntVal(i)
    ensures CellValue(Text(IntToString(i)), colType) == IntVal(i)
  {
    ParseIntOfString(i);
  }
}
