/**
 The local record store: the variable observations the instrumentation
 collects in one execution context, and JavaScript's `String(...)` coercion
 of the fields a query may name.
 */
module Records {

  /**
   The integers JavaScript's `String(...)` writes in plain decimal: those of
   magnitude below 10^21. From 10^21 on it switches to exponent form.
   */
  type PlainInt = i: int | -1_000_000_000_000_000_000_000 < i < 1_000_000_000_000_000_000_000

  /** A recorded value, as a JavaScript scalar. */
  datatype Scalar = Str(s: string) | Int(i: PlainInt) | Bool(b: bool) | Null | Undefined

  /** One observed variable snapshot. `typ` is the record's `type` field. */
  datatype Record = Record(
    name: string,
    value: Scalar,
    typ: string,
    codeLocation: string,
    execOrder: PlainInt
  )

  /** The decimal digit for `d`. */
  function DigitChar(d: nat): (c: char)
    requires d < 10
    ensures '0' <= c <= '9'
  {
    ('0' as int + d) as char
  }

  /** `s` is made of decimal digits only. */
  ghost predicate AllDigits(s: string) {
    forall k :: 0 <= k < |s| ==> '0' <= s[k] <= '9'
  }

  /** The number a string of decimal digits denotes, read most significant digit first. */
  ghost function NumeralValue(s: string): nat
    requires AllDigits(s)
    decreases |s|
  {
    if |s| == 0 then 0 else 10 * NumeralValue(s[..|s| - 1]) + (s[|s| - 1] as int - '0' as int)
  }

  /** The decimal numeral of `n`, without leading zeros. */
  function Digits(n: nat): (r: string)
    ensures 1 <= |r|
    ensures forall k :: 0 <= k < |r| ==> '0' <= r[k] <= '9'
    ensures 1 < |r| ==> r[0] != '0'
    decreases n
  {
    if n < 10 then [DigitChar(n)] else Digits(n / 10) + [DigitChar(n % 10)]
  }

  /** A canonical decimal numeral: at least one digit, no leading zero. */
  ghost predicate Canonical(s: string) {
    1 <= |s| && AllDigits(s) && (1 < |s| ==> s[0] != '0')
  }

  /** `t` is how JavaScript writes the integer `i`: a minus sign for a negative, then the canonical numeral of its magnitude. */
  ghost predicate IsDecimal(t: string, i: int) {
    if i < 0 then 1 <= |t| && t[0] == '-' && Canonical(t[1..]) && NumeralValue(t[1..]) == -i
    else Canonical(t) && NumeralValue(t) == i
  }

  /** JavaScript's `String(v)` on the scalars a record holds. */
  function ToJsString(v: Scalar): (t: string)
    ensures v.Str? ==> t == v.s
    ensures v.Int? ==> IsDecimal(t, v.i)
    ensures v.Bool? ==> t == (if v.b then "true" else "false")
    ensures v.Null? ==> t == "null"
    ensures v.Undefined? ==> t == "undefined"
  {
    if v.Int? then IntStringRoundTrip(v.i); ToJsStringCase(v) else ToJsStringCase(v)
  }

  /** The case analysis behind `ToJsString`. */
  function ToJsStringCase(v: Scalar): (t: string) {
    match v
    case Str(s) => s
    case Int(i) => if i < 0 then "-" + Digits(-i) else Digits(i)
    case Bool(b) => if b then "true" else "false"
    case Null => "null"
    case Undefined => "undefined"
  }

  /** The record's fields by the names a query uses. */
  const FieldNames: set<string> := {"name", "value", "type", "codeLocation", "execOrder"}

  /**
   `String(item[fieldName])`: the named field coerced to a string. A name that
   is not a field of the record reads JavaScript's `undefined`.
   */
  function FieldText(rec: Record, field: string): (t: string)
    ensures field !in FieldNames ==> t == "undefined"
    ensures field == "name" ==> t == rec.name
    ensures field == "type" ==> t == rec.typ
    ensures field == "codeLocation" ==> t == rec.codeLocation
    ensures field == "value" ==> t == ToJsString(rec.value)
    ensures field == "execOrder" ==> IsDecimal(t, rec.execOrder)
  {
    if field == "name" then rec.name
    else if field == "value" then ToJsString(rec.value)
    else if field == "type" then rec.typ
    else if field == "codeLocation" then rec.codeLocation
    else if field == "execOrder" then ToJsString(Int(rec.execOrder))
    else ToJsString(Undefined)
  }

  /** `Digits` is a faithful decimal numeral: it reads back as the number it was made from. */
  lemma {:induction false} DigitsRoundTrip(n: nat)
    ensures NumeralValue(Digits(n)) == n
    decreases n
  {
    if n >= 10 {
      var r := Digits(n / 10) + [DigitChar(n % 10)];
      assert r[..|r| - 1] == Digits(n / 10);
      assert r[|r| - 1] as int - '0' as int == n % 10;
      DigitsRoundTrip(n / 10);
      assert n == 10 * (n / 10) + n % 10;
    }
  }

  /** The string of an integer reads back as that integer: a sign for negatives, then its numeral. */
  lemma IntStringRoundTrip(i: PlainInt)
    ensures IsDecimal(ToJsStringCase(Int(i)), i)
  {
    if 0 <= i {
      DigitsRoundTrip(i);
    } else {
      DigitsRoundTrip(-i);
      assert ToJsStringCase(Int(i))[1..] == Digits(-i);
    }
  }
}
