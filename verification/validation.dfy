/** Field coercions of the request-record library in its lax mode, on JSON-shaped keyword
    arguments. A record validates every declared field, reports every field that fails (in
    declaration order) and ignores keys that name no field. */
module Validation {
  import opened Common
  import opened Strings
  import opened Json

  /** A text field: only a string is accepted (no coercion from numbers). */
  function TextOf(v: Value): Option<string> {
    match v
    case Str(s) => Some(s)
    case _ => None
  }

  /** An optional text field: `null` is absent, a string is kept, anything else fails. */
  function OptText(v: Value): Option<Option<string>> {
    match v
    case Null => Some(None)
    case Str(s) => Some(Some(s))
    case _ => None
  }

  /** An integer field in lax mode: numbers, booleans (as 1 and 0) and strings of decimal digits
      with an optional minus sign. */
  function LaxInt(v: Value): (r: Option<int>)
    ensures v.Num? ==> r == Some(v.n)
    ensures v.Null? || v.Arr? || v.Obj? ==> r.None?
  {
    match v
    case Num(n) => Some(n)
    case Bool(b) => Some(if b then 1 else 0)
    case Str(s) =>
      if |s| > 0 && AllDigits(s) then Some(DigitsValue(s))
      else if |s| > 1 && s[0] == '-' && AllDigits(s[1..]) then Some(0 - DigitsValue(s[1..]) as int)
      else None
    case _ => None
  }

  /** Digit strings are read as the number they spell, in either sign. */
  lemma LaxIntReadsDecimal(n: int)
    ensures LaxInt(Str(IntToString(n))) == Some(n)
  {
    if n < 0 {
      var s := IntToString(n);
      assert s[1..] == NatToString(-n);
      assert !IsDigit(s[0]);
      DigitsValueOfNatToString(-n);
    } else {
      DigitsValueOfNatToString(n);
    }
  }

  /** An optional integer field: `null` is absent, otherwise as `LaxInt`. */
  function OptInt(v: Value): (r: Option<Option<int>>)
    ensures v.Null? ==> r == Some(None)
    ensures !v.Null? ==> (r.Some? <==> LaxInt(v).Some?)
    ensures r.Some? && r.value.Some? ==> LaxInt(v) == r.value
  {
    if v.Null? then Some(None)
    else match LaxInt(v)
      case None => None
      case Some(n) => Some(Some(n))
  }

  function TextValue(o: Option<string>): Value {
    match o case None => Null case Some(s) => Str(s)
  }

  function IntValue(o: Option<int>): Value {
    match o case None => Null case Some(n) => Num(n)
  }

  /** A field with a default: absent (`given` is `None`) it takes `default`; present, it must have
      been accepted by its coercion, whose verdict is `parsed`; otherwise it fails under `key`. */
  function Field<T>(key: string, given: Option<Value>, default: T, parsed: Option<T>): (r: Result<T, string>)
    ensures given.None? ==> r == Ok(default)
    ensures r.Err? <==> given.Some? && parsed.None?
    ensures r.Err? ==> r.error == key
    ensures given.Some? && r.Ok? ==> parsed == Some(r.value)
  {
    if given.None? then Ok(default)
    else if parsed.Some? then Ok(parsed.value)
    else Err(key)
  }

  /** A required field: absent, or present and refused by its coercion, it fails under `key`. */
  function Required<T>(key: string, given: Option<Value>, parsed: Option<T>): (r: Result<T, string>)
    ensures r.Ok? <==> given.Some? && parsed.Some?
    ensures r.Ok? ==> parsed == Some(r.value)
    ensures r.Err? ==> r.error == key
  {
    if given.Some? && parsed.Some? then Ok(parsed.value) else Err(key)
  }

  /** The failure of one field as a list of at most one field name. */
  function Errs<T>(r: Result<T, string>): (es: seq<string>)
    ensures |es| <= 1
    ensures es == [] <==> r.Ok?
    ensures r.Err? ==> es == [r.error]
  {
    if r.Err? then [r.error] else []
  }
}
