/** The chat page's tool-parameter panel: a record of seven search parameters that each control
    rewrites one key of, a reset to the fixed defaults, and the Max Results entry, read with
    JavaScript's `Number.parseInt` and replaced by 10 when that gives nothing usable. */
module ToolParameters {
  import opened Common
  import opened Strings

  datatype Key = BmName | Category | Owner | SavedLow | SavedHigh | MaxRows | OrderBy

  /** A parameter value: the panel stores whatever its control hands over, text or a number. */
  datatype FieldValue = TextValue(text: string) | NumberValue(number: int)

  datatype ChatParameters = ChatParameters(
    bmName: FieldValue, category: FieldValue, owner: FieldValue, savedLow: FieldValue,
    savedHigh: FieldValue, maxRows: FieldValue, orderBy: FieldValue)

  /** The value stored under `k`. */
  function Get(p: ChatParameters, k: Key): FieldValue {
    match k
    case BmName => p.bmName
    case Category => p.category
    case Owner => p.owner
    case SavedLow => p.savedLow
    case SavedHigh => p.savedHigh
    case MaxRows => p.maxRows
    case OrderBy => p.orderBy
  }

  /** `updateParameter`: a copy of the record with `k` set to `v`. */
  function UpdateParameter(p: ChatParameters, k: Key, v: FieldValue): (r: ChatParameters)
    ensures Get(r, k) == v
    ensures forall j :: j != k ==> Get(r, j) == Get(p, j)
  {
    match k
    case BmName => p.(bmName := v)
    case Category => p.(category := v)
    case Owner => p.(owner := v)
    case SavedLow => p.(savedLow := v)
    case SavedHigh => p.(savedHigh := v)
    case MaxRows => p.(maxRows := v)
    case OrderBy => p.(orderBy := v)
  }

  /** Two records are equal when every key holds the same value. */
  lemma {:induction false} SameValuesSameRecord(p: ChatParameters, q: ChatParameters)
    requires forall k :: Get(p, k) == Get(q, k)
    ensures p == q
  {
    assert Get(p, BmName) == Get(q, BmName) && Get(p, Category) == Get(q, Category);
    assert Get(p, Owner) == Get(q, Owner) && Get(p, SavedLow) == Get(q, SavedLow);
    assert Get(p, SavedHigh) == Get(q, SavedHigh) && Get(p, MaxRows) == Get(q, MaxRows);
    assert Get(p, OrderBy) == Get(q, OrderBy);
  }

  /** Writing back what a key already holds changes nothing, a second write to a key replaces
      the first, and writes to different keys commute. */
  lemma UpdateLaws(p: ChatParameters, k: Key, j: Key, v: FieldValue, w: FieldValue)
    ensures UpdateParameter(p, k, Get(p, k)) == p
    ensures UpdateParameter(UpdateParameter(p, k, v), k, w) == UpdateParameter(p, k, w)
    ensures k != j ==> UpdateParameter(UpdateParameter(p, k, v), j, w)
                       == UpdateParameter(UpdateParameter(p, j, w), k, v)
  {
    SameValuesSameRecord(UpdateParameter(p, k, Get(p, k)), p);
    SameValuesSameRecord(UpdateParameter(UpdateParameter(p, k, v), k, w), UpdateParameter(p, k, w));
    if k != j {
      SameValuesSameRecord(UpdateParameter(UpdateParameter(p, k, v), j, w),
                           UpdateParameter(UpdateParameter(p, j, w), k, v));
    }
  }

  /** The record `clearAllParameters` installs. */
  const Defaults: ChatParameters :=
    ChatParameters(TextValue(""), TextValue("all"), TextValue(""), TextValue(""), TextValue(""),
                   NumberValue(100), TextValue("date_desc"))

  /** `clearAllParameters`: the defaults, whatever the record held. */
  function ClearAllParameters(p: ChatParameters): (r: ChatParameters)
    ensures forall k :: Get(r, k) == Get(Defaults, k)
  {
    Defaults
  }

  /** Clearing is idempotent, and clearing after any edit gives the same record as clearing
      before it. */
  lemma ClearAbsorbs(p: ChatParameters, k: Key, v: FieldValue)
    ensures ClearAllParameters(ClearAllParameters(p)) == ClearAllParameters(p)
    ensures ClearAllParameters(UpdateParameter(p, k, v)) == ClearAllParameters(p)
    ensures forall q :: ClearAllParameters(q) == ClearAllParameters(p)
  {
  }

  // ---------------------------------------------------------------- Number.parseInt

  /** The value of a digit in base 16 (decimal digits and both cases of a-f), if it is one. */
  function HexDigit(c: char): Option<nat> {
    if '0' <= c <= '9' then Some(c as int - '0' as int)
    else if 'a' <= c <= 'f' then Some(c as int - 'a' as int + 10)
    else if 'A' <= c <= 'F' then Some(c as int - 'A' as int + 10)
    else None
  }

  /** The value of `c` as a digit of `radix` (10 or 16), if it is one. */
  function DigitIn(c: char, radix: nat): (d: Option<nat>)
    requires radix == 10 || radix == 16
    ensures d.Some? ==> d.value < radix
  {
    match HexDigit(c)
    case Some(v) => if v < radix then Some(v) else None
    case None => None
  }

  /** The longest prefix of `s` made of digits of `radix`. */
  function DigitRun(s: string, radix: nat): (r: string)
    requires radix == 10 || radix == 16
    ensures |r| <= |s| && r == s[..|r|]
    ensures forall i :: 0 <= i < |r| ==> DigitIn(r[i], radix).Some?
    ensures |r| < |s| ==> DigitIn(s[|r|], radix).None?
  {
    if |s| == 0 || DigitIn(s[0], radix).None? then []
    else [s[0]] + DigitRun(s[1..], radix)
  }

  /** The value of a run of digits of `radix`. */
  function RunValue(s: string, radix: nat): nat
    requires radix == 10 || radix == 16
    requires forall i :: 0 <= i < |s| ==> DigitIn(s[i], radix).Some?
  {
    if |s| == 0 then 0
    else RunValue(s[..|s| - 1], radix) * radix + DigitIn(s[|s| - 1], radix).value
  }

  /** The digits after any sign: a `0x`/`0X` prefix switches to base 16, then the longest run
      of digits is read; `None` when there is no digit. */
  function ParseMagnitude(u: string): Option<nat> {
    var hex := |u| >= 2 && u[0] == '0' && (u[1] == 'x' || u[1] == 'X');
    var radix := if hex then 16 else 10;
    var digits := DigitRun(if hex then u[2..] else u, radix);
    if digits == [] then None
    else Some(RunValue(digits, radix))
  }

  /** What `Number.parseInt` returns: NaN or an integer. */
  datatype Parsed = NaN | Int(value: int)

  /** `Number.parseInt(s)` with no radix: leading whitespace skipped, an optional sign, then
      the magnitude. Precision loss past 2^53 is not modelled. */
  function ParseInt(s: string): Parsed {
    ParseSigned(TrimStart(s))
  }

  /** An optional `-` or `+`, then the magnitude. */
  function ParseSigned(t: string): Parsed {
    if |t| > 0 && t[0] == '-' then Negate(ParseMagnitude(t[1..]))
    else if |t| > 0 && t[0] == '+' then Widen(ParseMagnitude(t[1..]))
    else Widen(ParseMagnitude(t))
  }

  function Negate(m: Option<nat>): (r: Parsed)
    ensures r.Int? <==> m.Some?
    ensures r.Int? ==> r.value == -(m.value as int)
  {
    match m
    case Some(v) => Int(-(v as int))
    case None => NaN
  }

  function Widen(m: Option<nat>): (r: Parsed)
    ensures r.Int? <==> m.Some?
    ensures r.Int? ==> r.value == m.value
  {
    match m
    case Some(v) => Int(v)
    case None => NaN
  }

  /** A decimal digit string read in base 10 has its `DigitsValue`. */
  lemma {:induction false} RunValueDecimal(s: string)
    requires AllDigits(s)
    ensures forall i :: 0 <= i < |s| ==> DigitIn(s[i], 10).Some?
    ensures RunValue(s, 10) == DigitsValue(s)
    decreases |s|
  {
    if |s| > 0 {
      RunValueDecimal(s[..|s| - 1]);
    }
  }

  /** A run of digits is its own longest digit prefix. */
  lemma {:induction false} DigitRunOfDigits(s: string, rest: string)
    requires AllDigits(s)
    requires |rest| > 0 ==> DigitIn(rest[0], 10).None?
    ensures DigitRun(s + rest, 10) == s
    decreases |s|
  {
    if |s| > 0 {
      assert (s + rest)[1..] == s[1..] + rest;
      DigitRunOfDigits(s[1..], rest);
    } else {
      assert s + rest == rest;
    }
  }

  /** Text that ends a decimal entry: empty, or starting with neither a decimal digit nor the
      `x` that would turn a lone `0` into a hexadecimal prefix. */
  predicate EndsEntry(rest: string) {
    |rest| > 0 ==> DigitIn(rest[0], 10).None? && rest[0] != 'x' && rest[0] != 'X'
  }

  /** A rendered natural number, followed by text that ends the entry, reads as that number. */
  lemma MagnitudeOfDecimal(m: nat, rest: string)
    requires EndsEntry(rest)
    ensures ParseMagnitude(NatToString(m) + rest) == Some(m)
  {
    var d := NatToString(m);
    var u := d + rest;
    DigitRunOfDigits(d, rest);
    RunValueDecimal(d);
    DigitsValueOfNatToString(m);
    if |u| >= 2 && u[0] == '0' {
      assert |d| == 1;
      assert u[1] == rest[0];
    }
  }

  /** An entry that starts with a digit is read as its magnitude, and with a `-` before it as
      the negated magnitude. */
  lemma DigitFirstEntry(u: string)
    requires |u| > 0 && IsDigit(u[0])
    ensures ParseInt(u) == Widen(ParseMagnitude(u))
    ensures ParseInt("-" + u) == Negate(ParseMagnitude(u))
  {
    NoLeadingSpace(u);
    var t := "-" + u;
    assert t[0] == '-' && t[1..] == u;
    NoLeadingSpace(t);
  }

  /** Text that does not start with whitespace is read from its first character. */
  lemma NoLeadingSpace(t: string)
    requires |t| > 0 && (t[0] == '-' || IsDigit(t[0]))
    ensures ParseInt(t) == ParseSigned(t)
  {
    assert !IsSpace(t[0]);
    assert TrimStart(t) == t;
  }

  /** Reading back a rendered integer gives it, even with trailing text that ends the entry
      (`"3.5"` reads as 3). */
  lemma ParseIntOfDecimal(n: int, rest: string)
    requires EndsEntry(rest)
    ensures ParseInt(IntToString(n) + rest) == Int(n)
  {
    if n < 0 {
      var m: nat := -n;
      assert IntToString(n) == "-" + NatToString(m);
      NegativeDecimal(m, rest);
    } else {
      PositiveDecimal(n, rest);
    }
  }

  lemma PositiveDecimal(m: nat, rest: string)
    requires EndsEntry(rest)
    ensures ParseInt(NatToString(m) + rest) == Int(m)
  {
    MagnitudeOfDecimal(m, rest);
    DigitFirstEntry(NatToString(m) + rest);
  }

  lemma NegativeDecimal(m: nat, rest: string)
    requires EndsEntry(rest)
    ensures ParseInt("-" + NatToString(m) + rest) == Int(-(m as int))
  {
    var d := NatToString(m);
    assert "-" + d + rest == "-" + (d + rest);
    DecimalHead(m, rest);
    Negative(d + rest, m);
  }

  /** A rendered number followed by text that ends the entry starts with a digit and reads
      as the number. */
  lemma DecimalHead(m: nat, rest: string)
    requires EndsEntry(rest)
    ensures var u := NatToString(m) + rest; |u| > 0 && IsDigit(u[0]) && ParseMagnitude(u) == Some(m)
  {
    MagnitudeOfDecimal(m, rest);
  }

  lemma Negative(u: string, m: nat)
    requires |u| > 0 && IsDigit(u[0]) && ParseMagnitude(u) == Some(m)
    ensures ParseInt("-" + u) == Int(-(m as int))
  {
    DigitFirstEntry(u);
  }

  /** A `0x` entry is read in base 16. */
  lemma HexEntry(x: char, h: string)
    requires x == 'x' || x == 'X'
    requires |h| > 0 && forall i :: 0 <= i < |h| ==> DigitIn(h[i], 16).Some?
    ensures ParseInt(['0', x] + h) == Int(RunValue(h, 16))
  {
    var u := ['0', x] + h;
    DigitFirstEntry(u);
    assert u[2..] == h;
    HexRunOfDigits(h);
  }

  lemma {:induction false} HexRunOfDigits(h: string)
    requires forall i :: 0 <= i < |h| ==> DigitIn(h[i], 16).Some?
    ensures DigitRun(h, 16) == h
    decreases |h|
  {
    if |h| > 0 {
      HexRunOfDigits(h[1..]);
    }
  }

  // ---------------------------------------------------------------- the controls

  /** The Max Results entry: `Number.parseInt(text) || 10`, so NaN and 0 both become 10. */
  function MaxRowsEntry(text: string): (n: int)
    ensures n != 0
    ensures ParseInt(text).Int? && ParseInt(text).value != 0 ==> n == ParseInt(text).value
    ensures ParseInt(text).NaN? || ParseInt(text).value == 0 ==> n == 10
  {
    match ParseInt(text)
    case Int(v) => if v != 0 then v else 10
    case NaN => 10
  }

  /** A positive entry is kept; an empty entry, one with no digits, and zero become 10. */
  lemma MaxRowsFallback(n: nat)
    ensures n > 0 ==> MaxRowsEntry(NatToString(n)) == n
    ensures MaxRowsEntry(NatToString(0)) == 10
  {
    ParseIntOfDecimal(n, "");
    assert IntToString(n) + "" == NatToString(n);
  }

  /** An entry without digits (the emptied input among them) becomes 10. */
  lemma NoDigitsFallback(text: string)
    requires forall i :: 0 <= i < |text| ==> HexDigit(text[i]).None?
    ensures MaxRowsEntry(text) == 10
  {
    var t := TrimStart(text);
    assert |t| > 1 ==> HexDigit(t[1]).None? by {
      if |t| > 1 {
        assert t[1] == text[|text| - |t| + 1];
      }
    }
    assert |t| > 0 ==> HexDigit(t[0]).None? by {
      if |t| > 0 {
        assert t[0] == text[|text| - |t|];
      }
    }
    NoDigitSigned(t);
  }

  /** Text whose first two characters are not digits reads as NaN. */
  lemma NoDigitSigned(t: string)
    requires |t| > 0 ==> HexDigit(t[0]).None?
    requires |t| > 1 ==> HexDigit(t[1]).None?
    ensures ParseSigned(t) == NaN
  {
    if |t| > 0 && (t[0] == '-' || t[0] == '+') {
      NoDigitMagnitude(t[1..]);
    } else {
      NoDigitMagnitude(t);
    }
  }

  /** Text that does not start with a digit has no magnitude. */
  lemma NoDigitMagnitude(u: string)
    requires |u| > 0 ==> HexDigit(u[0]).None?
    ensures ParseMagnitude(u) == None
  {
  }

  /** The panel's controls. */
  datatype Control =
    | BmNameInput | CategorySelect | OwnerInput | SavedLowInput | SavedHighInput
    | OrderBySelect | MaxRowsInput

  /** The key each control writes. */
  function Writes(c: Control): Key {
    match c
    case BmNameInput => BmName
    case CategorySelect => Category
    case OwnerInput => Owner
    case SavedLowInput => SavedLow
    case SavedHighInput => SavedHigh
    case OrderBySelect => OrderBy
    case MaxRowsInput => MaxRows
  }

  /** The control that edits `k`. */
  function ControlFor(k: Key): (c: Control)
    ensures Writes(c) == k
  {
    match k
    case BmName => BmNameInput
    case Category => CategorySelect
    case Owner => OwnerInput
    case SavedLow => SavedLowInput
    case SavedHigh => SavedHighInput
    case MaxRows => MaxRowsInput
    case OrderBy => OrderBySelect
  }

  /** A control's change handler, given the text it reports. */
  function OnChange(p: ChatParameters, c: Control, text: string): (r: ChatParameters)
    ensures forall k :: k != Writes(c) ==> Get(r, k) == Get(p, k)
    ensures c != MaxRowsInput ==> Get(r, Writes(c)) == TextValue(text)
    ensures c == MaxRowsInput ==> Get(r, MaxRows).NumberValue? && Get(r, MaxRows).number != 0
  {
    if c == MaxRowsInput then UpdateParameter(p, MaxRows, NumberValue(MaxRowsEntry(text)))
    else UpdateParameter(p, Writes(c), TextValue(text))
  }

  /** Different controls write different keys, and every key has its control, so edits through
      two different controls never overwrite each other. */
  lemma ControlsOwnTheirKeys(p: ChatParameters, c: Control, d: Control, x: string, y: string)
    ensures c != d ==> Writes(c) != Writes(d)
    ensures forall k :: Writes(ControlFor(k)) == k
    ensures c != d ==> Get(OnChange(OnChange(p, c, x), d, y), Writes(c)) == Get(OnChange(p, c, x), Writes(c))
  {
  }
}
