/** The range-checked machine word `MopsByte`: a number whose truncation must lie
    in [MOPS_MIN_INTEGER, MOPS_MAX_INTEGER], and its zero-padded display format. */
module Bytes {
  import opened Wrappers
  import opened Text
  import Platform

  /** A JavaScript number as the setter can meet it. */
  datatype Num = Nullish | Finite(r: real) | NaN | PosInfinity | NegInfinity

  /** Why the setter refused a value: "Null Byte!" or "Out of Range!". */
  datatype ByteError = NullByte | OutOfRange

  /** `Math.trunc`: rounding toward zero. */
  function Trunc(r: real): (t: int)
    ensures r >= 0.0 ==> t as real <= r < t as real + 1.0
    ensures r < 0.0 ==> t as real - 1.0 < r <= t as real
  {
    if r >= 0.0 then r.Floor else -((-r).Floor)
  }

  /** The setter's checks against the bounds `lo`..`hi`. A NaN passes, since every
      comparison with it is false; the infinities truncate to themselves. */
  function CheckWithin(v: Num, lo: int, hi: int): (e: Option<ByteError>)
    ensures e == Some(NullByte) <==> v.Nullish?
    ensures v.Finite? ==> (e.None? <==> lo <= Trunc(v.r) <= hi)
    ensures v.NaN? ==> e.None?
    ensures (v.PosInfinity? || v.NegInfinity?) ==> e == Some(OutOfRange)
  {
    match v
    case Nullish => Some(NullByte)
    case Finite(r) => if Trunc(r) < lo || Trunc(r) > hi then Some(OutOfRange) else None
    case NaN => None
    case PosInfinity => Some(OutOfRange)
    case NegInfinity => Some(OutOfRange)
  }

  /** The checks of the machine's `MopsByte`, against the platform bounds. */
  function Check(v: Num): Option<ByteError> {
    CheckWithin(v, Platform.MOPS_MIN_INTEGER, Platform.MOPS_MAX_INTEGER)
  }

  predicate InRange(v: int) {
    Platform.MOPS_MIN_INTEGER <= v <= Platform.MOPS_MAX_INTEGER
  }

  /** An integer passes the checks exactly when it lies in [-9999, 9999]. */
  lemma CheckInteger(v: int)
    ensures Check(Finite(v as real)) == None <==> InRange(v)
    ensures Check(Finite(v as real)) != None ==> Check(Finite(v as real)) == Some(OutOfRange)
  {
    assert Trunc(v as real) == v;
  }

  /** A fraction is judged by its truncation: 9999.5 is accepted and -10000.5 is not. */
  lemma FractionsTruncate()
    ensures Check(Finite(9999.5)) == None
    ensures Check(Finite(-9999.9)) == None
    ensures Check(Finite(-10000.5)) == Some(OutOfRange)
  {
    assert Trunc(9999.5) == 9999;
    assert Trunc(-9999.9) == -9999;
    assert Trunc(-10000.5) == -10000;
  }

  /** The older word class carries its own bounds as statics. */
  const StaticMin: int := -9999
  const StaticMax: int := 9999

  /** Its bounds are the platform's, so it accepts and refuses the same values. */
  lemma StaticBoundsAgree(v: Num)
    ensures StaticMin == Platform.MOPS_MIN_INTEGER && StaticMax == Platform.MOPS_MAX_INTEGER
    ensures CheckWithin(v, StaticMin, StaticMax) == Check(v)
  {
  }

  class MopsByte {
    /** The stored number, exactly as it was given to the setter. */
    var value: Num

    /** The object before its constructor has run the setter. */
    constructor Blank()
      ensures value == Nullish
    {
      value := Nullish;
    }

    /** The `value` setter: checks first, so a refused value leaves the old one in place. */
    method SetValue(v: Num) returns (err: Option<ByteError>)
      modifies this
      ensures err == Check(v)
      ensures err.None? ==> value == v
      ensures err.Some? ==> value == old(value)
    {
      err := Check(v);
      if err.None? {
        value := v;
      }
    }

    /** `new MopsByte(v)`: a fresh object whose constructor runs the setter, or the error it throws. */
    static method New(v: Num) returns (r: Result<MopsByte, ByteError>)
      ensures r.Err? <==> Check(v).Some?
      ensures r.Err? ==> r.error == Check(v).value
      ensures r.Ok? ==> fresh(r.value) && r.value.value == v && Check(r.value.value).None?
    {
      var b := new MopsByte.Blank();
      var err := b.SetValue(v);
      if err.Some? {
        return Err(err.value);
      }
      return Ok(b);
    }
  }

  /** `MopsByte.max_digits`: the width of the largest value, written out. */
  function MaxDigits(): (n: nat)
    ensures n == 4
  {
    |DecimalString(Platform.MOPS_MAX_INTEGER)|
  }

  /** `MopsByte.format` on an integer: a minus sign exactly for negative values, then
      the absolute value zero-padded to `MaxDigits()` places. */
  function Format(v: int): (s: string)
    ensures |s| >= MaxDigits()
    ensures s[0] == '-' <==> v < 0
    ensures InRange(v) ==> |s| == if v < 0 then 5 else 4
  {
    var abs: nat := if v < 0 then -v else v;
    var digits := DecimalString(abs);
    DecimalLength(abs);
    (if v < 0 then "-" else "") + PadStart(digits, MaxDigits(), '0')
  }

  /** Numbers below 10000 need at most four digits. */
  lemma {:induction false} DecimalLength(n: nat)
    ensures n < 10000 ==> |DecimalString(n)| <= 4
    decreases n
  {
    if n >= 10 {
      DecimalLength(n / 10);
    }
  }

  /** Reading a formatted value back as an integer gives the value again. */
  lemma FormatRoundTrip(v: int)
    ensures IsIntegerText(Format(v))
    ensures IntegerValue(Format(v)) == v
  {
    var abs: nat := if v < 0 then -v else v;
    var digits := DecimalString(abs);
    var padded := PadStart(digits, MaxDigits(), '0');
    DecimalStringValue(abs);
    var k: nat := |padded| - |digits|;
    assert padded == Repeat('0', k) + digits;
    LeadingZeros(k, digits);
    assert IsDigits(padded);
    if v < 0 {
      assert Format(v) == "-" + padded;
      assert Format(v)[1..] == padded;
    } else {
      assert Format(v) == padded;
    }
  }

  /** The argument of `format`: a word or a plain number. */
  datatype Formattable = OfByte(b: MopsByte) | OfNumber(n: int)

  /** `format` on either kind of argument, for integer contents. */
  function FormatAny(x: Formattable): string
    reads if x.OfByte? then {x.b} else {}
    requires x.OfByte? ==> x.b.value.Finite? && x.b.value.r == x.b.value.r.Floor as real
  {
    match x
    case OfByte(b) => Format(b.value.r.Floor)
    case OfNumber(n) => Format(n)
  }

  /** A word and the number it holds are formatted alike. */
  lemma FormatAnyAgrees(b: MopsByte, n: int)
    requires b.value == Finite(n as real)
    ensures FormatAny(OfByte(b)) == FormatAny(OfNumber(n))
  {
    assert (n as real).Floor == n;
  }
}
