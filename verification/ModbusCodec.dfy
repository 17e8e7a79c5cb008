/** Register encoding of src/control.rs, over exact reals. */
module ModbusCodec {
  import opened Common

  /** The `datatype` names; any other name is an error when writing and uint16 when reading. */
  datatype Format = Bool | Uint16 | Int16 | Uint32 | Int32 | Other(name: string)

  type word = x: int | 0 <= x < 0x1_0000

  // ------------------------------------- word order (32 bits); `little` is "little"

  function SplitU32(v: nat, little: bool): seq<word>
    requires v < 0x1_0000_0000
  {
    var hi, lo := v / 0x1_0000, v % 0x1_0000;
    if little then [lo, hi] else [hi, lo]
  }

  function Register(regs: seq<word>, i: nat): word { if i < |regs| then regs[i] else 0 }

  function JoinU32(regs: seq<word>, little: bool): nat {
    var a, b := Register(regs, 0), Register(regs, 1);
    if little then 0x1_0000 * b + a else 0x1_0000 * a + b
  }

  /** Splitting and joining are inverse under every word order. */
  lemma SplitJoin(v: nat, little: bool)
    requires v < 0x1_0000_0000
    ensures JoinU32(SplitU32(v, little), little) == v
  {
  }

  lemma JoinSplit(regs: seq<word>, little: bool)
    requires |regs| == 2
    ensures JoinU32(regs, little) < 0x1_0000_0000 && SplitU32(JoinU32(regs, little), little) == regs
  {
    var v := JoinU32(regs, little);
    if little {
      assert v / 0x1_0000 == regs[1] && v % 0x1_0000 == regs[0];
    } else {
      assert v / 0x1_0000 == regs[0] && v % 0x1_0000 == regs[1];
    }
  }

  // ------------------------------------------------------------ integer formats

  /** `f64::round`: to the nearest integer, halves away from zero. */
  function Round(x: real): int { if x >= 0.0 then (x + 0.5).Floor else -((0.5 - x).Floor) }

  /** The saturating cast to i64. */
  function ToI64(n: int): int { Clamp(n, -0x8000_0000_0000_0000, 0x7FFF_FFFF_FFFF_FFFF) }

  function Clamp(n: int, lo: int, hi: int): int { if n < lo then lo else if n > hi then hi else n }

  /** The raw range of an integer datatype. */
  function Range(format: Format): Option<(int, int)> {
    match format
    case Uint16 => Some((0, 0xFFFF))
    case Int16 => Some((-0x8000, 0x7FFF))
    case Uint32 => Some((0, 0xFFFF_FFFF))
    case Int32 => Some((-0x8000_0000, 0x7FFF_FFFF))
    case Bool | Other(_) => None
  }

  predicate IsInteger(format: Format) { Range(format).Some? }

  /** The two's complement of `n` in `modulus` values. */
  function Unsigned(n: int, modulus: nat): nat
    requires 0 <= n + modulus && n < modulus
  {
    if n < 0 then n + modulus else n
  }

  function Signed(v: nat, modulus: nat): int
    requires v < modulus
  {
    if 2 * v >= modulus then v - modulus else v
  }

  datatype CodecError = UnsupportedDatatype(name: string)

  /** `encode_words`, without the float32 format. */
  function EncodeWords(format: Format, raw: real, little: bool): (r: Result<seq<word>, CodecError>) {
    var n := ToI64(Round(raw));
    match format
    case Bool => Success([if raw != 0.0 then 1 else 0])
    case Uint16 => Success([Clamp(n, 0, 0xFFFF)])
    case Int16 => Success([Unsigned(Clamp(n, -0x8000, 0x7FFF), 0x1_0000)])
    case Uint32 => Success(SplitU32(Clamp(n, 0, 0xFFFF_FFFF), little))
    case Int32 => Success(SplitU32(Unsigned(Clamp(n, -0x8000_0000, 0x7FFF_FFFF), 0x1_0000_0000), little))
    case Other(name) => Failure(UnsupportedDatatype(name))
  }

  function RawOf(format: Format, regs: seq<word>, little: bool): int {
    match format
    case Bool => if Register(regs, 0) != 0 then 1 else 0
    case Uint16 => Register(regs, 0)
    case Int16 => Signed(Register(regs, 0), 0x1_0000)
    case Uint32 => JoinU32(regs, little)
    case Int32 => Signed(JoinU32(regs, little), 0x1_0000_0000)
    case Other(_) => Register(regs, 0)
  }

  /** `decode_words` */
  function DecodeWords(format: Format, regs: seq<word>, little: bool, scale: real, offset: real): real {
    Engineering(RawOf(format, regs, little), scale, offset)
  }

  /** Raw to engineering. */
  function Engineering(raw: int, scale: real, offset: real): real { raw as real * scale + offset }

  /** Engineering to raw, as `write_modbus` computes it. */
  function ToRaw(value: real, scale: real, offset: real): real {
    (value - offset) / if scale == 0.0 then 1.0 else scale
  }

  // -------------------------------------------------------------------- theorems

  lemma RoundNearest(x: real)
    ensures -0.5 <= Round(x) as real - x <= 0.5
  {
  }

  lemma RoundInteger(n: int)
    ensures Round(n as real) == n
  {
  }

  /** The raw value that comes back is the rounded raw value, saturated to the range of the datatype. */
  lemma RawRoundTrip(format: Format, raw: real, little: bool)
    requires IsInteger(format)
    ensures EncodeWords(format, raw, little).Success?
    ensures RawOf(format, EncodeWords(format, raw, little).value, little) == Stored(format, raw)
  {
    var n := ToI64(Round(raw));
    if format == Uint32 {
      SplitJoin(Clamp(n, 0, 0xFFFF_FFFF), little);
    } else if format == Int32 {
      SplitJoin(Unsigned(Clamp(n, -0x8000_0000, 0x7FFF_FFFF), 0x1_0000_0000), little);
    }
  }

  /** `n` is the integer nearest to `raw`, halves away from 0, or the end of the range beyond which `raw` lies. */
  predicate Nearest(n: int, raw: real, lo: int, hi: int) {
    && (raw < lo as real ==> n == lo) && (raw > hi as real ==> n == hi)
    && (lo as real <= raw <= hi as real ==> -0.5 <= n as real - raw <= 0.5)
    && (lo as real <= raw <= hi as real && n as real - raw == 0.5 ==> raw > 0.0)
    && (lo as real <= raw <= hi as real && n as real - raw == -0.5 ==> raw < 0.0)
  }

  /** The value stored, by datatype. */
  lemma StoredIs(format: Format, raw: real)
    requires IsInteger(format)
    ensures match format
            case Uint16 => Nearest(Stored(format, raw), raw, 0, 65535)
            case Int16 => Nearest(Stored(format, raw), raw, -32768, 32767)
            case Uint32 => Nearest(Stored(format, raw), raw, 0, 4294967295)
            case Int32 => Nearest(Stored(format, raw), raw, -2147483648, 2147483647)
            case Bool | Other(_) => false
  {
    var range := Range(format).value;
    SaturatedRound(raw, range.0, range.1);
  }

  /**
   Which registers are written: those of the stored value, a negative one in two's complement, and of two
   registers the high one first unless the order is little.
   */
  lemma WordsAre(format: Format, raw: real, little: bool)
    ensures match format
            case Bool => EncodeWords(format, raw, little) == Success(if raw == 0.0 then [0] else [1])
            case Other(name) => EncodeWords(format, raw, little) == Failure(UnsupportedDatatype(name))
            case Uint16 | Int16 =>
              var (r, n) := (EncodeWords(format, raw, little), Stored(format, raw));
              r.Success? && |r.value| == 1 && r.value[0] as int == if n < 0 then n + 65536 else n
            case Uint32 | Int32 =>
              var (r, n) := (EncodeWords(format, raw, little), Stored(format, raw));
              && r.Success? && |r.value| == 2
              && var (hi, lo) := if little then (r.value[1], r.value[0]) else (r.value[0], r.value[1]);
                 65536 * (hi as int) + lo == if n < 0 then n + 4294967296 else n
  {
  }

  /** What is read from registers, of which missing ones count as 0: any other datatype name as unsigned 16 bits. */
  lemma RawIs(format: Format, regs: seq<word>, little: bool)
    requires |regs| >= 2
    ensures var wide := if little then (regs[0] as int) + 65536 * (regs[1] as int)
                        else 65536 * (regs[0] as int) + regs[1];
            RawOf(format, regs, little)
            == match format
               case Bool => (if regs[0] == 0 then 0 else 1)
               case Uint16 | Other(_) => regs[0]
               case Int16 => (if regs[0] >= 32768 then regs[0] - 65536 else regs[0])
               case Uint32 => wide
               case Int32 => (if wide >= 2147483648 then wide - 4294967296 else wide)
  {
  }

  /** Registers that are not there read as 0. */
  lemma MissingRegisters(format: Format, regs: seq<word>, little: bool)
    requires |regs| < 2
    ensures RawOf(format, regs, little) == RawOf(format, regs + [0] + (if |regs| == 0 then [0] else []), little)
  {
  }

  /** Values and registers are linked by scale and offset, and writing with scale 0 divides by 1. */
  lemma ScalingIs(format: Format, regs: seq<word>, little: bool, value: real, scale: real, offset: real)
    ensures DecodeWords(format, regs, little, scale, offset) == RawOf(format, regs, little) as real * scale + offset
    ensures scale != 0.0 ==> ToRaw(value, scale, offset) * scale == value - offset
    ensures scale == 0.0 ==> ToRaw(value, scale, offset) == value - offset
  {
  }

  function AbsReal(x: real): real { if x < 0.0 then -x else x }

  /** The raw integer the registers hold after writing `raw`: rounded, then saturated. */
  function Stored(format: Format, raw: real): int
    requires IsInteger(format)
  {
    var range := Range(format).value;
    Clamp(Round(raw), range.0, range.1)
  }

  /** Writing `raw` and reading the registers back, as `write_modbus` does when a read-back is asked for. */
  function ReadBack(format: Format, raw: real, little: bool, scale: real, offset: real): Result<real, CodecError> {
    match EncodeWords(format, raw, little)
    case Success(words) => Success(DecodeWords(format, words, little, scale, offset))
    case Failure(e) => Failure(e)
  }

  lemma ReadBackIsStored(format: Format, raw: real, little: bool, scale: real, offset: real)
    requires IsInteger(format)
    ensures ReadBack(format, raw, little, scale, offset) == Success(Engineering(Stored(format, raw), scale, offset))
  {
    RawRoundTrip(format, raw, little);
    assert RawOf(format, EncodeWords(format, raw, little).value, little) == Stored(format, raw);
  }

  /**
   What a read-back promises: within half a scale step of the written value while the raw value is in
   range, and the nearer end of the range outside it.
   */
  predicate Accurate(format: Format, value: real, raw: real, scale: real, offset: real, back: real)
    requires IsInteger(format)
  {
    var (lo, hi) := Range(format).value;
    && (lo as real <= raw <= hi as real ==> AbsReal(back - value) <= AbsReal(scale) / 2.0)
    && (raw < lo as real ==> back == Engineering(lo, scale, offset))
    && (raw > hi as real ==> back == Engineering(hi, scale, offset))
  }

  /** Decode after encode, for every integer datatype, word order, value and scale but 0. */
  lemma ReadBackAccuracy(format: Format, value: real, raw: real, little: bool, scale: real, offset: real, back: real)
    requires IsInteger(format) && scale != 0.0
    requires raw == ToRaw(value, scale, offset)
    requires ReadBack(format, raw, little, scale, offset) == Success(back)
    ensures Accurate(format, value, raw, scale, offset, back)
  {
    assert raw * scale == value - offset by {
      ToRawInverts(value, scale, offset);
    }
    RawAccuracy(format, value, raw, little, scale, offset, back);
  }

  lemma RawAccuracy(format: Format, value: real, raw: real, little: bool, scale: real, offset: real, back: real)
    requires IsInteger(format) && raw * scale == value - offset
    requires ReadBack(format, raw, little, scale, offset) == Success(back)
    ensures Accurate(format, value, raw, scale, offset, back)
  {
    ReadBackIsStored(format, raw, little, scale, offset);
    StoredAccuracy(format, raw, scale, offset, value);
  }

  lemma StoredAccuracy(format: Format, raw: real, scale: real, offset: real, value: real)
    requires IsInteger(format) && raw * scale == value - offset
    ensures Accurate(format, value, raw, scale, offset, Engineering(Stored(format, raw), scale, offset))
  {
    var (lo, hi) := Range(format).value;
    var n := Stored(format, raw);
    SaturatedRound(raw, lo, hi);
    if raw < lo as real {
      assert n == lo;
    } else if raw > hi as real {
      assert n == hi;
    } else {
      HalfStep(n, raw, scale, offset, value);
    }
  }

  /** Rounding then saturating: nearest in range, the end of the range outside. */
  lemma SaturatedRound(raw: real, lo: int, hi: int)
    requires lo <= hi
    ensures lo as real <= raw <= hi as real ==> -0.5 <= Clamp(Round(raw), lo, hi) as real - raw <= 0.5
    ensures raw < lo as real ==> Clamp(Round(raw), lo, hi) == lo
    ensures raw > hi as real ==> Clamp(Round(raw), lo, hi) == hi
  {
    RoundNearest(raw);
  }

  lemma ToRawInverts(value: real, scale: real, offset: real)
    requires scale != 0.0
    ensures ToRaw(value, scale, offset) * scale == value - offset
  {
  }

  lemma HalfStep(n: int, raw: real, scale: real, offset: real, value: real)
    requires raw * scale == value - offset
    requires -0.5 <= n as real - raw <= 0.5
    ensures AbsReal(Engineering(n, scale, offset) - value) <= AbsReal(scale) / 2.0
  {
    assert (n as real - raw) * scale == n as real * scale - raw * scale;
    ScaledHalf(n as real - raw, Engineering(n, scale, offset) - value, scale);
  }

  lemma ScaledHalf(d: real, product: real, scale: real)
    requires -0.5 <= d <= 0.5 && product == d * scale
    ensures AbsReal(product) <= AbsReal(scale) / 2.0
  {
    if scale >= 0.0 {
      assert -0.5 * scale <= d * scale <= 0.5 * scale;
    } else {
      assert 0.5 * scale <= d * scale <= -0.5 * scale;
    }
  }

  /**
   Writing the read-back value writes the same words again, exactly when the scale is not 0 or the raw
   value already saturates to 0: with scale 0 every read-back is the offset.
   */
  lemma ReEncodeStable(format: Format, value: real, raw: real, little: bool, scale: real, offset: real, back: real)
    requires IsInteger(format)
    requires raw == ToRaw(value, scale, offset)
    requires ReadBack(format, raw, little, scale, offset) == Success(back)
    ensures EncodeWords(format, ToRaw(back, scale, offset), little) == EncodeWords(format, raw, little)
            <==> scale != 0.0 || Stored(format, value - offset) == 0
  {
    ReadBackIsStored(format, raw, little, scale, offset);
    RawOfReadBack(Stored(format, raw), scale, offset, back);
    RoundInteger(Stored(format, raw));
    RoundInteger(0);
    SameRawSameWords(format, ToRaw(back, scale, offset), raw, little);
  }

  /** A raw value read back converts to itself, or to 0 under a zero scale. */
  lemma RawOfReadBack(n: int, scale: real, offset: real, back: real)
    requires back == Engineering(n, scale, offset)
    ensures ToRaw(back, scale, offset) == if scale == 0.0 then 0.0 else n as real
  {
    if scale != 0.0 {
      assert back - offset == n as real * scale;
    }
  }

  /** The words determine, and are determined by, the rounded and saturated raw value. */
  lemma SameRawSameWords(format: Format, a: real, b: real, little: bool)
    requires IsInteger(format)
    ensures EncodeWords(format, a, little) == EncodeWords(format, b, little)
            <==> Stored(format, a) == Stored(format, b)
  {
    RawRoundTrip(format, a, little);
    RawRoundTrip(format, b, little);
  }
}
