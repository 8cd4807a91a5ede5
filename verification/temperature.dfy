/** The DS18B20 temperature register decode of btrd.go (`ConvertTemp`).
    Every value it produces is an exact multiple of 1/16 of a degree Celsius,
    so the model counts in sixteenths of a degree and needs no floating point:
    a result `t` stands for the float64 `t / 16`. */
module Temperature {
  import opened Wrappers

  /** Sixteenths of a degree, as Go computes them with byte arithmetic:
      the sign is bit 7 of `msb`; `msb << 4` is truncated to a byte before the
      `& 127` mask, so only bits 0-2 of `msb` reach the integer part. */
  function ConvertTemp(msb: Byte, lsb: Byte): int
  {
    var tsign := msb >> 7;
    var tremain := (lsb & 15) as int;               // (lsb & 15) * 0.0625 degrees
    var tcom := ((msb << 4) & 127) | (lsb >> 4);
    var temp := tcom as int * 16 + tremain;
    if tsign == 1 then temp - 128 * 16 else temp    // -(128 - temp)
  }

  /** The register as a signed 16-bit two's-complement number, `msb` high. */
  function Int16(msb: Byte, lsb: Byte): (v: int)
    ensures -0x8000 <= v < 0x8000
    ensures v < 0 <==> msb >= 0x80
  {
    var u := msb as int * 256 + lsb as int;
    if u >= 0x8000 then u - 0x10000 else u
  }

  /** The register is sign-extended: bits 3-7 of `msb` (bits 11-15 of the
      register) all agree, as the DS18B20 always delivers them. */
  predicate SignExtended(msb: Byte)
  {
    msb & 0xF8 == 0 || msb & 0xF8 == 0xF8
  }

  /** In closed form: bits 0-2 of `msb` and all of `lsb` give eleven bits of
      magnitude, and bit 7 of `msb` subtracts 128 degrees. */
  lemma Sixteenths(msb: Byte, lsb: Byte)
    ensures ConvertTemp(msb, lsb) == (msb & 7) as int * 256 + lsb as int - (if msb >= 0x80 then 2048 else 0)
  {
  }

  /** The result lies in [0, 127.9375] degrees when bit 7 of `msb` is clear
      and in [-128, -0.0625] when it is set. */
  lemma Range(msb: Byte, lsb: Byte)
    ensures msb < 0x80 ==> 0 <= ConvertTemp(msb, lsb) <= 2047
    ensures msb >= 0x80 ==> -2048 <= ConvertTemp(msb, lsb) <= -1
  {
    Sixteenths(msb, lsb);
  }

  /** Bits 3-6 of `msb` never influence the result. */
  lemma IgnoresMiddleBits(msb: Byte, lsb: Byte)
    ensures ConvertTemp(msb, lsb) == ConvertTemp(msb & 0x87, lsb)
  {
    Sixteenths(msb, lsb);
    Sixteenths(msb & 0x87, lsb);
  }

  /** For a sign-extended register the decode is the register's two's-complement
      value, i.e. the datasheet reading in sixteenths of a degree. */
  lemma MatchesInt16(msb: Byte, lsb: Byte)
    requires SignExtended(msb)
    ensures ConvertTemp(msb, lsb) == Int16(msb, lsb)
  {
    Sixteenths(msb, lsb);
  }

  /** Every 12-bit reading from -128 to 127.9375 degrees is produced by some
      sign-extended register: the decode is onto that range. */
  lemma Onto(v: int)
    requires -2048 <= v < 2048
    ensures exists msb: Byte, lsb: Byte :: SignExtended(msb) && ConvertTemp(msb, lsb) == v
  {
    var u := if v < 0 then v + 0x10000 else v;
    var h, l := u / 256, u % 256;
    Digits(v, h, l);
    var msb, lsb := h as Byte, l as Byte;
    HighByte(h);
    LowByte(l);
    Sixteenths(msb, lsb);
    assert SignExtended(msb) && ConvertTemp(msb, lsb) == v;
  }

  /** A sign-extended high byte: bits 0-2 as a number, and bit 7 set exactly
      for the high bytes of negative readings. */
  lemma HighByte(h: int)
    requires 0 <= h < 8 || 248 <= h < 256
    ensures SignExtended(h as Byte)
    ensures (h as Byte & 7) as int == h % 8
    ensures h as Byte >= 0x80 <==> h >= 248
  {
  }

  /** The two bytes of the 16-bit two's-complement form of a 12-bit reading. */
  lemma Digits(v: int, h: int, l: int)
    requires -2048 <= v < 2048
    requires h == (if v < 0 then v + 0x10000 else v) / 256
    requires l == (if v < 0 then v + 0x10000 else v) % 256
    ensures 0 <= h < 8 || 248 <= h < 256
    ensures 0 <= l < 256
    ensures (h % 8) * 256 + l - (if h >= 248 then 2048 else 0) == v
  {
  }

  lemma LowByte(l: int)
    requires 0 <= l < 256
    ensures (l as Byte) as int == l
  {
    if l < 128 {
      if l < 64 {} else {}
    } else {
      if l < 192 {} else {}
    }
  }

  /** ... and by only one: the decode is one-to-one on sign-extended registers. */
  lemma Injective(msb1: Byte, lsb1: Byte, msb2: Byte, lsb2: Byte)
    requires SignExtended(msb1) && SignExtended(msb2)
    requires ConvertTemp(msb1, lsb1) == ConvertTemp(msb2, lsb2)
    ensures msb1 == msb2 && lsb1 == lsb2
  {
    MatchesInt16(msb1, lsb1);
    MatchesInt16(msb2, lsb2);
    Int16Unsigned(msb1, lsb1, msb2, lsb2);
    TwoDigits(msb1 as int, lsb1 as int, msb2 as int, lsb2 as int);
    SameValue(msb1, msb2);
    SameValue(lsb1, lsb2);
  }

  lemma Int16Unsigned(msb1: Byte, lsb1: Byte, msb2: Byte, lsb2: Byte)
    requires Int16(msb1, lsb1) == Int16(msb2, lsb2)
    ensures msb1 as int * 256 + lsb1 as int == msb2 as int * 256 + lsb2 as int
  {
  }

  lemma TwoDigits(h1: int, l1: int, h2: int, l2: int)
    requires 0 <= l1 < 256 && 0 <= l2 < 256
    requires h1 * 256 + l1 == h2 * 256 + l2
    ensures h1 == h2 && l1 == l2
  {
  }

  lemma SameValue(a: Byte, b: Byte)
    requires a as int == b as int
    ensures a == b
  {
  }

  /** Worked examples, as the code computes them: 0x0191 is +25.0625 degrees,
      0x1901 is 16.0625 (bits 3-6 of 0x19 are dropped), 0x9100 is -112,
      and the datasheet's 0x07D0 (+125), 0xFE6F (-25.0625), 0xFFF8 (-0.5) and
      0xFC90 (-55). */
  lemma Examples()
    ensures ConvertTemp(0x01, 0x91) == 401
    ensures ConvertTemp(0x19, 0x01) == 257
    ensures ConvertTemp(0x91, 0x00) == -1792
    ensures ConvertTemp(0x07, 0xD0) == 2000
    ensures ConvertTemp(0xFE, 0x6F) == -401
    ensures ConvertTemp(0xFF, 0xF8) == -8
    ensures ConvertTemp(0xFC, 0x90) == -880
  {
  }
}
