/** G.711 A-law samples (src/codec/pcma.rs).

    A code word is a sign bit, a three-bit exponent and a four-bit mantissa, with the even bits
    toggled for transmission. As in the source, a set sign bit means a negative sample in both
    directions. */
module Pcma {
  import opened Bits
  import opened CodeWord
  import Segments

  const TOGGLE: u8 := 0x55

  /** `decode_alaw_sample`: shifts and masks as written. */
  function DecodeSample(byte: u8): i16 {
    var word := Xor(byte, TOGGLE);
    Expand(And(word, 0x80) != 0, And(Shr(word, 4), 0x07), And(word, 0x0F))
  }

  function Expand(sign: bool, exponent: nat, mantissa: nat): i16 {
    var magnitude :=
      if exponent == 0 then Or(Shl(mantissa, 1), 1)
      else Shl(Or(Shl(mantissa, 1), 0x21), exponent - 1);
    ToI16(Signed(sign, ToI16(Shl(magnitude, 3))))
  }

  /** The seven magnitude bits of the code word for `magnitude`: sixteen linear steps of 16, then
      the logarithmic scale, saturated at thirteen bits. */
  function MagnitudeCode(magnitude: nat): (c: nat)
  {
    var half := (if magnitude / 8 > 4095 then 4095 else magnitude / 8) / 2;
    if half < 16 then half else 16 + Segments.Code(half)
  }

  /** The magnitude that seven bits stand for. */
  function Level(c: nat): nat {
    if c < 16 then 8 * (2 * c + 1) else 8 * Segments.TwiceMid(c - 16)
  }

  lemma MagnitudeCodeBound(magnitude: nat)
    ensures MagnitudeCode(magnitude) < 128
  {
    var half := (if magnitude / 8 > 4095 then 4095 else magnitude / 8) / 2;
    if half >= 16 {
      assert Pow2(7) == 128;
      Segments.CodeBelow(half, 7);
    }
  }

  function EncodeSample(sample: i16): (byte: u8)
  {
    var c := MagnitudeCode(Abs(sample));
    MagnitudeCodeBound(Abs(sample));
    XorByte(if sample < 0 then 128 + c else c);
    Xor(if sample < 0 then 128 + c else c, TOGGLE)
  }

  lemma XorByte(word: nat)
    requires word < 256
    ensures Xor(word, TOGGLE) < 256 && Xor(Xor(word, TOGGLE), TOGGLE) == word
  {
    assert Pow2(8) == 256;
    XorBound(word, TOGGLE, 8);
    XorInvolution(word, TOGGLE);
  }

  /** The exponent search of `encode_alaw_sample`: it stops with the thirteen-bit magnitude
      shifted right by `exp` between 16 and 32. */
  method SearchExponent(sample: nat) returns (exp: nat, seg: nat)
    requires 32 <= sample <= 4095
    ensures 1 <= exp <= 7 && seg == Shr(sample, exp) && 16 <= seg < 32
    ensures Segments.Code(sample / 2) == 16 * (exp - 1) + (seg - 16)
  {
    exp, seg := 1, Shr(sample, 1);
    ShortShifts(sample);
    assert Pow2(11) == 2048;
    while seg >= 32 && exp < 7
      invariant 1 <= exp <= 7
      invariant seg == Shr(sample, exp)
      invariant 16 <= seg < Pow2(12 - exp)
      invariant Segments.Code(sample / 2) == 16 * (exp - 1) + Segments.Code(seg)
    {
      ShrOnce(sample, exp);
      seg := seg / 2;
      exp := exp + 1;
    }
    assert Pow2(5) == 32;
  }

  /** Exponent and mantissa of a magnitude: scale to thirteen bits, clip, then search. */
  method CompressMagnitude(magnitude: nat) returns (exponent: nat, mantissa: nat)
    ensures exponent <= 7 && mantissa <= 15
    ensures MagnitudeCode(magnitude) == 16 * exponent + mantissa
  {
    hide Shl;
    hide Shr;
    hide And;
    ShortShifts(magnitude);
    var sample := Shr(magnitude, 3);
    if sample > 4095 {
      sample := 4095;
    }
    ShortShifts(sample);
    if sample < 32 {
      exponent, mantissa := 0, Shr(sample, 1);
    } else {
      var exp, seg := SearchExponent(sample);
      LowNibble(seg - 16);
      exponent, mantissa := exp, And(seg - 16, 0x0F);
    }
  }

  /** `encode_alaw_sample` as written. */
  method EncodeSampleBySearch(input: i16) returns (byte: u8)
    ensures byte == EncodeSample(input)
  {
    hide Or;
    hide Xor;
    hide MagnitudeCode;
    var sign, sample: nat := 0, 0;
    if input < 0 {
      sign, sample := 0x80, 0 - input;
    } else {
      sign, sample := 0, input;
    }
    var exponent, mantissa := CompressMagnitude(sample);
    PackFields(sign, exponent, mantissa);
    XorByte(sign + 16 * exponent + mantissa);
    byte := Xor(Or(Or(sign, Shl(exponent, 4)), mantissa), TOGGLE);
  }

  lemma {:induction false} LevelBound(c: nat)
    requires c < 128
    ensures 8 <= Level(c) <= 32256
  {
    if c >= 16 {
      Segments.Shape(c - 16);
      Segments.TwiceMidMonotone(c - 16, 111);
      assert Segments.TwiceMid(111) == 63 * 64;
    }
  }

  lemma ExpandMeaning(sign: bool, exponent: nat, mantissa: nat)
    requires exponent < 8 && mantissa < 16
    ensures Expand(sign, exponent, mantissa) == Signed(sign, Level(16 * exponent + mantissa))
  {
    hide Or;
    hide ToI16;
    var c := 16 * exponent + mantissa;
    ImplicitBits(mantissa);
    LevelBound(c);
    if exponent > 0 {
      Segments.TwiceMidByShift(exponent - 1, mantissa);
      ShortShifts(Segments.TwiceMid(c - 16));
    } else {
      ShortShifts(2 * mantissa + 1);
    }
    ToI16Fits(Level(c));
    ToI16Fits(Signed(sign, Level(c)));
  }

  /** What the shifts and masks of the decoder compute. */
  lemma DecodeMeaning(byte: u8, word: nat)
    requires word < 256 && Xor(byte, TOGGLE) == word
    ensures DecodeSample(byte) == Signed(word >= 128, Level(word % 128))
  {
    hide Xor;
    hide And;
    hide Shr;
    hide Level;
    hide Expand;
    UnpackFields(word);
    var exponent, mantissa := (word / 16) % 8, word % 16;
    ExpandMeaning(word >= 128, exponent, mantissa);
  }

  /** Re-encoding a level restores its seven bits. */
  lemma CodeOfLevel(c: nat)
    requires c < 128
    ensures MagnitudeCode(Level(c)) == c
  {
    LevelBound(c);
    if c >= 16 {
      Segments.CodeOfMid(c - 16);
    }
  }

  /** No information is lost on the way through linear samples. */
  lemma EncodeInvertsDecode(byte: u8)
    ensures EncodeSample(DecodeSample(byte)) == byte
  {
    hide Xor;
    hide DecodeSample;
    XorByte(byte);
    var word := Xor(byte, TOGGLE);
    DecodeMeaning(byte, word);
    LevelBound(word % 128);
    CodeOfLevel(word % 128);
  }

  /** The quantised sample: one trip through the encoder and the decoder. */
  lemma QuantisedSample(sample: i16)
    ensures DecodeSample(EncodeSample(sample)) == Signed(sample < 0, Level(MagnitudeCode(Abs(sample))))
  {
    hide Xor;
    hide DecodeSample;
    hide MagnitudeCode;
    var c := MagnitudeCode(Abs(sample));
    MagnitudeCodeBound(Abs(sample));
    var word := if sample < 0 then 128 + c else c;
    XorByte(word);
    DecodeMeaning(EncodeSample(sample), word);
  }

  /** The quantisation error of a magnitude is at most 8, or a thirty-second of it. */
  lemma LevelError(magnitude: nat)
    requires magnitude <= 0x8000
    ensures 32 * Abs(Level(MagnitudeCode(magnitude)) - magnitude) <= if magnitude < 256 then 256 else magnitude
  {
    var half := (if magnitude / 8 > 4095 then 4095 else magnitude / 8) / 2;
    if half >= 16 {
      Segments.Bracket(half);
      Segments.Shape(Segments.Code(half));
      if magnitude == 0x8000 {
        assert Pow2(6) == 64;
        Segments.CodeByShift(2047, 6);
        Segments.TwiceMidByShift(6, 15);
      }
    }
  }

  lemma LevelMonotone(a: nat, b: nat)
    requires a <= b
    ensures MagnitudeCode(a) <= MagnitudeCode(b)
    ensures Level(MagnitudeCode(a)) <= Level(MagnitudeCode(b))
  {
    var ha := (if a / 8 > 4095 then 4095 else a / 8) / 2;
    var hb := (if b / 8 > 4095 then 4095 else b / 8) / 2;
    if ha >= 16 {
      Segments.CodeMonotone(ha, hb);
      Segments.TwiceMidMonotone(Segments.Code(ha), Segments.Code(hb));
    } else if hb >= 16 {
      Segments.Shape(Segments.Code(hb));
    }
  }

  /** Quantisation keeps the order of samples, across the sign change too. */
  lemma QuantisationMonotone(a: i16, b: i16)
    requires a <= b
    ensures DecodeSample(EncodeSample(a)) <= DecodeSample(EncodeSample(b))
  {
    hide DecodeSample;
    hide EncodeSample;
    hide MagnitudeCode;
    hide Level;
    QuantisedSample(a);
    QuantisedSample(b);
    if a >= 0 {
      LevelMonotone(a, b);
    } else if b < 0 {
      LevelMonotone(Abs(b), Abs(a));
    }
  }

  // ----- The wire format, bit by bit -----

  /** The three exponent bits on the wire: positions 6 and 4 come complemented. */
  function WireExponent(byte: u8): nat {
    (1 - (byte / 16) % 2) + 2 * ((byte / 32) % 2) + 4 * (1 - (byte / 64) % 2)
  }

  /** The four mantissa bits on the wire: positions 2 and 0 come complemented. */
  function WireMantissa(byte: u8): nat {
    (1 - byte % 2) + 2 * ((byte / 2) % 2) + 4 * (1 - (byte / 4) % 2) + 8 * ((byte / 8) % 2)
  }

  /** Where the interval of exponent `e` and mantissa `m` starts: sixteen steps of 16, then octaves of
      sixteen steps, each octave twice as coarse as the one before. */
  function WireFloor(e: nat, m: nat): nat {
    if e == 0 then 16 * m else (256 + 16 * m) * Pow2(e - 1)
  }

  function WireStep(e: nat): nat {
    if e == 0 then 16 else 16 * Pow2(e - 1)
  }

  /** The decoder from the bits of the byte alone: the sign is negative exactly in the upper half, and
      the magnitude is the middle of the interval the other bits name. */
  lemma DecodeWire(byte: u8)
    ensures DecodeSample(byte) < 0 <==> byte >= 128
    ensures Abs(DecodeSample(byte)) == WireFloor(WireExponent(byte), WireMantissa(byte)) + WireStep(WireExponent(byte)) / 2
  {
    hide Xor;
    hide DecodeSample;
    hide Level;
    var e, m := WireExponent(byte), WireMantissa(byte);
    ToggledBits(byte);
    hide WireExponent;
    hide WireMantissa;
    DecodeMeaning(byte, 128 * (byte / 128) + 16 * e + m);
    LevelBound(16 * e + m);
    LevelOnWire(e, m);
  }

  lemma LevelOnWire(e: nat, m: nat)
    requires e < 8 && m < 16
    ensures Level(16 * e + m) == WireFloor(e, m) + WireStep(e) / 2
  {
    if e > 0 {
      Segments.ClosedForm(e - 1, m);
      hide Segments.TwiceMid;
      hide Pow2;
      var p := Pow2(e - 1);
      Distribute(m, p);
    }
  }

  lemma Distribute(m: nat, p: nat)
    ensures 8 * ((2 * m + 33) * p) == (256 + 16 * m) * p + 8 * p
    ensures (256 + 16 * m) * p == 16 * ((16 + m) * p)
  {
  }

  /** The encoder in the bits of the byte alone: the sign, and the interval that holds the magnitude.
      Only the magnitude of the most negative sample lies beyond the last interval. */
  lemma EncodeWire(sample: i16)
    ensures var byte := EncodeSample(sample);
            var e, m := WireExponent(byte), WireMantissa(byte);
            && (byte >= 128 <==> sample < 0)
            && e < 8 && m < 16
            && WireFloor(e, m) <= Abs(sample)
            && (Abs(sample) < WireFloor(e, m) + WireStep(e) || (sample == -0x8000 && e == 7 && m == 15))
  {
    hide Xor;
    hide MagnitudeCode;
    var byte, c := EncodeSample(sample), MagnitudeCode(Abs(sample));
    MagnitudeCodeBound(Abs(sample));
    XorByte(if sample < 0 then 128 + c else c);
    ToggledBits(byte);
    var e, m := WireExponent(byte), WireMantissa(byte);
    hide WireExponent;
    hide WireMantissa;
    hide EncodeSample;
    assert c == 16 * e + m;
    CodeOnWire(Abs(sample), e, m);
  }

  lemma CodeOnWire(magnitude: nat, e: nat, m: nat)
    requires magnitude <= 0x8000 && e < 8 && m < 16 && MagnitudeCode(magnitude) == 16 * e + m
    ensures WireFloor(e, m) <= magnitude
    ensures magnitude < WireFloor(e, m) + WireStep(e) || (magnitude == 0x8000 && e == 7 && m == 15)
  {
    var half := (if magnitude / 8 > 4095 then 4095 else magnitude / 8) / 2;
    if e > 0 {
      var p := Pow2(e - 1);
      Segments.Bracket(half);
      Segments.ClosedForm(e - 1, m);
      Distribute(m, p);
      assert (16 + m) * p <= half < (16 + m) * p + p;
      if magnitude == 0x8000 {
        assert Pow2(6) == 64;
        Segments.CodeByShift(2047, 6);
      }
    }
  }

  lemma XorStep(a: nat, b: nat)
    ensures Xor(a, b) == 2 * Xor(a / 2, b / 2) + (if a % 2 != b % 2 then 1 else 0)
  {
    assert Xor(0, 0) == 0;
  }

  /** A toggled bit is complemented, any other is kept. */
  lemma XorAppend(a: nat, b: nat, x: nat)
    requires x < 2
    ensures Xor(2 * a + x, 2 * b) == 2 * Xor(a, b) + x
    ensures Xor(2 * a + x, 2 * b + 1) == 2 * Xor(a, b) + (1 - x)
  {
    hide Xor;
    assert (2 * a + x) / 2 == a && (2 * a + x) % 2 == x;
    XorStep(2 * a + x, 2 * b);
    XorStep(2 * a + x, 2 * b + 1);
  }

  /** What toggling does to each of eight bits. */
  lemma ToggledWord(b7: nat, b6: nat, b5: nat, b4: nat, b3: nat, b2: nat, b1: nat, b0: nat)
    requires b7 < 2 && b6 < 2 && b5 < 2 && b4 < 2 && b3 < 2 && b2 < 2 && b1 < 2 && b0 < 2
    ensures Xor(128 * b7 + 64 * b6 + 32 * b5 + 16 * b4 + 8 * b3 + 4 * b2 + 2 * b1 + b0, TOGGLE)
            == 128 * b7 + 64 * (1 - b6) + 32 * b5 + 16 * (1 - b4) + 8 * b3 + 4 * (1 - b2) + 2 * b1 + (1 - b0)
  {
    hide Xor;
    var w6 := 2 * b7 + b6;
    var w5 := 2 * w6 + b5;
    var w4 := 2 * w5 + b4;
    var w3 := 2 * w4 + b3;
    var w2 := 2 * w3 + b2;
    var w1 := 2 * w2 + b1;
    XorAppend(0, 0, 0);
    XorAppend(0, 0, b7);
    XorAppend(b7, 0x00, b6);
    XorAppend(w6, 0x01, b5);
    XorAppend(w5, 0x02, b4);
    XorAppend(w4, 0x05, b3);
    XorAppend(w3, 0x0A, b2);
    XorAppend(w2, 0x15, b1);
    XorAppend(w1, 0x2A, b0);
  }

  lemma ToggledBits(byte: u8)
    ensures Xor(byte, TOGGLE) == 128 * (byte / 128) + 16 * WireExponent(byte) + WireMantissa(byte)
    ensures WireExponent(byte) < 8 && WireMantissa(byte) < 16
  {
    hide Xor;
    Halves(byte);
    ToggledWord(byte / 128, (byte / 64) % 2, (byte / 32) % 2, (byte / 16) % 2,
                (byte / 8) % 2, (byte / 4) % 2, (byte / 2) % 2, byte % 2);
  }

  lemma Halves(n: nat)
    ensures n == 128 * (n / 128) + 64 * ((n / 64) % 2) + 32 * ((n / 32) % 2) + 16 * ((n / 16) % 2)
                 + 8 * ((n / 8) % 2) + 4 * ((n / 4) % 2) + 2 * ((n / 2) % 2) + n % 2
  {
    FourHalves(n);
    ThreeHalves(n / 16);
    assert n / 16 / 2 == n / 32 && n / 16 / 4 == n / 64 && n / 16 / 8 == n / 128;
  }

  lemma FourHalves(n: nat)
    ensures n == 16 * (n / 16) + 8 * ((n / 8) % 2) + 4 * ((n / 4) % 2) + 2 * ((n / 2) % 2) + n % 2
  {
    ThreeHalves(n);
    assert n / 8 == 2 * (n / 16) + (n / 8) % 2;
  }

  lemma ThreeHalves(n: nat)
    ensures n == 8 * (n / 8) + 4 * ((n / 4) % 2) + 2 * ((n / 2) % 2) + n % 2
  {
    assert n / 2 == 2 * (n / 4) + (n / 2) % 2;
    assert n / 4 == 2 * (n / 8) + (n / 4) % 2;
  }
}
