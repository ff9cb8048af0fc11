/** G.711 mu-law samples (src/codec/pcmu.rs).

    The magnitude is clipped and biased so that the logarithmic scale starts at the bias, and all
    bits of the code word are inverted for transmission. */
module Pcmu {
  import opened Bits
  import opened CodeWord
  import Segments

  const BIAS := 0x84
  const CLIP := 32635

  /** `decode_ulaw_sample`: shifts and masks as written. */
  function DecodeSample(byte: u8): i16 {
    var word := 0xFF - byte;
    Expand(And(word, 0x80) != 0, And(Shr(word, 4), 0x07), And(word, 0x0F))
  }

  function Expand(sign: bool, exponent: nat, mantissa: nat): i16 {
    var magnitude := Shl(Or(Shl(mantissa, 1), 0x21), exponent + 2) - BIAS;
    ToI16(Signed(sign, ToI16(magnitude)))
  }

  /** The seven magnitude bits of the code word for `magnitude`. */
  function MagnitudeCode(magnitude: nat): nat {
    Segments.Code(((if magnitude > CLIP then CLIP else magnitude) + BIAS) / 8)
  }

  /** The magnitude that seven bits stand for. */
  function Level(c: nat): (level: nat) {
    Segments.Shape(c);
    4 * Segments.TwiceMid(c) - BIAS
  }

  lemma MagnitudeCodeBound(magnitude: nat)
    ensures MagnitudeCode(magnitude) < 128
  {
    assert Pow2(8) == 256;
    Segments.CodeBelow(((if magnitude > CLIP then CLIP else magnitude) + BIAS) / 8, 8);
  }

  function EncodeSample(sample: i16): (byte: u8)
  {
    var c := MagnitudeCode(Abs(sample));
    MagnitudeCodeBound(Abs(sample));
    0xFF - (if sample < 0 then 128 + c else c)
  }

  /** The exponent of a biased sample, from the leading zeros of its 32-bit form. */
  function ExponentByLeadingZeros(biased: nat): int {
    var zeros := 32 - BitLength(biased) - 17;
    7 - (if zeros < 0 then 0 else if zeros > 7 then 7 else zeros)
  }

  /** An interval of the scale is determined by the bit length and the five leading bits. */
  lemma {:induction false} LeadingBits(q: nat)
    requires q >= 16
    ensures BitLength(q) == 5 + Segments.Code(q) / 16
    ensures Shr(q, Segments.Code(q) / 16) == 16 + Segments.Code(q) % 16
  {
    if q < 32 {
      assert Pow2(4) == 16 && Pow2(5) == 32;
      BitLengthBracket(q, 4);
    } else {
      LeadingBits(q / 2);
    }
  }

  /** Counting leading zeros finds the octave of the biased sample. */
  lemma LeadingZerosFindOctave(biased: nat)
    requires 0x80 <= biased < 0x8000
    ensures var e := ExponentByLeadingZeros(biased);
            0 <= e <= 7 && Segments.Code(biased / 8) == 16 * e + Shr(biased, e + 3) % 16
  {
    hide Shr;
    assert Pow2(8) == 256;
    Segments.CodeBelow(biased / 8, 8);
    LeadingBits(biased / 8);
    assert BitLength(biased) == 3 + BitLength(biased / 8) by {
      assert biased / 8 == biased / 2 / 2 / 2;
      assert BitLength(biased) == 1 + BitLength(biased / 2);
      assert BitLength(biased / 2) == 1 + BitLength(biased / 2 / 2);
    }
    ShrSplit(biased, Segments.Code(biased / 8) / 16);
  }

  lemma ShrSplit(x: nat, n: nat)
    ensures Shr(x, n + 3) == Shr(x / 8, n)
  {
    assert x / 2 / 2 / 2 == x / 8;
    assert Shr(x, n + 3) == Shr(x / 2, n + 2) == Shr(x / 2 / 2, n + 1) == Shr(x / 2 / 2 / 2, n);
  }

  /** `encode_ulaw_sample` as written. */
  method EncodeSampleByLeadingZeros(input: i16) returns (byte: u8)
    ensures byte == EncodeSample(input)
  {
    hide Or;
    hide Shr;
    hide Shl;
    hide And;
    hide ExponentByLeadingZeros;
    var sign, sample: nat := 0, 0;
    if input < 0 {
      sign, sample := 0x80, 0 - input;
    } else {
      sign, sample := 0, input;
    }
    if sample > CLIP {
      sample := CLIP;
    }
    sample := sample + BIAS;
    LeadingZerosFindOctave(sample);
    var exponent := ExponentByLeadingZeros(sample);
    LowNibble(Shr(sample, exponent + 3));
    var mantissa := And(Shr(sample, exponent + 3), 0x0F);
    PackFields(sign, exponent, mantissa);
    byte := 0xFF - Or(Or(sign, Shl(exponent, 4)), mantissa);
  }

  lemma LevelBound(c: nat)
    requires c < 128
    ensures Level(c) <= 32124
    ensures Level(c) == 0 <==> c == 0
  {
    Segments.TwiceMidMonotone(c, 127);
    assert Segments.TwiceMid(127) == 63 * 128;
    if c > 0 {
      Segments.TwiceMidMonotone(1, c);
    }
  }

  lemma ExpandMeaning(sign: bool, exponent: nat, mantissa: nat)
    requires exponent < 8 && mantissa < 16
    ensures Expand(sign, exponent, mantissa) == Signed(sign, Level(16 * exponent + mantissa))
  {
    hide Or;
    hide ToI16;
    var c := 16 * exponent + mantissa;
    ImplicitBits(mantissa);
    LevelBound(c);
    Segments.Shape(c);
    Segments.TwiceMidByShift(exponent, mantissa);
    assert Shl(2 * mantissa + 33, exponent + 2) == 2 * Shl(2 * mantissa + 33, exponent + 1);
    ToI16Fits(Level(c));
    ToI16Fits(Signed(sign, Level(c)));
  }

  /** What the shifts and masks of the decoder compute. */
  lemma DecodeMeaning(byte: u8)
    ensures var word := 0xFF - byte;
            DecodeSample(byte) == Signed(word >= 128, Level(word % 128))
  {
    hide And;
    hide Shr;
    hide Level;
    hide Expand;
    var word := 0xFF - byte;
    UnpackFields(word);
    var exponent, mantissa := (word / 16) % 8, word % 16;
    ExpandMeaning(word >= 128, exponent, mantissa);
  }

  /** Re-encoding a level restores its seven bits. */
  lemma CodeOfLevel(c: nat)
    requires c < 128
    ensures MagnitudeCode(Level(c)) == c
  {
    LevelBound(c);
    Segments.Shape(c);
    Segments.CodeOfMid(c);
  }

  /** Negative zero is the only code word that does not survive: it comes back as plain zero. */
  function Canonical(byte: u8): u8 {
    if byte == 0x7F then 0xFF else byte
  }

  lemma EncodeInvertsDecode(byte: u8)
    ensures EncodeSample(DecodeSample(byte)) == Canonical(byte)
  {
    hide DecodeSample;
    hide MagnitudeCode;
    hide Level;
    var word := 0xFF - byte;
    DecodeMeaning(byte);
    LevelBound(word % 128);
    CodeOfLevel(word % 128);
  }

  /** The quantised sample: one trip through the encoder and the decoder. */
  lemma QuantisedSample(sample: i16)
    ensures DecodeSample(EncodeSample(sample)) == Signed(sample < 0, Level(MagnitudeCode(Abs(sample))))
  {
    hide DecodeSample;
    hide MagnitudeCode;
    hide Level;
    MagnitudeCodeBound(Abs(sample));
    DecodeMeaning(EncodeSample(sample));
  }

  /** The quantisation error is at most a thirty-second of the biased magnitude, clipped or not. */
  lemma LevelError(magnitude: nat)
    requires magnitude <= 0x8000
    ensures 32 * Abs(Level(MagnitudeCode(magnitude)) - magnitude) <= magnitude + BIAS
  {
    var q := ((if magnitude > CLIP then CLIP else magnitude) + BIAS) / 8;
    Segments.Bracket(q);
    Segments.Shape(Segments.Code(q));
    if magnitude > CLIP {
      assert q == 4095;
      assert Shr(4095, 7) == 31;
      Segments.CodeByShift(4095, 7);
      assert Segments.TwiceMid(127) == 63 * 128;
    }
  }

  lemma LevelMonotone(a: nat, b: nat)
    requires a <= b
    ensures Level(MagnitudeCode(a)) <= Level(MagnitudeCode(b))
  {
    var qa := ((if a > CLIP then CLIP else a) + BIAS) / 8;
    var qb := ((if b > CLIP then CLIP else b) + BIAS) / 8;
    Segments.CodeMonotone(qa, qb);
    Segments.TwiceMidMonotone(Segments.Code(qa), Segments.Code(qb));
  }

  /** Quantisation keeps the order of samples, across the sign change too. */
  lemma QuantisationMonotone(a: i16, b: i16)
    requires a <= b
    ensures DecodeSample(EncodeSample(a)) <= DecodeSample(EncodeSample(b))
  {
    hide DecodeSample;
    hide EncodeSample;
    hide MagnitudeCode;
    hide Level;
    QuantisedSample(a);
    QuantisedSample(b);
    if a >= 0 {
      LevelMonotone(a, b);
    } else if b < 0 {
      LevelMonotone(Abs(b), Abs(a));
    }
  }

  // ----- The wire format, bit by bit -----

  /** The exponent and the mantissa on the wire: every bit comes complemented. */
  function WireExponent(byte: u8): nat {
    7 - (byte / 16) % 8
  }

  function WireMantissa(byte: u8): nat {
    15 - byte % 16
  }

  /** Where the interval of exponent `e` and mantissa `m` starts, on the scale that begins at 132. */
  function WireFloor(e: nat, m: nat): nat {
    (128 + 8 * m) * Pow2(e)
  }

  function WireStep(e: nat): nat {
    8 * Pow2(e)
  }

  lemma InvertedBits(byte: u8)
    ensures 0xFF - byte == 128 * (1 - byte / 128) + 16 * WireExponent(byte) + WireMantissa(byte)
  {
  }

  lemma Distribute(m: nat, p: nat)
    ensures 4 * ((2 * m + 33) * p) == (128 + 8 * m) * p + 4 * p
    ensures (128 + 8 * m) * p == 8 * ((16 + m) * p)
  {
  }

  lemma LevelOnWire(e: nat, m: nat)
    requires e < 8 && m < 16
    ensures Level(16 * e + m) == WireFloor(e, m) + WireStep(e) / 2 - 132
  {
    Segments.ClosedForm(e, m);
    hide Segments.TwiceMid;
    hide Pow2;
    Distribute(m, Pow2(e));
  }

  /** The decoder from the bits of the byte alone: the lower half is negative or zero, the upper half is
      not negative, and the magnitude is the middle of the interval the other bits name, less the bias. */
  lemma DecodeWire(byte: u8)
    ensures DecodeSample(byte) < 0 <==> byte < 0x7F
    ensures Abs(DecodeSample(byte))
            == WireFloor(WireExponent(byte), WireMantissa(byte)) + WireStep(WireExponent(byte)) / 2 - 132
  {
    hide DecodeSample;
    hide Level;
    var e, m := WireExponent(byte), WireMantissa(byte);
    InvertedBits(byte);
    DecodeMeaning(byte);
    LevelBound(16 * e + m);
    LevelOnWire(e, m);
  }

  /** The encoder in the bits of the byte alone: the sign, and the interval that holds the magnitude,
      clipped at 32635 and biased by 132. */
  lemma EncodeWire(sample: i16)
    ensures var byte := EncodeSample(sample);
            var e, m := WireExponent(byte), WireMantissa(byte);
            && (byte < 128 <==> sample < 0)
            && WireFloor(e, m) <= (if Abs(sample) > 32635 then 32635 else Abs(sample)) + 132 < WireFloor(e, m) + WireStep(e)
  {
    hide MagnitudeCode;
    var byte, c := EncodeSample(sample), MagnitudeCode(Abs(sample));
    MagnitudeCodeBound(Abs(sample));
    InvertedBits(byte);
    var e, m := WireExponent(byte), WireMantissa(byte);
    assert c == 16 * e + m;
    CodeOnWire(Abs(sample), e, m);
  }

  lemma CodeOnWire(magnitude: nat, e: nat, m: nat)
    requires e < 8 && m < 16 && MagnitudeCode(magnitude) == 16 * e + m
    ensures WireFloor(e, m) <= (if magnitude > 32635 then 32635 else magnitude) + 132 < WireFloor(e, m) + WireStep(e)
  {
    var q := ((if magnitude > CLIP then CLIP else magnitude) + BIAS) / 8;
    var p := Pow2(e);
    Segments.Bracket(q);
    Segments.ClosedForm(e, m);
    Distribute(m, p);
    assert (16 + m) * p <= q < (16 + m) * p + p;
  }
}
