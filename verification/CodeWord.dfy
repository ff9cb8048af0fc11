/** The layout both G.711 companders give a code word: sign, three exponent bits, four mantissa
    bits. */
module CodeWord {
  import opened Bits

  lemma LowNibble(x: nat)
    ensures And(x, 0x0F) == x % 16
  {
    assert Pow2(4) == 16;
    AndLowMask(x, 4);
  }

  /** Sign, exponent and mantissa do not overlap in a code word. */
  lemma PackFields(sign: nat, exponent: nat, mantissa: nat)
    requires sign == 0 || sign == 0x80
    requires exponent <= 7 && mantissa <= 15
    ensures Or(Or(sign, Shl(exponent, 4)), mantissa) == sign + 16 * exponent + mantissa
  {
    hide Or;
    assert Pow2(4) == 16 && Pow2(7) == 128;
    var high := if sign == 0 then exponent else 8 + exponent;
    ShortShifts(1);
    ShortShifts(exponent);
    ShortShifts(high);
    OrZero(16 * exponent);
    OrDisjoint(1, 16 * exponent, 7);
    OrDisjoint(high, mantissa, 4);
  }

  /** The masks of the decoders take a code word apart again. */
  lemma UnpackFields(word: nat)
    requires word < 256
    ensures And(word, 0x80) != 0 <==> word >= 128
    ensures And(Shr(word, 4), 0x07) == (word / 16) % 8
    ensures And(word, 0x0F) == word % 16
    ensures word % 128 == 16 * ((word / 16) % 8) + word % 16
  {
    hide And;
    hide Shr;
    hide Shl;
    SignBit(word);
    assert Pow2(3) == 8;
    ShortShifts(word);
    AndLowMask(word / 16, 3);
    LowNibble(word);
    FieldsOfWord(word);
  }

  lemma SignBit(word: nat)
    requires word < 256
    ensures And(word, 0x80) != 0 <==> word >= 128
  {
    hide And;
    hide Shr;
    hide Shl;
    ShortShifts(1);
    ShortShifts(word);
    ShortShifts(word / 128);
    AndSingleBit(word, 7);
  }

  lemma FieldsOfWord(word: nat)
    requires word < 256
    ensures word % 128 == 16 * ((word / 16) % 8) + word % 16
  {
  }

  /** The implicit leading one and the half-step bit of the decoders: `(m << 1) | 0x21`. */
  lemma ImplicitBits(mantissa: nat)
    requires mantissa < 16
    ensures Or(Shl(mantissa, 1), 0x21) == 2 * mantissa + 33
    ensures Or(Shl(mantissa, 1), 1) == 2 * mantissa + 1
  {
    hide Or;
    assert Pow2(4) == 16;
    ShortShifts(mantissa);
    ShortShifts(1);
    OrDisjoint(1, mantissa, 4);
    OrZero(mantissa);
    OrStep(2 * mantissa, 0x21);
    OrStep(2 * mantissa, 1);
  }
}
