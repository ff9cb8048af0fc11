/** Machine words as bounded integers, and shifts, masks and bit counts as arithmetic on them.

    The codecs are written with shifts and masks; every operator below is defined bit by bit, so
    that the code can be transcribed literally and its meaning in plain arithmetic is proved once,
    for every shift distance. */
module Bits {

  type u8 = x: int | 0 <= x < 0x100
  type u16 = x: int | 0 <= x < 0x1_0000
  type u32 = x: int | 0 <= x < 0x1_0000_0000
  type i16 = x: int | -0x8000 <= x < 0x8000

  /** Truncation to sixteen bits, read back as a signed value (`as i16`). */
  function ToI16(x: int): i16 {
    (x + 0x8000) % 0x1_0000 - 0x8000
  }

  lemma ToI16Fits(x: i16)
    ensures ToI16(x) == x
  {
    assert (x + 0x8000) % 0x1_0000 == x + 0x8000;
  }

  function Abs(x: int): nat {
    if x < 0 then 0 - x else x
  }

  /** `magnitude` with the sign of a sign bit. */
  function Signed(negative: bool, magnitude: int): int {
    if negative then 0 - magnitude else magnitude
  }

  function Pow2(k: nat): (r: nat)
    ensures r >= 1
  {
    if k == 0 then 1 else 2 * Pow2(k - 1)
  }

  function Shl(x: nat, k: nat): nat {
    if k == 0 then x else 2 * Shl(x, k - 1)
  }

  function Shr(x: nat, k: nat): nat
    decreases k
  {
    if k == 0 then x else Shr(x / 2, k - 1)
  }

  function And(a: nat, b: nat): nat {
    if a == 0 then 0 else 2 * And(a / 2, b / 2) + (if a % 2 == 1 && b % 2 == 1 then 1 else 0)
  }

  function Or(a: nat, b: nat): nat
    decreases a + b
  {
    if a == 0 && b == 0 then 0
    else 2 * Or(a / 2, b / 2) + (if a % 2 == 1 || b % 2 == 1 then 1 else 0)
  }

  function Xor(a: nat, b: nat): nat
    decreases a + b
  {
    if a == 0 && b == 0 then 0
    else 2 * Xor(a / 2, b / 2) + (if a % 2 != b % 2 then 1 else 0)
  }

  /** Number of significant bits. */
  function BitLength(x: nat): nat {
    if x == 0 then 0 else 1 + BitLength(x / 2)
  }

  lemma {:induction false} ShrOnce(x: nat, k: nat)
    ensures Shr(x, k) / 2 == Shr(x, k + 1)
    decreases k
  {
    if k > 0 {
      ShrOnce(x / 2, k - 1);
    }
  }

  /** The fixed shift distances the codecs use. */
  lemma ShortShifts(x: nat)
    ensures Shl(x, 1) == 2 * x && Shl(x, 2) == 4 * x && Shl(x, 3) == 8 * x
    ensures Shl(x, 4) == 16 * x && Shl(x, 7) == 128 * x
    ensures Shr(x, 1) == x / 2 && Shr(x, 3) == x / 8
    ensures Shr(x, 4) == x / 16 && Shr(x, 7) == x / 128
  {
    assert Shl(x, 1) == 2 * x;
    assert Shl(x, 2) == 4 * x;
    assert Shl(x, 4) == 16 * x;
    assert Shl(x, 6) == 64 * x;
    ShrOnce(x, 0);
    ShrOnce(x, 1);
    ShrOnce(x, 2);
    ShrOnce(x, 3);
    ShrOnce(x, 4);
    ShrOnce(x, 5);
    ShrOnce(x, 6);
  }

  /** A non-zero multiple of a positive `c` lies at least `c` away from zero. */
  lemma MultipleAwayFromZero(c: int, d: int)
    requires c > 0
    ensures d >= 1 ==> c * d >= c
    ensures d <= -1 ==> c * d <= -c
  {
    if d >= 1 {
      assert c * d == c + c * (d - 1);
    } else if d <= -1 {
      assert c * d == -c + c * (d + 1);
    }
  }

  /** Division with remainder is unique. */
  lemma QuotientUnique(n: int, c: int, x: int, y: int)
    requires 0 <= y < c
    requires n == c * x + y
    ensures n / c == x && n % c == y
  {
    var q, r := n / c, n % c;
    assert n == c * q + r;
    assert c * (q - x) == c * q - c * x;
    MultipleAwayFromZero(c, q - x);
  }

  /** Appending a bit to the remainder by `p` gives the remainder by `2 * p`. */
  lemma RemainderAppend(x: nat, p: nat)
    requires p > 0
    ensures x % (2 * p) == 2 * ((x / 2) % p) + x % 2
  {
    var d, r := (x / 2) / p, (x / 2) % p;
    assert x / 2 == p * d + r;
    assert 2 * p * d == 2 * (p * d);
    QuotientUnique(x, 2 * p, d, 2 * r + x % 2);
  }

  /** Masking with `2^k - 1` takes the low `k` bits. */
  lemma {:induction false} AndLowMask(x: nat, k: nat)
    ensures And(x, Pow2(k) - 1) == x % Pow2(k)
  {
    if k == 0 {
      AndZero(x);
    } else {
      var p := Pow2(k - 1);
      AndLowMask(x / 2, k - 1);
      RemainderAppend(x, p);
      AndStep(x, 2 * p - 1);
      assert (2 * p - 1) / 2 == p - 1 && (2 * p - 1) % 2 == 1;
    }
  }

  lemma AndStep(a: nat, b: nat)
    ensures And(a, b) == 2 * And(a / 2, b / 2) + (if a % 2 == 1 && b % 2 == 1 then 1 else 0)
  {
    assert And(0, b / 2) == 0;
  }

  lemma {:induction false} AndZero(x: nat)
    ensures And(x, 0) == 0
  {
    if x != 0 {
      AndZero(x / 2);
    }
  }

  /** Masking with the single bit `2^k` isolates it. */
  lemma {:induction false} AndSingleBit(x: nat, k: nat)
    ensures And(x, Shl(1, k)) == Shl(Shr(x, k) % 2, k)
    decreases k
  {
    AndStep(x, Shl(1, k));
    if k == 0 {
      AndZero(x / 2);
    } else {
      AndSingleBit(x / 2, k - 1);
    }
  }

  lemma {:induction false} OrZero(x: nat)
    ensures Or(x, 0) == x && Or(0, x) == x
  {
    if x != 0 {
      OrZero(x / 2);
    }
  }

  /** Or-ing a word shifted left by `k` with a word of `k` bits adds them. */
  lemma {:induction false} OrDisjoint(high: nat, low: nat, k: nat)
    requires low < Pow2(k)
    ensures Or(Shl(high, k), low) == Shl(high, k) + low
    ensures Or(low, Shl(high, k)) == Shl(high, k) + low
  {
    if k == 0 {
      OrZero(high);
    } else {
      OrDisjoint(high, low / 2, k - 1);
      OrStep(Shl(high, k), low);
      OrStep(low, Shl(high, k));
    }
  }

  lemma OrStep(a: nat, b: nat)
    ensures Or(a, b) == 2 * Or(a / 2, b / 2) + (if a % 2 == 1 || b % 2 == 1 then 1 else 0)
  {
    assert Or(0, 0) == 0;
  }

  lemma {:induction false} XorBound(a: nat, b: nat, k: nat)
    requires a < Pow2(k) && b < Pow2(k)
    ensures Xor(a, b) < Pow2(k)
  {
    if k != 0 {
      XorBound(a / 2, b / 2, k - 1);
    }
  }

  lemma {:induction false} XorInvolution(a: nat, b: nat)
    ensures Xor(Xor(a, b), b) == a
    decreases a + b
  {
    if a != 0 || b != 0 {
      XorInvolution(a / 2, b / 2);
    }
  }

  /** The bit length of `x` names the power of two just above it. */
  lemma {:induction false} BitLengthBracket(x: nat, n: nat)
    requires Pow2(n) <= x < Pow2(n + 1)
    ensures BitLength(x) == n + 1
  {
    if n == 0 {
      assert BitLength(1) == 1 + BitLength(0);
    } else {
      BitLengthBracket(x / 2, n - 1);
    }
  }
}
