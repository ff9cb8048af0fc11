/** The segmented logarithmic scale shared by both G.711 companders.

    Magnitudes from 16 upwards are grouped into octaves of sixteen equal intervals, each octave
    twice as coarse as the one below. Interval `c = 16 * octave + step` of the scale starts at
    `Floor(c)`, is `Width(c)` wide and has its midpoint at `TwiceMid(c) / 2`. */
module Segments {
  import opened Bits

  /** The interval that holds `q`. */
  function Code(q: nat): nat
    requires q >= 16
  {
    if q < 32 then q - 16 else 16 + Code(q / 2)
  }

  function Floor(c: nat): nat {
    if c < 16 then c + 16 else 2 * Floor(c - 16)
  }

  function Width(c: nat): nat {
    if c < 16 then 1 else 2 * Width(c - 16)
  }

  function TwiceMid(c: nat): nat {
    if c < 16 then 2 * c + 33 else 2 * TwiceMid(c - 16)
  }

  /** Every interval is a sixteenth or less of the magnitudes it holds, and is centred. */
  lemma {:induction false} Shape(c: nat)
    ensures TwiceMid(c) == 2 * Floor(c) + Width(c)
    ensures Floor(c) >= 16 * Width(c) >= 16
  {
    if c >= 16 {
      Shape(c - 16);
    }
  }

  /** `Code` finds the interval around `q`. */
  lemma {:induction false} Bracket(q: nat)
    requires q >= 16
    ensures Floor(Code(q)) <= q < Floor(Code(q)) + Width(Code(q))
  {
    if q >= 32 {
      Bracket(q / 2);
    }
  }

  /** The midpoint of an interval lies in that interval. */
  lemma {:induction false} CodeOfMid(c: nat)
    ensures TwiceMid(c) / 2 >= 16 && Code(TwiceMid(c) / 2) == c
  {
    Shape(c);
    if c >= 16 {
      CodeOfMid(c - 16);
      Shape(c - 16);
    }
  }

  lemma {:induction false} CodeMonotone(a: nat, b: nat)
    requires 16 <= a <= b
    ensures Code(a) <= Code(b)
  {
    if a >= 32 {
      CodeMonotone(a / 2, b / 2);
    }
  }

  lemma {:induction false} TwiceMidMonotone(a: nat, b: nat)
    requires a <= b
    ensures TwiceMid(a) <= TwiceMid(b)
  {
    if a >= 16 {
      TwiceMidMonotone(a - 16, b - 16);
    } else if b >= 16 {
      Shape(b - 16);
    }
  }

  /** An upper limit on the magnitude limits the octave. */
  lemma {:induction false} CodeBelow(q: nat, octaves: nat)
    requires 16 <= q < 16 * Pow2(octaves)
    ensures Code(q) < 16 * octaves
  {
    if q >= 32 {
      CodeBelow(q / 2, octaves - 1);
    }
  }

  /** The interval in floating form: the octave is the only shift that leaves five bits. */
  lemma {:induction false} CodeByShift(q: nat, octave: nat)
    requires 16 <= Shr(q, octave) < 32
    ensures q >= 16 && Code(q) == 16 * octave + (Shr(q, octave) - 16)
  {
    if octave > 0 {
      CodeByShift(q / 2, octave - 1);
    }
  }

  /** The midpoint in floating form, as the decoders compute it. */
  lemma {:induction false} TwiceMidByShift(octave: nat, step: nat)
    requires step < 16
    ensures TwiceMid(16 * octave + step) == Shl(2 * step + 33, octave)
  {
    if octave > 0 {
      TwiceMidByShift(octave - 1, step);
    }
  }

  /** An interval in closed form, without recursion. */
  lemma {:induction false} ClosedForm(octave: nat, step: nat)
    requires step < 16
    ensures Floor(16 * octave + step) == (16 + step) * Pow2(octave)
    ensures Width(16 * octave + step) == Pow2(octave)
    ensures TwiceMid(16 * octave + step) == (2 * step + 33) * Pow2(octave)
  {
    hide Floor;
    hide Width;
    hide TwiceMid;
    OnceMore(octave, step);
    if octave > 0 {
      ClosedForm(octave - 1, step);
      DoubleProduct(16 + step, Pow2(octave - 1));
      DoubleProduct(2 * step + 33, Pow2(octave - 1));
    }
  }

  lemma OnceMore(octave: nat, step: nat)
    requires step < 16
    ensures octave == 0 ==> Floor(step) == 16 + step && Width(step) == 1 && TwiceMid(step) == 2 * step + 33
    ensures octave > 0 ==>
              var below := 16 * (octave - 1) + step;
              && Floor(16 * octave + step) == 2 * Floor(below)
              && Width(16 * octave + step) == 2 * Width(below)
              && TwiceMid(16 * octave + step) == 2 * TwiceMid(below)
  {
  }

  lemma DoubleProduct(a: nat, p: nat)
    ensures a * (2 * p) == 2 * (a * p)
  {
  }
}
