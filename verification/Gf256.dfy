/** Arithmetic of the AES field GF(2^8) (FIPS 197, section 4) and the column
    transform built on it.

    `Xtime` is the source's `GF_p8_mul3`: despite its name it multiplies by {02}.

    The inverse column transform is recovered from one observation: the column
    matrix M satisfies M^4 = I, so its inverse is M^3. `MixTwice` computes M^2
    (which is sparse), `InvMixIsMixCubed` shows that the source's inverse
    coefficients are those of M^3, and both cancellation laws follow. */
module Gf256 {

  function Xtime(x: bv8): bv8 {
    if x >= 0x80 then (x << 1) ^ 0x1b else x << 1
  }

  function Xtime2(x: bv8): bv8 { Xtime(Xtime(x)) }

  function Xtime3(x: bv8): bv8 { Xtime(Xtime2(x)) }

  function When(bit: bv8, x: bv8): bv8 { if bit != 0 then x else 0 }

  // Polynomial multiplication modulo x^8 + x^4 + x^3 + x + 1 (FIPS 197, section 4.2).
  function Times(k: bv8, x: bv8): bv8 {
    var x1 := Xtime(x);
    var x2 := Xtime(x1);
    var x3 := Xtime(x2);
    var x4 := Xtime(x3);
    var x5 := Xtime(x4);
    var x6 := Xtime(x5);
    var x7 := Xtime(x6);
    When(k & 0x01, x) ^ When(k & 0x02, x1) ^ When(k & 0x04, x2) ^ When(k & 0x08, x3) ^
    When(k & 0x10, x4) ^ When(k & 0x20, x5) ^ When(k & 0x40, x6) ^ When(k & 0x80, x7)
  }

  // A named XOR is a place where equals can be substituted before the solver flattens it.
  function Xor2(a: bv8, b: bv8): bv8 { a ^ b }
  function Xor3(a: bv8, b: bv8, c: bv8): bv8 { a ^ b ^ c }
  function Xor4(a: bv8, b: bv8, c: bv8, d: bv8): bv8 { a ^ b ^ c ^ d }
  function Xor5(a: bv8, b: bv8, c: bv8, d: bv8, e: bv8): bv8 { a ^ b ^ c ^ d ^ e }

  // {02}a + {03}b + c + d: one row of MixColumns.
  function Mix(a: bv8, b: bv8, c: bv8, d: bv8): bv8 {
    Xor5(Xtime(a), Xtime(b), b, c, d)
  }

  function By9(x: bv8): bv8 { Xor2(Xtime3(x), x) }

  function By11(x: bv8): bv8 { Xor3(Xtime3(x), Xtime(x), x) }

  function By13(x: bv8): bv8 { Xor3(Xtime3(x), Xtime2(x), x) }

  function By14(x: bv8): bv8 { Xor3(Xtime3(x), Xtime2(x), Xtime(x)) }

  // {0e}a + {0b}b + {0d}c + {09}d: one row of InvMixColumns.
  function InvMix(a: bv8, b: bv8, c: bv8, d: bv8): bv8 {
    Xor4(By14(a), By11(b), By13(c), By9(d))
  }

  // {05}a + {04}c: one row of the squared column matrix.
  function MixSquared(a: bv8, c: bv8): bv8 {
    Xor3(Xtime2(a), a, Xtime2(c))
  }

  // The coefficients above are those of FIPS 197, sections 5.1.3 and 5.3.3.
  lemma {:induction false} Coefficients(x: bv8)
    ensures Times(0x02, x) == Xtime(x)
    ensures Times(0x03, x) == Xor2(Xtime(x), x)
    ensures Times(0x09, x) == By9(x)
    ensures Times(0x0b, x) == By11(x)
    ensures Times(0x0d, x) == By13(x)
    ensures Times(0x0e, x) == By14(x)
  {
  }

  lemma {:induction false} Xor4Rotate(a: bv8, b: bv8, c: bv8, d: bv8)
    ensures Xor4(a, b, c, d) == Xor4(b, c, d, a)
  {
  }

  lemma {:induction false} Flatten4(p: bv8, q: bv8, r: bv8, s: bv8, t: bv8)
    ensures Xor4(p, Xor2(q, r), s, t) == Xor5(p, q, r, s, t)
  {
  }

  // The sums the source forms from its precomputed multiples.
  lemma {:induction false} MixRowFormula(a: bv8, b: bv8, c: bv8, d: bv8, a2: bv8, b3: bv8)
    requires a2 == Xtime(a) && b3 == Xor2(Xtime(b), b)
    ensures Xor4(a2, b3, c, d) == Mix(a, b, c, d)
  {
  }

  lemma {:induction false} MixIsMatrixRow(a: bv8, b: bv8, c: bv8, d: bv8)
    ensures Mix(a, b, c, d) == Xor4(Times(0x02, a), Times(0x03, b), c, d)
    ensures InvMix(a, b, c, d) == Xor4(Times(0x0e, a), Times(0x0b, b), Times(0x0d, c), Times(0x09, d))
  {
    Coefficients(a);
    Coefficients(b);
    Coefficients(c);
    Coefficients(d);
    Flatten4(Xtime(a), Xtime(b), b, c, d);
  }

  lemma {:induction false} HighBit(x: bv8, y: bv8)
    ensures x ^ y >= 0x80 <==> (x >= 0x80) != (y >= 0x80)
    ensures (x ^ y) << 1 == (x << 1) ^ (y << 1)
  {
  }

  lemma {:induction false} XtimeLinear(x: bv8, y: bv8)
    ensures Xtime(Xor2(x, y)) == Xor2(Xtime(x), Xtime(y))
  {
    HighBit(x, y);
    if x >= 0x80 && y >= 0x80 {
      assert Xtime(x) ^ Xtime(y) == ((x << 1) ^ 0x1b) ^ ((y << 1) ^ 0x1b);
    } else if x >= 0x80 {
    } else if y >= 0x80 {
    } else {
    }
  }

  lemma {:induction false} Flatten3(a: bv8, b: bv8, c: bv8)
    ensures Xor2(Xor2(a, b), c) == Xor3(a, b, c)
  {
  }

  lemma {:induction false} Flatten5(a: bv8, b: bv8, c: bv8, d: bv8, e: bv8)
    ensures Xor3(Xor3(a, b, c), d, e) == Xor5(a, b, c, d, e)
  {
  }

  lemma {:induction false} XtimeXor3(a: bv8, b: bv8, c: bv8)
    ensures Xtime(Xor3(a, b, c)) == Xor3(Xtime(a), Xtime(b), Xtime(c))
  {
    Flatten3(a, b, c);
    XtimeLinear(Xor2(a, b), c);
    XtimeLinear(a, b);
    Flatten3(Xtime(a), Xtime(b), Xtime(c));
  }

  lemma {:induction false} XtimeXor5(a: bv8, b: bv8, c: bv8, d: bv8, e: bv8)
    ensures Xtime(Xor5(a, b, c, d, e)) == Xor5(Xtime(a), Xtime(b), Xtime(c), Xtime(d), Xtime(e))
  {
    Flatten5(a, b, c, d, e);
    XtimeXor3(Xor3(a, b, c), d, e);
    XtimeXor3(a, b, c);
    Flatten5(Xtime(a), Xtime(b), Xtime(c), Xtime(d), Xtime(e));
  }

  // The source computes the four inverse coefficients with fewer doublings.
  lemma {:induction false} SharedDoublings(x: bv8)
    ensures Xor2(Xtime(Xor2(Xtime2(x), x)), x) == By11(x)
    ensures Xor2(Xtime2(Xor2(Xtime(x), x)), x) == By13(x)
    ensures Xtime(Xor2(Xtime(Xor2(Xtime(x), x)), x)) == By14(x)
  {
  }

  lemma {:induction false} XtimeMix(a: bv8, b: bv8, c: bv8, d: bv8)
    ensures Xtime(Mix(a, b, c, d)) == Xor5(Xtime2(a), Xtime2(b), Xtime(b), Xtime(c), Xtime(d))
    ensures Xtime2(Mix(a, b, c, d)) == Xor5(Xtime3(a), Xtime3(b), Xtime2(b), Xtime2(c), Xtime2(d))
  {
    XtimeXor5(Xtime(a), Xtime(b), b, c, d);
    XtimeXor5(Xtime2(a), Xtime2(b), Xtime(b), Xtime(c), Xtime(d));
  }

  lemma {:induction false} SquareRow(a: bv8, a1: bv8, a2: bv8, b: bv8, b1: bv8, b2: bv8,
                  c: bv8, c1: bv8, c2: bv8, d: bv8, d1: bv8)
    ensures Xor5(Xor5(a2, b2, b1, c1, d1), Xor5(b2, c2, c1, d1, a1),
                 Xor5(b1, c1, c, d, a), Xor5(c1, d1, d, a, b), Xor5(d1, a1, a, b, c))
         == Xor3(a2, a, c2)
  {
    assert Xor5(a2 ^ b2 ^ b1 ^ c1 ^ d1, b2 ^ c2 ^ c1 ^ d1 ^ a1,
                b1 ^ c1 ^ c ^ d ^ a, c1 ^ d1 ^ d ^ a ^ b, d1 ^ a1 ^ a ^ b ^ c) == a2 ^ a ^ c2;
  }

  // M^2 has rows {05}, 0, {04}, 0.
  lemma {:induction false} MixTwice(a: bv8, b: bv8, c: bv8, d: bv8)
    ensures Mix(Mix(a, b, c, d), Mix(b, c, d, a), Mix(c, d, a, b), Mix(d, a, b, c)) == MixSquared(a, c)
  {
    XtimeMix(a, b, c, d);
    XtimeMix(b, c, d, a);
    SquareRow(a, Xtime(a), Xtime2(a), b, Xtime(b), Xtime2(b), c, Xtime(c), Xtime2(c), d, Xtime(d));
  }

  lemma {:induction false} CubeRow(a: bv8, a1: bv8, a2: bv8, a3: bv8, b: bv8, b1: bv8, b2: bv8, b3: bv8,
                c: bv8, c2: bv8, c3: bv8, d: bv8, d2: bv8, d3: bv8)
    ensures Xor3(Xor5(a3, b3, b2, c2, d2), Xor5(a1, b1, b, c, d), Xor5(c3, d3, d2, a2, b2))
         == Xor4(Xor3(a3, a2, a1), Xor3(b3, b1, b), Xor3(c3, c2, c), Xor2(d3, d))
  {
    assert Xor3(a3 ^ b3 ^ b2 ^ c2 ^ d2, a1 ^ b1 ^ b ^ c ^ d, c3 ^ d3 ^ d2 ^ a2 ^ b2)
        == Xor4(a3 ^ a2 ^ a1, b3 ^ b1 ^ b, c3 ^ c2 ^ c, d3 ^ d);
  }

  // The inverse coefficients are those of M^3 = M^2 M.
  lemma {:induction false} InvMixIsMixCubed(a: bv8, b: bv8, c: bv8, d: bv8)
    ensures InvMix(a, b, c, d) == MixSquared(Mix(a, b, c, d), Mix(c, d, a, b))
  {
    XtimeMix(a, b, c, d);
    XtimeMix(c, d, a, b);
    CubeRow(a, Xtime(a), Xtime2(a), Xtime3(a), b, Xtime(b), Xtime2(b), Xtime3(b),
            c, Xtime2(c), Xtime3(c), d, Xtime2(d), Xtime3(d));
  }

  lemma {:induction false} Xtime2Xor3(x: bv8, y: bv8, z: bv8)
    ensures Xtime2(Xor3(x, y, z)) == Xor3(Xtime2(x), Xtime2(y), Xtime2(z))
  {
    XtimeXor3(x, y, z);
    XtimeXor3(Xtime(x), Xtime(y), Xtime(z));
  }

  lemma {:induction false} FourthRow(a: bv8, a2: bv8, a4: bv8, c: bv8, c2: bv8, c4: bv8)
    ensures Xor3(Xor3(a4, a2, c4), Xor3(a2, a, c2), Xor3(c4, c2, a4)) == a
  {
  }

  // M^4 is the identity.
  lemma {:induction false} MixFourTimes(a: bv8, c: bv8)
    ensures MixSquared(MixSquared(a, c), MixSquared(c, a)) == a
  {
    Xtime2Xor3(Xtime2(a), a, Xtime2(c));
    Xtime2Xor3(Xtime2(c), c, Xtime2(a));
    FourthRow(a, Xtime2(a), Xtime2(Xtime2(a)), c, Xtime2(c), Xtime2(Xtime2(c)));
  }

  lemma {:induction false} InvMixCancelsMix(a: bv8, b: bv8, c: bv8, d: bv8)
    ensures InvMix(Mix(a, b, c, d), Mix(b, c, d, a), Mix(c, d, a, b), Mix(d, a, b, c)) == a
  {
    InvMixIsMixCubed(Mix(a, b, c, d), Mix(b, c, d, a), Mix(c, d, a, b), Mix(d, a, b, c));
    MixTwice(a, b, c, d);
    MixTwice(c, d, a, b);
    MixFourTimes(a, c);
  }

  lemma {:induction false} MixCancelsInvMix(a: bv8, b: bv8, c: bv8, d: bv8)
    ensures Mix(InvMix(a, b, c, d), InvMix(b, c, d, a), InvMix(c, d, a, b), InvMix(d, a, b, c)) == a
  {
    var m0, m1, m2, m3 := Mix(a, b, c, d), Mix(b, c, d, a), Mix(c, d, a, b), Mix(d, a, b, c);
    var n0, n1, n2, n3 := Mix(m0, m1, m2, m3), Mix(m1, m2, m3, m0), Mix(m2, m3, m0, m1), Mix(m3, m0, m1, m2);
    InvMixIsMixCubed(a, b, c, d);
    InvMixIsMixCubed(b, c, d, a);
    InvMixIsMixCubed(c, d, a, b);
    InvMixIsMixCubed(d, a, b, c);
    MixTwice(m0, m1, m2, m3);
    MixTwice(m1, m2, m3, m0);
    MixTwice(m2, m3, m0, m1);
    MixTwice(m3, m0, m1, m2);
    MixTwice(n0, n1, n2, n3);
    MixTwice(a, b, c, d);
    MixTwice(c, d, a, b);
    MixFourTimes(a, c);
  }
}
