/** The substitution table is the one FIPS 197 defines in section 5.1.1: the reciprocal in the
    field, 0 for 0, and an affine map of its bits. */
module AesSBox {
  import opened AesTables
  import opened Gf256

  // Bit i is the sum of bits i, i + 4, i + 5, i + 6 and i + 7 and of bit i of 0x63.
  function Affine(b: bv8): bv8 {
    b ^ b.RotateLeft(4) ^ b.RotateLeft(3) ^ b.RotateLeft(2) ^ b.RotateLeft(1) ^ 0x63
  }

  function InvAffine(s: bv8): bv8 {
    s.RotateLeft(1) ^ s.RotateLeft(3) ^ s.RotateLeft(6) ^ 0x05
  }

  function Reciprocal(x: bv8): bv8 {
    InvAffine(SBox(x))
  }

  // Each quarter of the table has the reciprocals of its arguments, and no argument has another.
  lemma {:induction false} ReciprocalQuarter1(x: bv8, y: bv8)
    requires x < 0x40
    ensures x != 0 ==> (Times(y, x) == 1 <==> y == Reciprocal(x))
  {
  }

  lemma {:induction false} ReciprocalQuarter2(x: bv8, y: bv8)
    requires 0x40 <= x < 0x80
    ensures x != 0 ==> (Times(y, x) == 1 <==> y == Reciprocal(x))
  {
  }

  lemma {:induction false} ReciprocalQuarter3(x: bv8, y: bv8)
    requires 0x80 <= x < 0xc0
    ensures x != 0 ==> (Times(y, x) == 1 <==> y == Reciprocal(x))
  {
  }

  lemma {:induction false} ReciprocalQuarter4(x: bv8, y: bv8)
    requires 0xc0 <= x
    ensures x != 0 ==> (Times(y, x) == 1 <==> y == Reciprocal(x))
  {
  }

  lemma {:induction false} OnlyReciprocal(x: bv8, y: bv8)
    requires x != 0
    ensures Times(y, x) == 1 <==> y == Reciprocal(x)
  {
    if x < 0x40 {
      ReciprocalQuarter1(x, y);
    } else if x < 0x80 {
      ReciprocalQuarter2(x, y);
    } else if x < 0xc0 {
      ReciprocalQuarter3(x, y);
    } else {
      ReciprocalQuarter4(x, y);
    }
  }

  // There is no other reciprocal.
  lemma {:induction false} ReciprocalUnique(x: bv8, y: bv8, z: bv8)
    requires Times(y, x) == 1 && Times(z, x) == 1
    ensures y == z
  {
    OnlyReciprocal(x, y);
    OnlyReciprocal(x, z);
  }

  lemma {:induction false} AffineInverse(s: bv8)
    ensures Affine(InvAffine(s)) == s
  {
  }

  lemma {:induction false} SBoxIsAffineReciprocal(x: bv8) returns (y: bv8)
    ensures SBox(x) == Affine(y)
    ensures if x == 0 then y == 0 else Times(y, x) == 1
  {
    y := Reciprocal(x);
    AffineInverse(SBox(x));
    if x != 0 {
      OnlyReciprocal(x, y);
    } else {
      assert SBox(0) == 0x63;
    }
  }
}
