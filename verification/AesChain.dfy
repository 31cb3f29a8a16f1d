/** The cipher and its inverse byte by byte, as chains of fifteen blocks: what they compute, with the
    number of rounds, the positions and the key bytes written out (FIPS 197, sections 5.1 and 5.3). */
module AesChain {
  import opened Aes256Spec
  import opened AesTables
  import opened Gf256
  import opened Hiding

  // Position k rows below position j in its column, where the rows wrap around.
  function Below(j: nat, k: nat): (p: nat)
    requires j < 16
    ensures p < 16
  {
    4 * (j / 4) + (j % 4 + k) % 4
  }

  // The byte that substitution and the shift of the rows bring to position j: row r comes from
  // r columns further on.
  function Shifted(x: seq<bv8>, j: nat): bv8
    requires |x| == 16 && j < 16
  {
    SBox(x[5 * j % 16])
  }

  // Where the inverse shift takes the byte at position j from.
  function Origin(j: nat): (p: nat)
    requires j < 16
    ensures p < 16
  {
    13 * j % 16
  }

  // y is x after inner round n: in each column the rows 2 3 1 1 of the matrix, and the key. This
  // definition and the next four are used only where Peek(0) is mentioned.
  ghost predicate IsInnerRound(x: seq<bv8>, y: seq<bv8>, w: Schedule, n: nat)
    requires |x| == |y| == 16 && 1 <= n <= 13
  {
    forall i: nat {:trigger Peek(i)} :: Peek(i) ==>
      forall j :: 0 <= j < 16 ==>
        y[j] == Xor2(Xor4(Times(0x02, Shifted(x, j)), Times(0x03, Shifted(x, Below(j, 1))),
                          Shifted(x, Below(j, 2)), Shifted(x, Below(j, 3))), w[16 * n + j])
  }

  function Keyed(x: seq<bv8>, w: Schedule, n: nat, p: nat): bv8
    requires |x| == 16 && n <= 14 && p < 16
  {
    Xor2(x[p], w[16 * n + p])
  }

  // The byte at position p after the key of round n and the inverse of the matrix, rows 14 11 13 9.
  function Unmixed(x: seq<bv8>, w: Schedule, n: nat, p: nat): bv8
    requires |x| == 16 && 1 <= n <= 13 && p < 16
  {
    Xor4(Times(0x0e, Keyed(x, w, n, p)), Times(0x0b, Keyed(x, w, n, Below(p, 1))),
         Times(0x0d, Keyed(x, w, n, Below(p, 2))), Times(0x09, Keyed(x, w, n, Below(p, 3))))
  }

  // The inverse round takes the bytes back from where the rows were shifted to.
  ghost predicate IsInverseRound(x: seq<bv8>, y: seq<bv8>, w: Schedule, n: nat)
    requires |x| == |y| == 16 && 1 <= n <= 13
  {
    forall i: nat {:trigger Peek(i)} :: Peek(i) ==>
      forall j :: 0 <= j < 16 ==> y[j] == InvSBox(Unmixed(x, w, n, Origin(j)))
  }

  // y is x with the first sixteen bytes of the key added.
  ghost predicate IsFirstKeyed(x: seq<bv8>, y: seq<bv8>, w: Schedule)
    requires |x| == |y| == 16
  {
    forall i: nat {:trigger Peek(i)} :: Peek(i) ==>
      forall j :: 0 <= j < 16 ==> y[j] == Xor2(x[j], w[j])
  }

  // The last round has no matrix and takes the key bytes from 224 on.
  ghost predicate IsFinalRound(x: seq<bv8>, y: seq<bv8>, w: Schedule)
    requires |x| == |y| == 16
  {
    forall i: nat {:trigger Peek(i)} :: Peek(i) ==>
      forall j :: 0 <= j < 16 ==> y[j] == Xor2(Shifted(x, j), w[224 + j])
  }

  ghost predicate IsInverseFinalRound(x: seq<bv8>, y: seq<bv8>, w: Schedule)
    requires |x| == |y| == 16
  {
    forall i: nat {:trigger Peek(i)} :: Peek(i) ==>
      forall j :: 0 <= j < 16 ==> y[j] == InvSBox(Xor2(x[Origin(j)], w[224 + Origin(j)]))
  }

  // ---- The rounds by byte ----

  // The columns are read with f unknown.
  lemma {:induction false} ColumnMapped(f: Column -> Column, s: Block, j: nat)
    requires j < 16
    ensures MapColumns(f, s)[j] == f(Col(s, j / 4))[j % 4]
  {
    var k := j / 4;
    assert j == 4 * k + j % 4;
  }

  lemma {:induction false} ColumnBytes(s: Block, j: nat)
    requires j < 16
    ensures var c, r := Col(s, j / 4), j % 4;
      c[r] == s[j] && c[(r + 1) % 4] == s[Below(j, 1)] && c[(r + 2) % 4] == s[Below(j, 2)] && c[(r + 3) % 4] == s[Below(j, 3)]
  {
  }

  // The rows of a column with the row function unknown.
  lemma {:induction false} RowOf(mix: (bv8, bv8, bv8, bv8) -> bv8, c: Column, rows: seq<bv8>, r: nat)
    requires rows == [mix(c[0], c[1], c[2], c[3]), mix(c[1], c[2], c[3], c[0]),
                      mix(c[2], c[3], c[0], c[1]), mix(c[3], c[0], c[1], c[2])] && r < 4
    ensures rows[r] == mix(c[r], c[(r + 1) % 4], c[(r + 2) % 4], c[(r + 3) % 4])
  {
  }

  lemma {:induction false} MixedBytes(s: Block, j: nat)
    requires j < 16
    ensures MixColumns(s)[j] == Xor4(Times(0x02, s[j]), Times(0x03, s[Below(j, 1)]), s[Below(j, 2)], s[Below(j, 3)])
  {
    ColumnMapped(MixColumn, s, j);
    RowOf(Mix, Col(s, j / 4), MixColumn(Col(s, j / 4)), j % 4);
    ColumnBytes(s, j);
    MixIsMatrixRow(s[j], s[Below(j, 1)], s[Below(j, 2)], s[Below(j, 3)]);
  }

  lemma {:induction false} InvMixedBytes(s: Block, j: nat)
    requires j < 16
    ensures InvMixColumns(s)[j] == Xor4(Times(0x0e, s[j]), Times(0x0b, s[Below(j, 1)]),
                                        Times(0x0d, s[Below(j, 2)]), Times(0x09, s[Below(j, 3)]))
  {
    ColumnMapped(InvMixColumn, s, j);
    RowOf(InvMix, Col(s, j / 4), InvMixColumn(Col(s, j / 4)), j % 4);
    ColumnBytes(s, j);
    MixIsMatrixRow(s[j], s[Below(j, 1)], s[Below(j, 2)], s[Below(j, 3)]);
  }

  lemma {:induction false} ShiftedBytes(s: Block, j: nat)
    requires j < 16
    ensures ShiftRows(s)[j] == s[5 * j % 16] && InvShiftRows(s)[j] == s[Origin(j)]
  {
  }

  lemma {:induction false} RoundBytes(x: Block, w: Schedule, n: nat)
    requires 1 <= n <= 13
    ensures IsInnerRound(x, Round(x, RoundKey(w, n)), w, n)
  {
    var y, t := Round(x, RoundKey(w, n)), ShiftRows(SubBytes(x));
    forall j | 0 <= j < 16
      ensures t[j] == Shifted(x, j)
    {
      ShiftedBytes(SubBytes(x), j);
    }
    forall j | 0 <= j < 16
      ensures y[j] == Xor2(Xor4(Times(0x02, Shifted(x, j)), Times(0x03, Shifted(x, Below(j, 1))),
                                Shifted(x, Below(j, 2)), Shifted(x, Below(j, 3))), w[16 * n + j])
    {
      MixedBytes(t, j);
    }
  }

  lemma {:induction false} InvShifted(k: Block, y: Block)
    requires y == InvSubBytes(InvShiftRows(k))
    ensures forall j :: 0 <= j < 16 ==> y[j] == InvSBox(k[Origin(j)])
  {
    forall j | 0 <= j < 16
      ensures y[j] == InvSBox(k[Origin(j)])
    {
      ShiftedBytes(k, j);
    }
  }

  lemma {:induction false} UnmixedBytes(x: Block, w: Schedule, n: nat, m: Block)
    requires 1 <= n <= 13 && m == InvMixColumns(Xor(x, RoundKey(w, n)))
    ensures forall p :: 0 <= p < 16 ==> m[p] == Unmixed(x, w, n, p)
  {
    forall p | 0 <= p < 16
      ensures m[p] == Unmixed(x, w, n, p)
    {
      InvMixedBytes(Xor(x, RoundKey(w, n)), p);
    }
  }

  lemma {:induction false} InvRoundBytes(x: Block, w: Schedule, n: nat)
    requires 1 <= n <= 13
    ensures IsInverseRound(x, InvRound(x, RoundKey(w, n)), w, n)
  {
    var y, m := InvRound(x, RoundKey(w, n)), InvMixColumns(Xor(x, RoundKey(w, n)));
    UnmixedBytes(x, w, n, m);
    InvShifted(m, y);
    forall j | 0 <= j < 16
      ensures y[j] == InvSBox(Unmixed(x, w, n, Origin(j)))
    {
      assert m[Origin(j)] == Unmixed(x, w, n, Origin(j));
    }
  }

  // ---- The chains ----

  // Blocks x[0], ..., x[n] of which each comes from the one before by step k of a round, which is
  // unknown here; so are the two relations.
  ghost predicate IsChain(x: seq<Block>, n: nat, step: (Block, Block, int) -> bool) {
    |x| == n + 1 && forall k :: 1 <= k <= n ==> step(x[k - 1], x[k], k)
  }

  ghost predicate AreSteps(f: (Block, Block) -> Block, step: (Block, Block, int) -> bool, w: Schedule) {
    forall a, k :: 1 <= k <= 13 ==> step(a, f(a, RoundKey(w, k)), k)
  }

  ghost predicate AreInverseSteps(g: (Block, Block) -> Block, step: (Block, Block, int) -> bool, w: Schedule) {
    forall a, k :: 1 <= k <= 13 ==> step(a, g(a, RoundKey(w, k)), 14 - k)
  }

  lemma {:induction false} ForwardChain(f: (Block, Block) -> Block, step: (Block, Block, int) -> bool, w: Schedule, s: Block, n: nat)
    returns (x: seq<Block>)
    requires n <= 13 && AreSteps(f, step, w)
    ensures IsChain(x, n, step) && x[0] == s && x[n] == Forward(f, InnerKeys(w, n), s)
  {
    if n == 0 {
      x := [s];
    } else {
      var before := ForwardChain(f, step, w, s, n - 1);
      ForwardOneMore(f, w, n, s);
      x := before + [Forward(f, InnerKeys(w, n), s)];
    }
  }

  lemma {:induction false} BackwardChain(g: (Block, Block) -> Block, step: (Block, Block, int) -> bool, w: Schedule, s: Block, n: nat)
    returns (x: seq<Block>)
    requires n <= 13 && AreInverseSteps(g, step, w)
    ensures |x| == n + 1 && x[0] == s && x[n] == Backward(g, InnerKeys(w, n), s)
    ensures forall k :: 1 <= k <= n ==> step(x[k - 1], x[k], 13 - n + k)
    decreases n
  {
    if n == 0 {
      x := [s];
    } else {
      BackwardOneLess(g, w, n, s);
      var next := g(s, RoundKey(w, n));
      var rest := BackwardChain(g, step, w, next, n - 1);
      x := [s] + rest;
    }
  }

  ghost function RoundOf(w: Schedule): (Block, Block, int) -> bool {
    (a: Block, b: Block, k: int) => 1 <= k <= 13 && IsInnerRound(a, b, w, k)
  }

  ghost function InverseRoundOf(w: Schedule): (Block, Block, int) -> bool {
    (a: Block, b: Block, k: int) => 1 <= k <= 13 && IsInverseRound(a, b, w, 14 - k)
  }

  lemma {:induction false} FinalBytes(x: Block, w: Schedule)
    ensures IsFinalRound(x, FinalRound(x, RoundKey(w, 14)), w)
  {
    forall j | 0 <= j < 16
      ensures FinalRound(x, RoundKey(w, 14))[j] == Xor2(Shifted(x, j), w[224 + j])
    {
      ShiftedBytes(SubBytes(x), j);
    }
  }

  lemma {:induction false} InvFinalBytes(x: Block, w: Schedule)
    ensures IsInverseFinalRound(x, InvFinalRound(x, RoundKey(w, 14)), w)
  {
    var y, k := InvFinalRound(x, RoundKey(w, 14)), Xor(x, RoundKey(w, 14));
    InvShifted(k, y);
    forall j | 0 <= j < 16
      ensures y[j] == InvSBox(Xor2(x[Origin(j)], w[224 + Origin(j)]))
    {
      assert k[Origin(j)] == Xor2(x[Origin(j)], w[224 + Origin(j)]);
    }
  }

  lemma {:induction false} FirstKeyBytes(x: Block, w: Schedule)
    ensures IsFirstKeyed(x, Xor(x, RoundKey(w, 0)), w)
  {
  }

  lemma {:induction false} AllRounds(w: Schedule)
    ensures AreSteps(Round, RoundOf(w), w)
  {
    forall a: Block, k: int | 1 <= k <= 13
      ensures RoundOf(w)(a, Round(a, RoundKey(w, k)), k)
    {
      RoundBytes(a, w, k);
    }
  }

  lemma {:induction false} InverseStep(w: Schedule, a: Block, k: int)
    requires 1 <= k <= 13
    ensures InverseRoundOf(w)(a, InvRound(a, RoundKey(w, k)), 14 - k)
  {
    InvRoundBytes(a, w, k);
  }

  lemma {:induction false} AllInverseRounds(w: Schedule)
    ensures AreInverseSteps(InvRound, InverseRoundOf(w), w)
  {
    forall a: Block, k: int | 1 <= k <= 13
      ensures InverseRoundOf(w)(a, InvRound(a, RoundKey(w, k)), 14 - k)
    {
      InverseStep(w, a, k);
    }
  }

  // The cipher: the key bytes 0 to 15, thirteen rounds, and a last round without the matrix.
  lemma {:induction false} CipherChain(w: Schedule, s: Block) returns (x: seq<Block>)
    ensures |x| == 15 && x[14] == Cipher(w, s)
    ensures IsFirstKeyed(s, x[0], w) && IsChain(x[..14], 13, RoundOf(w)) && IsFinalRound(x[13], x[14], w)
  {
    AllRounds(w);
    FirstKeyBytes(s, w);
    var inner := ForwardChain(Round, RoundOf(w), w, Xor(s, RoundKey(w, 0)), 13);
    FinalBytes(inner[13], w);
    x := inner + [FinalRound(inner[13], RoundKey(w, 14))];
    assert x[..14] == inner;
  }

  // The inverse cipher runs through the key in the opposite direction.
  lemma {:induction false} InvCipherChain(w: Schedule, s: Block) returns (x: seq<Block>)
    ensures |x| == 15 && x[14] == InvCipher(w, s)
    ensures IsInverseFinalRound(s, x[0], w) && IsChain(x[..14], 13, InverseRoundOf(w)) && IsFirstKeyed(x[13], x[14], w)
  {
    AllInverseRounds(w);
    InvFinalBytes(s, w);
    var inner := BackwardChain(InvRound, InverseRoundOf(w), w, InvFinalRound(s, RoundKey(w, 14)), 13);
    FirstKeyBytes(inner[13], w);
    x := inner + [Xor(inner[13], RoundKey(w, 0))];
    assert x[..14] == inner;
  }
}
