/** The in-place transforms of `UnverifiedAES256`. A `uint8_t*` block argument is an
    array and an offset; each method says what the 16 bytes there become and that
    no other byte of the array changes. */
module Aes256 {
  import opened AesTables
  import opened Aes256Spec
  import opened Gf256
  import opened Hiding

  ghost function BlockAt(a: array<bv8>, off: nat): Block
    requires off + BLOCK_BYTES <= a.Length
    reads a
  {
    a[off..off + BLOCK_BYTES]
  }

  // Nothing outside [off, off + n) differs from the old array.
  twostate predicate OnlyRange(a: array<bv8>, off: nat, n: nat)
    requires off + n <= a.Length
    reads a
  {
    forall j | 0 <= j < a.Length && !(off <= j < off + n) :: a[j] == old(a[j])
  }

  method AddRoundKey(block: array<bv8>, off: nat, key: array<bv8>, keyOff: nat)
    requires off + BLOCK_BYTES <= block.Length && keyOff + BLOCK_BYTES <= key.Length
    requires block != key
    modifies block
    ensures BlockAt(block, off) == Xor(old(BlockAt(block, off)), BlockAt(key, keyOff))
    ensures OnlyRange(block, off, BLOCK_BYTES)
  {
    for i := 0 to BLOCK_BYTES
      invariant forall j :: off <= j < off + i ==> block[j] == Xor2(old(block[j]), key[j - off + keyOff])
      invariant forall j :: off + i <= j < off + BLOCK_BYTES ==> block[j] == old(block[j])
      invariant OnlyRange(block, off, BLOCK_BYTES)
    {
      block[off + i] := Xor2(block[off + i], key[keyOff + i]);
    }
  }

  // The loop that `SubBytes` and `InvSubBytes` share; they differ in the table.
  method MapBytesInPlace(f: bv8 -> bv8, block: array<bv8>, off: nat)
    requires off + BLOCK_BYTES <= block.Length
    modifies block
    ensures BlockAt(block, off) == MapBytes(f, old(BlockAt(block, off)))
    ensures OnlyRange(block, off, BLOCK_BYTES)
  {
    for i := 0 to BLOCK_BYTES
      invariant forall j :: off <= j < off + i ==> block[j] == f(old(block[j]))
      invariant forall j :: off + i <= j < off + BLOCK_BYTES ==> block[j] == old(block[j])
      invariant OnlyRange(block, off, BLOCK_BYTES)
    {
      block[off + i] := f(block[off + i]);
    }
  }

  method SubBytesInPlace(block: array<bv8>, off: nat)
    requires off + BLOCK_BYTES <= block.Length
    modifies block
    ensures BlockAt(block, off) == SubBytes(old(BlockAt(block, off)))
    ensures OnlyRange(block, off, BLOCK_BYTES)
  {
    MapBytesInPlace(SBox, block, off);
  }

  method InvSubBytesInPlace(block: array<bv8>, off: nat)
    requires off + BLOCK_BYTES <= block.Length
    modifies block
    ensures BlockAt(block, off) == InvSubBytes(old(BlockAt(block, off)))
    ensures OnlyRange(block, off, BLOCK_BYTES)
  {
    MapBytesInPlace(InvSBox, block, off);
  }

  // Bytes p, q, r, s of the block move one place left; p goes to the end.
  method RotateRow(block: array<bv8>, off: nat, p: nat, q: nat, r: nat, s: nat)
    requires off + BLOCK_BYTES <= block.Length
    requires p < BLOCK_BYTES && q < BLOCK_BYTES && r < BLOCK_BYTES && s < BLOCK_BYTES
    requires p != q && p != r && p != s && q != r && q != s && r != s
    modifies block
    ensures var b := old(BlockAt(block, off)); BlockAt(block, off) == b[p := b[q]][q := b[r]][r := b[s]][s := b[p]]
    ensures OnlyRange(block, off, BLOCK_BYTES)
  {
    var x := block[off + p];
    block[off + p] := block[off + q];
    block[off + q] := block[off + r];
    block[off + r] := block[off + s];
    block[off + s] := x;
  }

  method SwapRow2(block: array<bv8>, off: nat)
    requires off + BLOCK_BYTES <= block.Length
    modifies block
    ensures var b := old(BlockAt(block, off)); BlockAt(block, off) == b[2 := b[10]][10 := b[2]][6 := b[14]][14 := b[6]]
    ensures OnlyRange(block, off, BLOCK_BYTES)
  {
    block[off + 2], block[off + 10] := block[off + 10], block[off + 2];
    block[off + 6], block[off + 14] := block[off + 14], block[off + 6];
  }

  method ShiftRowsInPlace(block: array<bv8>, off: nat)
    requires off + BLOCK_BYTES <= block.Length
    modifies block
    ensures BlockAt(block, off) == ShiftRows(old(BlockAt(block, off)))
    ensures OnlyRange(block, off, BLOCK_BYTES)
  {
    RotateRow(block, off, 1, 5, 9, 13);
    SwapRow2(block, off);
    RotateRow(block, off, 3, 15, 11, 7);
  }

  method InvShiftRowsInPlace(block: array<bv8>, off: nat)
    requires off + BLOCK_BYTES <= block.Length
    modifies block
    ensures BlockAt(block, off) == InvShiftRows(old(BlockAt(block, off)))
    ensures OnlyRange(block, off, BLOCK_BYTES)
  {
    RotateRow(block, off, 1, 13, 9, 5);
    SwapRow2(block, off);
    RotateRow(block, off, 3, 7, 11, 15);
  }

  ghost function ColumnAt(a: array<bv8>, off: nat): Column
    requires off + 4 <= a.Length
    reads a
  {
    a[off..off + 4]
  }

  method WriteColumn(column: array<bv8>, off: nat, r0: bv8, r1: bv8, r2: bv8, r3: bv8)
    requires off + 4 <= column.Length
    modifies column
    ensures ColumnAt(column, off) == [r0, r1, r2, r3]
    ensures OnlyRange(column, off, 4)
  {
    column[off], column[off + 1], column[off + 2], column[off + 3] := r0, r1, r2, r3;
  }

  ghost predicate MultiplesOf(x: bv8, r1: bv8, r2: bv8, r3: bv8) {
    r1 == x && r2 == Xtime(x) && r3 == Xor2(Xtime(x), x)
  }

  lemma {:induction false} MixColumnFormula(c: Column, c1: Column, c2: Column, c3: Column)
    requires forall j :: 0 <= j < 4 ==> MultiplesOf(c[j], c1[j], c2[j], c3[j])
    ensures MixColumn(c) == [Xor4(c2[0], c3[1], c1[2], c1[3]), Xor4(c1[0], c2[1], c3[2], c1[3]),
                             Xor4(c1[0], c1[1], c2[2], c3[3]), Xor4(c3[0], c1[1], c1[2], c2[3])]
  {
    assert forall j :: 0 <= j < 4 ==> c1[j] == c[j] && c2[j] == Xtime(c[j]) && c3[j] == Xor2(Xtime(c[j]), c[j]);
    MixRowFormula(c[0], c[1], c[2], c[3], c2[0], c3[1]);
    MixRowFormula(c[1], c[2], c[3], c[0], c2[1], c3[2]);
    MixRowFormula(c[2], c[3], c[0], c[1], c2[2], c3[3]);
    MixRowFormula(c[3], c[0], c[1], c[2], c2[3], c3[0]);
    Xor4Rotate(c1[0], c2[1], c3[2], c1[3]);
    Xor4Rotate(c1[0], c1[1], c2[2], c3[3]);
    Xor4Rotate(c1[1], c2[2], c3[3], c1[0]);
    Xor4Rotate(c2[3], c3[0], c1[1], c1[2]);
  }

  method ColumnMultiples(column: array<bv8>, off: nat) returns (a1: array<bv8>, a2: array<bv8>, a3: array<bv8>)
    requires off + 4 <= column.Length
    ensures a1.Length == a2.Length == a3.Length == 4
    ensures fresh(a1) && fresh(a2) && fresh(a3)
    ensures forall j :: 0 <= j < 4 ==> MultiplesOf(column[off + j], a1[j], a2[j], a3[j])
  {
    a1, a2, a3 := new bv8[4], new bv8[4], new bv8[4];
    for i := 0 to 4
      invariant forall j :: 0 <= j < i ==> MultiplesOf(column[off + j], a1[j], a2[j], a3[j])
    {
      a1[i] := column[off + i];
      a2[i] := Xtime(a1[i]);
      a3[i] := a2[i] ^ a1[i];
    }
  }

  method MixColumnsImpl(column: array<bv8>, off: nat)
    requires off + 4 <= column.Length
    modifies column
    ensures ColumnAt(column, off) == MixColumn(old(ColumnAt(column, off)))
    ensures OnlyRange(column, off, 4)
  {
    var a1, a2, a3 := ColumnMultiples(column, off);
    MixColumnFormula(ColumnAt(column, off), a1[..], a2[..], a3[..]);
    WriteColumn(column, off,
                Xor4(a2[0], a3[1], a1[2], a1[3]), Xor4(a1[0], a2[1], a3[2], a1[3]),
                Xor4(a1[0], a1[1], a2[2], a3[3]), Xor4(a3[0], a1[1], a1[2], a2[3]));
  }

  ghost predicate InverseMultiplesOf(x: bv8, r9: bv8, r11: bv8, r13: bv8, r14: bv8) {
    r9 == By9(x) && r11 == By11(x) && r13 == By13(x) && r14 == By14(x)
  }

  lemma {:induction false} InvMixColumnFormula(c: Column, c9: Column, c11: Column, c13: Column, c14: Column)
    requires forall j :: 0 <= j < 4 ==> InverseMultiplesOf(c[j], c9[j], c11[j], c13[j], c14[j])
    ensures InvMixColumn(c) == [Xor4(c14[0], c11[1], c13[2], c9[3]), Xor4(c9[0], c14[1], c11[2], c13[3]),
                                Xor4(c13[0], c9[1], c14[2], c11[3]), Xor4(c11[0], c13[1], c9[2], c14[3])]
  {
  }

  // One pass of the source's loop: the multiples {09}, {0b}, {0d}, {0e} from five doublings.
  method InverseMultiples(a1: bv8) returns (r9: bv8, r11: bv8, r13: bv8, r14: bv8)
    ensures InverseMultiplesOf(a1, r9, r11, r13, r14)
  {
    var a2 := Xtime(a1);
    var a2_2 := Xtime(a2);
    r9 := Xor2(Xtime(a2_2), a1);
    r11 := Xor2(Xtime(Xor2(a2_2, a1)), a1);
    var a2a1_2 := Xtime(Xor2(a2, a1));
    r13 := Xor2(Xtime(a2a1_2), a1);
    r14 := Xtime(Xor2(a2a1_2, a1));
    SharedDoublings(a1);
  }

  method InvColumnMultiples(column: array<bv8>, off: nat)
    returns (a9: array<bv8>, a11: array<bv8>, a13: array<bv8>, a14: array<bv8>)
    requires off + 4 <= column.Length
    ensures a9.Length == a11.Length == a13.Length == a14.Length == 4
    ensures fresh(a9) && fresh(a11) && fresh(a13) && fresh(a14)
    ensures forall j :: 0 <= j < 4 ==> InverseMultiplesOf(column[off + j], a9[j], a11[j], a13[j], a14[j])
  {
    a9, a11, a13, a14 := new bv8[4], new bv8[4], new bv8[4], new bv8[4];
    for i := 0 to 4
      invariant forall j :: 0 <= j < i ==> InverseMultiplesOf(column[off + j], a9[j], a11[j], a13[j], a14[j])
    {
      a9[i], a11[i], a13[i], a14[i] := InverseMultiples(column[off + i]);
    }
  }

  method InvMixColumnsImpl(column: array<bv8>, off: nat)
    requires off + 4 <= column.Length
    modifies column
    ensures ColumnAt(column, off) == InvMixColumn(old(ColumnAt(column, off)))
    ensures OnlyRange(column, off, 4)
  {
    var a9, a11, a13, a14 := InvColumnMultiples(column, off);
    InvMixColumnFormula(ColumnAt(column, off), a9[..], a11[..], a13[..], a14[..]);
    WriteColumn(column, off,
                Xor4(a14[0], a11[1], a13[2], a9[3]), Xor4(a9[0], a14[1], a11[2], a13[3]),
                Xor4(a13[0], a9[1], a14[2], a11[3]), Xor4(a11[0], a13[1], a9[2], a14[3]));
  }

  // The loops reason about an unknown f.
  ghost predicate Agrees(f: Column -> Column, g: Column -> Column) {
    forall c: Column {:trigger Used(c)} :: Used(c) ==> f(c) == g(c)
  }

  lemma {:induction false} SliceOfSlice(a: seq<bv8>, i: nat, j: nat, m: nat, n: nat)
    requires i <= j <= |a| && m <= n <= j - i
    ensures a[i..j][m..n] == a[i + m..i + n]
  {
    var b := a[i..j];
    forall k | 0 <= k < n - m
      ensures b[m..n][k] == a[i + m..i + n][k]
    {
      assert b[m + k] == a[i + (m + k)];
    }
  }

  lemma {:induction false} ColumnOfBlock(a: seq<bv8>, off: nat, k: nat)
    requires off + BLOCK_BYTES <= |a| && k < 4
    ensures Col(a[off..off + BLOCK_BYTES], k) == a[off + 4 * k..off + 4 * k + 4]
  {
    SliceOfSlice(a, off, off + BLOCK_BYTES, 4 * k, 4 * k + 4);
  }

  // A block of which only column k was rewritten.
  lemma {:induction false} OneColumnRewritten(was: seq<bv8>, now: seq<bv8>, off: nat, k: nat, b: Block, b': Block)
    requires |was| == |now| && off + BLOCK_BYTES <= |was| && k < 4
    requires b == was[off..off + BLOCK_BYTES] && b' == now[off..off + BLOCK_BYTES]
    requires forall j :: 0 <= j < |was| && !(off + 4 * k <= j < off + 4 * k + 4) ==> now[j] == was[j]
    ensures forall j :: 0 <= j < 4 && j != k ==> Col(b', j) == Col(b, j)
  {
    forall j | 0 <= j < 4 && j != k
      ensures Col(b', j) == Col(b, j)
    {
      ColumnOfBlock(was, off, j);
      ColumnOfBlock(now, off, j);
    }
  }

  // One column, mixed forward or back.
  method MixColumnAt(forward: bool, ghost f: Column -> Column, column: array<bv8>, off: nat)
    requires Agrees(f, if forward then MixColumn else InvMixColumn) && off + 4 <= column.Length
    modifies column
    ensures ColumnAt(column, off) == f(old(ColumnAt(column, off)))
    ensures OnlyRange(column, off, 4)
  {
    assert Used(ColumnAt(column, off));
    if forward {
      MixColumnsImpl(column, off);
    } else {
      InvMixColumnsImpl(column, off);
    }
  }

  method MixOneColumn(forward: bool, ghost f: Column -> Column, block: array<bv8>, off: nat, k: nat)
    requires Agrees(f, if forward then MixColumn else InvMixColumn) && off + BLOCK_BYTES <= block.Length && k < 4
    modifies block
    ensures Col(BlockAt(block, off), k) == f(old(Col(BlockAt(block, off), k)))
    ensures forall j :: 0 <= j < 4 && j != k ==> Col(BlockAt(block, off), j) == old(Col(BlockAt(block, off), j))
    ensures OnlyRange(block, off, BLOCK_BYTES)
  {
    ghost var was, b := block[..], BlockAt(block, off);
    ColumnOfBlock(was, off, k);
    MixColumnAt(forward, f, block, off + 4 * k);
    ColumnOfBlock(block[..], off, k);
    OneColumnRewritten(was, block[..], off, k, b, BlockAt(block, off));
  }

  // The loop that the two transforms of the source both are.
  method MixColumnsLoop(forward: bool, ghost f: Column -> Column, block: array<bv8>, off: nat)
    requires Agrees(f, if forward then MixColumn else InvMixColumn) && off + BLOCK_BYTES <= block.Length
    modifies block
    ensures BlockAt(block, off) == MapColumns(f, old(BlockAt(block, off)))
    ensures OnlyRange(block, off, BLOCK_BYTES)
  {
    ghost var was := BlockAt(block, off);
    var i := 0;
    while i < BLOCK_BYTES
      invariant i % 4 == 0 && i <= BLOCK_BYTES
      invariant forall k :: 0 <= k < i / 4 ==> Col(BlockAt(block, off), k) == f(Col(was, k))
      invariant forall k :: i / 4 <= k < 4 ==> Col(BlockAt(block, off), k) == Col(was, k)
      invariant OnlyRange(block, off, BLOCK_BYTES)
    {
      MixOneColumn(forward, f, block, off, i / 4);
      i := i + 4;
    }
    MapColumnsByColumn(f, was, BlockAt(block, off));
  }

  method MixColumnsInPlace(block: array<bv8>, off: nat)
    requires off + BLOCK_BYTES <= block.Length
    modifies block
    ensures BlockAt(block, off) == MixColumns(old(BlockAt(block, off)))
    ensures OnlyRange(block, off, BLOCK_BYTES)
  {
    MixColumnsLoop(true, MixColumn, block, off);
  }

  method InvMixColumnsInPlace(block: array<bv8>, off: nat)
    requires off + BLOCK_BYTES <= block.Length
    modifies block
    ensures BlockAt(block, off) == InvMixColumns(old(BlockAt(block, off)))
    ensures OnlyRange(block, off, BLOCK_BYTES)
  {
    MixColumnsLoop(false, InvMixColumn, block, off);
  }

  // One pass of the loop in `TransformECB`.
  method RoundInPlace(w: array<bv8>, round: nat, block: array<bv8>, off: nat)
    requires w.Length == KEY_SCHEDULE_BYTES && round < ROUNDS && off + BLOCK_BYTES <= block.Length
    requires w != block
    modifies block
    ensures BlockAt(block, off) == Round(old(BlockAt(block, off)), RoundKey(w[..], round))
    ensures OnlyRange(block, off, BLOCK_BYTES)
  {
    SubBytesInPlace(block, off);
    ShiftRowsInPlace(block, off);
    MixColumnsInPlace(block, off);
    AddRoundKey(block, off, w, BLOCK_BYTES * round);
  }

  method FinalRoundInPlace(w: array<bv8>, block: array<bv8>, off: nat)
    requires w.Length == KEY_SCHEDULE_BYTES && off + BLOCK_BYTES <= block.Length
    requires w != block
    modifies block
    ensures BlockAt(block, off) == FinalRound(old(BlockAt(block, off)), RoundKey(w[..], ROUNDS))
    ensures OnlyRange(block, off, BLOCK_BYTES)
  {
    SubBytesInPlace(block, off);
    ShiftRowsInPlace(block, off);
    AddRoundKey(block, off, w, BLOCK_BYTES * ROUNDS);
  }

  ghost predicate AgreesOnRounds(f: (Block, Block) -> Block, g: (Block, Block) -> Block) {
    forall s: Block, key: Block {:trigger Used(s), f(s, key)} :: Used(s) ==> f(s, key) == g(s, key)
  }

  method RoundAs(ghost f: (Block, Block) -> Block, w: array<bv8>, round: nat, block: array<bv8>, off: nat)
    requires w.Length == KEY_SCHEDULE_BYTES && round < ROUNDS && off + BLOCK_BYTES <= block.Length
    requires w != block && AgreesOnRounds(f, Round)
    modifies block
    ensures BlockAt(block, off) == f(old(BlockAt(block, off)), RoundKey(w[..], round))
    ensures OnlyRange(block, off, BLOCK_BYTES)
  {
    assert Used(BlockAt(block, off));
    RoundInPlace(w, round, block, off);
  }

  method ForwardRounds(ghost f: (Block, Block) -> Block, w: array<bv8>, block: array<bv8>, off: nat)
    requires w.Length == KEY_SCHEDULE_BYTES && off + BLOCK_BYTES <= block.Length
    requires w != block && AgreesOnRounds(f, Round)
    modifies block
    ensures BlockAt(block, off) == Forward(f, InnerKeys(w[..], ROUNDS - 1), old(BlockAt(block, off)))
    ensures OnlyRange(block, off, BLOCK_BYTES)
  {
    ghost var first := BlockAt(block, off);
    for round := 1 to ROUNDS
      invariant BlockAt(block, off) == Forward(f, InnerKeys(w[..], round - 1), first)
      invariant OnlyRange(block, off, BLOCK_BYTES)
    {
      ForwardOneMore(f, w[..], round, first);
      RoundAs(f, w, round, block, off);
    }
  }

  method TransformECB(w: array<bv8>, block: array<bv8>, off: nat)
    requires w.Length == KEY_SCHEDULE_BYTES && off + BLOCK_BYTES <= block.Length
    requires w != block
    modifies block
    ensures BlockAt(block, off) == Cipher(w[..], old(BlockAt(block, off)))
    ensures OnlyRange(block, off, BLOCK_BYTES)
  {
    AddRoundKey(block, off, w, 0);
    ForwardRounds(Round, w, block, off);
    FinalRoundInPlace(w, block, off);
  }

  method InvFinalRoundInPlace(w: array<bv8>, block: array<bv8>, off: nat)
    requires w.Length == KEY_SCHEDULE_BYTES && off + BLOCK_BYTES <= block.Length
    requires w != block
    modifies block
    ensures BlockAt(block, off) == InvFinalRound(old(BlockAt(block, off)), RoundKey(w[..], ROUNDS))
    ensures OnlyRange(block, off, BLOCK_BYTES)
  {
    AddRoundKey(block, off, w, BLOCK_BYTES * ROUNDS);
    InvShiftRowsInPlace(block, off);
    InvSubBytesInPlace(block, off);
  }

  method InvRoundInPlace(w: array<bv8>, round: nat, block: array<bv8>, off: nat)
    requires w.Length == KEY_SCHEDULE_BYTES && round < ROUNDS && off + BLOCK_BYTES <= block.Length
    requires w != block
    modifies block
    ensures BlockAt(block, off) == InvRound(old(BlockAt(block, off)), RoundKey(w[..], round))
    ensures OnlyRange(block, off, BLOCK_BYTES)
  {
    AddRoundKey(block, off, w, BLOCK_BYTES * round);
    InvMixColumnsInPlace(block, off);
    InvShiftRowsInPlace(block, off);
    InvSubBytesInPlace(block, off);
  }

  method InvRoundAs(ghost g: (Block, Block) -> Block, w: array<bv8>, round: nat, block: array<bv8>, off: nat)
    requires w.Length == KEY_SCHEDULE_BYTES && round < ROUNDS && off + BLOCK_BYTES <= block.Length
    requires w != block && AgreesOnRounds(g, InvRound)
    modifies block
    ensures BlockAt(block, off) == g(old(BlockAt(block, off)), RoundKey(w[..], round))
    ensures OnlyRange(block, off, BLOCK_BYTES)
  {
    assert Used(BlockAt(block, off));
    InvRoundInPlace(w, round, block, off);
  }

  method BackwardRounds(ghost g: (Block, Block) -> Block, w: array<bv8>, block: array<bv8>, off: nat)
    requires w.Length == KEY_SCHEDULE_BYTES && off + BLOCK_BYTES <= block.Length
    requires w != block && AgreesOnRounds(g, InvRound)
    modifies block
    ensures BlockAt(block, off) == Backward(g, InnerKeys(w[..], ROUNDS - 1), old(BlockAt(block, off)))
    ensures OnlyRange(block, off, BLOCK_BYTES)
  {
    ghost var goal := Backward(g, InnerKeys(w[..], ROUNDS - 1), BlockAt(block, off));
    var round := ROUNDS - 1;
    while round > 0
      invariant 0 <= round < ROUNDS
      invariant Backward(g, InnerKeys(w[..], round), BlockAt(block, off)) == goal
      invariant OnlyRange(block, off, BLOCK_BYTES)
    {
      BackwardOneLess(g, w[..], round, BlockAt(block, off));
      InvRoundAs(g, w, round, block, off);
      round := round - 1;
    }
  }

  method InverseTransformECB(w: array<bv8>, block: array<bv8>, off: nat)
    requires w.Length == KEY_SCHEDULE_BYTES && off + BLOCK_BYTES <= block.Length
    requires w != block
    modifies block
    ensures BlockAt(block, off) == InvCipher(w[..], old(BlockAt(block, off)))
    ensures OnlyRange(block, off, BLOCK_BYTES)
  {
    InvFinalRoundInPlace(w, block, off);
    BackwardRounds(InvRound, w, block, off);
    AddRoundKey(block, off, w, 0);
  }
}
