/** AES-256 on 16-byte blocks as FIPS 197 states it, with bytes in column order
    (byte r + 4c is row r, column c), and the proof that the inverse cipher
    undoes the cipher for every 240-byte schedule. */
module Aes256Spec {
  import opened AesTables
  import opened Gf256

  const KEY_BYTES := 32
  const BLOCK_BYTES := 16
  const KEY_SCHEDULE_BYTES := 240
  const ROUNDS := 14

  type Block = s: seq<bv8> | |s| == BLOCK_BYTES witness seq(BLOCK_BYTES, _ => 0)

  function Xor(a: Block, b: Block): Block {
    seq(BLOCK_BYTES, i requires 0 <= i < BLOCK_BYTES => Xor2(a[i], b[i]))
  }

  function MapBytes(f: bv8 -> bv8, s: Block): Block {
    seq(BLOCK_BYTES, i requires 0 <= i < BLOCK_BYTES => f(s[i]))
  }

  function SubBytes(s: Block): Block { MapBytes(SBox, s) }

  function InvSubBytes(s: Block): Block { MapBytes(InvSBox, s) }

  function ShiftRows(s: Block): Block {
    [s[0], s[5], s[10], s[15], s[4], s[9], s[14], s[3], s[8], s[13], s[2], s[7], s[12], s[1], s[6], s[11]]
  }

  function InvShiftRows(s: Block): Block {
    [s[0], s[13], s[10], s[7], s[4], s[1], s[14], s[11], s[8], s[5], s[2], s[15], s[12], s[9], s[6], s[3]]
  }

  type Column = c: seq<bv8> | |c| == 4 witness [0, 0, 0, 0]

  function MixColumn(c: Column): Column {
    [Mix(c[0], c[1], c[2], c[3]), Mix(c[1], c[2], c[3], c[0]),
     Mix(c[2], c[3], c[0], c[1]), Mix(c[3], c[0], c[1], c[2])]
  }

  function InvMixColumn(c: Column): Column {
    [InvMix(c[0], c[1], c[2], c[3]), InvMix(c[1], c[2], c[3], c[0]),
     InvMix(c[2], c[3], c[0], c[1]), InvMix(c[3], c[0], c[1], c[2])]
  }

  function Col(s: Block, k: nat): Column
    requires k < 4
  {
    s[4 * k..4 * k + 4]
  }

  function MapColumns(f: Column -> Column, s: Block): Block {
    f(Col(s, 0)) + f(Col(s, 1)) + f(Col(s, 2)) + f(Col(s, 3))
  }

  lemma {:induction false} MapColumnsByColumn(f: Column -> Column, s: Block, t: Block)
    requires forall k :: 0 <= k < 4 ==> Col(t, k) == f(Col(s, k))
    ensures t == MapColumns(f, s)
  {
  }

  function MixColumns(s: Block): Block { MapColumns(MixColumn, s) }

  function InvMixColumns(s: Block): Block { MapColumns(InvMixColumn, s) }

  function Round(s: Block, key: Block): Block {
    Xor(MixColumns(ShiftRows(SubBytes(s))), key)
  }

  function FinalRound(s: Block, key: Block): Block {
    Xor(ShiftRows(SubBytes(s)), key)
  }

  function InvRound(s: Block, key: Block): Block {
    InvSubBytes(InvShiftRows(InvMixColumns(Xor(s, key))))
  }

  function InvFinalRound(s: Block, key: Block): Block {
    InvSubBytes(InvShiftRows(Xor(s, key)))
  }

  type Schedule = w: seq<bv8> | |w| == KEY_SCHEDULE_BYTES witness seq(KEY_SCHEDULE_BYTES, _ => 0)

  function RoundKey(w: Schedule, round: nat): Block
    requires round <= ROUNDS
  {
    w[BLOCK_BYTES * round..BLOCK_BYTES * round + BLOCK_BYTES]
  }

  // The keys of rounds 1, ..., n.
  function InnerKeys(w: Schedule, n: nat): seq<Block>
    requires n < ROUNDS
  {
    seq(n, i requires 0 <= i < n => RoundKey(w, i + 1))
  }

  // Applies f with keys[0], keys[1], ... in turn.
  function Forward(f: (Block, Block) -> Block, keys: seq<Block>, s: Block): Block {
    if keys == [] then s else f(Forward(f, keys[..|keys| - 1], s), keys[|keys| - 1])
  }

  // Applies g with the last key first and keys[0] last.
  function Backward(g: (Block, Block) -> Block, keys: seq<Block>, s: Block): Block {
    if keys == [] then s else Backward(g, keys[..|keys| - 1], g(s, keys[|keys| - 1]))
  }

  lemma {:induction false} ForwardOneMore(f: (Block, Block) -> Block, w: Schedule, round: nat, s: Block)
    requires 1 <= round < ROUNDS
    ensures Forward(f, InnerKeys(w, round), s) == f(Forward(f, InnerKeys(w, round - 1), s), RoundKey(w, round))
  {
    assert InnerKeys(w, round)[..round - 1] == InnerKeys(w, round - 1);
  }

  lemma {:induction false} BackwardOneLess(g: (Block, Block) -> Block, w: Schedule, round: nat, s: Block)
    requires 1 <= round < ROUNDS
    ensures Backward(g, InnerKeys(w, round), s) == Backward(g, InnerKeys(w, round - 1), g(s, RoundKey(w, round)))
  {
    assert InnerKeys(w, round)[..round - 1] == InnerKeys(w, round - 1);
  }

  // Sections 5.1 and 5.3.
  function Cipher(w: Schedule, s: Block): Block {
    FinalRound(Forward(Round, InnerKeys(w, ROUNDS - 1), Xor(s, RoundKey(w, 0))), RoundKey(w, ROUNDS))
  }

  function InvCipher(w: Schedule, s: Block): Block {
    Xor(Backward(InvRound, InnerKeys(w, ROUNDS - 1), InvFinalRound(s, RoundKey(w, ROUNDS))), RoundKey(w, 0))
  }

  lemma {:induction false} XorCancels(a: Block, k: Block)
    ensures Xor(Xor(a, k), k) == a
  {
  }

  lemma {:induction false} SubBytesCancel(s: Block)
    ensures InvSubBytes(SubBytes(s)) == s
    ensures SubBytes(InvSubBytes(s)) == s
  {
    forall i | 0 <= i < BLOCK_BYTES
      ensures InvSBox(SBox(s[i])) == s[i] && SBox(InvSBox(s[i])) == s[i]
    {
      InvSBoxCancelsSBox(s[i]);
      SBoxCancelsInvSBox(s[i]);
    }
  }

  lemma {:induction false} ShiftRowsCancel(s: Block)
    ensures InvShiftRows(ShiftRows(s)) == s
    ensures ShiftRows(InvShiftRows(s)) == s
  {
  }

  lemma {:induction false} MixColumnCancels(c: Column)
    ensures InvMixColumn(MixColumn(c)) == c
    ensures MixColumn(InvMixColumn(c)) == c
  {
    InvMixCancelsMix(c[0], c[1], c[2], c[3]);
    InvMixCancelsMix(c[1], c[2], c[3], c[0]);
    InvMixCancelsMix(c[2], c[3], c[0], c[1]);
    InvMixCancelsMix(c[3], c[0], c[1], c[2]);
    MixCancelsInvMix(c[0], c[1], c[2], c[3]);
    MixCancelsInvMix(c[1], c[2], c[3], c[0]);
    MixCancelsInvMix(c[2], c[3], c[0], c[1]);
    MixCancelsInvMix(c[3], c[0], c[1], c[2]);
  }

  lemma {:induction false} MapColumnsCancels(g: Column -> Column, f: Column -> Column, s: Block)
    requires forall c :: g(f(c)) == c
    ensures MapColumns(g, MapColumns(f, s)) == s
  {
    var t := MapColumns(f, s);
    assert Col(t, 0) == f(Col(s, 0)) && Col(t, 1) == f(Col(s, 1));
    assert Col(t, 2) == f(Col(s, 2)) && Col(t, 3) == f(Col(s, 3));
    MapColumnsByColumn(g, t, s);
  }

  lemma {:induction false} MixColumnsCancel(s: Block)
    ensures InvMixColumns(MixColumns(s)) == s
    ensures MixColumns(InvMixColumns(s)) == s
  {
    forall c: Column
      ensures InvMixColumn(MixColumn(c)) == c && MixColumn(InvMixColumn(c)) == c
    {
      MixColumnCancels(c);
    }
    MapColumnsCancels(InvMixColumn, MixColumn, s);
    MapColumnsCancels(MixColumn, InvMixColumn, s);
  }

  lemma {:induction false} RoundCancels(s: Block, key: Block)
    ensures InvRound(Round(s, key), key) == s
    ensures Round(InvRound(s, key), key) == s
  {
    SubBytesCancel(s);
    ShiftRowsCancel(SubBytes(s));
    MixColumnsCancel(ShiftRows(SubBytes(s)));
    XorCancels(MixColumns(ShiftRows(SubBytes(s))), key);
    var keyed := Xor(s, key);
    SubBytesCancel(InvShiftRows(InvMixColumns(keyed)));
    ShiftRowsCancel(InvMixColumns(keyed));
    MixColumnsCancel(keyed);
    XorCancels(s, key);
  }

  lemma {:induction false} FinalRoundCancels(s: Block, key: Block)
    ensures InvFinalRound(FinalRound(s, key), key) == s
    ensures FinalRound(InvFinalRound(s, key), key) == s
  {
    SubBytesCancel(s);
    ShiftRowsCancel(SubBytes(s));
    XorCancels(ShiftRows(SubBytes(s)), key);
    var keyed := Xor(s, key);
    SubBytesCancel(InvShiftRows(keyed));
    ShiftRowsCancel(keyed);
    XorCancels(s, key);
  }

  ghost predicate Undoes(g: (Block, Block) -> Block, f: (Block, Block) -> Block) {
    forall s, key :: g(f(s, key), key) == s
  }

  // Two round loops in opposite directions cancel when their bodies do.
  lemma {:induction false} BackwardUndoesForward(g: (Block, Block) -> Block, f: (Block, Block) -> Block,
                                                 keys: seq<Block>, s: Block)
    requires Undoes(g, f)
    ensures Backward(g, keys, Forward(f, keys, s)) == s
  {
    if keys != [] {
      BackwardUndoesForward(g, f, keys[..|keys| - 1], s);
    }
  }

  lemma {:induction false} ForwardUndoesBackward(f: (Block, Block) -> Block, g: (Block, Block) -> Block,
                                                 keys: seq<Block>, s: Block)
    requires Undoes(f, g)
    ensures Forward(f, keys, Backward(g, keys, s)) == s
  {
    if keys != [] {
      ForwardUndoesBackward(f, g, keys[..|keys| - 1], g(s, keys[|keys| - 1]));
    }
  }

  lemma {:induction false} RoundsUndo()
    ensures Undoes(InvRound, Round) && Undoes(Round, InvRound)
  {
    forall s, key
      ensures InvRound(Round(s, key), key) == s && Round(InvRound(s, key), key) == s
    {
      RoundCancels(s, key);
    }
  }

  lemma {:induction false} CipherInverse(w: Schedule, s: Block)
    ensures InvCipher(w, Cipher(w, s)) == s
    ensures Cipher(w, InvCipher(w, s)) == s
  {
    RoundsUndo();
    var keys := InnerKeys(w, ROUNDS - 1);
    var first, last := RoundKey(w, 0), RoundKey(w, ROUNDS);
    FinalRoundCancels(Forward(Round, keys, Xor(s, first)), last);
    BackwardUndoesForward(InvRound, Round, keys, Xor(s, first));
    XorCancels(s, first);
    XorCancels(Backward(InvRound, keys, InvFinalRound(s, last)), first);
    ForwardUndoesBackward(Round, InvRound, keys, InvFinalRound(s, last));
    FinalRoundCancels(s, last);
  }

  // Row r rotates left by r columns (section 5.1.2).
  lemma {:induction false} ShiftRowsRotates(s: Block, r: nat, c: nat)
    requires r < 4 && c < 4
    ensures ShiftRows(s)[r + 4 * c] == s[r + 4 * ((c + r) % 4)]
  {
  }

  lemma {:induction false} InvShiftRowsRotates(s: Block, r: nat, c: nat)
    requires r < 4 && c < 4
    ensures InvShiftRows(s)[r + 4 * ((c + r) % 4)] == s[r + 4 * c]
  {
  }
}
