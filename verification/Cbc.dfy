/** Cipher block chaining (NIST SP 800-38A, section 6.2) over any 16-byte block cipher. */
module Cbc {
  import opened Aes256Spec

  type Blocks = d: seq<bv8> | |d| % BLOCK_BYTES == 0 witness []

  // C[j] = E(P[j] + C[j-1]), with C[0] the initialization vector.
  function CbcEncrypt(e: Block -> Block, previous: Block, data: Blocks): (c: Blocks)
    ensures |c| == |data|
    decreases |data|
  {
    if data == [] then []
    else
      var first := e(Xor(data[..BLOCK_BYTES], previous));
      first + CbcEncrypt(e, first, data[BLOCK_BYTES..])
  }

  // P[j] = D(C[j]) + C[j-1].
  function CbcDecrypt(d: Block -> Block, previous: Block, data: Blocks): (p: Blocks)
    ensures |p| == |data|
    decreases |data|
  {
    if data == [] then []
    else Xor(d(data[..BLOCK_BYTES]), previous) + CbcDecrypt(d, data[..BLOCK_BYTES], data[BLOCK_BYTES..])
  }

  lemma {:induction false} DecryptUndoesEncrypt(d: Block -> Block, e: Block -> Block, previous: Block, data: Blocks)
    requires forall s :: d(e(s)) == s
    ensures CbcDecrypt(d, previous, CbcEncrypt(e, previous, data)) == data
    decreases |data|
  {
    if data != [] {
      var plain, rest := data[..BLOCK_BYTES], data[BLOCK_BYTES..];
      var first := e(Xor(plain, previous));
      XorCancels(plain, previous);
      DecryptUndoesEncrypt(d, e, first, rest);
      var c := CbcEncrypt(e, previous, data);
      assert c[..BLOCK_BYTES] == first && c[BLOCK_BYTES..] == CbcEncrypt(e, first, rest);
    }
  }

  lemma {:induction false} EncryptUndoesDecrypt(e: Block -> Block, d: Block -> Block, previous: Block, data: Blocks)
    requires forall s :: e(d(s)) == s
    ensures CbcEncrypt(e, previous, CbcDecrypt(d, previous, data)) == data
    decreases |data|
  {
    if data != [] {
      var first, rest := data[..BLOCK_BYTES], data[BLOCK_BYTES..];
      var plain := Xor(d(first), previous);
      XorCancels(d(first), previous);
      EncryptUndoesDecrypt(e, d, first, rest);
      var p := CbcDecrypt(d, previous, data);
      assert p[..BLOCK_BYTES] == plain && p[BLOCK_BYTES..] == CbcDecrypt(d, first, rest);
    }
  }

  // Block i of the text.
  function BlockOf(data: seq<bv8>, i: nat): Block
    requires 16 * (i + 1) <= |data|
  {
    data[16 * i..16 * i + 16]
  }

  lemma {:induction false} TailBlock(data: seq<bv8>, i: nat)
    requires i > 0 && 16 * (i + 1) <= |data|
    ensures BlockOf(data[16..], i - 1) == BlockOf(data, i)
  {
    forall k | 0 <= k < 16
      ensures BlockOf(data[16..], i - 1)[k] == BlockOf(data, i)[k]
    {
      assert data[16..][16 * (i - 1) + k] == data[16 * i + k];
    }
  }

  // Block by block: each is enciphered after the previous ciphertext block is added.
  lemma {:induction false} EncryptedBlock(e: Block -> Block, previous: Block, data: Blocks, i: nat)
    requires 16 * (i + 1) <= |data|
    ensures var c := CbcEncrypt(e, previous, data);
      BlockOf(c, i) == e(Xor(BlockOf(data, i), if i == 0 then previous else BlockOf(c, i - 1)))
    decreases i
  {
    var c := CbcEncrypt(e, previous, data);
    var first := e(Xor(data[..16], previous));
    assert BlockOf(data, 0) == data[..16] && BlockOf(c, 0) == first && c[16..] == CbcEncrypt(e, first, data[16..]);
    if i > 0 {
      EncryptedBlock(e, first, data[16..], i - 1);
      TailBlock(data, i);
      TailBlock(c, i);
      if i > 1 {
        TailBlock(c, i - 1);
      }
    }
  }

  lemma {:induction false} DecryptedBlock(d: Block -> Block, previous: Block, data: Blocks, i: nat)
    requires 16 * (i + 1) <= |data|
    ensures var p := CbcDecrypt(d, previous, data);
      BlockOf(p, i) == Xor(d(BlockOf(data, i)), if i == 0 then previous else BlockOf(data, i - 1))
    decreases i
  {
    var p := CbcDecrypt(d, previous, data);
    var first := data[..16];
    assert BlockOf(data, 0) == first && BlockOf(p, 0) == Xor(d(first), previous) && p[16..] == CbcDecrypt(d, first, data[16..]);
    if i > 0 {
      DecryptedBlock(d, first, data[16..], i - 1);
      TailBlock(data, i);
      TailBlock(p, i);
      if i > 1 {
        TailBlock(data, i - 1);
      }
    }
  }

  // A loop that has encrypted the bytes before off and kept the last ciphertext block.
  lemma {:induction false} EncryptStep(e: Block -> Block, all: seq<bv8>, done: seq<bv8>, previous: Block, data: seq<bv8>, off: nat, n: nat)
    requires off + BLOCK_BYTES <= n <= |data| && (n - off) % BLOCK_BYTES == 0
    requires all == done + CbcEncrypt(e, previous, data[off..n])
    ensures var next := e(Xor(data[off..off + BLOCK_BYTES], previous));
      all == done + next + CbcEncrypt(e, next, data[off + BLOCK_BYTES..n])
  {
    var rest := data[off..n];
    assert rest[..BLOCK_BYTES] == data[off..off + BLOCK_BYTES] && rest[BLOCK_BYTES..] == data[off + BLOCK_BYTES..n];
  }

  lemma {:induction false} DecryptStep(d: Block -> Block, all: seq<bv8>, done: seq<bv8>, previous: Block, data: seq<bv8>, off: nat, n: nat)
    requires off + BLOCK_BYTES <= n <= |data| && (n - off) % BLOCK_BYTES == 0
    requires all == done + CbcDecrypt(d, previous, data[off..n])
    ensures var first := data[off..off + BLOCK_BYTES];
      all == done + Xor(d(first), previous) + CbcDecrypt(d, first, data[off + BLOCK_BYTES..n])
  {
    var rest := data[off..n];
    assert rest[..BLOCK_BYTES] == data[off..off + BLOCK_BYTES] && rest[BLOCK_BYTES..] == data[off + BLOCK_BYTES..n];
  }

  // Rewriting one block keeps what is before and after it.
  lemma {:induction false} RewroteBlock(was: seq<bv8>, now: seq<bv8>, off: nat)
    requires |was| == |now| && off + BLOCK_BYTES <= |was|
    requires forall j :: 0 <= j < |was| && !(off <= j < off + BLOCK_BYTES) ==> now[j] == was[j]
    ensures now[..off + BLOCK_BYTES] == was[..off] + now[off..off + BLOCK_BYTES]
    ensures now[off + BLOCK_BYTES..] == was[off + BLOCK_BYTES..]
  {
  }
}
