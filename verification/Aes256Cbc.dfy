/** `TransformCBC` and `InverseTransformCBC`: chaining in place over a run of blocks. */
module Aes256Cbc {
  import opened Aes256
  import opened Aes256Spec
  import opened Cbc
  import opened Hiding
  import opened KeySchedule

  function EncryptBlock(key: Key): Block -> Block {
    (s: Block) => Cipher(ExpandedKey(key), s)
  }

  function DecryptBlock(key: Key): Block -> Block {
    (s: Block) => InvCipher(ExpandedKey(key), s)
  }

  lemma {:induction false} BlocksInverse(key: Key)
    ensures forall s :: DecryptBlock(key)(EncryptBlock(key)(s)) == s
    ensures forall s :: EncryptBlock(key)(DecryptBlock(key)(s)) == s
  {
    forall s: Block
      ensures DecryptBlock(key)(EncryptBlock(key)(s)) == s && EncryptBlock(key)(DecryptBlock(key)(s)) == s
    {
      CipherInverse(ExpandedKey(key), s);
    }
  }

  ghost predicate Schedules(w: array<bv8>, key: Key)
    reads w
  {
    w.Length == KEY_SCHEDULE_BYTES && w[..] == ExpandedKey(key)
  }

  // The loops reason about chaining with e and d unknown.
  ghost predicate Encrypts(e: Block -> Block, key: Key) {
    forall s: Block {:trigger Used(s)} :: Used(s) ==> e(s) == Cipher(ExpandedKey(key), s)
  }

  ghost predicate Decrypts(d: Block -> Block, key: Key) {
    forall s: Block {:trigger Used(s)} :: Used(s) ==> d(s) == InvCipher(ExpandedKey(key), s)
  }

  method EncryptBlockAt(ghost e: Block -> Block, ghost key: Key, w: array<bv8>, block: array<bv8>, off: nat)
    requires Encrypts(e, key) && Schedules(w, key) && w != block && off + BLOCK_BYTES <= block.Length
    modifies block
    ensures BlockAt(block, off) == e(old(BlockAt(block, off)))
    ensures OnlyRange(block, off, BLOCK_BYTES)
  {
    assert Used(BlockAt(block, off));
    TransformECB(w, block, off);
  }

  method DecryptBlockAt(ghost d: Block -> Block, ghost key: Key, w: array<bv8>, block: array<bv8>, off: nat)
    requires Decrypts(d, key) && Schedules(w, key) && w != block && off + BLOCK_BYTES <= block.Length
    modifies block
    ensures BlockAt(block, off) == d(old(BlockAt(block, off)))
    ensures OnlyRange(block, off, BLOCK_BYTES)
  {
    assert Used(BlockAt(block, off));
    InverseTransformECB(w, block, off);
  }

  method CopyBlock(from: array<bv8>, fromOff: nat, to: array<bv8>)
    requires to.Length == BLOCK_BYTES && fromOff + BLOCK_BYTES <= from.Length && from != to
    modifies to
    ensures to[..] == from[fromOff..fromOff + BLOCK_BYTES]
  {
    for i := 0 to BLOCK_BYTES
      invariant forall j :: 0 <= j < i ==> to[j] == from[fromOff + j]
    {
      to[i] := from[fromOff + i];
    }
  }

  // One pass of `TransformCBC` over the block that starts at off.
  method ChainBlock(ghost e: Block -> Block, ghost key: Key, w: array<bv8>, vec: array<bv8>, block: array<bv8>, off: nat)
    requires Encrypts(e, key) && Schedules(w, key) && off + BLOCK_BYTES <= block.Length
    requires vec.Length == BLOCK_BYTES && w != block && vec != block && w != vec
    modifies block, vec
    ensures BlockAt(block, off) == e(Xor(old(BlockAt(block, off)), old(vec[..])))
    ensures vec[..] == BlockAt(block, off)
    ensures OnlyRange(block, off, BLOCK_BYTES)
  {
    AddRoundKey(block, off, vec, 0);
    assert BlockAt(vec, 0) == vec[..];
    EncryptBlockAt(e, key, w, block, off);
    CopyBlock(block, off, vec);
  }

  method EncryptRun(ghost e: Block -> Block, ghost key: Key, w: array<bv8>, vec: array<bv8>,
                    block: array<bv8>, blockCount: nat)
    requires Encrypts(e, key) && Schedules(w, key)
    requires vec.Length == BLOCK_BYTES && w != block && vec != block && w != vec
    requires BLOCK_BYTES * blockCount <= block.Length
    modifies block, vec
    ensures block[..BLOCK_BYTES * blockCount] == CbcEncrypt(e, old(vec[..]), old(block[..BLOCK_BYTES * blockCount]))
    ensures block[BLOCK_BYTES * blockCount..] == old(block[BLOCK_BYTES * blockCount..])
  {
    ghost var n, was, all := BLOCK_BYTES * blockCount, block[..], CbcEncrypt(e, vec[..], block[..BLOCK_BYTES * blockCount]);
    for i := 0 to blockCount
      invariant block[BLOCK_BYTES * i..] == was[BLOCK_BYTES * i..]
      invariant all == block[..BLOCK_BYTES * i] + CbcEncrypt(e, vec[..], was[BLOCK_BYTES * i..n])
    {
      var off := i * BLOCK_BYTES;
      ghost var now := block[..];
      assert BlockAt(block, off) == was[off..off + BLOCK_BYTES] by {
        assert now[off..][..BLOCK_BYTES] == was[off..][..BLOCK_BYTES];
      }
      EncryptStep(e, all, block[..off], vec[..], was, off, n);
      ChainBlock(e, key, w, vec, block, off);
      RewroteBlock(now, block[..], off);
      assert was[off..][BLOCK_BYTES..] == was[off + BLOCK_BYTES..];
    }
  }

  method TransformCBC(key: array<bv8>, iv: array<bv8>, block: array<bv8>, blockCount: nat)
    requires key.Length == KEY_BYTES && iv.Length == BLOCK_BYTES && BLOCK_BYTES * blockCount <= block.Length
    requires key != block && iv != block
    modifies block
    ensures block[..BLOCK_BYTES * blockCount]
         == CbcEncrypt(EncryptBlock(key[..]), iv[..], old(block[..BLOCK_BYTES * blockCount]))
    ensures block[BLOCK_BYTES * blockCount..] == old(block[BLOCK_BYTES * blockCount..])
  {
    var w := new bv8[KEY_SCHEDULE_BYTES];
    MakeKeySchedule(key, w);
    var vec := new bv8[BLOCK_BYTES];
    CopyBlock(iv, 0, vec);
    assert vec[..] == iv[..];
    EncryptRun(EncryptBlock(key[..]), key[..], w, vec, block, blockCount);
  }

  // One pass of `InverseTransformCBC`; the ciphertext block is saved before it is overwritten.
  method UnchainBlock(ghost d: Block -> Block, ghost key: Key, w: array<bv8>, prevBlock: array<bv8>,
                      block: array<bv8>, off: nat)
    requires Decrypts(d, key) && Schedules(w, key) && off + BLOCK_BYTES <= block.Length
    requires prevBlock.Length == BLOCK_BYTES && w != block && prevBlock != block && w != prevBlock
    modifies block, prevBlock
    ensures BlockAt(block, off) == Xor(d(old(BlockAt(block, off))), old(prevBlock[..]))
    ensures prevBlock[..] == old(BlockAt(block, off))
    ensures OnlyRange(block, off, BLOCK_BYTES)
  {
    var originalCurrentBlock := new bv8[BLOCK_BYTES];
    CopyBlock(block, off, originalCurrentBlock);
    DecryptBlockAt(d, key, w, block, off);
    assert BlockAt(prevBlock, 0) == prevBlock[..];
    AddRoundKey(block, off, prevBlock, 0);
    CopyBlock(originalCurrentBlock, 0, prevBlock);
    assert originalCurrentBlock[0..BLOCK_BYTES] == originalCurrentBlock[..];
  }

  method DecryptRun(ghost d: Block -> Block, ghost key: Key, w: array<bv8>, prevBlock: array<bv8>,
                    block: array<bv8>, blockCount: nat)
    requires Decrypts(d, key) && Schedules(w, key)
    requires prevBlock.Length == BLOCK_BYTES && w != block && prevBlock != block && w != prevBlock
    requires BLOCK_BYTES * blockCount <= block.Length
    modifies block, prevBlock
    ensures block[..BLOCK_BYTES * blockCount] == CbcDecrypt(d, old(prevBlock[..]), old(block[..BLOCK_BYTES * blockCount]))
    ensures block[BLOCK_BYTES * blockCount..] == old(block[BLOCK_BYTES * blockCount..])
  {
    ghost var n, was, all := BLOCK_BYTES * blockCount, block[..], CbcDecrypt(d, prevBlock[..], block[..BLOCK_BYTES * blockCount]);
    for i := 0 to blockCount
      invariant block[BLOCK_BYTES * i..] == was[BLOCK_BYTES * i..]
      invariant all == block[..BLOCK_BYTES * i] + CbcDecrypt(d, prevBlock[..], was[BLOCK_BYTES * i..n])
    {
      var off := i * BLOCK_BYTES;
      ghost var now := block[..];
      assert BlockAt(block, off) == was[off..off + BLOCK_BYTES] by {
        assert now[off..][..BLOCK_BYTES] == was[off..][..BLOCK_BYTES];
      }
      DecryptStep(d, all, block[..off], prevBlock[..], was, off, n);
      UnchainBlock(d, key, w, prevBlock, block, off);
      RewroteBlock(now, block[..], off);
      assert was[off..][BLOCK_BYTES..] == was[off + BLOCK_BYTES..];
    }
  }

  method InverseTransformCBC(key: array<bv8>, iv: array<bv8>, block: array<bv8>, blockCount: nat)
    requires key.Length == KEY_BYTES && iv.Length == BLOCK_BYTES && BLOCK_BYTES * blockCount <= block.Length
    requires key != block && iv != block
    modifies block
    ensures block[..BLOCK_BYTES * blockCount]
         == CbcDecrypt(DecryptBlock(key[..]), iv[..], old(block[..BLOCK_BYTES * blockCount]))
    ensures block[BLOCK_BYTES * blockCount..] == old(block[BLOCK_BYTES * blockCount..])
  {
    var w := new bv8[KEY_SCHEDULE_BYTES];
    MakeKeySchedule(key, w);
    var prevBlock := new bv8[BLOCK_BYTES];
    CopyBlock(iv, 0, prevBlock);
    assert prevBlock[..] == iv[..];
    DecryptRun(DecryptBlock(key[..]), key[..], w, prevBlock, block, blockCount);
  }
}
