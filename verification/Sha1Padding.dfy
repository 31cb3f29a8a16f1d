/** The padding of SHA-1 messages in `unverified_sha1.cc`, block by block, against FIPS 180-4
    section 5.1.1. Sizes are 64-bit and wrap. */
module Sha1Padding {
  import opened Wrappers

  const SIZE_LIMIT: nat := 0x1_0000_0000_0000_0000
  type size = x: int | 0 <= x < SIZE_LIMIT

  const BLOCK: nat := 64

  // ---- The padded message ----

  // A number without its lowest k bytes.
  function ShiftedRight(v: nat, k: nat): nat {
    if k == 0 then v else ShiftedRight(v, k - 1) / 256
  }

  // A 64-bit number in big-endian order.
  function BigEndian(v: size): (b: seq<byte>)
    ensures |b| == 8
  {
    seq(8, i requires 0 <= i < 8 => ShiftedRight(v, 7 - i) % 256)
  }

  // The number of zero bytes after the marker.
  function ZeroCount(n: nat): (k: nat)
    ensures (n + 1 + k + 8) % BLOCK == 0
  {
    (119 - n % 64) % 64
  }

  // No fewer zeros would do.
  lemma {:induction false} FewestZeros(n: nat, k: nat)
    requires (n + 1 + k + 8) % BLOCK == 0
    ensures ZeroCount(n) <= k
  {
  }

  function Zeros(k: nat): (z: seq<byte>)
    ensures |z| == k
  {
    seq(k, _ => 0)
  }

  // The message, a one bit and the fewest zeros, and the length of the message in bits.
  function Padded(source: seq<byte>): seq<byte> {
    source + [0x80] + Zeros(ZeroCount(|source|)) + BigEndian(|source| * 8 % SIZE_LIMIT)
  }

  lemma {:induction false} PaddedLength(source: seq<byte>)
    ensures |Padded(source)| == |source| + 9 + ZeroCount(|source|) && |Padded(source)| % BLOCK == 0
    ensures |source| + 9 <= |Padded(source)| < |source| + 9 + BLOCK
  {
  }

  // The i-th byte of the padded message, whose length is given.
  function PaddedByte(source: seq<byte>, length: nat, i: nat): byte
    requires |source| + 9 <= length && i < length
  {
    if i < |source| then source[i]
    else if i == |source| then 0x80
    else if i < length - 8 then 0
    else BigEndian(|source| * 8 % SIZE_LIMIT)[i - (length - 8)]
  }

  // The value of the first n bytes, the most significant first.
  function BigEndianValue(b: seq<byte>, n: nat): nat
    requires n <= |b|
  {
    if n == 0 then 0 else 256 * BigEndianValue(b, n - 1) + b[n - 1]
  }

  lemma {:induction false} ShiftBound(v: size)
    ensures ShiftedRight(v, 7) < 256
  {
    assert ShiftedRight(v, 1) < 0x100_0000_0000_0000 && ShiftedRight(v, 2) < 0x1_0000_0000_0000;
    assert ShiftedRight(v, 3) < 0x100_0000_0000 && ShiftedRight(v, 4) < 0x1_0000_0000;
    assert ShiftedRight(v, 5) < 0x100_0000 && ShiftedRight(v, 6) < 0x1_0000;
  }

  lemma {:induction false} BigEndianPrefix(v: size, n: nat)
    requires 1 <= n <= 8
    ensures BigEndianValue(BigEndian(v), n) == ShiftedRight(v, 8 - n)
  {
    var b := BigEndian(v);
    if n == 1 {
      assert BigEndianValue(b, 0) == 0;
      ShiftBound(v);
    } else {
      BigEndianPrefix(v, n - 1);
      assert ShiftedRight(v, 9 - n) == ShiftedRight(v, 8 - n) / 256;
    }
  }

  // The length field holds the number of bits, for every message whose number of bits has 64 bits.
  lemma {:induction false} LengthFieldHoldsLength(source: seq<byte>)
    requires |source| * 8 < SIZE_LIMIT
    ensures var p := Padded(source); BigEndianValue(p[|p| - 8..], 8) == 8 * |source|
  {
    var p := Padded(source);
    assert p[|p| - 8..] == BigEndian(|source| * 8);
    BigEndianPrefix(|source| * 8, 8);
  }

  // Byte by byte: the message, 0x80, zeros, and the number of bits in the last eight bytes.
  lemma {:induction false} PaddedBytes(source: seq<byte>)
    ensures var p, n := Padded(source), |source|;
      && |p| % 64 == 0 && n + 9 <= |p| < n + 73
      && (forall i :: 0 <= i < n ==> p[i] == source[i]) && p[n] == 0x80
      && (forall i :: n < i < |p| - 8 ==> p[i] == 0)
  {
    PaddedLength(source);
  }

  lemma {:induction false} LastEightBytes(source: seq<byte>)
    requires |source| * 8 < 0x1_0000_0000_0000_0000
    ensures var p := Padded(source);
      var b := p[|p| - 8..];
      8 * |source| == 0x100_0000_0000_0000 * (b[0] as int) + 0x1_0000_0000_0000 * (b[1] as int)
                      + 0x100_0000_0000 * (b[2] as int) + 0x1_0000_0000 * (b[3] as int)
                      + 0x100_0000 * (b[4] as int) + 0x1_0000 * (b[5] as int) + 0x100 * (b[6] as int) + b[7] as int
  {
    LengthFieldHoldsLength(source);
    var p := Padded(source);
    var b := p[|p| - 8..];
    assert BigEndianValue(b, 2) == 256 * BigEndianValue(b, 1) + b[1] && BigEndianValue(b, 1) == b[0];
    assert BigEndianValue(b, 4) == 256 * BigEndianValue(b, 3) + b[3] && BigEndianValue(b, 3) == 256 * BigEndianValue(b, 2) + b[2];
    assert BigEndianValue(b, 6) == 256 * BigEndianValue(b, 5) + b[5] && BigEndianValue(b, 5) == 256 * BigEndianValue(b, 4) + b[4];
    assert BigEndianValue(b, 8) == 256 * BigEndianValue(b, 7) + b[7] && BigEndianValue(b, 7) == 256 * BigEndianValue(b, 6) + b[6];
  }

  // ---- Counting the blocks ----

  function TotalMessageCount(n: size): size {
    var minimumSize := (n + 1 + 8) % SIZE_LIMIT;
    (minimumSize + BLOCK - 1) % SIZE_LIMIT / BLOCK
  }

  // The count is right exactly as long as the sum in it does not wrap around.
  lemma {:induction false} CountIsExact(source: seq<byte>)
    requires |source| < SIZE_LIMIT
    ensures TotalMessageCount(|source|) * BLOCK == |Padded(source)| <==> |source| + 72 < SIZE_LIMIT
  {
    PaddedLength(source);
  }

  // ---- Filling the blocks ----

  method CopyTo(source: seq<byte>, dest: array<byte>, count: nat, position: nat)
    requires position + count <= |source| && count <= dest.Length
    modifies dest
    ensures dest[..] == source[position..position + count] + old(dest[count..])
  {
    for i := 0 to count
      invariant forall k :: 0 <= k < i ==> dest[k] == source[position + k]
      invariant forall k :: i <= k < dest.Length ==> dest[k] == old(dest[k])
    {
      dest[i] := source[position + i];
    }
  }

  method FillZeros(dest: array<byte>, start: nat, end: nat)
    requires start <= end <= dest.Length
    modifies dest
    ensures forall k :: start <= k < end ==> dest[k] == 0
    ensures forall k :: 0 <= k < start || end <= k < dest.Length ==> dest[k] == old(dest[k])
  {
    for i := start to end
      invariant forall k :: start <= k < i ==> dest[k] == 0
      invariant forall k :: 0 <= k < start || i <= k < dest.Length ==> dest[k] == old(dest[k])
    {
      dest[i] := 0;
    }
  }

  method StoreLength(dest: array<byte>, bitLength: size)
    requires dest.Length == BLOCK
    modifies dest
    ensures forall k :: 0 <= k < BLOCK - 8 ==> dest[k] == old(dest[k])
    ensures forall k :: 0 <= k < 8 ==> dest[BLOCK - 8 + k] == BigEndian(bitLength)[k]
  {
    var bytes := BigEndian(bitLength);
    for i := 0 to 8
      invariant forall k :: 0 <= k < BLOCK - 8 ==> dest[k] == old(dest[k])
      invariant forall k :: 0 <= k < i ==> dest[BLOCK - 8 + k] == bytes[k]
    {
      dest[BLOCK - 8 + i] := bytes[i];
    }
  }

  // A block is the right one if each of its bytes is.
  ghost predicate IsBlock(source: seq<byte>, index: nat, block: seq<byte>) {
    |block| == BLOCK && (index + 1) * BLOCK <= |Padded(source)| && block == Padded(source)[index * BLOCK..(index + 1) * BLOCK]
  }

  lemma {:induction false} BlockFromBytes(source: seq<byte>, index: nat, block: seq<byte>, length: nat)
    requires length == |Padded(source)| && |source| + 9 <= length && |block| == BLOCK && (index + 1) * BLOCK <= length
    requires forall k :: 0 <= k < BLOCK ==> block[k] == PaddedByte(source, length, index * BLOCK + k)
    ensures IsBlock(source, index, block)
  {
  }

  lemma {:induction false} FullBlock(source: seq<byte>, index: nat, block: seq<byte>)
    requires (index + 1) * BLOCK <= |source| && block == source[index * BLOCK..(index + 1) * BLOCK]
    ensures IsBlock(source, index, block)
  {
  }

  // What the start of a block must hold: the rest of the message, and the marker if it ends here.
  ghost predicate StartsBlock(source: seq<byte>, index: nat, cursor: nat, block: seq<byte>) {
    var base := index * BLOCK;
    && |block| == BLOCK && base + BLOCK > |source| && cursor <= BLOCK
    && cursor == (if base <= |source| then |source| - base + 1 else 0)
    && forall k :: 0 <= k < cursor ==> block[k] == if base + k < |source| then source[base + k] else 0x80
  }

  // A block in which the length does not fit any more.
  lemma {:induction false} ZeroFilledBlock(source: seq<byte>, index: nat, cursor: nat, block: seq<byte>)
    requires StartsBlock(source, index, cursor, block) && cursor > BLOCK - 8
    requires forall k :: cursor <= k < BLOCK ==> block[k] == 0
    ensures IsBlock(source, index, block)
  {
  }

  // The block that ends with the length.
  lemma {:induction false} LastBlock(source: seq<byte>, index: nat, cursor: nat, block: seq<byte>)
    requires StartsBlock(source, index, cursor, block) && cursor <= BLOCK - 8 && (index + 1) * BLOCK <= |Padded(source)|
    requires forall k :: cursor <= k < BLOCK - 8 ==> block[k] == 0
    requires forall k :: 0 <= k < 8 ==> block[BLOCK - 8 + k] == BigEndian(|source| * 8 % SIZE_LIMIT)[k]
    ensures IsBlock(source, index, block)
  {
    PaddedLength(source);
    var length := |Padded(source)|;
    assert (index + 1) * BLOCK == length;
    forall k | 0 <= k < BLOCK
      ensures block[k] == PaddedByte(source, length, index * BLOCK + k)
    {
      if k >= BLOCK - 8 {
        assert block[BLOCK - 8 + (k - (BLOCK - 8))] == BigEndian(|source| * 8 % SIZE_LIMIT)[k - (BLOCK - 8)];
      }
    }
    BlockFromBytes(source, index, block, length);
  }

  class PaddedMessageIterator {
    const source: seq<byte>
    const numTotalMessage: size
    var messageIndex: nat

    constructor (s: seq<byte>)
      requires |s| < SIZE_LIMIT
      ensures source == s && messageIndex == 0 && numTotalMessage == TotalMessageCount(|s|)
    {
      source := s;
      numTotalMessage := TotalMessageCount(|s|);
      messageIndex := 0;
    }

    predicate HasMessage()
      reads this
    {
      messageIndex < numTotalMessage
    }

    // The next 64 bytes of the padded message.
    method FillNextMessage(dest: array<byte>)
      requires dest.Length == BLOCK && |source| + 72 < SIZE_LIMIT && numTotalMessage == TotalMessageCount(|source|)
      requires HasMessage()
      modifies dest
      ensures (messageIndex + 1) * BLOCK <= |Padded(source)|
      ensures dest[..] == Padded(source)[messageIndex * BLOCK..(messageIndex + 1) * BLOCK]
    {
      var baseIndex := messageIndex * BLOCK;
      CountIsExact(source);
      var cursor := 0;
      if baseIndex < |source| {
        var rest := |source| - baseIndex;
        if rest >= BLOCK {
          CopyTo(source, dest, BLOCK, baseIndex);
          FullBlock(source, messageIndex, dest[..]);
          return;
        }
        CopyTo(source, dest, rest, baseIndex);
        cursor := rest;
      }
      if baseIndex + cursor == |source| {
        dest[cursor] := 0x80;
        cursor := cursor + 1;
      }
      ghost var read := dest[..];
      if cursor > BLOCK - 8 {
        FillZeros(dest, cursor, BLOCK);
        ZeroFilledBlock(source, messageIndex, cursor, dest[..]);
        return;
      }
      FillZeros(dest, cursor, BLOCK - 8);
      ghost var filled := dest[..];
      StoreLength(dest, |source| * 8 % SIZE_LIMIT);
      LastBlock(source, messageIndex, cursor, dest[..]);
    }

    method MoveNext()
      modifies this
      ensures messageIndex == old(messageIndex) + 1
    {
      messageIndex := messageIndex + 1;
    }
  }

  // ---- The whole message ----

  function Blocks(source: seq<byte>, n: nat): seq<seq<byte>>
    requires n * BLOCK <= |Padded(source)|
  {
    seq(n, i requires 0 <= i < n => Padded(source)[i * BLOCK..(i + 1) * BLOCK])
  }

  function Concat(blocks: seq<seq<byte>>): seq<byte> {
    if blocks == [] then [] else Concat(blocks[..|blocks| - 1]) + blocks[|blocks| - 1]
  }

  lemma {:induction false} BlocksConcat(source: seq<byte>, n: nat)
    requires n * BLOCK <= |Padded(source)|
    ensures Concat(Blocks(source, n)) == Padded(source)[..n * BLOCK]
  {
    if n > 0 {
      BlocksConcat(source, n - 1);
      assert Blocks(source, n)[..n - 1] == Blocks(source, n - 1);
      assert Padded(source)[..n * BLOCK] == Padded(source)[..(n - 1) * BLOCK] + Padded(source)[(n - 1) * BLOCK..n * BLOCK];
    }
  }

  function Fold<S>(compress: (S, seq<byte>) -> S, h: S, blocks: seq<seq<byte>>): S {
    if blocks == [] then h else compress(Fold(compress, h, blocks[..|blocks| - 1]), blocks[|blocks| - 1])
  }

  function AllBlocks(source: seq<byte>): seq<seq<byte>> {
    PaddedLength(source);
    Blocks(source, |Padded(source)| / BLOCK)
  }

  // The blocks together are the padded message.
  lemma {:induction false} AllBlocksConcat(source: seq<byte>)
    ensures Concat(AllBlocks(source)) == Padded(source)
  {
    PaddedLength(source);
    BlocksConcat(source, |Padded(source)| / BLOCK);
    assert Padded(source)[..|Padded(source)|] == Padded(source);
  }

  lemma {:induction false} FoldChain<S>(compress: (S, seq<byte>) -> S, initial: S, blocks: seq<seq<byte>>) returns (h: seq<S>)
    ensures |h| == |blocks| + 1 && h[0] == initial && h[|blocks|] == Fold(compress, initial, blocks)
    ensures forall k :: 0 <= k < |blocks| ==> h[k + 1] == compress(h[k], blocks[k])
  {
    if blocks == [] {
      h := [initial];
    } else {
      var before := FoldChain(compress, initial, blocks[..|blocks| - 1]);
      h := before + [Fold(compress, initial, blocks)];
    }
  }

  // The digest is the last of a chain of states: every 64 bytes of the padded message are compressed
  // once, in order.
  lemma {:induction false} DigestChain<S>(source: seq<byte>, compress: (S, seq<byte>) -> S, initial: S) returns (h: seq<S>)
    ensures |Padded(source)| == 64 * (|h| - 1) && h != [] && h[0] == initial
    ensures forall k :: 0 <= k < |h| - 1 ==> h[k + 1] == compress(h[k], Padded(source)[64 * k..64 * k + 64])
    ensures h[|h| - 1] == Fold(compress, initial, AllBlocks(source))
  {
    PaddedLength(source);
    h := FoldChain(compress, initial, AllBlocks(source));
    forall k | 0 <= k < |h| - 1
      ensures AllBlocks(source)[k] == Padded(source)[64 * k..64 * k + 64]
    {
    }
  }

  // The loop of MakeDigestImpl, for any compression function: it compresses the blocks of the
  // padded message in order.
  method MakeDigest<S>(source: seq<byte>, compress: (S, seq<byte>) -> S, initial: S) returns (h: S)
    requires |source| + 72 < SIZE_LIMIT
    ensures h == Fold(compress, initial, AllBlocks(source))
  {
    CountIsExact(source);
    h := initial;
    ghost var blocks: seq<seq<byte>> := [];
    var it := new PaddedMessageIterator(source);
    while it.HasMessage()
      invariant fresh(it) && it.source == source && it.numTotalMessage == TotalMessageCount(|source|)
      invariant it.messageIndex <= it.numTotalMessage && blocks == Blocks(source, it.messageIndex)
      invariant h == Fold(compress, initial, blocks)
      decreases it.numTotalMessage - it.messageIndex
    {
      var message := new byte[BLOCK];
      it.FillNextMessage(message);
      h := compress(h, message[..]);
      blocks := blocks + [message[..]];
      assert blocks[..|blocks| - 1] == Blocks(source, it.messageIndex);
      it.MoveNext();
    }
  }
}
