/** PKCS padding (RFC 5652, section 6.3) around AES-256/CBC, as `Encryptor` applies it in
    place to a buffer or to a resizable string. */
module Encryptor {
  import opened Hiding
  import opened Wrappers
  import opened Aes256Cbc
  import opened Aes256Spec
  import opened Cbc
  import opened KeySchedule

  // A whole extra block is added when the size is already a multiple of the block size.
  function GetEncryptedSize(size: nat): (r: nat)
    ensures r % BLOCK_BYTES == 0 && 1 <= r - size <= BLOCK_BYTES
  {
    (size / BLOCK_BYTES + 1) * BLOCK_BYTES
  }

  function Repeat(n: nat, b: bv8): (s: seq<bv8>)
    ensures |s| == n
  {
    seq(n, _ => b)
  }

  function Pad(data: seq<bv8>): (padded: Blocks)
    ensures |padded| == GetEncryptedSize(|data|) && data <= padded
  {
    var n := GetEncryptedSize(|data|) - |data|;
    data + Repeat(n, n as bv8)
  }

  // Unpadding accepts 1 to 16 equal bytes that do not make up the whole input.
  function Unpad(padded: seq<bv8>): Option<seq<bv8>>
    requires padded != []
  {
    var value := padded[|padded| - 1];
    var n := value as nat;
    if value == 0 || n > BLOCK_BYTES then None
    else if |padded| <= n then None
    else if padded[|padded| - n..] != Repeat(n, value) then None
    else Some(padded[..|padded| - n])
  }

  lemma {:induction false} SmallByte(n: nat)
    requires 1 <= n <= BLOCK_BYTES
    ensures (n as bv8) as nat == n && n as bv8 != 0
  {
  }

  // A message is filled up with 1 to 16 bytes to whole blocks, and each of them is their number.
  lemma {:induction false} PaddingBytes(data: seq<bv8>)
    ensures var padded := Pad(data);
      && data <= padded && |padded| % 16 == 0 && 1 <= |padded| - |data| <= 16
      && forall j :: |data| <= j < |padded| ==> padded[j] as nat == |padded| - |data|
  {
    SmallByte(GetEncryptedSize(|data|) - |data|);
  }

  lemma {:induction false} UnpadUndoesPad(data: seq<bv8>)
    requires data != []
    ensures Unpad(Pad(data)) == Some(data)
  {
    var n := GetEncryptedSize(|data|) - |data|;
    var value := n as bv8;
    SmallByte(n);
    var padded := Pad(data);
    assert padded[|padded| - 1] == value;
    assert padded[|padded| - n..] == Repeat(n, value);
  }

  lemma {:induction false} SizeOfUnpadded(size: nat, n: nat)
    requires size % BLOCK_BYTES == 0 && 1 <= n <= BLOCK_BYTES && n < size
    ensures GetEncryptedSize(size - n) == size
  {
    var q := size / BLOCK_BYTES;
    assert (size - n) / BLOCK_BYTES == q - 1;
  }

  // Whatever unpadding accepts is the padding of what it returns.
  lemma {:induction false} PadUndoesUnpad(padded: seq<bv8>)
    requires |padded| > 0 && |padded| % BLOCK_BYTES == 0 && Unpad(padded).Some?
    ensures Unpad(padded).value != [] && Pad(Unpad(padded).value) == padded
  {
    var value := padded[|padded| - 1];
    var n := value as nat;
    var data := Unpad(padded).value;
    SizeOfUnpadded(|padded|, n);
    assert padded == data + padded[|padded| - n..];
  }

  function Encrypt(key: Key, iv: Block, data: seq<bv8>): (c: Blocks)
    ensures |c| == GetEncryptedSize(|data|)
  {
    CbcEncrypt(EncryptBlock(key), iv, Pad(data))
  }

  // The padded message, if the data are whole blocks.
  function Decipher(key: Key, iv: Block, data: seq<bv8>): (padded: Option<seq<bv8>>)
    ensures padded.Some? ==> |padded.value| == |data| > 0
  {
    if |data| < BLOCK_BYTES || |data| % BLOCK_BYTES != 0 then None
    else Some(CbcDecrypt(DecryptBlock(key), iv, data))
  }

  function Decrypt(key: Key, iv: Block, data: seq<bv8>): Option<seq<bv8>> {
    match Decipher(key, iv, data)
    case None => None
    case Some(padded) => Unpad(padded)
  }

  // What unpadding and decryption yield, if anything; the definitions are used only where Peek(0) is.
  ghost predicate IsUnpadded(padded: seq<bv8>, ok: bool, message: seq<bv8>) {
    forall i: nat {:trigger Peek(i)} :: Peek(i) ==> padded != [] && Unpad(padded) == if ok then Some(message) else None
  }

  ghost predicate IsDecrypted(key: Key, iv: Block, data: seq<bv8>, ok: bool, message: seq<bv8>) {
    forall i: nat {:trigger Peek(i)} :: Peek(i) ==> Decrypt(key, iv, data) == if ok then Some(message) else None
  }

  lemma {:induction false} DecryptedAs(key: Key, iv: Block, data: seq<bv8>, padded: Option<seq<bv8>>, ok: bool, message: seq<bv8>)
    requires padded == Decipher(key, iv, data)
    requires if padded.Some? then IsUnpadded(padded.value, ok, message) else !ok
    ensures IsDecrypted(key, iv, data, ok, message)
  {
    assert Peek(0);
  }

  // Decryption inverts encryption of every nonempty message.
  lemma {:induction false} RoundTrip(key: Key, iv: Block, data: seq<bv8>)
    requires data != []
    ensures Decrypt(key, iv, Encrypt(key, iv, data)) == Some(data)
  {
    BlocksInverse(key);
    DecryptUndoesEncrypt(DecryptBlock(key), EncryptBlock(key), iv, Pad(data));
    UnpadUndoesPad(data);
  }

  // And it accepts nothing else: a ciphertext is accepted only if it is the encryption of
  // the nonempty message it yields.
  lemma {:induction false} AcceptsExactlyEncryptions(key: Key, iv: Block, c: seq<bv8>, m: seq<bv8>)
    ensures Decrypt(key, iv, c) == Some(m) <==> m != [] && c == Encrypt(key, iv, m)
  {
    if Decrypt(key, iv, c) == Some(m) {
      BlocksInverse(key);
      EncryptUndoesDecrypt(EncryptBlock(key), DecryptBlock(key), iv, c);
      PadUndoesUnpad(CbcDecrypt(DecryptBlock(key), iv, c));
    } else if m != [] {
      RoundTrip(key, iv, m);
    }
  }

  // A `std::string`: resizing keeps the common prefix and fills with NUL.
  class ByteString {
    var bytes: array<bv8>

    ghost function Contents(): seq<bv8>
      reads this, bytes
    {
      bytes[..]
    }

    constructor (data: seq<bv8>)
      ensures Contents() == data && fresh(bytes)
    {
      bytes := new bv8[|data|](i requires 0 <= i < |data| => data[i]);
    }

    method Resize(n: nat)
      modifies this
      ensures fresh(bytes)
      ensures Contents() == if n <= |old(Contents())| then old(Contents())[..n]
                            else old(Contents()) + Repeat(n - |old(Contents())|, 0)
    {
      var old_ := bytes;
      bytes := new bv8[n](i requires 0 <= i reads old_ => if i < old_.Length then old_[i] else 0);
    }
  }

  // `Encryptor::Key`: the fields `DeriveFromPassword` fills.
  class CryptKey {
    const key_: array<bv8>
    const iv_: array<bv8>
    var isAvailable: bool

    ghost predicate Valid()
      reads this
    {
      key_.Length == KEY_BYTES && iv_.Length == BLOCK_BYTES
    }

    constructor (key: Key, iv: Block)
      ensures Valid() && isAvailable && key_[..] == key && iv_[..] == iv && fresh(key_) && fresh(iv_)
    {
      key_ := new bv8[KEY_BYTES](i requires 0 <= i < KEY_BYTES => key[i]);
      iv_ := new bv8[BLOCK_BYTES](i requires 0 <= i < BLOCK_BYTES => iv[i]);
      isAvailable := true;
    }
  }

  method PadInPlace(buf: array<bv8>, size: nat, encSize: nat)
    requires encSize == GetEncryptedSize(size) && encSize <= buf.Length
    modifies buf
    ensures buf[..encSize] == Pad(old(buf[..size]))
    ensures buf[encSize..] == old(buf[encSize..])
  {
    var paddingValue := (encSize - size) as bv8;
    for i := size to encSize
      invariant buf[..size] == old(buf[..size]) && buf[encSize..] == old(buf[encSize..])
      invariant forall j :: size <= j < i ==> buf[j] == paddingValue
    {
      buf[i] := paddingValue;
    }
    assert buf[..encSize] == buf[..size] + buf[size..encSize];
  }

  // The buffer must have room for the padding; bufSize is the input size, newSize the output size.
  method EncryptArray(key: CryptKey, buf: array?<bv8>, bufSize: nat) returns (ok: bool, newSize: nat)
    requires key.Valid()
    requires buf != null ==> bufSize <= buf.Length && buf != key.key_ && buf != key.iv_
    requires key.isAvailable && buf != null && bufSize > 0 ==> GetEncryptedSize(bufSize) <= buf.Length
    modifies buf
    ensures ok <==> key.isAvailable && buf != null && bufSize > 0
    ensures !ok ==> newSize == bufSize && (buf != null ==> buf[..] == old(buf[..]))
    ensures ok ==> newSize == GetEncryptedSize(bufSize)
    ensures ok ==> buf[..newSize] == Encrypt(key.key_[..], key.iv_[..], old(buf[..bufSize]))
    ensures ok ==> buf[newSize..] == old(buf[newSize..])
  {
    if !key.isAvailable {
      return false, bufSize;
    }
    if buf == null || bufSize == 0 {
      return false, bufSize;
    }
    var encSize := GetEncryptedSize(bufSize);
    PadInPlace(buf, bufSize, encSize);
    var blockCount := encSize / BLOCK_BYTES;
    assert BLOCK_BYTES * blockCount == encSize;
    TransformCBC(key.key_, key.iv_, buf, blockCount);
    return true, encSize;
  }

  lemma {:induction false} RepeatedFrom(s: seq<bv8>, from: nat, value: bv8)
    requires from <= |s| && forall j :: from <= j < |s| ==> s[j] == value
    ensures s[from..] == Repeat(|s| - from, value)
  {
  }

  lemma {:induction false} NotRepeated(s: seq<bv8>, from: nat, i: nat, value: bv8)
    requires from <= i < |s| && s[i] != value
    ensures s[from..] != Repeat(|s| - from, value)
  {
    assert s[from..][i - from] == s[i];
  }

  method UnpadArray(buf: array<bv8>, size: nat) returns (ok: bool, newSize: nat)
    requires 0 < size <= buf.Length
    ensures newSize <= size && (!ok ==> newSize == size) && IsUnpadded(buf[..size], ok, buf[..newSize])
  {
    var paddingValue := buf[size - 1];
    var paddingSize := paddingValue as nat;
    ghost var padded := buf[..size];
    assert padded[|padded| - 1] == paddingValue;
    if paddingValue == 0x00 || paddingSize > BLOCK_BYTES {
      return false, size;
    }
    if size <= paddingSize {
      return false, size;
    }
    for i := size - paddingSize to size
      invariant forall j :: size - paddingSize <= j < i ==> buf[j] == paddingValue
    {
      if buf[i] != paddingValue {
        NotRepeated(padded, size - paddingSize, i, paddingValue);
        return false, size;
      }
    }
    RepeatedFrom(padded, size - paddingSize, paddingValue);
    assert padded[..size - paddingSize] == buf[..size - paddingSize];
    return true, size - paddingSize;
  }

  // Deciphers the first bytes of the buffer if they are whole blocks.
  method DecipherArray(key: CryptKey, buf: array<bv8>, bufSize: nat) returns (ok: bool, ghost padded: Option<seq<bv8>>)
    requires key.Valid() && bufSize <= buf.Length && buf != key.key_ && buf != key.iv_
    modifies buf
    ensures padded == Decipher(key.key_[..], key.iv_[..], old(buf[..bufSize])) && ok == padded.Some?
    ensures buf[..bufSize] == if ok then padded.value else old(buf[..bufSize])
    ensures buf[bufSize..] == old(buf[bufSize..])
  {
    padded := Decipher(key.key_[..], key.iv_[..], buf[..bufSize]);
    if bufSize < BLOCK_BYTES || bufSize % BLOCK_BYTES != 0 {
      return false, padded;
    }
    var blockCount := bufSize / BLOCK_BYTES;
    assert BLOCK_BYTES * blockCount == bufSize;
    InverseTransformCBC(key.key_, key.iv_, buf, blockCount);
    ok := true;
  }

  method DecipherAndUnpad(key: CryptKey, buf: array<bv8>, bufSize: nat) returns (ok: bool, newSize: nat)
    requires key.Valid() && bufSize <= buf.Length && buf != key.key_ && buf != key.iv_
    modifies buf
    ensures newSize <= bufSize && (!ok ==> newSize == bufSize)
    ensures IsDecrypted(key.key_[..], key.iv_[..], old(buf[..bufSize]), ok, buf[..newSize])
    ensures var padded := Decipher(key.key_[..], key.iv_[..], old(buf[..bufSize]));
      buf[..bufSize] == if padded.Some? then padded.value else old(buf[..bufSize])
    ensures buf[bufSize..] == old(buf[bufSize..])
  {
    ghost var k, iv, data := key.key_[..], key.iv_[..], buf[..bufSize];
    ghost var padded;
    ok, padded := DecipherArray(key, buf, bufSize);
    newSize := bufSize;
    if ok {
      ok, newSize := UnpadArray(buf, bufSize);
    }
    DecryptedAs(k, iv, data, padded, ok, buf[..newSize]);
  }

  // On rejection after decryption the buffer keeps the decrypted bytes and the size is unchanged.
  method DecryptArray(key: CryptKey, buf: array?<bv8>, bufSize: nat) returns (ok: bool, newSize: nat)
    requires key.Valid()
    requires buf != null ==> bufSize <= buf.Length && buf != key.key_ && buf != key.iv_
    modifies buf
    ensures newSize <= bufSize && (ok ==> buf != null)
    ensures ok <==> key.isAvailable && buf != null && bufSize > 0
                    && Decrypt(key.key_[..], key.iv_[..], old(buf[..bufSize])).Some?
    ensures ok ==> Decrypt(key.key_[..], key.iv_[..], old(buf[..bufSize])) == Some(buf[..newSize])
    ensures !ok ==> newSize == bufSize
    ensures buf != null && key.isAvailable ==>
      var padded := Decipher(key.key_[..], key.iv_[..], old(buf[..bufSize]));
      buf[..bufSize] == if padded.Some? then padded.value else old(buf[..bufSize])
    ensures buf != null && !key.isAvailable ==> buf[..bufSize] == old(buf[..bufSize])
    ensures buf != null ==> buf[bufSize..] == old(buf[bufSize..])
  {
    if !key.isAvailable {
      return false, bufSize;
    }
    if buf == null || bufSize == 0 {
      return false, bufSize;
    }
    ok, newSize := DecipherAndUnpad(key, buf, bufSize);
    assert Peek(0);
  }

  // A string is resized before the key is looked at, so a failed call can leave it longer.
  method EncryptString(key: CryptKey, data: ByteString?) returns (ok: bool)
    requires key.Valid()
    requires data != null ==> data.bytes != key.key_ && data.bytes != key.iv_
    modifies data
    ensures ok <==> data != null && old(data.Contents()) != [] && key.isAvailable
    ensures ok ==> data.Contents() == Encrypt(key.key_[..], key.iv_[..], old(data.Contents()))
    ensures ok ==> fresh(data.bytes)
    ensures !ok && data != null && old(data.Contents()) == [] ==> data.Contents() == []
    ensures var n := if data == null then 0 else |old(data.Contents())|;
      !ok && n > 0 ==> data.Contents() == old(data.Contents()) + Repeat(GetEncryptedSize(n) - n, 0)
  {
    if data == null || data.bytes.Length == 0 {
      return false;
    }
    var size := data.bytes.Length;
    data.Resize(GetEncryptedSize(size));
    var newSize;
    ok, newSize := EncryptArray(key, data.bytes, size);
  }

  method DecryptString(key: CryptKey, data: ByteString?) returns (ok: bool)
    requires key.Valid()
    requires data != null ==> data.bytes != key.key_ && data.bytes != key.iv_
    modifies data, if data == null then {} else {data.bytes}
    ensures ok ==> data != null
    ensures ok <==> data != null && old(data.Contents()) != [] && key.isAvailable
                    && Decrypt(key.key_[..], key.iv_[..], old(data.Contents())).Some?
    ensures ok ==> Decrypt(key.key_[..], key.iv_[..], old(data.Contents())) == Some(data.Contents())
    ensures var was := if data == null then [] else old(data.Contents());
      var padded := Decipher(key.key_[..], key.iv_[..], was);
      !ok && data != null ==> data.Contents() == if key.isAvailable && padded.Some? then padded.value else was
  {
    if data == null || data.bytes.Length == 0 {
      return false;
    }
    var size := data.bytes.Length;
    assert data.bytes[..size] == data.bytes[..];
    ok, size := DecryptArray(key, data.bytes, size);
    if !ok {
      return false;
    }
    data.Resize(size);
  }
}
