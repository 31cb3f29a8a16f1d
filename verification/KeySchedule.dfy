/** The AES-256 key expansion of FIPS 197, section 5.2 (Nk = 8): the recurrence over 60
    four-byte words, and the source's loop that fills the 240 bytes in place. The
    substitution table is a parameter, `sub`, so that nothing here depends on its entries. */
module KeySchedule {
  import opened AesTables
  import opened Aes256Spec
  import opened Gf256

  type Key = k: seq<bv8> | |k| == KEY_BYTES witness seq(KEY_BYTES, _ => 0)

  // x^(i-1) in GF(2^8), the round constant.
  function Rcon(i: nat): bv8
    requires i >= 1
  {
    if i == 1 then 0x01 else Xtime(Rcon(i - 1))
  }

  function TempByte(bytes: nat --> bv8, sub: bv8 -> bv8, i: nat, r: nat): bv8
    requires i >= 8 && r < 4 && forall m :: 0 <= m < 4 * i ==> bytes.requires(m)
  {
    if i % 8 == 0 then
      var t := sub(bytes(4 * (i - 1) + (if r == 3 then 0 else r + 1)));
      if r == 0 then Xor2(t, Rcon(i / 8)) else t
    else if i % 8 == 4 then sub(bytes(4 * (i - 1) + r))
    else bytes(4 * (i - 1) + r)
  }

  // Byte r of word i of an expansion is the byte 32 places earlier plus a byte of the previous
  // word, which is rotated, substituted and offset by the round constant in every eighth word
  // and only substituted in the word halfway between.
  function Step(bytes: nat --> bv8, sub: bv8 -> bv8, i: nat, r: nat): bv8
    requires i >= 8 && r < 4 && forall m :: 0 <= m < 4 * i ==> bytes.requires(m)
  {
    Xor2(bytes(4 * (i - 8) + r), TempByte(bytes, sub, i, r))
  }

  ghost predicate Expands(bytes: nat -> bv8, sub: bv8 -> bv8, key: Key) {
    && (forall n :: 0 <= n < KEY_BYTES ==> bytes(n) == key[n])
    && (forall i, r {:trigger Step(bytes, sub, i, r)} :: i >= 8 && 0 <= r < 4 ==> bytes(4 * i + r) == Step(bytes, sub, i, r))
  }

  function KeyByte(sub: bv8 -> bv8, key: Key, n: nat): bv8
    decreases key, n
  {
    if n < KEY_BYTES then key[n]
    else Step((m: nat) requires m < n => KeyByte(sub, key, m), sub, n / 4, n % 4)
  }

  function Expansion(sub: bv8 -> bv8, key: Key): (bytes: nat -> bv8) {
    (n: nat) => KeyByte(sub, key, n)
  }

  function ExpandedKey(key: Key): Schedule {
    seq(KEY_SCHEDULE_BYTES, Expansion(SBox, key))
  }

  lemma {:induction false} StepDependsOnBefore(bytes: nat --> bv8, bytes': nat --> bv8, sub: bv8 -> bv8, i: nat, r: nat)
    requires i >= 8 && r < 4
    requires forall m :: 0 <= m < 4 * i ==> bytes.requires(m) && bytes'.requires(m) && bytes(m) == bytes'(m)
    ensures Step(bytes, sub, i, r) == Step(bytes', sub, i, r)
  {
  }

  lemma {:induction false} ExpansionExpands(sub: bv8 -> bv8, key: Key)
    ensures Expands(Expansion(sub, key), sub, key)
  {
    var bytes := Expansion(sub, key);
    forall i, r | i >= 8 && 0 <= r < 4
      ensures bytes(4 * i + r) == Step(bytes, sub, i, r)
    {
      var n := 4 * i + r;
      assert n / 4 == i && n % 4 == r;
      StepDependsOnBefore(bytes, (m: nat) requires m < n => KeyByte(sub, key, m), sub, i, r);
    }
  }

  type Word = w: seq<bv8> | |w| == 4 witness [0, 0, 0, 0]

  function XorWord(a: Word, b: Word): Word {
    [Xor2(a[0], b[0]), Xor2(a[1], b[1]), Xor2(a[2], b[2]), Xor2(a[3], b[3])]
  }

  function SubWord(sub: bv8 -> bv8, a: Word): Word { [sub(a[0]), sub(a[1]), sub(a[2]), sub(a[3])] }

  function RotWord(a: Word): Word { [a[1], a[2], a[3], a[0]] }

  // XOR with the word [rcon, 0, 0, 0].
  function AddRcon(a: Word, rcon: bv8): Word { [Xor2(a[0], rcon), a[1], a[2], a[3]] }

  function WordAt(bytes: nat -> bv8, i: nat): Word {
    [bytes(4 * i), bytes(4 * i + 1), bytes(4 * i + 2), bytes(4 * i + 3)]
  }

  // The word form of Step: the previous word is rotated, substituted and offset by the round
  // constant in every eighth word, substituted in the word halfway, and used as it is elsewhere.
  function Temp(bytes: nat -> bv8, sub: bv8 -> bv8, i: nat): Word
    requires i >= 8
  {
    var last := WordAt(bytes, i - 1);
    if i % 8 == 0 then AddRcon(SubWord(sub, RotWord(last)), Rcon(i / 8))
    else if i % 8 == 4 then SubWord(sub, last)
    else last
  }

  lemma {:induction false} TempBytes(bytes: nat -> bv8, sub: bv8 -> bv8, i: nat)
    requires i >= 8
    ensures Temp(bytes, sub, i) == [TempByte(bytes, sub, i, 0), TempByte(bytes, sub, i, 1),
                                    TempByte(bytes, sub, i, 2), TempByte(bytes, sub, i, 3)]
  {
  }

  // The recurrence as the standard prints it, word by word.
  lemma {:induction false} WordRecurrence(bytes: nat -> bv8, sub: bv8 -> bv8, key: Key, i: nat)
    requires Expands(bytes, sub, key) && i >= 8
    ensures WordAt(bytes, i) == XorWord(WordAt(bytes, i - 8), Temp(bytes, sub, i))
  {
    TempBytes(bytes, sub, i);
    forall r | 0 <= r < 4
      ensures bytes(4 * i + r) == Xor2(bytes(4 * (i - 8) + r), TempByte(bytes, sub, i, r))
    {
      assert bytes(4 * i + r) == Step(bytes, sub, i, r);
    }
  }

  // The source's 1 << (base - 1) is the round constant on every pass it makes.
  lemma {:induction false} RconIsShift(base: nat)
    requires 1 <= base <= 7
    ensures Rcon(base) == (1 as bv8) << (base - 1)
  {
  }

  lemma {:induction false} FirstTemps(bytes: nat -> bv8, sub: bv8 -> bv8, i: nat, base: nat)
    requires base >= 1 && i == 8 * base && i % 8 == 0 && i / 8 == base
    ensures var k := KEY_BYTES * base;
      && TempByte(bytes, sub, i, 0) == Xor2(sub(bytes(k - 3)), Rcon(base))
      && TempByte(bytes, sub, i, 1) == sub(bytes(k - 2))
      && TempByte(bytes, sub, i, 2) == sub(bytes(k - 1))
      && TempByte(bytes, sub, i, 3) == sub(bytes(k - 4))
  {
    assert 4 * (i - 1) == KEY_BYTES * base - 4;
  }

  // What the recurrence means for the first four bytes of the 32-byte stretch number base.
  predicate FirstBytes(bytes: nat -> bv8, sub: bv8 -> bv8, base: nat, rcon: bv8)
    requires base >= 1
  {
    var k := KEY_BYTES * base;
    && bytes(k) == Xor2(bytes(k - 32), Xor2(sub(bytes(k - 3)), rcon))
    && bytes(k + 1) == Xor2(bytes(k - 31), sub(bytes(k - 2)))
    && bytes(k + 2) == Xor2(bytes(k - 30), sub(bytes(k - 1)))
    && bytes(k + 3) == Xor2(bytes(k - 29), sub(bytes(k - 4)))
  }

  lemma {:induction false} ExpandsAt(bytes: nat -> bv8, sub: bv8 -> bv8, key: Key, i: nat)
    requires Expands(bytes, sub, key) && i >= 8
    ensures bytes(4 * i) == Xor2(bytes(4 * i - 32), TempByte(bytes, sub, i, 0))
    ensures bytes(4 * i + 1) == Xor2(bytes(4 * i - 31), TempByte(bytes, sub, i, 1))
    ensures bytes(4 * i + 2) == Xor2(bytes(4 * i - 30), TempByte(bytes, sub, i, 2))
    ensures bytes(4 * i + 3) == Xor2(bytes(4 * i - 29), TempByte(bytes, sub, i, 3))
  {
    assert bytes(4 * i + 0) == Step(bytes, sub, i, 0);
    assert bytes(4 * i + 1) == Step(bytes, sub, i, 1);
    assert bytes(4 * i + 2) == Step(bytes, sub, i, 2);
    assert bytes(4 * i + 3) == Step(bytes, sub, i, 3);
  }

  lemma {:induction false} FirstWordBytes(bytes: nat -> bv8, sub: bv8 -> bv8, key: Key, base: nat)
    requires Expands(bytes, sub, key) && base >= 1
    ensures FirstBytes(bytes, sub, base, Rcon(base))
  {
    ExpandsAt(bytes, sub, key, 8 * base);
    FirstTemps(bytes, sub, 8 * base, base);
  }

  // And for the other 28, at offset o of the stretch.
  lemma {:induction false} OtherBytes(bytes: nat -> bv8, sub: bv8 -> bv8, key: Key, base: nat, o: nat)
    requires Expands(bytes, sub, key) && base >= 1 && 4 <= o < 32
    ensures var n := KEY_BYTES * base + o;
      bytes(n) == Xor2(bytes(n - 32), if 16 <= o < 20 then sub(bytes(n - 4)) else bytes(n - 4))
  {
    var i, r := 8 * base + o / 4, o % 4;
    assert i % 8 == o / 4 && bytes(4 * i + r) == Step(bytes, sub, i, r);
  }

  // The first n bytes of w are those of the expansion.
  ghost predicate Filled(bytes: nat -> bv8, w: array<bv8>, n: nat)
    requires n <= w.Length
    reads w
  {
    forall j :: 0 <= j < n ==> w[j] == bytes(j)
  }

  method PutNext(ghost bytes: nat -> bv8, w: array<bv8>, n: nat, value: bv8)
    requires n < w.Length && Filled(bytes, w, n) && value == bytes(n)
    modifies w
    ensures Filled(bytes, w, n + 1)
  {
    w[n] := value;
  }

  method PutFirstWord(ghost bytes: nat -> bv8, sub: bv8 -> bv8, w: array<bv8>, base: nat, rcon: bv8)
    requires w.Length == KEY_SCHEDULE_BYTES && 1 <= base <= 7
    requires FirstBytes(bytes, sub, base, rcon) && Filled(bytes, w, KEY_BYTES * base)
    modifies w
    ensures Filled(bytes, w, KEY_BYTES * base + 4)
  {
    var k := KEY_BYTES * base;
    var prev := k - KEY_BYTES;
    PutNext(bytes, w, k, Xor2(w[prev], Xor2(sub(w[prev + 29]), rcon)));
    PutNext(bytes, w, k + 1, Xor2(w[prev + 1], sub(w[prev + 30])));
    PutNext(bytes, w, k + 2, Xor2(w[prev + 2], sub(w[prev + 31])));
    PutNext(bytes, w, k + 3, Xor2(w[prev + 3], sub(w[prev + 28])));
  }

  method FirstWord(ghost bytes: nat -> bv8, sub: bv8 -> bv8, ghost key: Key, w: array<bv8>, base: nat)
    requires w.Length == KEY_SCHEDULE_BYTES && 1 <= base <= 7
    requires Expands(bytes, sub, key) && Filled(bytes, w, KEY_BYTES * base)
    modifies w
    ensures Filled(bytes, w, KEY_BYTES * base + 4)
  {
    FirstWordBytes(bytes, sub, key, base);
    RconIsShift(base);
    PutFirstWord(bytes, sub, w, base, (1 as bv8) << (base - 1));
  }

  // The two loops of a pass that combine each byte with the one four places before it.
  method CombineRun(ghost bytes: nat -> bv8, ghost sub: bv8 -> bv8, ghost key: Key, w: array<bv8>, base: nat,
                    from: nat, to: nat)
    requires w.Length == KEY_SCHEDULE_BYTES && 1 <= base <= 7 && KEY_BYTES * base + to <= w.Length
    requires 4 <= from <= to <= 16 || 20 <= from <= to <= 32
    requires Expands(bytes, sub, key) && Filled(bytes, w, KEY_BYTES * base + from)
    modifies w
    ensures Filled(bytes, w, KEY_BYTES * base + to)
  {
    var k := KEY_BYTES * base;
    var prev := k - KEY_BYTES;
    for i := from to to
      invariant Filled(bytes, w, k + i)
    {
      OtherBytes(bytes, sub, key, base, i);
      w[k + i] := Xor2(w[prev + i], w[k + i - 4]);
    }
  }

  method SubstituteRun(ghost bytes: nat -> bv8, sub: bv8 -> bv8, ghost key: Key, w: array<bv8>, base: nat)
    requires w.Length == KEY_SCHEDULE_BYTES && 1 <= base < 7
    requires Expands(bytes, sub, key) && Filled(bytes, w, KEY_BYTES * base + 16)
    modifies w
    ensures Filled(bytes, w, KEY_BYTES * base + 20)
  {
    var k := KEY_BYTES * base;
    var prev := k - KEY_BYTES;
    for i := 16 to 20
      invariant Filled(bytes, w, k + i)
    {
      OtherBytes(bytes, sub, key, base, i);
      w[k + i] := Xor2(w[prev + i], sub(w[k + i - 4]));
    }
  }

  method FillSchedule(ghost bytes: nat -> bv8, sub: bv8 -> bv8, key: array<bv8>, w: array<bv8>)
    requires key.Length == KEY_BYTES && w.Length == KEY_SCHEDULE_BYTES && w != key
    requires Expands(bytes, sub, key[..])
    modifies w
    ensures Filled(bytes, w, KEY_SCHEDULE_BYTES)
  {
    for i := 0 to KEY_BYTES
      invariant Filled(bytes, w, i)
    {
      w[i] := key[i];
    }
    var base := 1;
    while true
      invariant 1 <= base <= 7
      invariant Filled(bytes, w, KEY_BYTES * base)
      decreases 7 - base
    {
      FirstWord(bytes, sub, key[..], w, base);
      CombineRun(bytes, sub, key[..], w, base, 4, 16);
      if base == 7 {
        break;
      }
      SubstituteRun(bytes, sub, key[..], w, base);
      CombineRun(bytes, sub, key[..], w, base, 20, 32);
      base := base + 1;
    }
  }

  method MakeKeySchedule(key: array<bv8>, w: array<bv8>)
    requires key.Length == KEY_BYTES && w.Length == KEY_SCHEDULE_BYTES && w != key
    modifies w
    ensures w[..] == ExpandedKey(key[..])
  {
    ghost var bytes := Expansion(SBox, key[..]);
    ExpansionExpands(SBox, key[..]);
    FillSchedule(bytes, SBox, key, w);
  }
}
