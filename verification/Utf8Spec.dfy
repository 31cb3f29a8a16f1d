/** UTF-8 as `util.cc` reads and writes it, up to six bytes. Bytes and code points are integers;
    `b & 0x3f` is `b % 64`, `c >> 6` is `c / 64`, and so on. */
module Utf8Spec {
  import opened Wrappers

  // char32_t
  type codepoint = x: int | 0 <= x < 0x1_0000_0000

  predicate IsTrailing(b: byte) { b / 64 == 2 }

  // The bits of the code point in a trailing byte.
  function Six(b: byte): nat { b % 64 }

  // The length of the sequence a byte begins, or 0 if no sequence begins with it.
  function LeadLength(b: byte): (n: nat)
    ensures n <= 6
  {
    if b < 0x80 then 1
    else if b / 32 == 6 then 2
    else if b / 16 == 14 then 3
    else if b / 8 == 30 then 4
    else if b / 4 == 62 then 5
    else if b / 2 == 126 then 6
    else 0
  }

  // The bits of the code point in a leading byte of a sequence of n bytes.
  function LeadBits(b: byte, n: nat): nat {
    if n == 2 then b % 32 else if n == 3 then b % 16 else if n == 4 then b % 8 else if n == 5 then b % 4 else b % 2
  }

  function MinValue(n: nat): codepoint {
    if n == 2 then 0x80 else if n == 3 then 0x800 else if n == 4 then 0x10000 else if n == 5 then 0x200000 else 0x4000000
  }

  function MaxValue(n: nat): codepoint {
    if n == 2 then 0x7FF else if n == 3 then 0xFFFF else if n == 4 then 0x1FFFFF else if n == 5 then 0x3FFFFFF else 0x7FFFFFFF
  }

  // The value of the first n bytes, whose first holds the given bits.
  function Gather(s: seq<byte>, lead: nat, n: nat): nat
    requires 1 <= n <= |s|
  {
    if n == 1 then lead else 64 * Gather(s, lead, n - 1) + Six(s[n - 1])
  }

  predicate AllTrailing(s: seq<byte>, n: nat) {
    n <= |s| && forall i :: 1 <= i < n ==> IsTrailing(s[i])
  }

  // The first code point and the bytes after it, unless the text does not begin with one.
  function Decode(s: seq<byte>): Option<(codepoint, seq<byte>)> {
    if s == [] then None
    else
      var n := LeadLength(s[0]);
      if n == 1 then Some((s[0], s[1..]))
      else if n == 0 || !AllTrailing(s, n) then None
      else
        var v := Gather(s, LeadBits(s[0], n), n);
        if MinValue(n) <= v <= MaxValue(n) then Some((v, s[n..])) else None
  }

  function Trailing(c: nat): (b: byte)
    ensures IsTrailing(b) && Six(b) == c % 64
  {
    0x80 + c % 64
  }

  // The leading byte of a sequence of n bytes.
  function Lead(c: nat, n: nat): (b: byte)
    requires 2 <= n <= 6
    ensures LeadLength(b) == n
    ensures LeadBits(b, n) == c % (if n == 2 then 32 else if n == 3 then 16 else if n == 4 then 8 else if n == 5 then 4 else 2)
  {
    if n == 2 then 0xC0 + c % 32
    else if n == 3 then 0xE0 + c % 16
    else if n == 4 then 0xF0 + c % 8
    else if n == 5 then 0xF8 + c % 4
    else 0xFC + c % 2
  }

  function Encode(c: codepoint): seq<byte> {
    if c == 0 then []
    else if c < 0x80 then [c]
    else if c < 0x800 then [Lead(c / 64, 2), Trailing(c)]
    else if c < 0x10000 then [Lead(c / 4096, 3), Trailing(c / 64), Trailing(c)]
    else if c < 0x200000 then [Lead(c / 262144, 4), Trailing(c / 4096), Trailing(c / 64), Trailing(c)]
    else if c < 0x8000000 then
      [Lead(c / 16777216, 5), Trailing(c / 262144), Trailing(c / 4096), Trailing(c / 64), Trailing(c)]
    else
      [Lead(c / 1073741824, 6), Trailing(c / 16777216), Trailing(c / 262144), Trailing(c / 4096), Trailing(c / 64), Trailing(c)]
  }

  // ---- One code point ----

  // The code points that are written so that they can be read again: all but NUL, those that the
  // encoder puts into five bytes although they need six, and those of 32 bits.
  predicate RoundTrips(c: codepoint) {
    0 < c < 0x4000000 || 0x8000000 <= c <= 0x7FFFFFFF
  }

  lemma {:induction false} Gather2(s: seq<byte>, l: nat)
    requires |s| >= 2
    ensures Gather(s, l, 2) == 64 * l + Six(s[1])
  {
  }

  lemma {:induction false} Gather3(s: seq<byte>, l: nat)
    requires |s| >= 3
    ensures Gather(s, l, 3) == 4096 * l + 64 * Six(s[1]) + Six(s[2])
  {
    Gather2(s, l);
  }

  lemma {:induction false} Gather4(s: seq<byte>, l: nat)
    requires |s| >= 4
    ensures Gather(s, l, 4) == 262144 * l + 4096 * Six(s[1]) + 64 * Six(s[2]) + Six(s[3])
  {
    Gather3(s, l);
  }

  lemma {:induction false} Gather5(s: seq<byte>, l: nat)
    requires |s| >= 5
    ensures Gather(s, l, 5) == 16777216 * l + 262144 * Six(s[1]) + 4096 * Six(s[2]) + 64 * Six(s[3]) + Six(s[4])
  {
    Gather4(s, l);
  }

  lemma {:induction false} Gather6(s: seq<byte>, l: nat)
    requires |s| >= 6
    ensures Gather(s, l, 6)
      == 1073741824 * l + 16777216 * Six(s[1]) + 262144 * Six(s[2]) + 4096 * Six(s[3]) + 64 * Six(s[4]) + Six(s[5])
  {
    Gather5(s, l);
  }

  // The groups of six bits of a number, from the lowest.
  lemma {:induction false} Groups(c: nat)
    ensures c == 64 * (c / 64) + c % 64
    ensures c / 64 == 64 * (c / 4096) + c / 64 % 64
    ensures c / 4096 == 64 * (c / 262144) + c / 4096 % 64
    ensures c / 262144 == 64 * (c / 16777216) + c / 262144 % 64
    ensures c / 16777216 == 64 * (c / 1073741824) + c / 16777216 % 64
  {
  }

  // The number a decoder gathers from an encoding: five bytes keep 26 bits, six keep 31.
  function Read(c: codepoint): codepoint {
    if c < 0x4000000 then c else if c < 0x8000000 then c - 0x4000000 else if c < 0x80000000 then c else c - 0x80000000
  }

  // An encoding of n bytes before any text is seen as n bytes with that value.
  ghost predicate SeenAs(s: seq<byte>, n: nat, t: seq<byte>, v: nat) {
    2 <= n <= 6 && |s| >= n && LeadLength(s[0]) == n && AllTrailing(s, n) && s[n..] == t && Gather(s, LeadBits(s[0], n), n) == v
  }

  lemma {:induction false} Encoded2(c: codepoint, t: seq<byte>)
    requires 0x80 <= c < 0x800
    ensures SeenAs(Encode(c) + t, 2, t, c)
  {
  }

  lemma {:induction false} Encoded3(c: codepoint, t: seq<byte>)
    requires 0x800 <= c < 0x10000
    ensures SeenAs(Encode(c) + t, 3, t, c)
  {
    var s := Encode(c) + t;
    Groups(c);
    Gather3(s, LeadBits(s[0], 3));
  }

  lemma {:induction false} Encoded4(c: codepoint, t: seq<byte>)
    requires 0x10000 <= c < 0x200000
    ensures SeenAs(Encode(c) + t, 4, t, c)
  {
    var s := Encode(c) + t;
    Groups(c);
    Gather4(s, LeadBits(s[0], 4));
  }

  lemma {:induction false} Value5(c: codepoint)
    requires 0x200000 <= c < 0x8000000
    ensures 16777216 * (c / 16777216 % 4) + 262144 * (c / 262144 % 64) + 4096 * (c / 4096 % 64) + 64 * (c / 64 % 64) + c % 64
         == Read(c)
  {
    Groups(c);
  }

  lemma {:induction false} Encoded5(c: codepoint, t: seq<byte>)
    requires 0x200000 <= c < 0x8000000
    ensures SeenAs(Encode(c) + t, 5, t, Read(c))
  {
    var e := Encode(c);
    var s := e + t;
    assert |e| == 5 && s[5..] == t;
    assert s[0] == e[0] && s[1] == e[1] && s[2] == e[2] && s[3] == e[3] && s[4] == e[4];
    Gather5(s, LeadBits(s[0], 5));
    Value5(c);
  }

  lemma {:induction false} Value6(c: codepoint)
    requires 0x8000000 <= c
    ensures 1073741824 * (c / 1073741824 % 2) + 16777216 * (c / 16777216 % 64) + 262144 * (c / 262144 % 64)
            + 4096 * (c / 4096 % 64) + 64 * (c / 64 % 64) + c % 64
         == Read(c)
  {
    Groups(c);
  }

  lemma {:induction false} Encoded6(c: codepoint, t: seq<byte>)
    requires 0x8000000 <= c
    ensures SeenAs(Encode(c) + t, 6, t, Read(c))
  {
    var e := Encode(c);
    var s := e + t;
    assert |e| == 6 && s[6..] == t;
    assert s[0] == e[0] && s[1] == e[1] && s[2] == e[2] && s[3] == e[3] && s[4] == e[4] && s[5] == e[5];
    Gather6(s, LeadBits(s[0], 6));
    Value6(c);
  }

  // What the decoder makes of an encoding.
  function DecodedAs(c: codepoint): Option<codepoint> {
    var v := Read(c);
    if c == 0 then None
    else if 0x4000000 <= c < 0x8000000 && v < 0x200000 then None
    else if c >= 0x80000000 && v < 0x4000000 then None
    else Some(v)
  }

  lemma {:induction false} DecodeSeen(s: seq<byte>, n: nat, t: seq<byte>, v: codepoint)
    requires SeenAs(s, n, t, v)
    ensures Decode(s) == if MinValue(n) <= v <= MaxValue(n) then Some((v, t)) else None
  {
  }

  // Decoding an encoding that is followed by any bytes.
  lemma {:induction false} DecodeEncoded(c: codepoint, t: seq<byte>)
    requires c != 0
    ensures Decode(Encode(c) + t) == match DecodedAs(c) case None => None case Some(v) => Some((v, t))
  {
    if c < 0x80 {
      assert (Encode(c) + t)[1..] == t;
    } else if c < 0x800 {
      Encoded2(c, t);
      DecodeSeen(Encode(c) + t, 2, t, c);
    } else if c < 0x10000 {
      Encoded3(c, t);
      DecodeSeen(Encode(c) + t, 3, t, c);
    } else if c < 0x200000 {
      Encoded4(c, t);
      DecodeSeen(Encode(c) + t, 4, t, c);
    } else if c < 0x8000000 {
      Encoded5(c, t);
      DecodeSeen(Encode(c) + t, 5, t, Read(c));
    } else {
      Encoded6(c, t);
      DecodeSeen(Encode(c) + t, 6, t, Read(c));
    }
  }

  // ---- What was decoded is what was encoded ----

  lemma {:induction false} TrailingUnique(b: byte, c: nat)
    requires IsTrailing(b) && Six(b) == c % 64
    ensures b == Trailing(c)
  {
  }

  lemma {:induction false} LeadUnique(b: byte, n: nat)
    requires 2 <= n <= 6 && LeadLength(b) == n
    ensures b == Lead(LeadBits(b, n), n)
  {
  }

  // Dividing by 64 takes off the last byte.
  lemma {:induction false} GatherDiv(s: seq<byte>, l: nat, n: nat)
    requires 2 <= n <= |s|
    ensures Gather(s, l, n) / 64 == Gather(s, l, n - 1) && Gather(s, l, n) % 64 == Six(s[n - 1])
  {
  }

  function Power64(k: nat): (p: nat)
    requires k <= 5
    ensures p > 0
  {
    match k
    case 0 => 1
    case 1 => 64
    case 2 => 4096
    case 3 => 262144
    case 4 => 16777216
    case _ => 1073741824
  }

  lemma {:induction false} DivPower(v: nat, k: nat)
    requires 1 <= k <= 5
    ensures v / Power64(k) == v / Power64(k - 1) / 64
  {
  }

  // The k-th byte from the end of a sequence of n is the trailing byte of that group of bits.
  lemma {:induction false} GatheredByte(s: seq<byte>, l: nat, n: nat, k: nat)
    requires AllTrailing(s, n) && 2 <= n <= 6 && k <= n - 1
    ensures Gather(s, l, n) / Power64(k) == Gather(s, l, n - k)
    ensures k < n - 1 ==> s[n - 1 - k] == Trailing(Gather(s, l, n) / Power64(k))
  {
    if k > 0 {
      GatheredByte(s, l, n, k - 1);
      GatherDiv(s, l, n - (k - 1));
      DivPower(Gather(s, l, n), k);
    } else {
      assert Gather(s, l, n) / 1 == Gather(s, l, n);
    }
    if k < n - 1 {
      GatherDiv(s, l, n - k);
      TrailingUnique(s[n - 1 - k], Gather(s, l, n - k));
    }
  }

  // The leading byte holds what is left after all trailing groups.
  lemma {:induction false} GatheredLead(s: seq<byte>, n: nat)
    requires AllTrailing(s, n) && 2 <= n <= 6 && LeadLength(s[0]) == n
    ensures s[0] == Lead(Gather(s, LeadBits(s[0], n), n) / Power64(n - 1), n)
  {
    var l := LeadBits(s[0], n);
    GatheredByte(s, l, n, n - 1);
    LeadUnique(s[0], n);
  }

  // The code points that the encoder writes in n bytes and the decoder accepts in n bytes.
  predicate FitsLength(c: codepoint, n: nat) {
    2 <= n <= 6 && MinValue(n) <= c <= MaxValue(n) && (n == 6 ==> c >= 0x8000000)
  }

  lemma {:induction false} EncodeByte(c: codepoint, n: nat, i: nat)
    requires FitsLength(c, n) && i < n
    ensures |Encode(c)| == n
    ensures Encode(c)[i] == if i == 0 then Lead(c / Power64(n - 1), n) else Trailing(c / Power64(n - 1 - i))
  {
  }

  lemma {:induction false} SequenceIsEncoding(s: seq<byte>, n: nat)
    requires AllTrailing(s, n) && 2 <= n <= 6 && LeadLength(s[0]) == n
    requires var v := Gather(s, LeadBits(s[0], n), n); v < 0x1_0000_0000 && FitsLength(v, n)
    ensures s[..n] == Encode(Gather(s, LeadBits(s[0], n), n))
  {
    var l := LeadBits(s[0], n);
    var v := Gather(s, l, n);
    EncodeByte(v, n, 0);
    forall i | 0 <= i < n
      ensures s[i] == Encode(v)[i]
    {
      EncodeByte(v, n, i);
      if i == 0 {
        GatheredLead(s, n);
      } else {
        GatheredByte(s, l, n, n - 1 - i);
      }
    }
  }

  // A successful decoding to a code point that round-trips consumed exactly its encoding; any
  // other code point consumed more bytes than its encoding has.
  lemma {:induction false} DecodedIsEncoding(s: seq<byte>)
    requires Decode(s).Some?
    ensures var (c, rest) := Decode(s).value;
      && |rest| < |s| && rest == s[|s| - |rest|..] && c <= 0x7FFFFFFF
      && (RoundTrips(c) ==> s == Encode(c) + rest)
      && (!RoundTrips(c) ==> |Encode(c)| < |s| - |rest|)
  {
    var (c, rest) := Decode(s).value;
    var n := LeadLength(s[0]);
    if n == 1 {
      assert s == [s[0]] + s[1..];
    } else if RoundTrips(c) {
      SequenceIsEncoding(s, n);
      assert s == s[..n] + s[n..];
    }
  }

  // ---- Texts ----

  predicate AreTrailing(s: seq<byte>, n: nat) {
    |s| >= n && forall i :: 1 <= i < n ==> 0x80 <= s[i] < 0xC0
  }

  // The payload of a byte from 0x80 to 0xBF.
  function Low(b: byte): int { b as int - 0x80 }

  // The value of a sequence as the sum of the payloads of its bytes, by the range of the first.
  function Payload(s: seq<byte>): int
    requires s != []
  {
    var x: int := s[0];
    if x < 0x80 then x
    else if 0xC0 <= x < 0xE0 && |s| >= 2 then 0x40 * (x - 0xC0) + Low(s[1])
    else if 0xE0 <= x < 0xF0 && |s| >= 3 then 0x1000 * (x - 0xE0) + 0x40 * Low(s[1]) + Low(s[2])
    else if 0xF0 <= x < 0xF8 && |s| >= 4 then
      0x40000 * (x - 0xF0) + 0x1000 * Low(s[1]) + 0x40 * Low(s[2]) + Low(s[3])
    else if 0xF8 <= x < 0xFC && |s| >= 5 then
      0x1000000 * (x - 0xF8) + 0x40000 * Low(s[1]) + 0x1000 * Low(s[2]) + 0x40 * Low(s[3]) + Low(s[4])
    else if 0xFC <= x < 0xFE && |s| >= 6 then
      0x40000000 * (x - 0xFC) + 0x1000000 * Low(s[1]) + 0x40000 * Low(s[2]) + 0x1000 * Low(s[3])
      + 0x40 * Low(s[4]) + Low(s[5])
    else 0
  }

  // A sequence is accepted if its bytes are there and no shorter sequence has its value.
  ghost predicate IsSequence(s: seq<byte>, n: nat) {
    && |s| >= n && s != [] && AreTrailing(s, n)
    && match n
       case 1 => s[0] < 0x80
       case 2 => 0xC0 <= s[0] < 0xE0 && Payload(s) >= 0x80
       case 3 => 0xE0 <= s[0] < 0xF0 && Payload(s) >= 0x800
       case 4 => 0xF0 <= s[0] < 0xF8 && Payload(s) >= 0x10000
       case 5 => 0xF8 <= s[0] < 0xFC && Payload(s) >= 0x200000
       case 6 => 0xFC <= s[0] < 0xFE && Payload(s) >= 0x4000000
       case _ => false
  }

  lemma {:induction false} LeadRange(x: byte)
    ensures LeadLength(x) == (if x < 0x80 then 1 else if x < 0xC0 then 0 else if x < 0xE0 then 2 else if x < 0xF0 then 3
                              else if x < 0xF8 then 4 else if x < 0xFC then 5 else if x < 0xFE then 6 else 0)
  {
  }

  lemma {:induction false} TrailingRange(s: seq<byte>, n: nat)
    ensures AllTrailing(s, n) <==> AreTrailing(s, n)
  {
  }

  lemma {:induction false} LeadPayload(x: byte, n: nat)
    requires LeadLength(x) == n && 2 <= n
    ensures LeadBits(x, n) == x as int - (if n == 2 then 0xC0 else if n == 3 then 0xE0 else if n == 4 then 0xF0
                                          else if n == 5 then 0xF8 else 0xFC)
  {
  }

  lemma {:induction false} LongGathered(s: seq<byte>, l: nat, n: nat)
    requires 4 <= n <= 6 && n <= |s|
    ensures var four := 0x40000 * l + 0x1000 * Six(s[1]) + 0x40 * Six(s[2]) + Six(s[3]);
      Gather(s, l, n) == if n == 4 then four
                         else if n == 5 then 0x40 * four + Six(s[4])
                         else 0x1000 * four + 0x40 * Six(s[4]) + Six(s[5])
  {
    Gather4(s, l);
    assert n >= 5 ==> Gather(s, l, 5) == 64 * Gather(s, l, 4) + Six(s[4]);
    assert n >= 6 ==> Gather(s, l, 6) == 64 * Gather(s, l, 5) + Six(s[5]);
  }

  lemma {:induction false} GatheredPayload(s: seq<byte>, n: nat)
    requires s != [] && LeadLength(s[0]) == n && 2 <= n <= |s| && AreTrailing(s, n)
    ensures Gather(s, LeadBits(s[0], n), n) == Payload(s)
  {
    LeadRange(s[0]);
    var l := LeadBits(s[0], n);
    LeadPayload(s[0], n);
    forall i | 1 <= i < n
      ensures Six(s[i]) == Low(s[i])
    {
    }
    if n == 2 {
      Gather2(s, l);
    } else if n == 3 {
      Gather3(s, l);
    } else {
      LongGathered(s, l, n);
    }
  }

  // What the decoder accepts, and the code point it gives.
  lemma {:induction false} DecodesExactly(s: seq<byte>, n: nat)
    ensures IsSequence(s, n) ==> Decode(s) == Some((Payload(s), s[n..]))
    ensures Decode(s).Some? ==> exists k :: 1 <= k <= 6 && IsSequence(s, k)
  {
    if s != [] {
      LeadRange(s[0]);
      var k := LeadLength(s[0]);
      TrailingRange(s, k);
      if 2 <= k <= |s| && AreTrailing(s, k) {
        GatheredPayload(s, k);
      }
      if Decode(s).Some? {
        assert IsSequence(s, k);
      }
    }
  }

  // The least code point that is put into five bytes although it needs six.
  lemma {:induction false} FiveBytesAreTooFew(c: codepoint)
    requires c == 0x4000000
    ensures Decode(Encode(c)) == None
  {
    assert Encode(c) + [] == Encode(c);
    DecodeEncoded(c, []);
  }

  // The code points up to the first place where no sequence begins.
  function Chars(s: seq<byte>): seq<codepoint>
    decreases |s|
  {
    if Decode(s).None? then []
    else
      DecodedIsEncoding(s);
      [Decode(s).value.0] + Chars(Decode(s).value.1)
  }

  predicate Valid(s: seq<byte>)
    decreases |s|
  {
    s == [] || (Decode(s).Some? && (DecodedIsEncoding(s); Valid(Decode(s).value.1)))
  }

  function EncodeAll(cs: seq<codepoint>): seq<byte> {
    if cs == [] then [] else Encode(cs[0]) + EncodeAll(cs[1..])
  }

  predicate AllRoundTrip(cs: seq<codepoint>) {
    forall i :: 0 <= i < |cs| ==> RoundTrips(cs[i])
  }

  lemma {:induction false} AllRoundTripCons(c: codepoint, cs: seq<codepoint>)
    ensures AllRoundTrip([c] + cs) <==> RoundTrips(c) && AllRoundTrip(cs)
  {
    if AllRoundTrip([c] + cs) {
      assert ([c] + cs)[0] == c;
      assert forall i :: 0 <= i < |cs| ==> cs[i] == ([c] + cs)[i + 1];
    }
  }

  lemma {:induction false} EncodeAllCons(c: codepoint, cs: seq<codepoint>)
    ensures EncodeAll([c] + cs) == Encode(c) + EncodeAll(cs)
  {
    assert ([c] + cs)[1..] == cs;
  }

  // What is encoded is the whole text, or a shorter one.
  ghost predicate SameOrShorter(s: seq<byte>, t: seq<byte>, same: bool) {
    if same then t == s else |t| < |s|
  }

  lemma {:induction false} SameOrShorterCons(s: seq<byte>, c: codepoint, rest: seq<byte>, t: seq<byte>, same: bool)
    requires Decode(s) == Some((c, rest)) && SameOrShorter(rest, t, same)
    ensures SameOrShorter(s, Encode(c) + t, RoundTrips(c) && same)
  {
    DecodedIsEncoding(s);
  }

  lemma {:induction false} EncodeDecoded(s: seq<byte>)
    ensures SameOrShorter(s, EncodeAll(Chars(s)), Valid(s) && AllRoundTrip(Chars(s)))
    decreases |s|
  {
    if Decode(s).Some? {
      DecodedIsEncoding(s);
      var (c, rest) := Decode(s).value;
      var cs := Chars(rest);
      EncodeDecoded(rest);
      SameOrShorterCons(s, c, rest, EncodeAll(cs), Valid(rest) && AllRoundTrip(cs));
      EncodeAllCons(c, cs);
      AllRoundTripCons(c, cs);
    }
  }

  // Encoding the code points of a text gives the text back exactly if it is valid UTF-8 and free
  // of NUL and of the code points that are encoded in too few bytes; otherwise it gets shorter.
  lemma {:induction false} EncodeDecodedText(s: seq<byte>)
    ensures EncodeAll(Chars(s)) == s <==> Valid(s) && AllRoundTrip(Chars(s))
    ensures EncodeAll(Chars(s)) != s ==> |EncodeAll(Chars(s))| < |s|
  {
    EncodeDecoded(s);
  }

  // NUL is never encoded, and a text without zero bytes contains none.
  lemma {:induction false} NoZeroBytes(cs: seq<codepoint>)
    ensures forall i :: 0 <= i < |EncodeAll(cs)| ==> EncodeAll(cs)[i] != 0
  {
    if cs != [] {
      NoZeroBytes(cs[1..]);
    }
  }

  lemma {:induction false} NoZeroChars(s: seq<byte>)
    requires forall i :: 0 <= i < |s| ==> s[i] != 0
    ensures forall i :: 0 <= i < |Chars(s)| ==> Chars(s)[i] != 0
    decreases |s|
  {
    if Decode(s).Some? {
      DecodedIsEncoding(s);
      NoZeroChars(Decode(s).value.1);
    }
  }

  // Decoding the encoding of code points gives them back exactly if all of them round-trip.
  lemma {:induction false} DecodeEncodedText(cs: seq<codepoint>)
    ensures Chars(EncodeAll(cs)) == cs <==> AllRoundTrip(cs)
    ensures AllRoundTrip(cs) ==> Valid(EncodeAll(cs))
  {
    if cs != [] {
      var c, rest := cs[0], EncodeAll(cs[1..]);
      DecodeEncodedText(cs[1..]);
      assert cs == [c] + cs[1..];
      AllRoundTripCons(c, cs[1..]);
      if c == 0 {
        NoZeroBytes(cs);
        NoZeroChars(EncodeAll(cs));
      } else {
        DecodeEncoded(c, rest);
      }
    }
  }

  // ---- From the end ----

  function TrailingCount(s: seq<byte>): (k: nat)
    ensures k <= |s|
    ensures forall i :: |s| - k <= i < |s| ==> IsTrailing(s[i])
    ensures k < |s| ==> !IsTrailing(s[|s| - k - 1])
  {
    if s == [] || !IsTrailing(s[|s| - 1]) then 0 else 1 + TrailingCount(s[..|s| - 1])
  }

  // The text before its last code point, and that code point, unless it does not end with one.
  function DecodeLast(s: seq<byte>): Option<(seq<byte>, codepoint)> {
    var k := TrailingCount(s);
    if k == |s| then None
    else
      match Decode(s[|s| - k - 1..])
      case None => None
      case Some((c, rest)) => if rest == [] then Some((s[..|s| - k - 1], c)) else None
  }

  lemma {:induction false} GatherPrefix(s: seq<byte>, t: seq<byte>, l: nat, n: nat)
    requires 1 <= n <= |s| && n <= |t| && s[..n] == t[..n]
    ensures Gather(s, l, n) == Gather(t, l, n)
  {
    if n > 1 {
      assert s[..n - 1] == s[..n][..n - 1] == t[..n - 1];
      assert s[n - 1] == s[..n][n - 1] == t[n - 1];
      GatherPrefix(s, t, l, n - 1);
    }
  }

  // Decoding looks at no more than the sequence it consumes.
  lemma {:induction false} DecodePrefix(s: seq<byte>, t: seq<byte>)
    requires Decode(s).Some?
    ensures var (c, rest) := Decode(s).value;
      |rest| < |s| && Decode(s[..|s| - |rest|] + t) == Some((c, t))
  {
    var n := LeadLength(s[0]);
    var s' := s[..n] + t;
    assert s'[..n] == s[..n] && s'[n..] == t;
    if n > 1 {
      GatherPrefix(s, s', LeadBits(s[0], n), n);
      assert forall i :: 1 <= i < n ==> s'[i] == s[i];
    }
  }

  lemma {:induction false} TrailingCountOfConcat(a: seq<byte>, s: seq<byte>)
    requires TrailingCount(s) < |s|
    ensures TrailingCount(a + s) == TrailingCount(s)
  {
    assert (a + s)[|a + s| - 1] == s[|s| - 1];
    if IsTrailing(s[|s| - 1]) {
      assert (a + s)[..|a + s| - 1] == a + s[..|s| - 1];
      TrailingCountOfConcat(a, s[..|s| - 1]);
    }
  }

  lemma {:induction false} DecodeLastOfConcat(a: seq<byte>, s: seq<byte>)
    requires DecodeLast(s).Some?
    ensures DecodeLast(a + s) == Some((a + DecodeLast(s).value.0, DecodeLast(s).value.1))
  {
    var k := TrailingCount(s);
    TrailingCountOfConcat(a, s);
    assert (a + s)[|a + s| - k - 1..] == s[|s| - k - 1..];
    assert (a + s)[..|a + s| - k - 1] == a + s[..|s| - k - 1];
  }

  // Putting the first sequence of a text before a valid text.
  lemma {:induction false} ValidCons(s: seq<byte>, p: seq<byte>)
    requires Decode(s).Some? && Valid(p)
    ensures var (c, rest) := Decode(s).value;
      |rest| < |s| && Valid(s[..|s| - |rest|] + p) && Chars(s[..|s| - |rest|] + p) == [c] + Chars(p)
  {
    DecodedIsEncoding(s);
    DecodePrefix(s, p);
  }

  // The last code point of a longer text is that of the text after its first.
  lemma {:induction false} LastOfRest(s: seq<byte>)
    requires Decode(s).Some? && DecodeLast(Decode(s).value.1).Some?
    ensures var rest := Decode(s).value.1;
      |rest| < |s| && DecodeLast(s) == Some((s[..|s| - |rest|] + DecodeLast(rest).value.0, DecodeLast(rest).value.1))
  {
    DecodedIsEncoding(s);
    var rest := Decode(s).value.1;
    var first := s[..|s| - |rest|];
    assert s == first + rest;
    DecodeLastOfConcat(first, rest);
  }

  ghost predicate EndsWith(s: seq<byte>, last: Option<(seq<byte>, codepoint)>) {
    last.Some? && |last.value.0| < |s| && Valid(last.value.0) && Chars(s) == Chars(last.value.0) + [last.value.1]
  }

  lemma {:induction false} SingleEnds(s: seq<byte>)
    requires Decode(s).Some? && Decode(s).value.1 == []
    ensures EndsWith(s, DecodeLast(s))
  {
  }

  lemma {:induction false} EndsCons(s: seq<byte>, c: codepoint, rest: seq<byte>, p: seq<byte>, last: codepoint)
    requires Decode(s) == Some((c, rest)) && |rest| < |s| && EndsWith(rest, Some((p, last)))
    ensures EndsWith(s, Some((s[..|s| - |rest|] + p, last)))
  {
    ValidCons(s, p);
    assert Chars(s) == [c] + (Chars(p) + [last]);
  }

  // The last code point of a valid text, found from its end, is the last of its code points.
  lemma {:induction false} LastOfValid(s: seq<byte>)
    requires Valid(s) && s != []
    ensures EndsWith(s, DecodeLast(s))
    decreases |s|
  {
    DecodedIsEncoding(s);
    var (c, rest) := Decode(s).value;
    if rest == [] {
      SingleEnds(s);
    } else {
      LastOfValid(rest);
      var (p, last) := DecodeLast(rest).value;
      LastOfRest(s);
      EndsCons(s, c, rest, p, last);
    }
  }

  function BackChars(s: seq<byte>): seq<codepoint>
    decreases |s|
  {
    if DecodeLast(s).None? then [] else [DecodeLast(s).value.1] + BackChars(DecodeLast(s).value.0)
  }

  function Reversed<T>(s: seq<T>): seq<T> {
    if s == [] then [] else [s[|s| - 1]] + Reversed(s[..|s| - 1])
  }

  // Going backwards through a valid text yields its code points in reverse.
  lemma {:induction false} BackwardsIsReverse(s: seq<byte>)
    requires Valid(s)
    ensures BackChars(s) == Reversed(Chars(s))
    decreases |s|
  {
    if s != [] {
      LastOfValid(s);
      var (p, c) := DecodeLast(s).value;
      BackwardsIsReverse(p);
      assert Chars(s)[..|Chars(s)| - 1] == Chars(p);
    }
  }
}