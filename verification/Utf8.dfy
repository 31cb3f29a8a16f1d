/** The UTF-8 routines and the two code point iterators of `util.cc`, proved against Utf8Spec. */
module Utf8 {
  import opened Utf8Spec
  import opened Wrappers

  // The bound of the leading bits, and of the bits gathered from i bytes of a sequence of len.
  function Limit(len: nat, i: nat): nat
    requires 2 <= len <= 6 && 1 <= i <= len
    decreases len, i
  {
    if i > 1 then 64 * Limit(len, i - 1)
    else if len == 2 then 32 else if len == 3 then 16 else if len == 4 then 8 else if len == 5 then 4 else 2
  }

  // A sequence holds at most 31 bits.
  lemma {:induction false} LimitFits(len: nat)
    requires 2 <= len <= 6
    ensures Limit(len, len) <= 0x80000000
  {
    assert len >= 3 ==> Limit(len, 3) == 4096 * Limit(len, 1);
    assert len >= 5 ==> Limit(len, 5) == 4096 * Limit(len, 3);
  }

  lemma {:induction false} LimitGrows(len: nat, i: nat, j: nat)
    requires 2 <= len <= 6 && 1 <= i <= j <= len
    ensures 0 < Limit(len, i) <= Limit(len, j)
  {
    if i < j {
      LimitGrows(len, i, j - 1);
    } else if i > 1 {
      LimitGrows(len, i - 1, i - 1);
    }
  }

  // The 32-bit shift and addition of six more bits lose nothing.
  lemma {:induction false} NoBitLost(result: codepoint, b: byte, len: nat, i: nat)
    requires 2 <= len <= 6 && 1 <= i < len && result < Limit(len, i)
    ensures (result * 64 % 0x1_0000_0000 + b % 64) % 0x1_0000_0000 == 64 * result + Six(b) < Limit(len, i + 1)
  {
    LimitFits(len);
    LimitGrows(len, i + 1, len);
    assert Limit(len, i + 1) == 64 * Limit(len, i);
  }

  // The loop over the trailing bytes.
  method GatherTrailing(s: seq<byte>, len: nat, lead: codepoint) returns (ok: bool, result: codepoint)
    requires 2 <= len <= 6 && len <= |s| && lead < Limit(len, 1)
    ensures ok <==> AllTrailing(s, len)
    ensures ok ==> result == Gather(s, lead, len)
  {
    result := lead;
    for i := 1 to len
      invariant AllTrailing(s, i) && result == Gather(s, lead, i) && result < Limit(len, i)
    {
      var c := s[i];
      if !IsTrailing(c) {
        return false, result;
      }
      NoBitLost(result, c, len, i);
      result := result * 64 % 0x1_0000_0000;
      result := (result + c % 64) % 0x1_0000_0000;
    }
    ok := true;
  }

  method SplitFirstChar32(s: seq<byte>) returns (ok: bool, first: codepoint, rest: seq<byte>)
    ensures ok <==> Decode(s).Some?
    ensures if ok then Decode(s) == Some((first, rest)) else first == 0 && rest == []
  {
    ok, first, rest := false, 0, [];
    if s == [] {
      return;
    }
    var result: codepoint := 0;
    var len := 0;
    var minValue: codepoint := 0;
    var maxValue: codepoint := 0xFFFFFFFF;
    var leadingByte := s[0];
    if leadingByte < 0x80 {
      return true, leadingByte, s[1..];
    }
    if IsTrailing(leadingByte) {
      return;
    }
    if leadingByte / 32 == 6 {
      len, minValue, maxValue, result := 2, 0x0080, 0x07FF, leadingByte % 32;
    } else if leadingByte / 16 == 14 {
      len, minValue, maxValue, result := 3, 0x0800, 0xFFFF, leadingByte % 16;
    } else if leadingByte / 8 == 30 {
      len, minValue, maxValue, result := 4, 0x010000, 0x1FFFFF, leadingByte % 8;
    } else if leadingByte / 4 == 62 {
      len, minValue, maxValue, result := 5, 0x0200000, 0x3FFFFFF, leadingByte % 4;
    } else if leadingByte / 2 == 126 {
      len, minValue, maxValue, result := 6, 0x4000000, 0x7FFFFFFF, leadingByte % 2;
    } else {
      return;
    }
    assert len == LeadLength(leadingByte) && minValue == MinValue(len) && maxValue == MaxValue(len);
    if |s| < len {
      return;
    }
    var gathered;
    gathered, result := GatherTrailing(s, len, result);
    if !gathered || result < minValue || maxValue < result {
      return;
    }
    return true, result, s[len..];
  }

  // The loop that goes back over the trailing bytes.
  method CountTrailing(s: seq<byte>) returns (k: nat)
    ensures k == TrailingCount(s)
  {
    k := 0;
    while k < |s| && IsTrailing(s[|s| - 1 - k])
      invariant k <= |s| && TrailingCount(s) == k + TrailingCount(s[..|s| - k])
    {
      assert s[..|s| - k][..|s| - k - 1] == s[..|s| - (k + 1)];
      k := k + 1;
    }
  }

  method SplitLastChar32(s: seq<byte>) returns (ok: bool, rest: seq<byte>, last: codepoint)
    ensures ok <==> DecodeLast(s).Some?
    ensures if ok then DecodeLast(s) == Some((rest, last)) else rest == []
  {
    ok, rest, last := false, [], 0;
    if s == [] {
      return;
    }
    var k := CountTrailing(s);
    if k == |s| {
      return;
    }
    var len := k + 1;
    var resultPiece;
    ok, last, resultPiece := SplitFirstChar32(s[|s| - len..]);
    if !ok {
      return;
    }
    if resultPiece != [] {
      return false, [], last;
    }
    rest := s[..|s| - len];
  }

  method IsValidUtf8(text: seq<byte>) returns (valid: bool)
    ensures valid <==> Valid(text)
  {
    var s := text;
    while s != []
      invariant Valid(s) == Valid(text)
      decreases |s|
    {
      var ok, first, rest := SplitFirstChar32(s);
      if !ok {
        return false;
      }
      DecodedIsEncoding(s);
      s := rest;
    }
    valid := true;
  }

  // Writes the bytes and a terminating zero into a buffer of at least seven bytes.
  method CodepointToUtf8(c: codepoint, output: array<byte>) returns (n: nat)
    requires output.Length >= 7
    modifies output
    ensures n == |Encode(c)| < output.Length && output[..n] == Encode(c) && output[n] == 0
    ensures forall i :: n < i < output.Length ==> output[i] == old(output[i])
  {
    if c == 0 {
      output[0] := 0;
      return 0;
    }
    if c < 0x80 {
      output[0] := c;
      output[1] := 0;
      return 1;
    }
    if c < 0x800 {
      output[0] := 0xC0 + c / 64 % 32;
      output[1] := 0x80 + c % 64;
      output[2] := 0;
      return 2;
    }
    if c < 0x10000 {
      output[0] := 0xE0 + c / 4096 % 16;
      output[1] := 0x80 + c / 64 % 64;
      output[2] := 0x80 + c % 64;
      output[3] := 0;
      return 3;
    }
    if c < 0x200000 {
      output[0] := 0xF0 + c / 262144 % 8;
      output[1] := 0x80 + c / 4096 % 64;
      output[2] := 0x80 + c / 64 % 64;
      output[3] := 0x80 + c % 64;
      output[4] := 0;
      return 4;
    }
    if c < 0x8000000 {
      output[0] := 0xF8 + c / 16777216 % 4;
      output[1] := 0x80 + c / 262144 % 64;
      output[2] := 0x80 + c / 4096 % 64;
      output[3] := 0x80 + c / 64 % 64;
      output[4] := 0x80 + c % 64;
      output[5] := 0;
      return 5;
    }
    output[0] := 0xFC + c / 1073741824 % 2;
    output[1] := 0x80 + c / 16777216 % 64;
    output[2] := 0x80 + c / 262144 % 64;
    output[3] := 0x80 + c / 4096 % 64;
    output[4] := 0x80 + c / 64 % 64;
    output[5] := 0x80 + c % 64;
    output[6] := 0;
    return 6;
  }

  method CodepointToUtf8Append(c: codepoint, output: seq<byte>) returns (output': seq<byte>)
    ensures output' == output + Encode(c)
  {
    var buf := new byte[7];
    var mblen := CodepointToUtf8(c, buf);
    output' := output + buf[..mblen];
  }

  method Utf8ToUtf32(text: seq<byte>) returns (codepoints: seq<codepoint>)
    ensures codepoints == Chars(text)
  {
    codepoints := [];
    var str := text;
    var ok, c, rest := SplitFirstChar32(str);
    while ok
      invariant ok ==> Decode(str) == Some((c, rest))
      invariant !ok ==> Decode(str).None?
      invariant codepoints + Chars(str) == Chars(text)
      decreases ok, |str|
    {
      DecodedIsEncoding(str);
      assert codepoints + ([c] + Chars(rest)) == (codepoints + [c]) + Chars(rest);
      codepoints := codepoints + [c];
      str := rest;
      ok, c, rest := SplitFirstChar32(str);
    }
  }

  method Utf32ToUtf8(codepoints: seq<codepoint>) returns (output: seq<byte>)
    ensures output == EncodeAll(codepoints)
  {
    output := [];
    for i := 0 to |codepoints|
      invariant output + EncodeAll(codepoints[i..]) == EncodeAll(codepoints)
    {
      assert codepoints[i..][1..] == codepoints[i + 1..];
      assert output + (Encode(codepoints[i]) + EncodeAll(codepoints[i + 1..]))
          == (output + Encode(codepoints[i])) + EncodeAll(codepoints[i + 1..]);
      output := CodepointToUtf8Append(codepoints[i], output);
    }
  }

  // Decoding a text and encoding it again gives it back exactly if it is valid and every code
  // point in it round-trips.
  method ThereAndBack(text: seq<byte>) returns (same: bool)
    ensures same <==> Valid(text) && AllRoundTrip(Chars(text))
  {
    var codepoints := Utf8ToUtf32(text);
    var output := Utf32ToUtf8(codepoints);
    EncodeDecodedText(text);
    same := output == text;
  }

  // ---- Iterators ----

  class ConstChar32Iterator {
    var utf8String: seq<byte>
    var current: codepoint
    var done: bool

    // The code points still to be visited, the current one first.
    ghost function Remaining(): seq<codepoint>
      reads this
    {
      if done then [] else [current] + Chars(utf8String)
    }

    constructor (s: seq<byte>)
      ensures Remaining() == Chars(s)
    {
      utf8String, current, done := s, 0, false;
      new;
      Next();
    }

    method Get() returns (c: codepoint)
      requires !done
      ensures Remaining() != [] && c == Remaining()[0]
    {
      c := current;
    }

    method Next()
      modifies this
      ensures Remaining() == if old(done) then [] else old(Remaining())[1..]
    {
      if !done {
        var ok;
        ok, current, utf8String := SplitFirstChar32(utf8String);
        done := !ok;
      }
    }
  }

  class ConstChar32ReverseIterator {
    var utf8String: seq<byte>
    var current: codepoint
    var done: bool

    ghost function Remaining(): seq<codepoint>
      reads this
    {
      if done then [] else [current] + BackChars(utf8String)
    }

    constructor (s: seq<byte>)
      ensures Remaining() == BackChars(s)
    {
      utf8String, current, done := s, 0, false;
      new;
      Next();
    }

    method Get() returns (c: codepoint)
      requires !done
      ensures Remaining() != [] && c == Remaining()[0]
    {
      c := current;
    }

    method Next()
      modifies this
      ensures Remaining() == if old(done) then [] else old(Remaining())[1..]
    {
      if !done {
        var ok;
        ok, utf8String, current := SplitLastChar32(utf8String);
        done := !ok;
      }
    }
  }

  lemma {:induction false} VisitOne(visited: seq<codepoint>, left: seq<codepoint>)
    requires left != []
    ensures visited + left == (visited + [left[0]]) + left[1..]
  {
  }

  // The loop the iterators are made for.
  method VisitForward(s: seq<byte>) returns (visited: seq<codepoint>)
    ensures visited == Chars(s)
  {
    visited := [];
    var iter := new ConstChar32Iterator(s);
    ghost var all := Chars(s);
    ghost var left := iter.Remaining();
    while !iter.done
      invariant fresh(iter) && left == iter.Remaining() && visited + left == all
      decreases |left|
    {
      var c := iter.Get();
      VisitOne(visited, left);
      visited := visited + [c];
      iter.Next();
      left := left[1..];
    }
  }

  method VisitAllBackward(s: seq<byte>) returns (visited: seq<codepoint>)
    ensures visited == BackChars(s)
  {
    visited := [];
    var iter := new ConstChar32ReverseIterator(s);
    ghost var all := BackChars(s);
    ghost var left := iter.Remaining();
    while !iter.done
      invariant fresh(iter) && left == iter.Remaining() && visited + left == all
      decreases |left|
    {
      var c := iter.Get();
      VisitOne(visited, left);
      visited := visited + [c];
      iter.Next();
      left := left[1..];
    }
  }

  // Backwards, a valid text yields exactly the reverse of what it yields forwards.
  method VisitBackward(s: seq<byte>) returns (visited: seq<codepoint>)
    ensures Valid(s) ==> visited == Reversed(Chars(s))
  {
    visited := VisitAllBackward(s);
    if Valid(s) {
      BackwardsIsReverse(s);
    }
  }
}
