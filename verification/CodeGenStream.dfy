/** The buffered generator of C++ byte arrays in `codegen_bytearray_stream.cc`. The stream it
    writes to may fail at any time. The text that would be there if the buffer were flushed now,
    VirtualText, shows that the buffer is invisible. */
module CodeGenStream {
  import opened Decimals
  import opened Hiding
  import opened Wrappers

  const NUM_OF_BYTES_ON_ONE_LINE: nat := 20

  // ---- The generated text ----

  const HEX_DIGITS: string := "0123456789ABCDEF"

  // The k-th byte of a variable: twenty to a line.
  function Item(k: nat, b: byte): string {
    (if k % NUM_OF_BYTES_ON_ONE_LINE == 0 then "\n" else " ") + "0x" + [HEX_DIGITS[b / 16], HEX_DIGITS[b % 16]] + ","
  }

  // The text of bytes of which the first is the k-th of its variable.
  function RenderAs(item: (nat, byte) -> string, k: nat, bytes: seq<byte>): string {
    if bytes == [] then "" else RenderAs(item, k, bytes[..|bytes| - 1]) + item(k + |bytes| - 1, bytes[|bytes| - 1])
  }

  function Render(k: nat, bytes: seq<byte>): string {
    RenderAs(Item, k, bytes)
  }

  lemma {:induction false} RenderAsConcat(item: (nat, byte) -> string, k: nat, a: seq<byte>, b: seq<byte>)
    ensures RenderAs(item, k, a + b) == RenderAs(item, k, a) + RenderAs(item, k + |a|, b)
  {
    if b == [] {
      assert a + b == a;
    } else {
      assert (a + b)[..|a + b| - 1] == a + b[..|b| - 1];
      RenderAsConcat(item, k, a, b[..|b| - 1]);
    }
  }

  // Bytes rendered in two parts are rendered as one.
  lemma {:induction false} RenderConcat(k: nat, a: seq<byte>, b: seq<byte>)
    ensures Render(k, a + b) == Render(k, a) + Render(k + |a|, b)
  {
    RenderAsConcat(Item, k, a, b);
  }

  lemma {:induction false} RenderNext(k: nat, bytes: seq<byte>, i: nat)
    requires i < |bytes|
    ensures Render(k, bytes[..i + 1]) == Render(k, bytes[..i]) + Item(k + i, bytes[i])
  {
    assert bytes[..i + 1][..i] == bytes[..i];
  }

  lemma {:induction false} Appended(a: string, b: string, c: string)
    ensures (a + b) + c == a + (b + c)
  {
  }

  // Bytes added behind those in the buffer.
  lemma {:induction false} VirtualAppend(text: string, k: nat, pending: seq<byte>, more: seq<byte>)
    ensures text + Render(k, pending + more) == text + Render(k, pending) + Render(k + |pending|, more)
  {
    RenderConcat(k, pending, more);
    Appended(text, Render(k, pending), Render(k + |pending|, more));
  }

  function Header(name: string): string {
    "alignas(std::max_align_t) constexpr char k" + name + "_data[] = {"
  }

  function Ending(name: string, count: nat): string {
    "};\n" + "constexpr size_t k" + name + "_size = " + Decimal(count) + ";\n"
  }

  function Footer(name: string, count: nat): string {
    (if count != 0 then "\n" else "") + Ending(name, count)
  }

  // The definition of a variable that holds the bytes.
  function Definition(name: string, bytes: seq<byte>): string {
    Header(name) + Render(0, bytes) + Footer(name, |bytes|)
  }

  // ---- Reading the generated text ----

  function HexValue(c: char): nat {
    if '0' <= c <= '9' then c as int - '0' as int else if 'A' <= c <= 'F' then 10 + (c as int - 'A' as int) else 16
  }

  // Six characters for the k-th byte b: a line break before every twentieth byte and a space before
  // any other, and two hexadecimal digits between 0x and a comma.
  predicate IsItem(text: string, k: nat, b: byte) {
    && |text| == 6 && text[0] == (if k % 20 == 0 then '\n' else ' ') && text[1] == '0' && text[2] == 'x' && text[5] == ','
    && 16 * HexValue(text[3]) + HexValue(text[4]) == b && HexValue(text[3]) < 16 && HexValue(text[4]) < 16
  }

  lemma {:induction false} HexDigit(d: nat)
    requires d < 16
    ensures HexValue(HEX_DIGITS[d]) == d
  {
  }

  lemma {:induction false} ItemReads(k: nat, b: byte)
    ensures IsItem(Item(k, b), k, b)
  {
    HexDigit(b / 16);
    HexDigit(b % 16);
  }

  // The rendered text, read six characters at a time, gives the bytes in order.
  lemma {:induction false} RenderedBytes(k: nat, bytes: seq<byte>)
    ensures |Render(k, bytes)| == 6 * |bytes|
    ensures forall i :: 0 <= i < |bytes| ==> IsItem(Render(k, bytes)[6 * i..6 * i + 6], k + i, bytes[i])
  {
    if bytes != [] {
      var n := |bytes| - 1;
      var before, last := Render(k, bytes[..n]), Item(k + n, bytes[n]);
      RenderedBytes(k, bytes[..n]);
      ItemReads(k + n, bytes[n]);
      assert Render(k, bytes) == before + last;
      forall i | 0 <= i < |bytes|
        ensures IsItem(Render(k, bytes)[6 * i..6 * i + 6], k + i, bytes[i])
      {
        if i < n {
          assert (before + last)[6 * i..6 * i + 6] == before[6 * i..6 * i + 6];
        } else {
          assert (before + last)[6 * i..6 * i + 6] == last;
        }
      }
    }
  }

  // The definition, with its fixed parts written out.
  lemma {:induction false} DefinitionText(name: string, bytes: seq<byte>)
    ensures Definition(name, bytes) ==
      "alignas(std::max_align_t) constexpr char k" + name + "_data[] = {" + Render(0, bytes)
      + ((if bytes == [] then "" else "\n") + ("};\n" + "constexpr size_t k" + name + "_size = " + Decimal(|bytes|) + ";\n"))
  {
  }

  // ---- The stream below ----

  class OutputStream {
    var text: string
    var failed: bool

    // A failed stream writes nothing more; a write that fails may have written a part.
    method Put(s: string)
      modifies this
      ensures old(failed) ==> failed && text == old(text)
      ensures !failed ==> text == old(text) + s
    {
      var ok: bool := *;
      if failed {
        return;
      }
      if ok {
        text := text + s;
      } else {
        var n :| 0 <= n <= |s|;
        text := text + s[..n];
        failed := true;
      }
    }

    method Flush()
      modifies this
      ensures text == old(text) && (old(failed) ==> failed)
    {
      var ok: bool := *;
      failed := failed || !ok;
    }
  }

  // ---- The buffer ----

  class StreamBuf {
    const buffer: array<byte>
    const output: OutputStream
    var pptr: nat
    var isOpen: bool
    var varNameBase: string
    var outputCount: nat

    ghost predicate Valid()
      reads this
    {
      pptr <= buffer.Length
    }

    // The bytes that are still in the buffer.
    ghost function Pending(): seq<byte>
      requires Valid()
      reads this, buffer
    {
      buffer[..pptr]
    }

    // What would be written, and counted, if the buffer were flushed now.
    ghost function VirtualText(): string
      requires Valid()
      reads this, buffer, output
    {
      output.text + Render(outputCount, Pending())
    }

    ghost function VirtualCount(): nat
      reads this
    {
      outputCount + pptr
    }

    constructor (capacity: nat, out: OutputStream)
      ensures Valid() && Pending() == [] && !isOpen && output == out && buffer.Length == capacity && fresh(buffer)
    {
      buffer := new byte[capacity];
      output := out;
      pptr, isOpen, varNameBase, outputCount := 0, false, "", 0;
    }

    method WriteByte(b: byte)
      requires Valid()
      modifies output, `outputCount
      ensures outputCount == old(outputCount) + 1
      ensures old(output.failed) ==> output.failed
      ensures !output.failed ==> output.text == old(output.text) + Item(old(outputCount), b)
    {
      if outputCount % NUM_OF_BYTES_ON_ONE_LINE == 0 {
        output.Put("\n" + "0x" + [HEX_DIGITS[b / 16], HEX_DIGITS[b % 16]] + ",");
      } else {
        output.Put(" " + "0x" + [HEX_DIGITS[b / 16], HEX_DIGITS[b % 16]] + ",");
      }
      outputCount := outputCount + 1;
    }

    method WriteBytes(bytes: seq<byte>)
      requires Valid()
      modifies output, `outputCount
      ensures outputCount == old(outputCount) + |bytes|
      ensures old(output.failed) ==> output.failed
      ensures !output.failed ==> output.text == old(output.text) + Render(old(outputCount), bytes)
    {
      var i := 0;
      ghost var before := output.text;
      while i < |bytes|
        invariant 0 <= i <= |bytes| && outputCount == old(outputCount) + i
        invariant old(output.failed) ==> output.failed
        invariant !output.failed ==> output.text == before + Render(old(outputCount), bytes[..i])
      {
        RenderNext(old(outputCount), bytes, i);
        Appended(before, Render(old(outputCount), bytes[..i]), Item(outputCount, bytes[i]));
        WriteByte(bytes[i]);
        i := i + 1;
      }
      assert bytes[..|bytes|] == bytes;
    }

    method FlushBuffer()
      requires Valid()
      modifies output, `outputCount
      ensures outputCount == old(VirtualCount()) && (old(output.failed) ==> output.failed)
      ensures !output.failed ==> output.text == old(VirtualText())
    {
      if 0 < pptr {
        WriteBytes(buffer[..pptr]);
      }
    }

    // Flushes the buffer and writes one more byte, if there is one, behind it. A closed buffer
    // keeps what it has.
    method Overflow(c: Option<byte>) returns (ok: bool)
      requires Valid()
      modifies output, `outputCount, `pptr
      ensures Valid() && (old(output.failed) ==> output.failed)
      ensures ok <==> isOpen && !output.failed
      ensures !isOpen ==> pptr == old(pptr) && outputCount == old(outputCount)
      ensures !isOpen ==> output.text == old(output.text) && output.failed == old(output.failed)
      ensures isOpen ==> pptr == 0 && outputCount == old(VirtualCount()) + if c.Some? then 1 else 0
      ensures isOpen && !output.failed ==>
        output.text == old(VirtualText()) + if c.Some? then Render(old(VirtualCount()), [c.value]) else ""
    {
      if !isOpen {
        return false;
      }
      FlushBuffer();
      if c.Some? {
        WriteBytes([c.value]);
      }
      pptr := 0;
      ok := !output.failed;
    }

    method Sync() returns (ok: bool)
      requires Valid()
      modifies output, `outputCount, `pptr
      ensures Valid() && (old(output.failed) ==> output.failed)
      ensures ok <==> isOpen && !output.failed
      ensures pptr == if isOpen then 0 else old(pptr)
      ensures VirtualCount() == old(VirtualCount())
      ensures !output.failed ==> VirtualText() == old(VirtualText())
    {
      ok := Overflow(None);
      if ok {
        output.Flush();
        ok := !output.failed;
      }
    }

    method Push(s: seq<byte>)
      requires Valid() && |s| <= buffer.Length - pptr
      modifies `pptr, buffer
      ensures Valid() && pptr == old(pptr) + |s| && Pending() == old(Pending()) + s
    {
      for i := 0 to |s|
        invariant Valid() && pptr == old(pptr) && buffer[..pptr + i] == old(Pending()) + s[..i]
      {
        buffer[pptr + i] := s[i];
        assert buffer[..pptr + (i + 1)] == buffer[..pptr + i] + [s[i]];
        assert s[..i + 1] == s[..i] + [s[i]];
      }
      pptr := pptr + |s|;
      assert s[..|s|] == s;
    }

    // One byte, into the buffer if there is room. A closed buffer that is full refuses it.
    method Sputc(c: byte) returns (ok: bool)
      requires Valid()
      modifies this, buffer, output
      ensures Valid() && isOpen == old(isOpen) && varNameBase == old(varNameBase) && (old(output.failed) ==> output.failed)
      ensures isOpen || old(pptr) < buffer.Length ==>
        && VirtualCount() == old(VirtualCount()) + 1
        && (!output.failed ==> VirtualText() == old(VirtualText()) + Render(old(VirtualCount()), [c]))
      ensures !isOpen && old(pptr) == buffer.Length ==>
        !ok && VirtualCount() == old(VirtualCount()) && (!output.failed ==> VirtualText() == old(VirtualText()))
    {
      if pptr < buffer.Length {
        VirtualAppend(output.text, outputCount, Pending(), [c]);
        Push([c]);
        return true;
      }
      ok := Overflow(Some(c));
    }

    // Bytes that fit go to the buffer; others are written behind what it held. A closed buffer is
    // not flushed first, and the bytes are written nevertheless.
    method Xsputn(s: seq<byte>) returns (n: nat)
      requires Valid()
      modifies this, buffer, output
      ensures Valid() && n == |s| && isOpen == old(isOpen) && varNameBase == old(varNameBase)
      ensures old(output.failed) ==> output.failed
      ensures VirtualCount() == old(VirtualCount()) + |s|
      ensures (isOpen || |s| <= buffer.Length - old(pptr)) && !output.failed ==>
        VirtualText() == old(VirtualText()) + Render(old(VirtualCount()), s)
      ensures !isOpen && |s| > buffer.Length - old(pptr) ==>
        Pending() == old(Pending()) && (!output.failed ==> output.text == old(output.text) + Render(old(outputCount), s))
    {
      if |s| <= buffer.Length - pptr {
        VirtualAppend(output.text, outputCount, Pending(), s);
        Push(s);
      } else {
        var flushed := Overflow(None);
        WriteBytes(s);
      }
      n := |s|;
    }

    // ---- Definitions ----

    // What the buffer still holds counts as the first bytes of the new variable.
    method OpenVarDef(name: string) returns (ok: bool)
      requires Valid()
      modifies this, output
      ensures Valid() && pptr == old(pptr) && (old(output.failed) ==> output.failed)
      ensures old(isOpen) || name == "" ==>
        !ok && isOpen == old(isOpen) && output.text == old(output.text) && outputCount == old(outputCount)
      ensures !old(isOpen) && name != "" ==>
        && ok == isOpen == !output.failed && varNameBase == name && outputCount == 0
        && (ok ==> output.text == old(output.text) + Header(name))
    {
      if isOpen || name == "" {
        return false;
      }
      varNameBase := name;
      output.Put(Header(varNameBase));
      outputCount := 0;
      isOpen := !output.failed;
      ok := isOpen;
    }

    method WriteFooter()
      modifies output
      ensures old(output.failed) ==> output.failed
      ensures !output.failed ==> output.text == old(output.text) + Footer(varNameBase, outputCount)
    {
      var ending := Ending(varNameBase, outputCount);
      ghost var before := output.text;
      if outputCount != 0 {
        output.Put("\n");
        Appended(before, "\n", ending);
      } else {
        assert "" + ending == ending;
      }
      output.Put(ending);
    }

    method CloseVarDef() returns (ok: bool)
      requires Valid()
      modifies this, output
      ensures Valid() && !isOpen && (old(output.failed) ==> output.failed)
      ensures !old(isOpen) ==> !ok && output.text == old(output.text) && pptr == old(pptr)
      ensures old(isOpen) ==> ok == !output.failed && pptr == 0
      ensures ok ==> output.text == old(VirtualText()) + Footer(old(varNameBase), old(VirtualCount()))
    {
      if !isOpen {
        return false;
      }
      var flushed := Overflow(None);
      WriteFooter();
      isOpen := false;
      ok := !output.failed;
    }
  }

  // ---- Whole definitions ----

  // The ways in which bytes reach the buffer.
  datatype Op = Put(c: byte) | Write(s: seq<byte>) | Flush

  function OpBytes(op: Op): seq<byte> {
    match op
    case Put(c) => [c]
    case Write(s) => s
    case Flush => []
  }

  function BytesOf(ops: seq<Op>): seq<byte> {
    if ops == [] then [] else BytesOf(ops[..|ops| - 1]) + OpBytes(ops[|ops| - 1])
  }

  // The text and the count a flush would give, unless the stream has failed; the definition is
  // used only where Peek(0) is mentioned.
  ghost predicate Shows(buf: StreamBuf, text: string, count: nat)
    reads buf, buf.buffer, buf.output
  {
    buf.Valid() && buf.isOpen &&
    forall i: nat {:trigger Peek(i)} :: Peek(i) ==>
      buf.VirtualCount() == count && (!buf.output.failed ==> buf.VirtualText() == text)
  }

  // The text and the count after bytes, from those before.
  ghost predicate Rendered(text': string, count': nat, text: string, count: nat, bytes: seq<byte>) {
    forall i: nat {:trigger Peek(i)} :: Peek(i) ==>
      text' == text + Render(count, bytes) && count' == count + |bytes|
  }

  lemma {:induction false} RenderedNothing(text: string, count: nat)
    ensures Rendered(text, count, text, count, [])
  {
  }

  lemma {:induction false} RenderedThen(t: string, c: nat, text: string, count: nat, a: seq<byte>, t': string, c': nat, b: seq<byte>)
    requires Rendered(t, c, text, count, a) && Rendered(t', c', t, c, b)
    ensures Rendered(t', c', text, count, a + b)
  {
    assert Peek(0);
    VirtualAppend(text, count, a, b);
  }

  method Apply(buf: StreamBuf, op: Op, ghost text: string, ghost count: nat) returns (ghost text': string, ghost count': nat)
    requires Shows(buf, text, count)
    modifies buf, buf.buffer, buf.output
    ensures Shows(buf, text', count') && Rendered(text', count', text, count, OpBytes(op))
    ensures buf.varNameBase == old(buf.varNameBase) && (old(buf.output.failed) ==> buf.output.failed)
  {
    assert Peek(0);
    text', count' := text + Render(count, OpBytes(op)), count + |OpBytes(op)|;
    match op {
      case Put(c) =>
        var ok := buf.Sputc(c);
      case Write(s) =>
        var n := buf.Xsputn(s);
      case Flush =>
        var ok := buf.Sync();
        assert text + Render(count, []) == text;
    }
  }

  method WriteAll(buf: StreamBuf, ops: seq<Op>, ghost text: string, ghost count: nat)
    returns (ghost text': string, ghost count': nat)
    requires Shows(buf, text, count)
    modifies buf, buf.buffer, buf.output
    ensures Shows(buf, text', count') && Rendered(text', count', text, count, BytesOf(ops))
    ensures buf.varNameBase == old(buf.varNameBase) && (old(buf.output.failed) ==> buf.output.failed)
  {
    text', count' := text, count;
    ghost var done: seq<byte> := [];
    RenderedNothing(text, count);
    for i := 0 to |ops|
      invariant done == BytesOf(ops[..i]) && Shows(buf, text', count') && Rendered(text', count', text, count, done)
      invariant buf.varNameBase == old(buf.varNameBase) && (old(buf.output.failed) ==> buf.output.failed)
    {
      ghost var t, c := Apply(buf, ops[i], text', count');
      RenderedThen(text', count', text, count, done, t, c, OpBytes(ops[i]));
      assert ops[..i + 1][..i] == ops[..i];
      text', count', done := t, c, done + OpBytes(ops[i]);
    }
    assert ops[..|ops|] == ops;
  }

  // The first and the last part of a definition, as names for long texts.
  ghost predicate IsHeader(head: string, name: string) {
    forall i: nat {:trigger Peek(i)} :: Peek(i) ==> head == Header(name)
  }

  ghost predicate IsFooter(foot: string, name: string, count: nat) {
    forall i: nat {:trigger Peek(i)} :: Peek(i) ==> foot == Footer(name, count)
  }

  method Open(buf: StreamBuf, name: string, ghost head: string) returns (ok: bool)
    requires buf.Valid() && !buf.isOpen && name != "" && IsHeader(head, name)
    modifies buf, buf.output
    ensures ok <==> !buf.output.failed
    ensures buf.Valid() && buf.isOpen == ok && (old(buf.output.failed) ==> !ok)
    ensures ok ==> buf.varNameBase == name
    ensures ok ==> Shows(buf, old(buf.output.text) + head + Render(0, old(buf.Pending())), |old(buf.Pending())|)
  {
    assert Peek(0);
    ok := buf.OpenVarDef(name);
    assert buf.Pending() == old(buf.Pending());
  }

  method Close(buf: StreamBuf, ghost text: string, ghost count: nat, ghost foot: string) returns (ok: bool)
    requires Shows(buf, text, count) && IsFooter(foot, buf.varNameBase, count)
    modifies buf, buf.output
    ensures buf.Valid() && !buf.isOpen && buf.Pending() == [] && (ok <==> !buf.output.failed)
    ensures ok ==> buf.output.text == text + foot
  {
    assert Peek(0);
    ok := buf.CloseVarDef();
  }

  lemma {:induction false} FiveParts(a: string, b: string, c: string, d: string, e: string)
    ensures a + b + c + d + e == a + (b + (c + d) + e)
  {
  }

  lemma {:induction false} WholeDefinition(text: string, head: string, foot: string, leftover: seq<byte>, bytes: seq<byte>)
    ensures text + head + Render(0, leftover) + Render(|leftover|, bytes) + foot
         == text + (head + Render(0, leftover + bytes) + foot)
  {
    RenderConcat(0, leftover, bytes);
    FiveParts(text, head, Render(0, leftover), Render(|leftover|, bytes), foot);
  }

  method WriteBetween(buf: StreamBuf, name: string, ops: seq<Op>, ghost head: string, ghost foot: string) returns (ok: bool)
    requires buf.Valid() && !buf.isOpen && name != ""
    requires IsHeader(head, name) && IsFooter(foot, name, |buf.Pending()| + |BytesOf(ops)|)
    modifies buf, buf.buffer, buf.output
    ensures buf.Valid() && !buf.isOpen && (ok <==> !buf.output.failed)
    ensures ok ==> buf.Pending() == []
    ensures ok ==> buf.output.text == old(buf.output.text) + (head + Render(0, old(buf.Pending()) + BytesOf(ops)) + foot)
  {
    ok := Open(buf, name, head);
    if !ok {
      return;
    }
    ghost var leftover, bytes := old(buf.Pending()), BytesOf(ops);
    ghost var text := old(buf.output.text) + head + Render(0, leftover);
    ghost var t, c := WriteAll(buf, ops, text, |leftover|);
    assert t == text + Render(|leftover|, bytes) && c == |leftover| + |bytes| by {
      assert Peek(0);
    }
    ok := Close(buf, t, c, foot);
    WholeDefinition(old(buf.output.text), head, foot, leftover, bytes);
  }

  // However the bytes are split between single bytes, blocks and flushes, and whatever the
  // capacity of the buffer, the text is the definition of the variable with these bytes, behind
  // those that the buffer held before. If anything fails, this is reported.
  method WriteVariable(buf: StreamBuf, name: string, ops: seq<Op>) returns (ok: bool)
    requires buf.Valid() && !buf.isOpen && name != ""
    modifies buf, buf.buffer, buf.output
    ensures buf.Valid() && !buf.isOpen
    ensures ok <==> !buf.output.failed
    ensures ok ==> buf.Pending() == []
    ensures ok ==> buf.output.text == old(buf.output.text) + Definition(name, old(buf.Pending()) + BytesOf(ops))
  {
    ghost var count := |buf.Pending() + BytesOf(ops)|;
    ok := WriteBetween(buf, name, ops, Header(name), Footer(name, count));
  }
}
