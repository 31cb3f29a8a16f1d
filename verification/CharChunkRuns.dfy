/** Whole runs of operations on the chunks of a composition. The cached lengths are invisible: a run
    leaves the contents and reports the lengths that it would without any cache. */
module CharChunkRuns {
  import opened PendingRules
  import opened CharChunk
  import opened CharChunkSpec
  import opened Wrappers

  // The operations, on chunks named by their positions; a position that is not there does nothing.
  datatype Op =
    | DoNew(t: Transliterator)
    | DoCopy(i: nat)
    | DoAssign(i: nat, j: nat)
    | DoClear(i: nat)
    | DoSetRaw(i: nat, text: string)
    | DoSetConversion(i: nat, text: string)
    | DoSetPending(i: nat, text: string)
    | DoSetAmbiguous(i: nat, text: string)
    | DoSetTransliterator(i: nat, t: Transliterator)
    | DoSetAttributes(i: nat, a: Attributes)
    | DoGetLength(i: nat, t: Transliterator)
    | DoCombine(i: nat, j: nat)
    | DoSplit(i: nat, t: Transliterator, position: nat)
    | DoAddInput(i: nat, keys: string, steps: nat)
    | DoAddConverted(i: nat, input: InputState)

  // ---- Runs without a cache ----

  // What an operation on one chunk makes of it.
  function Changed(w: World, c: Content, op: Op): Content {
    match op
    case DoClear(_) => c.(raw := "", conversion := "", pending := "", ambiguous := "")
    case DoSetRaw(_, text) => c.(raw := text)
    case DoSetConversion(_, text) => c.(conversion := text)
    case DoSetPending(_, text) => c.(pending := text)
    case DoSetAmbiguous(_, text) => c.(ambiguous := text)
    case DoSetTransliterator(_, t) => if t == LOCAL then c else c.(transliterator := t)
    case DoSetAttributes(_, a) => c.(attributes := a)
    case DoAddInput(_, keys, steps) => AddSteps(w, c, keys, steps).content
    case DoAddConverted(_, input) => if ConvertedFits(w, c, input) then AddConverted(w, c, input).0 else c
    case _ => c
  }

  function PartsOf(w: World, c: Content, t: Transliterator, position: nat): Parts {
    w.split(Resolve(c, t), position, w.deleteSpecialKeys(c.raw), w.deleteSpecialKeys(c.conversion + c.pending))
  }

  function Applied(w: World, cs: seq<Content>, op: Op): seq<Content> {
    if op.DoNew? then if op.t == LOCAL then cs else cs + [Content("", "", "", "", op.t, NO_ATTRIBUTES)]
    else if op.i >= |cs| then cs
    else
      var c := cs[op.i];
      match op
      case DoCopy(_) => cs + [c]
      case DoAssign(i, j) => if j < |cs| then cs[i := cs[j]] else cs
      case DoCombine(i, j) => if j < |cs| then cs[i := Combined(cs[j], c)] else cs
      case DoSplit(i, t, position) =>
        if 0 < position < Length(w, c, t)
        then var p := PartsOf(w, c, t, position); cs[i := RightPart(c, p)] + [LeftPart(c, p)]
        else cs
      case _ => cs[op.i := Changed(w, c, op)]
  }

  // The length that an operation reports.
  function Reported(w: World, cs: seq<Content>, op: Op): seq<nat> {
    if op.DoGetLength? && op.i < |cs| then [Length(w, cs[op.i], op.t)] else []
  }

  // The contents after the first n operations.
  function ContentsAfter(w: World, cs: seq<Content>, ops: seq<Op>, n: nat): seq<Content>
    requires n <= |ops|
  {
    if n == 0 then cs else Applied(w, ContentsAfter(w, cs, ops, n - 1), ops[n - 1])
  }

  function LengthsAfter(w: World, cs: seq<Content>, ops: seq<Op>, n: nat): seq<nat>
    requires n <= |ops|
  {
    if n == 0 then [] else LengthsAfter(w, cs, ops, n - 1) + Reported(w, ContentsAfter(w, cs, ops, n - 1), ops[n - 1])
  }

  // ---- Runs on chunks ----

  // Different chunks with these contents, none of which has a stale cached length.
  ghost predicate Shows(w: World, chunks: seq<CharChunk>, cs: seq<Content>)
    reads chunks
  {
    && |chunks| == |cs|
    && (forall k :: 0 <= k < |chunks| ==> chunks[k].Valid() && chunks[k].world == w && chunks[k].Contents() == cs[k])
    && (forall j, k :: 0 <= j < k < |chunks| ==> chunks[j] != chunks[k])
  }

  method AddConvertedInput(chunk: CharChunk, input: InputState)
    requires chunk.Valid()
    modifies chunk
    ensures chunk.Valid()
    ensures chunk.Contents() == var c := old(chunk.Contents());
              if ConvertedFits(chunk.world, c, input) then AddConverted(chunk.world, c, input).0 else c
  {
    if ConvertedFits(chunk.world, chunk.Contents(), input) {
      var i := new CompositionInput(input.raw, input.conversion, input.isNewInput, input.isAsis);
      chunk.AddInputAndConvertedChar(i);
    }
  }

  method Change(chunk: CharChunk, op: Op)
    requires chunk.Valid()
    modifies chunk
    ensures chunk.Valid() && chunk.Contents() == Changed(chunk.world, old(chunk.Contents()), op)
  {
    match op {
      case DoClear(_) => chunk.Clear();
      case DoSetRaw(_, text) => chunk.SetRaw(text);
      case DoSetConversion(_, text) => chunk.SetConversion(text);
      case DoSetPending(_, text) => chunk.SetPending(text);
      case DoSetAmbiguous(_, text) => chunk.SetAmbiguous(text);
      case DoSetTransliterator(_, t) => chunk.SetTransliterator(t);
      case DoSetAttributes(_, a) => chunk.SetAttributes(a);
      case DoAddInput(_, keys, steps) =>
        var loop, rest := chunk.AddInputSteps(keys, steps);
      case DoAddConverted(_, input) =>
        AddConvertedInput(chunk, input);
      case _ =>
    }
  }

  method SplitAt(w: World, chunks: seq<CharChunk>, ghost cs: seq<Content>, i: nat, t: Transliterator, position: nat)
    returns (chunks': seq<CharChunk>)
    requires Shows(w, chunks, cs) && i < |chunks|
    modifies chunks[i]
    ensures Shows(w, chunks', Applied(w, cs, DoSplit(i, t, position)))
    ensures forall c :: c in chunks' ==> c in chunks || fresh(c)
  {
    chunks' := chunks;
    var left := chunks[i].SplitChunk(t, position);
    if left != null {
      chunks' := chunks + [left];
    }
  }

  method AppendTo(w: World, chunks: seq<CharChunk>, ghost cs: seq<Content>, c: CharChunk) returns (chunks': seq<CharChunk>)
    requires Shows(w, chunks, cs) && c.Valid() && c.world == w && c !in chunks
    ensures chunks' == chunks + [c] && Shows(w, chunks', cs + [c.Contents()])
  {
    chunks' := chunks + [c];
  }

  // Assigning and combining take a second chunk.
  method ApplyToTwo(w: World, chunks: seq<CharChunk>, ghost cs: seq<Content>, op: Op)
    requires Shows(w, chunks, cs) && (op.DoAssign? || op.DoCombine?) && op.i < |chunks|
    modifies chunks[op.i]
    ensures Shows(w, chunks, Applied(w, cs, op))
  {
    if op.j < |chunks| {
      if op.DoAssign? {
        chunks[op.i].Assign(chunks[op.j]);
      } else {
        chunks[op.i].Combine(chunks[op.j]);
      }
    }
  }

  predicate IsChange(op: Op) {
    !op.DoNew? && !op.DoCopy? && !op.DoAssign? && !op.DoCombine? && !op.DoSplit?
  }

  method ApplyToOne(w: World, chunks: seq<CharChunk>, ghost cs: seq<Content>, op: Op) returns (lengths: seq<nat>)
    requires Shows(w, chunks, cs) && IsChange(op) && op.i < |chunks|
    modifies chunks[op.i]
    ensures Shows(w, chunks, Applied(w, cs, op)) && lengths == Reported(w, cs, op)
  {
    lengths := [];
    if op.DoGetLength? {
      var n := chunks[op.i].GetLength(op.t);
      lengths := [n];
    } else {
      Change(chunks[op.i], op);
    }
  }

  method Apply(w: World, chunks: seq<CharChunk>, ghost cs: seq<Content>, op: Op)
    returns (chunks': seq<CharChunk>, lengths: seq<nat>)
    requires Shows(w, chunks, cs)
    modifies set c | c in chunks
    ensures Shows(w, chunks', Applied(w, cs, op)) && lengths == Reported(w, cs, op)
    ensures forall c :: c in chunks' ==> c in chunks || fresh(c)
  {
    chunks', lengths := chunks, [];
    if op.DoNew? {
      if op.t != LOCAL {
        var c := new CharChunk(op.t, w);
        chunks' := AppendTo(w, chunks, cs, c);
      }
    } else if op.i >= |chunks| {
      return;
    } else if op.DoCopy? {
      var c := new CharChunk.Copy(chunks[op.i]);
      chunks' := AppendTo(w, chunks, cs, c);
    } else if op.DoSplit? {
      chunks' := SplitAt(w, chunks, cs, op.i, op.t, op.position);
    } else if op.DoAssign? || op.DoCombine? {
      ApplyToTwo(w, chunks, cs, op);
    } else {
      lengths := ApplyToOne(w, chunks, cs, op);
    }
  }

  // Whatever is done to the chunks, in whatever order and whatever the table holds, no chunk ever has
  // a stale cached length, and contents and lengths are those of the run without a cache.
  method Run(w: World, chunks: seq<CharChunk>, ghost cs: seq<Content>, ops: seq<Op>)
    returns (chunks': seq<CharChunk>, lengths: seq<nat>)
    requires Shows(w, chunks, cs)
    modifies set c | c in chunks
    ensures Shows(w, chunks', ContentsAfter(w, cs, ops, |ops|)) && lengths == LengthsAfter(w, cs, ops, |ops|)
    ensures forall c :: c in chunks' ==>
      c.localLengthCache == None || c.localLengthCache == Some(Length(w, c.Contents(), LOCAL))
  {
    chunks', lengths := chunks, [];
    for n := 0 to |ops|
      invariant Shows(w, chunks', ContentsAfter(w, cs, ops, n)) && lengths == LengthsAfter(w, cs, ops, n)
      invariant forall c :: c in chunks' ==> c in chunks || fresh(c)
    {
      var more;
      chunks', more := Apply(w, chunks', ContentsAfter(w, cs, ops, n), ops[n]);
      lengths := lengths + more;
    }
  }
}
