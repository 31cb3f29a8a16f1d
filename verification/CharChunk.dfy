/** The composing unit of `char_chunk.cc` and `char_chunk.h` as an object with a cached length.
    Every operation is proved against CharChunkSpec and keeps the cache either empty or equal to
    the length computed anew. */
module CharChunk {
  import opened PendingRules
  import opened CharChunkSpec
  import opened Wrappers

  class CompositionInput {
    var raw: string
    var conversion: string
    var isNewInput: bool
    var isAsis: bool

    constructor (r: string, c: string, n: bool, a: bool)
      ensures State() == InputState(r, c, n, a)
    {
      raw, conversion, isNewInput, isAsis := r, c, n, a;
    }

    function State(): InputState
      reads this
    {
      InputState(raw, conversion, isNewInput, isAsis)
    }

    method Clear()
      modifies this
      ensures State() == NO_INPUT
    {
      raw, conversion, isNewInput, isAsis := "", "", false, false;
    }
  }

  class CharChunk {
    const world: World
    var raw: string
    var conversion: string
    var pending: string
    var ambiguous: string
    var transliterator: Transliterator
    var attributes: Attributes
    var localLengthCache: Option<nat>

    function Contents(): Content
      reads this
    {
      Content(raw, conversion, pending, ambiguous, transliterator, attributes)
    }

    ghost predicate Valid()
      reads this
    {
      && transliterator != LOCAL
      && (localLengthCache.Some? ==> localLengthCache.value == Length(world, Contents(), LOCAL))
    }

    constructor (t: Transliterator, w: World)
      requires t != LOCAL
      ensures Valid() && world == w && Contents() == Content("", "", "", "", t, NO_ATTRIBUTES)
    {
      world := w;
      raw, conversion, pending, ambiguous := "", "", "", "";
      transliterator, attributes := t, NO_ATTRIBUTES;
      localLengthCache := None;
    }

    // A copy takes the cached length along.
    constructor Copy(x: CharChunk)
      requires x.Valid()
      ensures Valid() && world == x.world && Contents() == x.Contents() && localLengthCache == x.localLengthCache
    {
      world := x.world;
      raw, conversion, pending, ambiguous := x.raw, x.conversion, x.pending, x.ambiguous;
      transliterator, attributes := x.transliterator, x.attributes;
      localLengthCache := x.localLengthCache;
    }

    method Assign(x: CharChunk)
      requires x.Valid() && x.world == world
      modifies this
      ensures Valid() && Contents() == old(x.Contents()) && localLengthCache == old(x.localLengthCache)
    {
      raw, conversion, pending, ambiguous := x.raw, x.conversion, x.pending, x.ambiguous;
      transliterator, attributes := x.transliterator, x.attributes;
      localLengthCache := x.localLengthCache;
    }

    method Clear()
      requires Valid()
      modifies this
      ensures Valid() && Contents() == old(Contents()).(raw := "", conversion := "", pending := "", ambiguous := "")
    {
      raw, conversion, pending, ambiguous := "", "", "", "";
      localLengthCache := None;
    }

    // ---- Setters ----

    method SetRaw(s: string)
      requires Valid()
      modifies this
      ensures Valid() && localLengthCache.None? && Contents() == old(Contents()).(raw := s)
    {
      raw := s;
      localLengthCache := None;
    }

    method SetConversion(s: string)
      requires Valid()
      modifies this
      ensures Valid() && localLengthCache.None? && Contents() == old(Contents()).(conversion := s)
    {
      conversion := s;
      localLengthCache := None;
    }

    method SetPending(s: string)
      requires Valid()
      modifies this
      ensures Valid() && localLengthCache.None? && Contents() == old(Contents()).(pending := s)
    {
      pending := s;
      localLengthCache := None;
    }

    method SetAmbiguous(s: string)
      requires Valid()
      modifies this
      ensures Valid() && localLengthCache.None? && Contents() == old(Contents()).(ambiguous := s)
    {
      ambiguous := s;
      localLengthCache := None;
    }

    method SetTransliterator(t: Transliterator)
      requires Valid()
      modifies this
      ensures Valid() && Contents() == old(Contents()).(transliterator := if t == LOCAL then old(transliterator) else t)
    {
      if t == LOCAL {
        return;
      }
      localLengthCache := None;
      transliterator := t;
    }

    method SetAttributes(a: Attributes)
      requires Valid()
      modifies this
      ensures Valid() && localLengthCache.None? && Contents() == old(Contents()).(attributes := a)
    {
      attributes := a;
      localLengthCache := None;
    }

    // ---- Length ----

    // The length computed anew, whether or not it comes from the cache.
    method GetLength(t: Transliterator) returns (n: nat)
      requires Valid()
      modifies `localLengthCache
      ensures Valid() && n == Length(world, Contents(), t)
      ensures n == world.charsLen(world.transliterate(Resolve(Contents(), t), world.deleteSpecialKeys(raw),
                                                      world.deleteSpecialKeys(conversion + pending)))
    {
      if t == LOCAL && localLengthCache.Some? {
        return localLengthCache.value;
      }
      var t13n := world.transliterate(Resolve(Contents(), t), world.deleteSpecialKeys(raw),
                                      world.deleteSpecialKeys(conversion + pending));
      n := world.charsLen(t13n);
      if t == LOCAL {
        localLengthCache := Some(n);
      }
    }

    // ---- Combining and splitting ----

    method Combine(leftChunk: CharChunk)
      requires Valid()
      modifies this
      ensures Valid() && Contents() == Combined(old(leftChunk.Contents()), old(Contents()))
      ensures raw == old(leftChunk.raw + raw) && conversion == old(leftChunk.conversion + conversion)
      ensures pending == old(leftChunk.pending + pending)
      ensures ambiguous == if old(leftChunk.ambiguous) == "" then ""
                           else old(leftChunk.ambiguous) + if old(ambiguous) == "" then old(pending) else old(ambiguous)
    {
      conversion := leftChunk.conversion + conversion;
      raw := leftChunk.raw + raw;
      localLengthCache := None;
      if leftChunk.ambiguous == "" {
        ambiguous := "";
      } else {
        if ambiguous == "" {
          ambiguous := leftChunk.ambiguous + pending;
        } else {
          ambiguous := leftChunk.ambiguous + ambiguous;
        }
      }
      pending := leftChunk.pending + pending;
    }

    // The chunk keeps the right part of what the transliterator has divided.
    method Divide(p: Parts) returns (left: CharChunk)
      requires Valid() && localLengthCache.None?
      modifies this
      ensures Valid() && fresh(left) && left.Valid() && left.world == world
      ensures left.Contents() == LeftPart(old(Contents()), p) && Contents() == RightPart(old(Contents()), p)
    {
      left := new CharChunk(transliterator, world);
      left.SetRaw(p.rawLeft);
      SetRaw(p.rawRight);
      if |p.convertedLeft| > |conversion| {
        var pendingLeft := p.convertedLeft[|conversion|..];
        left.SetConversion(conversion);
        left.SetPending(pendingLeft);
        conversion := "";
        pending := p.convertedRight;
        ambiguous := "";
      } else {
        left.SetConversion(p.convertedLeft);
        var count := |p.convertedRight| - |pending|;
        conversion := if count < 0 then p.convertedRight else p.convertedRight[..count];
      }
    }

    // A position inside the text divides the chunk; any other position changes nothing.
    method SplitChunk(t: Transliterator, position: nat) returns (left: CharChunk?)
      requires Valid()
      modifies this
      ensures Valid()
      ensures left == null <==> !(0 < position < Length(world, old(Contents()), t))
      ensures left == null ==> Contents() == old(Contents())
      ensures left != null ==>
        var c := old(Contents());
        var p := world.split(Resolve(c, t), position, world.deleteSpecialKeys(c.raw),
                             world.deleteSpecialKeys(c.conversion + c.pending));
        && fresh(left) && left.Valid() && left.world == world
        && left.Contents() == LeftPart(c, p) && Contents() == RightPart(c, p)
    {
      var length := GetLength(t);
      if position <= 0 || position >= length {
        return null;
      }
      localLengthCache := None;
      var p := world.split(Resolve(Contents(), t), position, world.deleteSpecialKeys(raw),
                           world.deleteSpecialKeys(conversion + pending));
      left := Divide(p);
    }

    // A chunk without special keys that is split by a dividing transliterator and combined again
    // has its raw, converted and pending strings back.
    method SplitAndCombine(t: Transliterator, position: nat) returns (split: bool)
      requires Valid()
      requires world.deleteSpecialKeys(raw) == raw && world.deleteSpecialKeys(conversion + pending) == conversion + pending
      requires IsPartition(Contents(), world.split(Resolve(Contents(), t), position, raw, conversion + pending))
      modifies this
      ensures Valid() && raw == old(raw) && conversion == old(conversion) && pending == old(pending)
      ensures split <==> 0 < position < Length(world, old(Contents()), t)
    {
      var left := SplitChunk(t, position);
      split := left != null;
      if left != null {
        var c := old(Contents());
        CombineUndoesSplit(c, world.split(Resolve(c, t), position, c.raw, c.conversion + c.pending));
        Combine(left);
      }
    }

    // ---- Adding input ----

    // The look-up found no entry: the input is for the next chunk, or it is kept as it is, or it
    // starts with a special key that is dropped.
    method AddUnmatchedInput(text: string, usedKeyLength: nat) returns (loop: bool, rest: string)
      requires Valid() && localLengthCache.None? && usedKeyLength <= |pending + text| && world.frontLength(text) <= |text|
      modifies this
      ensures Valid() && AddUnmatched(world, old(Contents()), text, usedKeyLength) == Step(Contents(), loop, rest)
    {
      var input := text;
      if usedKeyLength == 0 {
        var trimmed := world.trimLeadingSpecialKey(input);
        if |trimmed| < |input| {
          return true, trimmed;
        }
        if pending == "" {
          var n := world.frontLength(input);
          raw := raw + input[..n];
          conversion := conversion + input[..n];
          input := input[n..];
        }
        return false, input;
      }
      if usedKeyLength == |pending| {
        var next := world.lookUpPrefix(input);
        var noEntry := next.entry.None? && next.used == 0;
        var trimmed := world.trimLeadingSpecialKey(input);
        if noEntry && |trimmed| < |input| {
          return true, trimmed;
        }
        return false, input;
      }
      if usedKeyLength < |pending| {
        return false, input;
      }
      var usedInputLength := usedKeyLength - |pending|;
      raw := raw + input[..usedInputLength];
      pending := pending + input[..usedInputLength];
      ambiguous := "";
      return false, input[usedInputLength..];
    }

    method AddMatchedInput(text: string, m: Match) returns (loop: bool, rest: string)
      requires Valid() && localLengthCache.None? && m.entry.Some? && |pending| <= m.used <= |pending + text|
      modifies this
      ensures Valid() && AddMatched(world, old(Contents()), text, m) == Step(Contents(), loop, rest)
    {
      var key := pending + text;
      var entry := m.entry.value;
      if conversion == "" && (raw == "" || pending == "" || raw == pending) {
        attributes := entry.attributes;
      }
      var usedInputLength := m.used - |pending|;
      raw := raw + text[..usedInputLength];
      var input := text[usedInputLength..];
      if m.fixed || |key| > m.used {
        conversion := conversion + entry.result;
        pending := entry.pending;
        ambiguous := "";
      } else {
        pending := key;
        ambiguous := entry.result;
      }
      if m.fixed && input == "" && conversion == "" && pending == "" && attributes.noTransliteration {
        raw := "";
        return false, input;
      }
      if input == "" || pending == "" {
        return false, input;
      }
      return true, input;
    }

    method AddInputInternal(input: string) returns (loop: bool, rest: string)
      requires Valid() && StepFits(world, Contents(), input)
      modifies this
      ensures Valid() && AddStep(world, old(Contents()), input) == Step(Contents(), loop, rest)
    {
      var m := world.lookUpPrefix(pending + input);
      localLengthCache := None;
      if m.entry.None? {
        loop, rest := AddUnmatchedInput(input, m.used);
      } else {
        loop, rest := AddMatchedInput(input, m);
      }
    }

    // The loop of `AddInput`, stopped after n steps or before a look-up that does not fit.
    method AddInputSteps(input: string, n: nat) returns (loop: bool, rest: string)
      requires Valid()
      modifies this
      ensures Valid() && AddSteps(world, old(Contents()), input, n) == Step(Contents(), loop, rest)
    {
      loop, rest := true, input;
      var i := 0;
      while loop && i < n && StepFits(world, Contents(), rest)
        invariant Valid() && i <= n
        invariant AddSteps(world, old(Contents()), input, n) ==
                  if loop then AddSteps(world, Contents(), rest, n - i) else Step(Contents(), loop, rest)
        decreases n - i
      {
        loop, rest := AddInputInternal(rest);
        i := i + 1;
      }
    }

    method AddInput(input: string, ghost d: Discipline) returns (rest: string)
      requires Valid() && TableContract(world, d) && d.pendings(pending)
      modifies this
      ensures Valid() && (Contents(), rest) == AddAll(world, d, old(Contents()), input)
    {
      rest := input;
      var loop := true;
      while loop
        invariant Valid() && d.pendings(pending)
        invariant if loop then AddAll(world, d, Contents(), rest) == AddAll(world, d, old(Contents()), input)
                  else (Contents(), rest) == AddAll(world, d, old(Contents()), input)
        decreases loop, |rest|, d.rank(pending)
      {
        StepFacts(world, d, Contents(), rest);
        loop, rest := AddInputInternal(rest);
      }
    }

    method AddInputAndConvertedChar(input: CompositionInput)
      requires Valid() && ConvertedFits(world, Contents(), input.State())
      modifies this, input
      ensures Valid() && (Contents(), input.State()) == AddConverted(world, old(Contents()), old(input.State()))
    {
      localLengthCache := None;
      if input.isAsis {
        if raw == "" && pending == "" && conversion == "" {
          raw := input.raw;
          conversion := input.conversion;
          input.Clear();
        }
        return;
      }
      if raw == "" && pending == "" && conversion == "" {
        raw := input.raw;
        input.raw := "";
        pending := input.conversion;
        ambiguous := input.conversion;
        input.conversion := "";
        var entry := world.lookUp(pending);
        if entry.Some? {
          attributes := entry.value.attributes;
        }
        return;
      }
      var keyInput := pending + input.conversion;
      var m := world.lookUpPrefix(keyInput);
      if m.entry.None? {
        return;
      }
      var entry := m.entry.value;
      if m.used == |keyInput| {
        raw := raw + input.raw;
        if m.fixed {
          conversion := conversion + entry.result;
          pending := entry.pending;
          ambiguous := "";
        } else {
          pending := entry.result;
          ambiguous := entry.result;
        }
        input.raw := "";
        input.conversion := "";
        return;
      }
      if m.used == |pending| {
        return;
      }
      raw := raw + input.raw;
      conversion := conversion + entry.result;
      pending := entry.pending;
      input.raw := "";
      input.conversion := keyInput[m.used..];
    }

    // What is asked of the table depends on the branch: nothing where the input is left to a new chunk.
    method AddCompositionInput(input: CompositionInput, ghost d: Discipline)
      requires Valid()
      requires input.conversion != "" ==> ConvertedFits(world, Contents(), input.State())
      requires input.conversion == "" && !ShouldInsertNewChunk(world, Contents(), input.raw, input.isNewInput) ==>
        TableContract(world, d) && d.pendings(pending)
      modifies this, input
      ensures Valid()
      ensures old(input.conversion) != "" ==>
        (Contents(), input.State()) == AddConverted(world, old(Contents()), old(input.State()))
      ensures old(input.conversion) == "" &&
              ShouldInsertNewChunk(world, old(Contents()), old(input.raw), old(input.isNewInput)) ==>
        Contents() == old(Contents()) && input.State() == old(input.State())
      ensures old(input.conversion) == "" &&
              !ShouldInsertNewChunk(world, old(Contents()), old(input.raw), old(input.isNewInput)) ==>
        var (c, rest) := AddAll(world, d, old(Contents()), old(input.raw));
        Contents() == c && input.State() == old(input.State()).(raw := rest)
    {
      localLengthCache := None;
      if input.conversion != "" {
        AddInputAndConvertedChar(input);
        return;
      }
      if ShouldInsertNewChunk(world, Contents(), input.raw, input.isNewInput) {
        return;
      }
      input.raw := AddInput(input.raw, d);
    }
  }
}
