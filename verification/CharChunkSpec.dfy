/** The composing unit of `char_chunk.cc` as a value: what its operations make of the raw,
    conversion, pending and ambiguous strings. The conversion table, the transliterators and the
    handling of special keys are given functions. */
module CharChunkSpec {
  import opened PendingRules
  import opened Wrappers

  datatype Transliterator =
    | CONVERSION_STRING
    | RAW_STRING
    | HIRAGANA
    | FULL_KATAKANA
    | HALF_KATAKANA
    | FULL_ASCII
    | HALF_ASCII
    | LOCAL

  const NO_ATTRIBUTES := Attributes(false, false, false, false)

  // What a prefix look-up reports: the entry, how much of the key it used, and whether no longer
  // rule can match.
  datatype Match = Match(entry: Option<Entry>, used: nat, fixed: bool)

  datatype Parts = Parts(rawLeft: string, rawRight: string, convertedLeft: string, convertedRight: string)

  datatype World = World(
    lookUp: string -> Option<Entry>,
    lookUpPrefix: string -> Match,
    lookUpPredictiveAll: string -> seq<Entry>,
    hasNewChunkEntry: string -> bool,
    hasSubRules: string -> bool,
    transliterate: (Transliterator, string, string) -> string,
    split: (Transliterator, nat, string, string) -> Parts,
    deleteSpecialKeys: string -> string,
    trimLeadingSpecialKey: string -> string,
    frontLength: string -> nat,
    charsLen: string -> nat)

  datatype Content = Content(
    raw: string, conversion: string, pending: string, ambiguous: string,
    transliterator: Transliterator, attributes: Attributes)
  {
    predicate IsEmpty() { raw == "" && conversion == "" && pending == "" }
  }

  // ---- Transliteration and length ----

  // The transliterator that is really used. It is never LOCAL.
  function Resolve(c: Content, t: Transliterator): (r: Transliterator)
    ensures c.transliterator != LOCAL ==> r != LOCAL
  {
    if c.attributes.noTransliteration then
      if t == LOCAL || t == HALF_ASCII || t == FULL_ASCII then CONVERSION_STRING else t
    else if t == LOCAL then c.transliterator
    else t
  }

  function Transliterated(w: World, c: Content, t: Transliterator): string {
    w.transliterate(Resolve(c, t), w.deleteSpecialKeys(c.raw), w.deleteSpecialKeys(c.conversion + c.pending))
  }

  function Length(w: World, c: Content, t: Transliterator): nat {
    w.charsLen(Transliterated(w, c, t))
  }

  // ---- Combining and splitting ----

  function Combined(left: Content, right: Content): Content {
    right.(raw := left.raw + right.raw,
           conversion := left.conversion + right.conversion,
           pending := left.pending + right.pending,
           ambiguous := if left.ambiguous == "" then ""
                        else if right.ambiguous == "" then left.ambiguous + right.pending
                        else left.ambiguous + right.ambiguous)
  }

  // The left part of a chunk split into the given parts.
  function LeftPart(c: Content, p: Parts): Content {
    var left := Content(p.rawLeft, "", "", "", c.transliterator, NO_ATTRIBUTES);
    if |p.convertedLeft| > |c.conversion| then
      left.(conversion := c.conversion, pending := p.convertedLeft[|c.conversion|..])
    else left.(conversion := p.convertedLeft)
  }

  // What remains. A count that would be negative wraps around and keeps the whole string.
  function RightPart(c: Content, p: Parts): Content {
    if |p.convertedLeft| > |c.conversion| then
      c.(raw := p.rawRight, conversion := "", pending := p.convertedRight, ambiguous := "")
    else
      c.(raw := p.rawRight,
         conversion := if |p.convertedRight| < |c.pending| then p.convertedRight
                       else p.convertedRight[..|p.convertedRight| - |c.pending|])
  }

  // The transliterator divides both strings without changing them.
  predicate IsPartition(c: Content, p: Parts) {
    p.rawLeft + p.rawRight == c.raw && p.convertedLeft + p.convertedRight == c.conversion + c.pending
  }

  // A prefix of a + b is a prefix of a, or a with a prefix of b.
  lemma {:induction false} PrefixOfBoth(a: string, b: string, left: string, right: string)
    requires left + right == a + b
    ensures if |left| > |a| then left[..|a|] == a && left[|a|..] + right == b
            else |right| >= |b| && right[|right| - |b|..] == b && left + right[..|right| - |b|] == a
  {
    var whole := a + b;
    assert whole[..|left|] == left && whole[|left|..] == right;
    if |left| > |a| {
      assert left[..|a|] == whole[..|a|] && left[|a|..] + right == whole[|a|..];
    } else {
      var n := |right| - |b|;
      assert right[n..] == whole[|a|..] && left + right[..n] == whole[..|a|];
    }
  }

  // Combining the parts gives back the raw, converted and pending strings, wherever the chunk
  // was divided.
  lemma {:induction false} CombineUndoesSplit(c: Content, p: Parts)
    requires IsPartition(c, p)
    ensures var whole := Combined(LeftPart(c, p), RightPart(c, p));
      whole.raw == c.raw && whole.conversion == c.conversion && whole.pending == c.pending
  {
    PrefixOfBoth(c.conversion, c.pending, p.convertedLeft, p.convertedRight);
  }

  // Each part shows its side of both texts; what was ambiguous belongs to a pending string that is
  // left whole.
  lemma {:induction false} PartsShowTheirTexts(c: Content, p: Parts)
    requires IsPartition(c, p)
    ensures var left, right := LeftPart(c, p), RightPart(c, p);
      && left.raw == p.rawLeft && left.conversion + left.pending == p.convertedLeft && left.ambiguous == ""
      && right.raw == p.rawRight && right.conversion + right.pending == p.convertedRight
      && right.ambiguous == (if |p.convertedLeft| > |c.conversion| then "" else c.ambiguous)
      && left.transliterator == right.transliterator == c.transliterator
  {
    PrefixOfBoth(c.conversion, c.pending, p.convertedLeft, p.convertedRight);
    assert "" + p.convertedRight == p.convertedRight && p.convertedLeft + "" == p.convertedLeft;
  }

  // ---- Adding input ----

  // One step of adding input: the new content, whether to go on, and the input that is left.
  datatype Step = Step(content: Content, loop: bool, rest: string)

  function FirstAttributes(c: Content, e: Entry): Attributes {
    if c.conversion == "" && (c.raw == "" || c.pending == "" || c.raw == c.pending) then e.attributes else c.attributes
  }

  function AddUnmatched(w: World, c: Content, input: string, used: nat): Step
    requires used <= |c.pending + input| && w.frontLength(input) <= |input|
  {
    var trimmed := w.trimLeadingSpecialKey(input);
    if used == 0 then
      if |trimmed| < |input| then Step(c, true, trimmed)
      else if c.pending == "" then
        var n := w.frontLength(input);
        Step(c.(raw := c.raw + input[..n], conversion := c.conversion + input[..n]), false, input[n..])
      else Step(c, false, input)
    else if used == |c.pending| then
      var next := w.lookUpPrefix(input);
      if next.entry.None? && next.used == 0 && |trimmed| < |input| then Step(c, true, trimmed)
      else Step(c, false, input)
    else if used < |c.pending| then Step(c, false, input)
    else
      var n := used - |c.pending|;
      Step(c.(raw := c.raw + input[..n], pending := c.pending + input[..n], ambiguous := ""), false, input[n..])
  }

  function AddMatched(w: World, c: Content, input: string, m: Match): Step
    requires m.entry.Some? && |c.pending| <= m.used <= |c.pending + input|
  {
    var e := m.entry.value;
    var n := m.used - |c.pending|;
    var rest := input[n..];
    var read := c.(raw := c.raw + input[..n], attributes := FirstAttributes(c, e));
    var c' :=
      if m.fixed || |c.pending + input| > m.used
      then read.(conversion := c.conversion + e.result, pending := e.pending, ambiguous := "")
      else read.(pending := c.pending + input, ambiguous := e.result);
    if m.fixed && rest == "" && c'.conversion == "" && c'.pending == "" && c'.attributes.noTransliteration
    then Step(c'.(raw := ""), false, rest)
    else Step(c', rest != "" && c'.pending != "", rest)
  }

  // The look-ups of the step stay within the input.
  predicate StepFits(w: World, c: Content, input: string) {
    var m := w.lookUpPrefix(c.pending + input);
    m.used <= |c.pending + input| && (m.entry.Some? ==> |c.pending| <= m.used) && w.frontLength(input) <= |input|
  }

  function AddStep(w: World, c: Content, input: string): Step
    requires StepFits(w, c, input)
  {
    var m := w.lookUpPrefix(c.pending + input);
    if m.entry.Some? then AddMatched(w, c, input, m) else AddUnmatched(w, c, input, m.used)
  }

  // At most n steps, as long as the look-ups fit.
  function AddSteps(w: World, c: Content, input: string, n: nat): Step
    decreases n
  {
    if n == 0 || !StepFits(w, c, input) then Step(c, true, input)
    else
      var s := AddStep(w, c, input);
      if s.loop then AddSteps(w, s.content, s.rest, n - 1) else s
  }

  // ---- What is asked of the table ----

  // The pending strings that the table can leave, and a rank that falls whenever a rule is applied
  // without using any input.
  datatype Discipline = Discipline(pendings: string -> bool, rank: string -> nat)

  ghost predicate LookUpFits(w: World, d: Discipline, p: string, s: string) {
    var m := w.lookUpPrefix(p + s);
    && m.used <= |p + s|
    && (m.entry.Some? ==>
          && |p| <= m.used
          && d.pendings(m.entry.value.pending)
          && (m.used == |p + s| ==> d.pendings(p + s))
          && (m.used == |p| ==> d.rank(m.entry.value.pending) < d.rank(p)))
    && (m.entry.None? && m.used > |p| ==> d.pendings((p + s)[..m.used]))
  }

  ghost predicate SpecialKeysFit(w: World, s: string) {
    var t := w.trimLeadingSpecialKey(s);
    |t| <= |s| && t == s[|s| - |t|..] && w.frontLength(s) <= |s|
  }

  ghost predicate TableContract(w: World, d: Discipline) {
    && d.pendings("")
    && (forall p: string, s: string {:trigger d.pendings(p), w.lookUpPrefix(p + s)} :: d.pendings(p) ==> LookUpFits(w, d, p, s))
    && (forall s: string {:trigger w.trimLeadingSpecialKey(s)} {:trigger w.frontLength(s)} :: SpecialKeysFit(w, s))
  }

  // ---- Keystrokes ----

  // What became of a piece of the input: kept in the chunk, or dropped as a special key.
  datatype Piece = Kept(text: string) | Dropped(text: string)

  function Text(pieces: seq<Piece>): string {
    if pieces == [] then "" else pieces[0].text + Text(pieces[1..])
  }

  function KeptText(pieces: seq<Piece>): string {
    if pieces == [] then "" else (if pieces[0].Kept? then pieces[0].text else "") + KeptText(pieces[1..])
  }

  // Every dropped piece is the special key that the input started with at that point.
  ghost predicate OnlySpecialKeysDropped(w: World, pieces: seq<Piece>, rest: string) {
    pieces == [] ||
    (&& (pieces[0].Dropped? ==>
           w.trimLeadingSpecialKey(pieces[0].text + Text(pieces[1..]) + rest) == Text(pieces[1..]) + rest)
     && OnlySpecialKeysDropped(w, pieces[1..], rest))
  }

  // What a step does with the input: it keeps a piece of it in raw, or drops a special key, or, for
  // a chunk that is to disappear, clears raw once all input is used. A step after which there is
  // more to do shortens the input or lowers the rank of the pending string.
  ghost predicate StepKeeps(w: World, d: Discipline, c: Content, input: string, s: Step, piece: Piece) {
    && input == piece.text + s.rest && d.pendings(s.content.pending)
    && (piece.Dropped? ==> s.content == c && s.rest == w.trimLeadingSpecialKey(input))
    && (piece.Kept? ==>
          || s.content.raw == c.raw + piece.text
          || (s.content.IsEmpty() && s.rest == "" && s.content.attributes.noTransliteration && !s.loop))
    && (s.loop ==> |s.rest| < |input| || (s.rest == input && d.rank(s.content.pending) < d.rank(c.pending)))
  }

  lemma {:induction false} TakeConcat(a: string, b: string, k: nat)
    requires |a| <= k <= |a + b|
    ensures (a + b)[..k] == a + b[..k - |a|]
  {
  }

  lemma {:induction false} SplitAt(s: string, n: nat)
    requires n <= |s|
    ensures s == s[..n] + s[n..] && s[..0] == "" && s[0..] == s
  {
  }

  lemma {:induction false} UnmatchedKeepsKeys(w: World, d: Discipline, c: Content, input: string, m: Match) returns (piece: Piece)
    requires m == w.lookUpPrefix(c.pending + input) && m.entry.None? && d.pendings(c.pending)
    requires LookUpFits(w, d, c.pending, input) && SpecialKeysFit(w, input)
    ensures StepKeeps(w, d, c, input, AddUnmatched(w, c, input, m.used), piece)
  {
    var s := AddUnmatched(w, c, input, m.used);
    var n := |input| - |s.rest|;
    SplitAt(input, n);
    if s.loop {
      piece := Dropped(input[..n]);
    } else {
      piece := Kept(input[..n]);
      if m.used > |c.pending| {
        TakeConcat(c.pending, input, m.used);
      } else if n == 0 {
        assert c.raw + "" == c.raw;
      }
    }
  }

  lemma {:induction false} MatchedKeepsKeys(w: World, d: Discipline, c: Content, input: string, m: Match) returns (piece: Piece)
    requires m == w.lookUpPrefix(c.pending + input) && m.entry.Some?
    requires LookUpFits(w, d, c.pending, input)
    ensures StepKeeps(w, d, c, input, AddMatched(w, c, input, m), piece)
  {
    var n := m.used - |c.pending|;
    assert input == input[..n] + input[n..];
    piece := Kept(input[..n]);
    if n == 0 {
      assert input[0..] == input;
    }
  }

  lemma {:induction false} StepKeepsKeys(w: World, d: Discipline, c: Content, input: string) returns (piece: Piece)
    requires TableContract(w, d) && d.pendings(c.pending)
    ensures StepFits(w, c, input) && StepKeeps(w, d, c, input, AddStep(w, c, input), piece)
  {
    var m := w.lookUpPrefix(c.pending + input);
    assert LookUpFits(w, d, c.pending, input);
    assert SpecialKeysFit(w, input);
    if m.entry.Some? {
      piece := MatchedKeepsKeys(w, d, c, input, m);
    } else {
      piece := UnmatchedKeepsKeys(w, d, c, input, m);
    }
  }

  lemma {:induction false} StepFacts(w: World, d: Discipline, c: Content, input: string)
    requires TableContract(w, d) && d.pendings(c.pending)
    ensures StepFits(w, c, input)
    ensures var s := AddStep(w, c, input);
      d.pendings(s.content.pending) && |s.rest| <= |input|
      && (s.loop ==> |s.rest| < |input| || d.rank(s.content.pending) < d.rank(c.pending))
  {
    var piece := StepKeepsKeys(w, d, c, input);
  }

  // The steps together: the final content and the input that is left for the next chunk.
  ghost function AddAll(w: World, d: Discipline, c: Content, input: string): (r: (Content, string))
    requires TableContract(w, d) && d.pendings(c.pending)
    ensures d.pendings(r.0.pending)
    decreases |input|, d.rank(c.pending)
  {
    StepFacts(w, d, c, input);
    var s := AddStep(w, c, input);
    if s.loop then AddAll(w, d, s.content, s.rest) else (s.content, s.rest)
  }

  // With enough steps that is what the steps without a limit come to.
  lemma {:induction false} EnoughSteps(w: World, d: Discipline, c: Content, input: string) returns (n: nat)
    requires TableContract(w, d) && d.pendings(c.pending)
    ensures AddSteps(w, c, input, n) == Step(AddAll(w, d, c, input).0, false, AddAll(w, d, c, input).1)
    decreases |input|, d.rank(c.pending)
  {
    StepFacts(w, d, c, input);
    var s := AddStep(w, c, input);
    n := 0;
    if s.loop {
      n := EnoughSteps(w, d, s.content, s.rest);
    }
    n := n + 1;
  }

  // No keystroke is lost: the input is the pieces kept in raw, in order, with nothing but special
  // keys dropped between them, and the rest. The one exception is a chunk that is to disappear.
  ghost predicate AllKept(w: World, c: Content, input: string, pieces: seq<Piece>, c': Content, rest: string) {
    && input == Text(pieces) + rest && OnlySpecialKeysDropped(w, pieces, rest)
    && (c'.raw == c.raw + KeptText(pieces) || (c'.IsEmpty() && rest == "" && c'.attributes.noTransliteration))
  }

  lemma {:induction false} KeptAtEnd(w: World, d: Discipline, c: Content, input: string, s: Step, piece: Piece)
    requires StepKeeps(w, d, c, input, s, piece)
    ensures AllKept(w, c, input, [piece], s.content, s.rest)
  {
  }

  lemma {:induction false} KeptBefore(w: World, d: Discipline, c: Content, input: string, s: Step, piece: Piece, more: seq<Piece>,
                   c': Content, rest: string)
    requires StepKeeps(w, d, c, input, s, piece) && s.loop && AllKept(w, s.content, s.rest, more, c', rest)
    ensures AllKept(w, c, input, [piece] + more, c', rest)
  {
  }

  lemma {:induction false} AddAllKeepsKeys(w: World, d: Discipline, c: Content, input: string) returns (pieces: seq<Piece>)
    requires TableContract(w, d) && d.pendings(c.pending)
    ensures AllKept(w, c, input, pieces, AddAll(w, d, c, input).0, AddAll(w, d, c, input).1)
    decreases |input|, d.rank(c.pending)
  {
    var piece := StepKeepsKeys(w, d, c, input);
    var s := AddStep(w, c, input);
    if s.loop {
      var more := AddAllKeepsKeys(w, d, s.content, s.rest);
      pieces := [piece] + more;
      KeptBefore(w, d, c, input, s, piece, more, AddAll(w, d, c, input).0, AddAll(w, d, c, input).1);
    } else {
      pieces := [piece];
      KeptAtEnd(w, d, c, input, s, piece);
    }
  }

  // ---- Input that comes with a conversion ----

  datatype InputState = InputState(raw: string, conversion: string, isNewInput: bool, isAsis: bool)

  const NO_INPUT := InputState("", "", false, false)

  // The look-up, where there is one, stays within the key.
  predicate ConvertedFits(w: World, c: Content, i: InputState) {
    i.isAsis || c.IsEmpty() ||
    (var key := c.pending + i.conversion;
     var m := w.lookUpPrefix(key);
     m.entry.Some? ==> m.used <= |key|)
  }

  function AddConverted(w: World, c: Content, i: InputState): (Content, InputState)
    requires ConvertedFits(w, c, i)
  {
    if i.isAsis then
      if c.IsEmpty() then (c.(raw := i.raw, conversion := i.conversion), NO_INPUT) else (c, i)
    else if c.IsEmpty() then
      var e := w.lookUp(i.conversion);
      (c.(raw := i.raw, pending := i.conversion, ambiguous := i.conversion,
          attributes := if e.Some? then e.value.attributes else c.attributes),
       i.(raw := "", conversion := ""))
    else
      var key := c.pending + i.conversion;
      var m := w.lookUpPrefix(key);
      if m.entry.None? || (m.used == |c.pending| && m.used != |key|) then (c, i)
      else
        var e := m.entry.value;
        if m.used == |key| then
          (if m.fixed then c.(raw := c.raw + i.raw, conversion := c.conversion + e.result, pending := e.pending, ambiguous := "")
           else c.(raw := c.raw + i.raw, pending := e.result, ambiguous := e.result),
           i.(raw := "", conversion := ""))
        else
          (c.(raw := c.raw + i.raw, conversion := c.conversion + e.result, pending := e.pending),
           i.(raw := "", conversion := key[m.used..]))
  }

  // The typed keys stay together: they go to this chunk or are left for the next, and an input
  // that is left behind with its keys is left as it was.
  lemma {:induction false} ConvertedKeepsKeys(w: World, c: Content, i: InputState)
    requires ConvertedFits(w, c, i)
    ensures var (c', i') := AddConverted(w, c, i);
      || (c' == c && i' == i)
      || (c'.raw == c.raw + i.raw && i'.raw == "")
  {
  }

  predicate ShouldInsertNewChunk(w: World, c: Content, raw: string, isNewInput: bool) {
    && !c.IsEmpty()
    && (isNewInput || (c.attributes.endChunk && c.pending == ""))
    && (w.hasNewChunkEntry(raw) || !w.hasSubRules(raw))
  }
}
