/** What adding input makes of the texts of a chunk, said by the look-ups it leads to: the conversion
    is what the rules gave, in order, and pending and ambiguous are what the last of them left. */
module CharChunkText {
  import opened Hiding
  import opened PendingRules
  import opened CharChunkSpec
  import opened Wrappers

  // One step: the pending string and the input it starts from, what the look-up of both together
  // found, and the piece of the input that was used.
  datatype Visit = Visit(pending: string, input: string, found: Match, piece: Piece) {
    function Key(): string { pending + input }
    // A rule applies when no longer one can, or when it leaves some of the key over.
    predicate Applies() { found.entry.Some? && (found.fixed || found.used < |Key()|) }
    // The whole key matches, but a longer rule may.
    predicate Waits() { found.entry.Some? && !Applies() }
    // No rule matches yet, but the key with some of the input is the beginning of one.
    predicate Begins() { found.entry.None? && found.used > |pending| }
    // No rule at all: a character goes straight into the conversion.
    predicate Passes() { found.entry.None? && found.used == 0 && pending == "" && piece.Kept? }
  }

  function Gained(v: Visit): string {
    if v.Applies() then v.found.entry.value.result else if v.Passes() then v.piece.text else ""
  }

  function PendingAfter(v: Visit): string {
    if v.Applies() then v.found.entry.value.pending
    else if v.Waits() then v.Key()
    else if v.Begins() && v.found.used <= |v.Key()| then v.Key()[..v.found.used]
    else v.pending
  }

  function AmbiguousAfter(v: Visit, ambiguous: string): string {
    if v.Waits() then v.found.entry.value.result else if v.Applies() || v.Begins() then "" else ambiguous
  }

  // There is more to do after a dropped special key, and after a rule that left a pending string
  // and some of the input.
  predicate GoesOn(v: Visit, rest: string) {
    v.piece.Dropped? || (v.found.entry.Some? && rest != "" && PendingAfter(v) != "")
  }

  // The piece is what the look-up used beyond the pending string; without a rule it is a special
  // key, or the first character if nothing is pending, or nothing.
  predicate IsPiece(w: World, v: Visit, rest: string) {
    var special := |w.trimLeadingSpecialKey(v.input)| < |v.input|;
    if v.found.entry.Some? || v.Begins() then
      |v.pending| <= v.found.used <= |v.Key()| && v.piece == Kept(v.input[..v.found.used - |v.pending|])
    else if special && (v.found.used == 0 ||
                        (v.found.used == |v.pending| && w.lookUpPrefix(v.input).entry.None? && w.lookUpPrefix(v.input).used == 0))
    then v.piece.Dropped? && rest == w.trimLeadingSpecialKey(v.input)
    else if v.found.used == 0 && v.pending == "" then
      w.frontLength(v.input) <= |v.input| && v.piece == Kept(v.input[..w.frontLength(v.input)])
    else v.piece == Kept("")
  }

  predicate IsVisit(w: World, v: Visit, pending: string, input: string, rest: string) {
    && v.pending == pending && v.input == input && v.found == w.lookUpPrefix(pending + input)
    && IsPiece(w, v, rest) && input == v.piece.text + rest
  }

  // ---- One step ----

  // The attributes are those of the first rule; a chunk that has become empty and is not to be
  // transliterated loses what was typed.
  ghost predicate ShowsVisit(c: Content, v: Visit, s: Step) {
    var first := v.found.entry.Some? && c.conversion == "" && (c.raw == "" || c.pending == "" || c.raw == c.pending);
    var cleared := v.found.entry.Some? && v.found.fixed && s.rest == "" && s.content.conversion == ""
                   && s.content.pending == "" && s.content.attributes.noTransliteration;
    && s.content.conversion == c.conversion + Gained(v)
    && s.content.pending == PendingAfter(v)
    && s.content.ambiguous == AmbiguousAfter(v, c.ambiguous)
    && s.content.attributes == (if first then v.found.entry.value.attributes else c.attributes)
    && s.content.raw == (if cleared then "" else if v.piece.Kept? then c.raw + v.piece.text else c.raw)
    && s.content.transliterator == c.transliterator
    && s.loop == GoesOn(v, s.rest)
  }

  lemma {:induction false} MatchedVisit(w: World, c: Content, input: string) returns (v: Visit)
    requires StepFits(w, c, input) && w.lookUpPrefix(c.pending + input).entry.Some?
    ensures IsVisit(w, v, c.pending, input, AddStep(w, c, input).rest) && ShowsVisit(c, v, AddStep(w, c, input))
  {
    var m := w.lookUpPrefix(c.pending + input);
    var n := m.used - |c.pending|;
    v := Visit(c.pending, input, m, Kept(input[..n]));
    assert input == input[..n] + input[n..];
    assert c.conversion + "" == c.conversion;
  }

  // Without a rule there are four ways: the look-up began one, a special key is dropped, a character
  // passes, or nothing happens.
  ghost predicate IsUnmatched(w: World, c: Content, input: string, m: Match, s: Step) {
    && m == w.lookUpPrefix(c.pending + input) && m.entry.None? && m.used <= |c.pending + input|
    && w.frontLength(input) <= |input| && s == AddUnmatched(w, c, input, m.used)
  }

  lemma {:induction false} BeginsVisit(w: World, c: Content, input: string, m: Match, s: Step) returns (v: Visit)
    requires IsUnmatched(w, c, input, m, s) && m.used > |c.pending|
    ensures IsVisit(w, v, c.pending, input, s.rest) && ShowsVisit(c, v, s)
  {
    var n := m.used - |c.pending|;
    v := Visit(c.pending, input, m, Kept(input[..n]));
    SplitAt(input, n);
    TakeConcat(c.pending, input, m.used);
    assert c.conversion + "" == c.conversion;
  }

  lemma {:induction false} DropsVisit(w: World, c: Content, input: string, m: Match, s: Step) returns (v: Visit)
    requires IsUnmatched(w, c, input, m, s) && m.used <= |c.pending| && s.loop && SpecialKeysFit(w, input)
    ensures IsVisit(w, v, c.pending, input, s.rest) && ShowsVisit(c, v, s)
  {
    var n := |input| - |s.rest|;
    v := Visit(c.pending, input, m, Dropped(input[..n]));
    SplitAt(input, n);
    assert c.conversion + "" == c.conversion;
  }

  lemma {:induction false} PassesVisit(w: World, c: Content, input: string, m: Match, s: Step) returns (v: Visit)
    requires IsUnmatched(w, c, input, m, s) && !s.loop && m.used == 0 && c.pending == ""
    ensures IsVisit(w, v, c.pending, input, s.rest) && ShowsVisit(c, v, s)
  {
    var n := w.frontLength(input);
    v := Visit(c.pending, input, m, Kept(input[..n]));
    SplitAt(input, n);
  }

  lemma {:induction false} StaysVisit(w: World, c: Content, input: string, m: Match, s: Step) returns (v: Visit)
    requires IsUnmatched(w, c, input, m, s) && m.used <= |c.pending| && !s.loop && (m.used == 0 ==> c.pending != "")
    ensures IsVisit(w, v, c.pending, input, s.rest) && ShowsVisit(c, v, s)
  {
    v := Visit(c.pending, input, m, Kept(""));
    assert "" + input == input && c.conversion + "" == c.conversion && c.raw + "" == c.raw;
  }

  lemma {:induction false} StepShowsVisit(w: World, c: Content, input: string) returns (v: Visit)
    requires StepFits(w, c, input) && SpecialKeysFit(w, input)
    ensures IsVisit(w, v, c.pending, input, AddStep(w, c, input).rest) && ShowsVisit(c, v, AddStep(w, c, input))
  {
    if w.lookUpPrefix(c.pending + input).entry.Some? {
      v := MatchedVisit(w, c, input);
    } else {
      var m, s := w.lookUpPrefix(c.pending + input), AddStep(w, c, input);
      if m.used > |c.pending| {
        v := BeginsVisit(w, c, input, m, s);
      } else if s.loop {
        v := DropsVisit(w, c, input, m, s);
      } else if m.used == 0 && c.pending == "" {
        v := PassesVisit(w, c, input, m, s);
      } else {
        v := StaysVisit(w, c, input, m, s);
      }
    }
  }

  // ---- All steps ----

  // The visits follow one another from the pending string and the input to what is left.
  predicate AreVisits(w: World, vs: seq<Visit>, pending: string, input: string, rest: string) {
    vs != [] &&
    var next := if |vs| == 1 then rest else vs[1].input;
    && IsVisit(w, vs[0], pending, input, next) && (GoesOn(vs[0], next) <==> |vs| > 1)
    && (|vs| > 1 ==> AreVisits(w, vs[1..], PendingAfter(vs[0]), next, rest))
  }

  function AllGained(vs: seq<Visit>): string {
    if vs == [] then "" else Gained(vs[0]) + AllGained(vs[1..])
  }

  function AmbiguousAfterAll(vs: seq<Visit>, ambiguous: string): string {
    if vs == [] then ambiguous else AmbiguousAfterAll(vs[1..], AmbiguousAfter(vs[0], ambiguous))
  }

  function Pieces(vs: seq<Visit>): seq<Piece> {
    if vs == [] then [] else [vs[0].piece] + Pieces(vs[1..])
  }

  // What the visits make of the texts of a chunk.
  ghost predicate ShowsVisits(w: World, c: Content, input: string, vs: seq<Visit>, c': Content, rest: string) {
    && AreVisits(w, vs, c.pending, input, rest)
    && c'.conversion == c.conversion + AllGained(vs)
    && c'.pending == PendingAfter(vs[|vs| - 1])
    && c'.ambiguous == AmbiguousAfterAll(vs, c.ambiguous)
  }

  lemma {:induction false} VisitKeeps(w: World, d: Discipline, c: Content, input: string, v: Visit)
    requires TableContract(w, d) && d.pendings(c.pending) && StepFits(w, c, input)
    requires IsVisit(w, v, c.pending, input, AddStep(w, c, input).rest) && ShowsVisit(c, v, AddStep(w, c, input))
    ensures StepKeeps(w, d, c, input, AddStep(w, c, input), v.piece)
  {
    var s := AddStep(w, c, input);
    var piece := StepKeepsKeys(w, d, c, input);
    if v.piece.Dropped? {
      assert v.found.entry.None? && !v.Begins();
      assert c.conversion + "" == c.conversion;
    }
  }

  lemma {:induction false} LastVisit(w: World, c: Content, input: string, v: Visit, s: Step)
    requires IsVisit(w, v, c.pending, input, s.rest) && ShowsVisit(c, v, s) && !s.loop
    ensures ShowsVisits(w, c, input, [v], s.content, s.rest) && Pieces([v]) == [v.piece]
  {
    assert [v][1..] == [] && AllGained([v]) == Gained(v) + "";
  }

  lemma {:induction false} VisitBefore(w: World, c: Content, input: string, v: Visit, s: Step, vs: seq<Visit>, c': Content, rest: string)
    requires IsVisit(w, v, c.pending, input, s.rest) && ShowsVisit(c, v, s) && s.loop
    requires ShowsVisits(w, s.content, s.rest, vs, c', rest)
    ensures ShowsVisits(w, c, input, [v] + vs, c', rest) && Pieces([v] + vs) == [v.piece] + Pieces(vs)
  {
    assert ([v] + vs)[1..] == vs && ([v] + vs)[1].input == s.rest;
    assert c.conversion + (Gained(v) + AllGained(vs)) == c.conversion + Gained(v) + AllGained(vs);
  }

  // After all input is added: the conversion has grown by what the rules and the characters without
  // a rule gave, in order; pending and ambiguous are what the last visits left; the pieces hold every
  // keystroke.
  lemma {:induction false} AddAllText(w: World, d: Discipline, c: Content, input: string) returns (vs: seq<Visit>)
    requires TableContract(w, d) && d.pendings(c.pending)
    ensures ShowsVisits(w, c, input, vs, AddAll(w, d, c, input).0, AddAll(w, d, c, input).1)
    ensures AllKept(w, c, input, Pieces(vs), AddAll(w, d, c, input).0, AddAll(w, d, c, input).1)
    decreases |input|, d.rank(c.pending)
  {
    StepFacts(w, d, c, input);
    var s := AddStep(w, c, input);
    var v := StepShowsVisit(w, c, input);
    VisitKeeps(w, d, c, input, v);
    if s.loop {
      var more := AddAllText(w, d, s.content, s.rest);
      VisitBefore(w, c, input, v, s, more, AddAll(w, d, c, input).0, AddAll(w, d, c, input).1);
      KeptBefore(w, d, c, input, s, v.piece, Pieces(more), AddAll(w, d, c, input).0, AddAll(w, d, c, input).1);
      vs := [v] + more;
    } else {
      LastVisit(w, c, input, v, s);
      KeptAtEnd(w, d, c, input, s, v.piece);
      vs := [v];
    }
  }

  // With the rules that make っ of tt and leave t, and た of ta, the keys tta give った.
  lemma {:induction false} DoubledConsonant(w: World, t: Transliterator)
    requires w.lookUpPrefix("tta") == Match(Some(Entry("tt", "っ", "t", NO_ATTRIBUTES)), 2, true)
    requires w.lookUpPrefix("ta") == Match(Some(Entry("ta", "た", "", NO_ATTRIBUTES)), 2, true)
    requires w.frontLength("tta") == w.frontLength("a") == 1
    ensures AddSteps(w, Content("", "", "", "", t, NO_ATTRIBUTES), "tta", 2)
         == Step(Content("tta", "った", "", "", t, NO_ATTRIBUTES), false, "")
  {
    var start := Content("", "", "", "", t, NO_ATTRIBUTES);
    var middle := Content("tt", "っ", "t", "", t, NO_ATTRIBUTES);
    assert "" + "tta" == "tta" && "tta"[..2] == "tt" && "tta"[2..] == "a";
    assert AddStep(w, start, "tta") == Step(middle, true, "a");
    assert "t" + "a" == "ta" && "a"[..1] == "a" && "a"[1..] == "";
    assert AddStep(w, middle, "a") == Step(Content("tta", "った", "", "", t, NO_ATTRIBUTES), false, "");
  }

  // ---- Input that comes with a conversion ----

  // An empty chunk takes the input as it is; a chunk with contents looks up its pending string with
  // the conversion, and takes the input if a rule uses more than the pending string.
  lemma {:induction false} ConvertedTexts(w: World, c: Content, i: InputState)
    requires ConvertedFits(w, c, i)
    ensures var (c', i') := AddConverted(w, c, i);
      var key := c.pending + i.conversion;
      var m := w.lookUpPrefix(key);
      if c.raw == "" && c.conversion == "" && c.pending == "" then
        if i.isAsis then c'.raw == i.raw && c'.conversion == i.conversion && c'.pending == "" && c'.ambiguous == c.ambiguous
                         && i'.raw == i'.conversion == ""
        else c'.raw == i.raw && c'.conversion == "" && c'.pending == c'.ambiguous == i.conversion && i'.raw == i'.conversion == ""
      else if i.isAsis || m.entry.None? || (m.used == |c.pending| && i.conversion != "") then c' == c && i' == i
      else
        && c'.raw == c.raw + i.raw && i'.raw == ""
        && if m.used < |key| then
             c'.conversion == c.conversion + m.entry.value.result && c'.pending == m.entry.value.pending
             && c'.ambiguous == c.ambiguous && i'.conversion == key[m.used..]
           else if m.fixed then
             c'.conversion == c.conversion + m.entry.value.result && c'.pending == m.entry.value.pending
             && c'.ambiguous == "" && i'.conversion == ""
           else
             c'.conversion == c.conversion && c'.pending == c'.ambiguous == m.entry.value.result && i'.conversion == ""
  {
  }
}
