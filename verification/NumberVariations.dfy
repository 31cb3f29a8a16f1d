/** `ArabicToKanji`: the list of notations it offers for a number, among them the 大字 form
    with 廿 in place of 弐拾, which the source gets by replacing text. */
module NumberVariations {
  import opened Decimals
  import opened Hiding
  import opened Wrappers
  import opened NumberParser
  import opened NumberTokens
  import opened NumberPrinter

  // ---- Searching and replacing two characters in a text ----

  const OLD_TWO_TEN: string := "弐拾"
  const OLD_TWENTY: string := "廿"

  predicate StartsWith(text: string, pattern: string) {
    |pattern| <= |text| && text[..|pattern|] == pattern
  }

  predicate Contains(text: string, pattern: string) {
    StartsWith(text, pattern) || (text != "" && Contains(text[1..], pattern))
  }

  function ReplaceAll(text: string, pattern: string, replacement: string): string
    requires pattern != ""
    decreases |text|
  {
    if text == "" then ""
    else if StartsWith(text, pattern) then replacement + ReplaceAll(text[|pattern|..], pattern, replacement)
    else [text[0]] + ReplaceAll(text[1..], pattern, replacement)
  }

  // The same on tokens: 2, 10 becomes 20.
  predicate StartsTwoTen(ts: seq<uint64>) {
    |ts| >= 2 && ts[0] == 2 && ts[1] == 10
  }

  predicate HasTwoTen(ts: seq<uint64>) {
    ts != [] && (StartsTwoTen(ts) || HasTwoTen(ts[1..]))
  }

  function WithTwenty(ts: seq<uint64>): seq<uint64> {
    if ts == [] then []
    else if StartsTwoTen(ts) then [20] + WithTwenty(ts[2..])
    else [ts[0]] + WithTwenty(ts[1..])
  }

  lemma {:induction false} OnlyTwoIsSpelledTwo(t: uint64)
    requires Spellable(NumberOldKanji, t)
    ensures TokenChar(NumberOldKanji, t) == '弐' <==> t == 2
    ensures TokenChar(NumberOldKanji, t) == '拾' <==> t == 10
  {
  }

  lemma {:induction false} StartsSpelled(ts: seq<uint64>)
    requires AllSpellable(NumberOldKanji, ts)
    ensures StartsWith(Spelled(NumberOldKanji, ts), OLD_TWO_TEN) <==> StartsTwoTen(ts)
  {
    if |ts| >= 2 {
      OnlyTwoIsSpelledTwo(ts[0]);
      OnlyTwoIsSpelledTwo(ts[1]);
      var text := Spelled(NumberOldKanji, ts);
      assert text[..2] == [text[0], text[1]];
    }
  }

  lemma {:induction false} SearchSpelled(ts: seq<uint64>)
    requires AllSpellable(NumberOldKanji, ts)
    ensures Contains(Spelled(NumberOldKanji, ts), OLD_TWO_TEN) <==> HasTwoTen(ts)
  {
    StartsSpelled(ts);
    if ts != [] {
      assert Spelled(NumberOldKanji, ts)[1..] == Spelled(NumberOldKanji, ts[1..]);
      SearchSpelled(ts[1..]);
    }
  }

  lemma {:induction false} ReplaceSpelled(ts: seq<uint64>)
    requires AllSpellable(NumberOldKanji, ts)
    ensures ReplaceAll(Spelled(NumberOldKanji, ts), OLD_TWO_TEN, OLD_TWENTY) == Spelled(NumberOldKanji, WithTwenty(ts))
    decreases |ts|
  {
    var text := Spelled(NumberOldKanji, ts);
    StartsSpelled(ts);
    if ts == [] {
    } else if StartsTwoTen(ts) {
      assert text[2..] == Spelled(NumberOldKanji, ts[2..]);
      ReplaceSpelled(ts[2..]);
      SpelledConcat(NumberOldKanji, [20], WithTwenty(ts[2..]));
      assert Spelled(NumberOldKanji, [20]) == OLD_TWENTY;
    } else {
      assert text[1..] == Spelled(NumberOldKanji, ts[1..]);
      ReplaceSpelled(ts[1..]);
      SpelledConcat(NumberOldKanji, [ts[0]], WithTwenty(ts[1..]));
      assert Spelled(NumberOldKanji, [ts[0]]) == [text[0]];
    }
  }

  // ---- The tokens with 20 are those of the form Twenty ----

  // Replacing in `old` gives `twenty`, and there is something to replace if and only if `has`;
  // the definition is used only where Peek(0) is.
  ghost predicate Twentied(old_: seq<uint64>, twenty: seq<uint64>, has: bool) {
    forall i: nat {:trigger Peek(i)} :: Peek(i) ==> WithTwenty(old_) == twenty && HasTwoTen(old_) == has
  }

  // Replacing in a and in b is replacing in both together.
  ghost predicate Replaces(a: seq<uint64>, b: seq<uint64>) {
    WithTwenty(a + b) == WithTwenty(a) + WithTwenty(b) && HasTwoTen(a + b) == (HasTwoTen(a) || HasTwoTen(b))
  }

  lemma {:induction false} ReplacesTwoTen(a: seq<uint64>, b: seq<uint64>)
    requires StartsTwoTen(a) && Replaces(a[2..], b)
    ensures Replaces(a, b)
  {
    assert (a + b)[2..] == a[2..] + b && StartsTwoTen(a + b);
    assert WithTwenty(a + b) == [20] + (WithTwenty(a[2..]) + WithTwenty(b));
  }

  lemma {:induction false} ReplacesOther(a: seq<uint64>, b: seq<uint64>)
    requires a != [] && !StartsTwoTen(a) && (b == [] || b[0] != 10) && Replaces(a[1..], b)
    ensures Replaces(a, b)
  {
    assert (a + b)[1..] == a[1..] + b && !StartsTwoTen(a + b);
    assert WithTwenty(a + b) == [a[0]] + (WithTwenty(a[1..]) + WithTwenty(b));
  }

  lemma {:induction false} ReplacesConcat(a: seq<uint64>, b: seq<uint64>)
    requires b == [] || b[0] != 10
    ensures Replaces(a, b)
    decreases |a|
  {
    if a == [] {
      assert a + b == b && WithTwenty(a) + WithTwenty(b) == WithTwenty(b);
    } else if StartsTwoTen(a) {
      ReplacesConcat(a[2..], b);
      ReplacesTwoTen(a, b);
    } else {
      ReplacesConcat(a[1..], b);
      ReplacesOther(a, b);
    }
  }

  lemma {:induction false} TwentiedConcat(a: seq<uint64>, a': seq<uint64>, x: bool, b: seq<uint64>, b': seq<uint64>, y: bool)
    requires Twentied(a, a', x) && Twentied(b, b', y) && (b == [] || b[0] != 10)
    ensures Twentied(a + b, a' + b', x || y)
  {
    assert Peek(0);
    ReplacesConcat(a, b);
  }

  lemma {:induction false} PairTwentied(x: uint64, y: uint64)
    ensures Twentied([x, y], if x == 2 && y == 10 then [20] else [x, y], x == 2 && y == 10)
  {
    assert [x, y][1..] == [y] && [x, y][2..] == [] && [y][1..] == [];
    assert WithTwenty([y]) == [y] && !HasTwoTen([y]);
  }

  lemma {:induction false} PlaceTwentied(d: nat, place: nat)
    requires d < 10 && 1 <= place <= 3
    ensures Twentied(Place(Old, d, BaseOf(place)), Place(Twenty, d, BaseOf(place)), place == 1 && d == 2)
  {
    PairTwentied(d, BaseOf(place));
  }

  // 大字 starts a number, and each of its ranks, with a digit.
  predicate StartsWithDigit(ts: seq<uint64>) {
    ts == [] || ts[0] < 10
  }

  lemma {:induction false} PlacesTwentied(q: Quad, place: nat)
    requires q.Valid() && place <= 3
    ensures Twentied(TokensFrom(Old, q, place), TokensFrom(Twenty, q, place), place > 0 && q.c == 2)
    ensures StartsWithDigit(TokensFrom(Old, q, place))
  {
    if place == 0 {
      var ts := Ones(q.d);
      if q.d > 0 {
        assert ts[1..] == [];
      }
    } else {
      var d, base := Digit(q, place), BaseOf(place);
      PlacesTwentied(q, place - 1);
      PlaceTwentied(d, place);
      TwentiedConcat(Place(Old, d, base), Place(Twenty, d, base), place == 1 && d == 2,
                     TokensFrom(Old, q, place - 1), TokensFrom(Twenty, q, place - 1), place > 1 && q.c == 2);
    }
  }

  lemma {:induction false} ScaleTwentied(ts: seq<uint64>)
    requires |ts| == 1 && ts[0] >= 10
    ensures Twentied(ts, ts, false)
  {
    assert ts[1..] == [] && WithTwenty(ts) == [ts[0]] + [] == ts;
  }

  // The digits of a rank as the forms Old and Twenty write them.
  ghost predicate RankPair(c: Chunk, c': Chunk, has: bool) {
    Twentied(c.tokens, c'.tokens, has) && StartsWithDigit(c.tokens) && (c.tokens == [] <==> c'.tokens == [])
  }

  lemma {:induction false} QuadPair(q: Quad)
    requires q.Valid()
    ensures RankPair(ChunkOf(Old, q), ChunkOf(Twenty, q), q.c == 2)
  {
    var old_, twenty := TokensFrom(Old, q, 3), TokensFrom(Twenty, q, 3);
    PlacesTwentied(q, 3);
    assert ChunkOf(Old, q).tokens == old_ && ChunkOf(Twenty, q).tokens == twenty;
    QuadPrintsSomething(Old, q);
    QuadPrintsSomething(Twenty, q);
  }

  lemma {:induction false} RankTwentied(c: Chunk, c': Chunk, has: bool, rank: nat)
    requires rank <= 4 && RankPair(c, c', has)
    ensures Twentied(RankTokens(c, rank), RankTokens(c', rank), has) && StartsWithDigit(RankTokens(c, rank))
  {
    if rank > 0 && c.tokens != [] {
      ScaleTwentied([Pow10000(rank)]);
      TwentiedConcat(c.tokens, c'.tokens, has, [Pow10000(rank)], [Pow10000(rank)], false);
    }
  }

  predicate AnyBelow(has: seq<bool>, n: nat)
    requires n <= |has|
    decreases has, n
  {
    n > 0 && (has[n - 1] || AnyBelow(has, n - 1))
  }

  lemma {:induction false} RankAboveTwentied(a: seq<uint64>, a': seq<uint64>, x: bool, b: seq<uint64>, b': seq<uint64>, y: bool)
    requires Twentied(a, a', x) && Twentied(b, b', y) && StartsWithDigit(a) && StartsWithDigit(b)
    ensures Twentied(a + b, a' + b', x || y) && StartsWithDigit(a + b)
  {
    TwentiedConcat(a, a', x, b, b', y);
  }

  lemma {:induction false} RanksTwentied(old_: seq<Chunk>, twenty: seq<Chunk>, has: seq<bool>, n: nat)
    requires n <= |old_| && |old_| == |twenty| == |has| && |old_| <= 5
    requires forall k :: 0 <= k < |old_| ==> RankPair(old_[k], twenty[k], has[k])
    ensures Twentied(ChunksTokens(old_, n), ChunksTokens(twenty, n), AnyBelow(has, n))
    ensures StartsWithDigit(ChunksTokens(old_, n))
  {
    if n > 0 {
      RanksTwentied(old_, twenty, has, n - 1);
      RankTwentied(old_[n - 1], twenty[n - 1], has[n - 1], n - 1);
      RankAboveTwentied(RankTokens(old_[n - 1], n - 1), RankTokens(twenty[n - 1], n - 1), has[n - 1],
                        ChunksTokens(old_, n - 1), ChunksTokens(twenty, n - 1), AnyBelow(has, n - 1));
    }
  }

  // Some rank has the tens digit 2.
  predicate HasTwenty(quads: seq<Quad>) {
    AnyBelow(seq(|quads|, k requires 0 <= k < |quads| => quads[k].c == 2), |quads|)
  }

  lemma {:induction false} NumberTwentied(quads: seq<Quad>)
    requires ValidQuads(quads)
    ensures Twentied(ChunksTokens(QuadChunks(Old, quads), |quads|), ChunksTokens(QuadChunks(Twenty, quads), |quads|),
                     HasTwenty(quads))
    ensures StartsWithDigit(ChunksTokens(QuadChunks(Old, quads), |quads|))
  {
    var has := seq(|quads|, k requires 0 <= k < |quads| => quads[k].c == 2);
    var old_, twenty := QuadChunks(Old, quads), QuadChunks(Twenty, quads);
    forall k | 0 <= k < |old_|
      ensures RankPair(old_[k], twenty[k], has[k])
    {
      QuadPair(quads[k]);
    }
    RanksTwentied(old_, twenty, has, |quads|);
  }

  // ---- Every printed token can be spelled ----

  lemma {:induction false} SpellableConcat(style: Style, a: seq<uint64>, b: seq<uint64>)
    requires AllSpellable(style, a) && AllSpellable(style, b)
    ensures AllSpellable(style, a + b)
  {
  }

  predicate Spells(style: Style, form: Form) {
    match form
    case Arabic => style.IsArabic()
    case Kanji => style.NumberKanji?
    case Old => style.NumberOldKanji?
    case Twenty => style.NumberOldKanji?
  }

  lemma {:induction false} PlacesSpellable(style: Style, form: Form, q: Quad, place: nat)
    requires form != Arabic && Spells(style, form) && q.Valid() && place <= 3
    ensures AllSpellable(style, TokensFrom(form, q, place))
  {
    if place > 0 {
      PlacesSpellable(style, form, q, place - 1);
      SpellableConcat(style, Place(form, Digit(q, place), BaseOf(place)), TokensFrom(form, q, place - 1));
    }
  }

  lemma {:induction false} QuadSpellable(style: Style, form: Form, q: Quad)
    requires Spells(style, form) && q.Valid()
    ensures AllSpellable(style, QuadTokens(form, q))
  {
    if form != Arabic {
      PlacesSpellable(style, form, q, 3);
    }
  }

  lemma {:induction false} ChunksSpellable(style: Style, form: Form, quads: seq<Quad>, n: nat)
    requires Spells(style, form) && ValidQuads(quads) && n <= |quads|
    ensures AllSpellable(style, ChunksTokens(QuadChunks(form, quads), n))
  {
    if n > 0 {
      ChunksSpellable(style, form, quads, n - 1);
      QuadSpellable(style, form, quads[n - 1]);
      SpellableConcat(style, QuadTokens(form, quads[n - 1]), [Pow10000(n - 1)]);
      SpellableConcat(style, RankTokens(ChunkOf(form, quads[n - 1]), n - 1), ChunksTokens(QuadChunks(form, quads), n - 1));
    }
  }

  // ---- The outputs ----

  function Named(style: Style, text: string): NumberString {
    NumberString(text, Description(style), style)
  }

  function PrintedText(style: Style, form: Form, s: string): string
    requires Ranked(s)
  {
    Spelled(style, PrintedTokens(form, s))
  }

  // The extra 大字 notations of the number s, filled up to whole ranks.
  function OldExtras(s: string): seq<NumberString>
    requires Ranked(s)
  {
    (if HasTwenty(QuadsOf(s)) then [Named(NumberOldKanji, PrintedText(NumberOldKanji, Twenty, s))] else [])
    + (if s == "0010" then [Named(NumberOldKanji, "拾")] else [])
    + (if s == "1000" then [Named(NumberOldKanji, "阡")] else [])
  }

  function StyleOutputs(style: Style, s: string): seq<NumberString>
    requires Ranked(s)
  {
    if style.IsArabic() && |s| == 4 then []
    else [Named(style, PrintedText(style, FormOf(style), s))] + if style.NumberOldKanji? then OldExtras(s) else []
  }

  const KANJI_VARIATIONS: seq<Style> :=
    [ArabicAndKanjiHalfwidth, ArabicAndKanjiFullwidth, NumberKanji, NumberOldKanji]

  // The outputs of each variation, and the first n of them in a row.
  function StyleParts(s: string): (parts: seq<seq<NumberString>>)
    requires Ranked(s)
    ensures |parts| == |KANJI_VARIATIONS|
  {
    seq(|KANJI_VARIATIONS|, v requires 0 <= v < |KANJI_VARIATIONS| => StyleOutputs(KANJI_VARIATIONS[v], s))
  }

  function Joined(parts: seq<seq<NumberString>>, n: nat): seq<NumberString>
    requires n <= |parts|
    decreases parts, n
  {
    if n == 0 then [] else Joined(parts, n - 1) + parts[n - 1]
  }

  predicate Convertible(s: string) {
    IsDecimalInteger(s) && (AllZeros(s) || |s| <= 20)
  }

  lemma {:induction false} FilledRanked(s: string)
    requires IsDecimalInteger(s) && |s| <= 20
    ensures Ranked(Filled(s)) && ValueOf(Filled(s)) == ValueOf(s)
  {
    LeadingZerosAddNothing((4 - |s| % 4) % 4, s, |s|);
  }

  // Everything that is offered for a decimal string.
  function Outputs(s: string): seq<NumberString>
    requires Convertible(s)
  {
    if AllZeros(s) then [Named(NumberOldKanji, "零")]
    else
      FilledRanked(s);
      Joined(StyleParts(Filled(s)), |KANJI_VARIATIONS|)
  }

  // Searching and replacing text finds the ranks with twenty and prints them as the form Twenty.
  lemma {:induction false} ReplacingPrintsTwenty(s: string)
    requires Ranked(s)
    ensures Contains(PrintedText(NumberOldKanji, Old, s), OLD_TWO_TEN) <==> HasTwenty(QuadsOf(s))
    ensures ReplaceAll(PrintedText(NumberOldKanji, Old, s), OLD_TWO_TEN, OLD_TWENTY) == PrintedText(NumberOldKanji, Twenty, s)
  {
    var ts, n := PrintedTokens(Old, s), |s| / 4;
    ChunksSpellable(NumberOldKanji, Old, QuadsOf(s), n);
    NumberTwentied(QuadsOf(s));
    SearchSpelled(ts);
    ReplaceSpelled(ts);
    assert Peek(0);
  }

  method AppendIf(condition: bool, n: NumberString, output: seq<NumberString>) returns (output': seq<NumberString>)
    ensures output' == output + if condition then [n] else []
  {
    output' := if condition then output + [n] else output;
  }

  lemma {:induction false} AppendThree(o: seq<NumberString>, a: seq<NumberString>, b: seq<NumberString>, c: seq<NumberString>)
    ensures o + a + b + c == o + (a + b + c)
  {
  }

  method PrintOldExtras(text: string, s: string, output: seq<NumberString>) returns (output': seq<NumberString>)
    requires Ranked(s) && text == PrintedText(NumberOldKanji, Old, s)
    ensures output' == output + OldExtras(s)
  {
    ReplacingPrintsTwenty(s);
    ghost var twenty := Named(NumberOldKanji, PrintedText(NumberOldKanji, Twenty, s));
    var ten, thousand := Named(NumberOldKanji, "拾"), Named(NumberOldKanji, "阡");
    output' := AppendIf(Contains(text, OLD_TWO_TEN), Named(NumberOldKanji, ReplaceAll(text, OLD_TWO_TEN, OLD_TWENTY)), output);
    output' := AppendIf(s == "0010", ten, output');
    output' := AppendIf(s == "1000", thousand, output');
    AppendThree(output, if HasTwenty(QuadsOf(s)) then [twenty] else [], if s == "0010" then [ten] else [],
                if s == "1000" then [thousand] else []);
  }

  method PrintStyle(style: Style, segments: seq<string>, s: string, output: seq<NumberString>)
    returns (output': seq<NumberString>)
    requires Ranked(s) && SegmentsOf(s, segments)
    ensures output' == output + StyleOutputs(style, s)
  {
    if |segments| == 1 && style.IsArabic() {
      return output;
    }
    var result := PrintNumber(style, segments, s);
    output' := output + [Named(style, result)];
    if style.NumberOldKanji? {
      output' := PrintOldExtras(result, s, output');
    }
  }

  // The outputs of the variations, known to the loop over them only by position.
  ghost predicate IsParts(parts: seq<seq<NumberString>>, s: string) {
    && |parts| == |KANJI_VARIATIONS| && Ranked(s)
    && forall v: nat {:trigger Peek(v)} :: Peek(v) && v < |KANJI_VARIATIONS| ==>
         parts[v] == StyleOutputs(KANJI_VARIATIONS[v], s)
  }

  method PrintVariation(v: nat, segments: seq<string>, s: string, ghost parts: seq<seq<NumberString>>,
                        output: seq<NumberString>)
    returns (output': seq<NumberString>)
    requires v < |KANJI_VARIATIONS| && IsParts(parts, s) && SegmentsOf(s, segments)
    ensures output' == output + parts[v]
  {
    assert Peek(v);
    output' := PrintStyle(KANJI_VARIATIONS[v], segments, s, output);
  }

  method PrintVariations(s: string, ghost parts: seq<seq<NumberString>>, output: seq<NumberString>)
    returns (output': seq<NumberString>)
    requires IsParts(parts, s)
    ensures output' == output + Joined(parts, |KANJI_VARIATIONS|)
  {
    output' := output;
    var segments := Segment(s);
    for v := 0 to |KANJI_VARIATIONS|
      invariant output' == output + Joined(parts, v)
    {
      output' := PrintVariation(v, segments, s, parts, output');
    }
  }

  // What follows for a number that is not zero and not too long.
  method PrintNonzero(inputNum: string, output: seq<NumberString>) returns (output': seq<NumberString>)
    requires IsDecimalInteger(inputNum) && !AllZeros(inputNum) && |inputNum| <= 20
    ensures output' == output + Outputs(inputNum)
  {
    var filledZeroNum := (DIGITS_IN_BIG_RANK - |inputNum| % DIGITS_IN_BIG_RANK) % DIGITS_IN_BIG_RANK;
    var input := Zeros(filledZeroNum) + inputNum;
    assert input == Filled(inputNum);
    FilledRanked(inputNum);
    ghost var parts := StyleParts(input);
    assert parts == StyleParts(Filled(inputNum));
    output' := PrintVariations(input, parts, output);
  }

  method ArabicToKanji(inputNum: string, output: seq<NumberString>) returns (ok: bool, output': seq<NumberString>)
    ensures ok <==> Convertible(inputNum)
    ensures ok <==> inputNum != "" && (forall i :: 0 <= i < |inputNum| ==> '0' <= inputNum[i] <= '9')
                    && (|inputNum| > 20 ==> forall i :: 0 <= i < |inputNum| ==> inputNum[i] == '0')
    ensures output' == if ok then output + Outputs(inputNum) else output
  {
    if !IsDecimalInteger(inputNum) {
      return false, output;
    }
    var i := 0;
    while i < |inputNum| && inputNum[i] == '0'
      invariant 0 <= i <= |inputNum| && forall k :: 0 <= k < i ==> inputNum[k] == '0'
    {
      i := i + 1;
    }
    if i == |inputNum| {
      return true, output + [Named(NumberOldKanji, "零")];
    }
    if |BIGGER_RANKS| * DIGITS_IN_BIG_RANK < |inputNum| {
      return false, output;
    }
    output' := PrintNonzero(inputNum, output);
    ok := true;
  }
}
