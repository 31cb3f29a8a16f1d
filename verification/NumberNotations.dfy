/** What `ArabicToKanji` offers for a decimal string, said character by character: which notations and
    in which order, and that each is written in its style and stands for the number. */
module NumberNotations {
  import opened Decimals
  import opened Hiding
  import opened Wrappers
  import opened NumberParser
  import opened NumberTokens
  import opened NumberMeaning
  import opened NumberPrinter
  import opened NumberVariations
  import opened NumberRoundTrip

  // ---- Characters ----

  // The number a printed character stands for, 阡 and 萬 included.
  function NumberOf(c: char): uint64 {
    match c
    case '1' => 1 case '１' => 1 case '一' => 1 case '壱' => 1
    case '2' => 2 case '２' => 2 case '二' => 2 case '弐' => 2
    case '3' => 3 case '３' => 3 case '三' => 3 case '参' => 3
    case '4' => 4 case '４' => 4 case '四' => 4
    case '5' => 5 case '５' => 5 case '五' => 5
    case '6' => 6 case '６' => 6 case '六' => 6
    case '7' => 7 case '７' => 7 case '七' => 7
    case '8' => 8 case '８' => 8 case '八' => 8
    case '9' => 9 case '９' => 9 case '九' => 9
    case '十' => 10 case '拾' => 10
    case '廿' => 20
    case '百' => 100
    case '千' => 1000 case '阡' => 1000
    case '万' => 10000 case '萬' => 10000
    case '億' => 100000000
    case '兆' => 1000000000000
    case '京' => 10000000000000000
    case _ => 0
  }

  function Numbers(text: string): (ns: seq<uint64>)
    ensures |ns| == |text|
  {
    seq(|text|, i requires 0 <= i < |text| => NumberOf(text[i]))
  }

  function Meaning(text: string): nat {
    CountAll(Tally(0, 0, 0), Numbers(text)).Value()
  }

  predicate IsCharacterOf(style: Style, c: char) {
    match style
    case ArabicAndKanjiHalfwidth => '0' <= c <= '9' || c == '万' || c == '億' || c == '兆' || c == '京'
    case ArabicAndKanjiFullwidth => '０' <= c <= '９' || c == '万' || c == '億' || c == '兆' || c == '京'
    case NumberKanji =>
      || c == '一' || c == '二' || c == '三' || c == '四' || c == '五' || c == '六' || c == '七' || c == '八' || c == '九'
      || c == '十' || c == '百' || c == '千' || c == '万' || c == '億' || c == '兆' || c == '京'
    case NumberOldKanji =>
      || c == '壱' || c == '弐' || c == '参' || c == '四' || c == '五' || c == '六' || c == '七' || c == '八' || c == '九'
      || c == '拾' || c == '廿' || c == '百' || c == '阡' || c == '萬' || c == '億' || c == '兆' || c == '京'
  }

  predicate IsOldDigit(c: char) {
    c == '壱' || c == '弐' || c == '参' || c == '四' || c == '五' || c == '六' || c == '七' || c == '八' || c == '九'
  }

  // How the character c may follow `before`, or start the text.
  predicate MayFollow(style: Style, twenty: bool, before: Option<char>, c: char) {
    match style
    case ArabicAndKanjiHalfwidth => c == '0' ==> before.Some? && '0' <= before.value <= '9'
    case ArabicAndKanjiFullwidth => c == '０' ==> before.Some? && '０' <= before.value <= '９'
    case NumberKanji => c == '十' || c == '百' || c == '千' ==> before != Some('一')
    case NumberOldKanji =>
      && (c == '拾' || c == '百' || c == '阡' ==> before.Some? && IsOldDigit(before.value))
      && (twenty && c == '拾' ==> before != Some('弐')) && (!twenty ==> c != '廿')
  }

  // Only characters of the style; no leading zeros of a rank; no 一 before a base in ordinary kanji
  // and a digit before every base in 大字; 廿 if `twenty` wherever it can stand, and otherwise never.
  predicate InStyle(style: Style, twenty: bool, text: string) {
    forall i :: 0 <= i < |text| ==>
      IsCharacterOf(style, text[i]) && MayFollow(style, twenty, Before(text, i), text[i])
  }

  lemma {:induction false} CharacterIs(style: Style, t: uint64)
    requires Spellable(style, t) && (style.IsArabic() ==> !IsBase(t))
    ensures var c := TokenChar(style, t); IsCharacterOf(style, c) && NumberOf(c) == t
  {
  }

  lemma {:induction false} DigitCharacter(style: Style, c: char)
    requires IsCharacterOf(style, c) && NumberOf(c) < 10
    ensures match style
      case ArabicAndKanjiHalfwidth => '0' <= c <= '9'
      case ArabicAndKanjiFullwidth => '０' <= c <= '９'
      case NumberKanji => true
      case NumberOldKanji => IsOldDigit(c)
  {
  }

  lemma {:induction false} CharacterFollows(style: Style, form: Form, before: Option<uint64>, t: uint64)
    requires Spells(style, form) && Spellable(style, t) && TokenMayFollow(form, before, t)
    requires before.Some? ==> Spellable(style, before.value) && (form == Arabic ==> !IsBase(before.value))
    ensures IsCharacterOf(style, TokenChar(style, t))
    ensures MayFollow(style, form == Twenty, if before.Some? then Some(TokenChar(style, before.value)) else None, TokenChar(style, t))
  {
    CharacterIs(style, t);
    if before.Some? {
      CharacterIs(style, before.value);
      if before.value < 10 {
        DigitCharacter(style, TokenChar(style, before.value));
      }
    }
  }

  lemma {:induction false} SpelledInStyle(style: Style, form: Form, ts: seq<uint64>)
    requires Spells(style, form) && AllSpellable(style, ts) && InManner(form, ts)
    ensures InStyle(style, form == Twenty, Spelled(style, ts)) && Numbers(Spelled(style, ts)) == ts
  {
    assert Peek(0);
    var text := Spelled(style, ts);
    forall i | 0 <= i < |text|
      ensures IsCharacterOf(style, text[i]) && MayFollow(style, form == Twenty, Before(text, i), text[i])
      ensures NumberOf(text[i]) == ts[i]
    {
      assert TokenMayFollow(form, Before(ts, i), ts[i]);
      assert i > 0 ==> TokenMayFollow(form, Before(ts, i - 1), ts[i - 1]);
      CharacterIs(style, ts[i]);
      CharacterFollows(style, form, Before(ts, i), ts[i]);
    }
  }

  // Every printed text is in its style and stands for the number.
  lemma {:induction false} PrintedMeans(style: Style, form: Form, s: string)
    requires Ranked(s) && Spells(style, form)
    ensures InStyle(style, form == Twenty, PrintedText(style, form, s)) && Meaning(PrintedText(style, form, s)) == ValueOf(s)
  {
    var quads := QuadsOf(s);
    var chunks := QuadChunks(form, quads);
    NumberCounted(form, quads, Tally(0, 0, 0));
    ChunksSpellable(style, form, quads, |quads|);
    SpelledInStyle(style, form, ChunksTokens(chunks, |quads|));
    ChunksAreRanks(form, s);
    RanksTotal(s, chunks);
  }

  // ---- Which notations are offered ----

  function DescriptionOf(style: Style): string {
    match style
    case NumberKanji => "漢数字"
    case NumberOldKanji => "大字"
    case _ => "数字"
  }

  // Some rank of the number has the tens digit 2.
  ghost predicate HasTensTwo(s: string) {
    exists i :: 0 <= i < |s| && s[i] == '2' && (|s| - i) % 4 == 2
  }

  // A notation in its style that stands for v; the readers accept it unless it is 大字 or v is too large.
  // The definition is used only where Peek(0) is mentioned.
  ghost predicate IsNotation(n: NumberString, style: Style, twenty: bool, v: nat) {
    forall i: nat {:trigger Peek(i)} :: Peek(i) ==>
      && n.style == style && n.description == DescriptionOf(style)
      && InStyle(style, twenty, n.value) && Meaning(n.value) == v
      && (style != NumberOldKanji ==> Parsed(n.value) == if v < 0x1_0000_0000_0000_0000 then Some(v) else None)
  }

  // From position k on: the kanji form, 大字, 大字 with 廿 if there is a place for it, and for ten and
  // thousand a single character.
  ghost predicate OffersKanji(s: string, v: nat, outs: seq<NumberString>, k: nat) {
    var twenties := if HasTensTwo(s) then 1 else 0;
    var single := |s| <= 4 && (v == 10 || v == 1000);
    && |outs| == k + 2 + twenties + (if single then 1 else 0)
    && IsNotation(outs[k], NumberKanji, false, v)
    && IsNotation(outs[k + 1], NumberOldKanji, false, v)
    && (HasTensTwo(s) ==>
          && IsNotation(outs[k + 2], NumberOldKanji, true, v)
          && outs[k + 2].value == ReplaceAll(outs[k + 1].value, "弐拾", "廿"))
    && (single ==> outs[k + 2 + twenties] == NumberString(if v == 10 then "拾" else "阡", "大字", NumberOldKanji))
  }

  // Digits with scales, in both widths, come first, for numbers of more than four digits.
  ghost predicate Offers(s: string, v: nat, outs: seq<NumberString>) {
    && (|s| > 4 ==>
          && |outs| >= 2
          && IsNotation(outs[0], ArabicAndKanjiHalfwidth, false, v) && IsNotation(outs[1], ArabicAndKanjiFullwidth, false, v))
    && OffersKanji(s, v, outs, if |s| > 4 then 2 else 0)
  }

  lemma {:induction false} AnyIsSome(has: seq<bool>, n: nat)
    requires n <= |has|
    ensures AnyBelow(has, n) <==> exists k :: 0 <= k < n && has[k]
  {
    if n > 0 {
      AnyIsSome(has, n - 1);
    }
  }

  // The tens digits of the ranks are the digits at distance 2, 6, 10, ... from the end.
  lemma {:induction false} TensDigits(s: string)
    requires Ranked(s)
    ensures HasTwenty(QuadsOf(s)) <==> HasTensTwo(s)
  {
    var quads := QuadsOf(s);
    var has := seq(|quads|, k requires 0 <= k < |quads| => quads[k].c == 2);
    AnyIsSome(has, |quads|);
    forall k | 0 <= k < |quads| && has[k]
      ensures HasTensTwo(s)
    {
      assert s[|s| - 4 * k - 2] == '2';
    }
    forall i | 0 <= i < |s| && s[i] == '2' && (|s| - i) % 4 == 2
      ensures AnyBelow(has, |quads|)
    {
      var k := (|s| - i) / 4;
      assert i == |s| - 4 * (k + 1) + 2 && has[k];
    }
  }

  lemma {:induction false} FilledTens(s: string)
    requires IsDigits(s)
    ensures HasTensTwo(Filled(s)) <==> HasTensTwo(s)
  {
    var f := Filled(s);
    var z := |f| - |s|;
    forall i | 0 <= i < |s| && s[i] == '2' && (|s| - i) % 4 == 2
      ensures HasTensTwo(f)
    {
      assert f[z + i] == '2' && (|f| - (z + i)) % 4 == 2;
    }
    forall i | 0 <= i < |f| && f[i] == '2' && (|f| - i) % 4 == 2
      ensures HasTensTwo(s)
    {
      assert i >= z;
      assert s[i - z] == '2' && (|s| - (i - z)) % 4 == 2;
    }
  }

  // Ten and thousand within one rank.
  lemma {:induction false} SingleRanks(s: string)
    requires IsDecimalInteger(s) && |s| <= 20
    ensures Filled(s) == "0010" <==> |s| <= 4 && ValueOf(s) == 10
    ensures Filled(s) == "1000" <==> |s| <= 4 && ValueOf(s) == 1000
  {
    var f := Filled(s);
    FilledRanked(s);
    if |f| == 4 {
      QuadValue(f, 0);
      assert PrefixValue(f, 0) == 0 && ValueOf(f) == QuadAt(f, 0).Value();
      assert f == [f[0], f[1], f[2], f[3]];
    }
  }

  lemma {:induction false} StylesJoined(s: string)
    requires Ranked(s)
    ensures Joined(StyleParts(s), |KANJI_VARIATIONS|)
         == StyleOutputs(ArabicAndKanjiHalfwidth, s) + StyleOutputs(ArabicAndKanjiFullwidth, s)
            + StyleOutputs(NumberKanji, s) + StyleOutputs(NumberOldKanji, s)
  {
    var p := StyleParts(s);
    assert Joined(p, 0) == [] && Joined(p, 1) == p[0] && Joined(p, 2) == p[0] + p[1];
    assert Joined(p, 3) == p[0] + p[1] + p[2] && Joined(p, 4) == p[0] + p[1] + p[2] + p[3];
  }

  lemma {:induction false} PrintedIsNotation(style: Style, form: Form, s: string)
    requires Ranked(s) && Spells(style, form) && ValueOf(s) > 0
    ensures IsNotation(Named(style, PrintedText(style, form, s)), style, form == Twenty, ValueOf(s))
  {
    PrintedMeans(style, form, s);
    PrintedTextReadsBack(style, form, s);
  }

  function If(condition: bool, n: NumberString): seq<NumberString> {
    if condition then [n] else []
  }

  // The positions in a list of which some elements may be missing.
  lemma {:induction false} Positions(wide: bool, h: NumberString, f: NumberString, k: NumberString, o: NumberString,
                    b: bool, t: NumberString, c: bool, x: NumberString, d: bool, y: NumberString, outs: seq<NumberString>)
    requires outs == If(wide, h) + If(wide, f) + [k] + ([o] + (If(b, t) + If(c, x) + If(d, y))) && !(c && d)
    ensures var i, j := if wide then 2 else 0, if b then 1 else 0;
      && |outs| == i + 2 + j + (if c || d then 1 else 0) && (wide ==> outs[0] == h && outs[1] == f)
      && outs[i] == k && outs[i + 1] == o && (b ==> outs[i + 2] == t)
      && (c ==> outs[i + 2 + j] == x) && (d ==> outs[i + 2 + j] == y)
  {
  }

  lemma {:induction false} Arranged(s: string, v: nat, h: NumberString, f: NumberString, k: NumberString, o: NumberString,
                   t: NumberString, outs: seq<NumberString>)
    requires IsNotation(h, ArabicAndKanjiHalfwidth, false, v) && IsNotation(f, ArabicAndKanjiFullwidth, false, v)
    requires IsNotation(k, NumberKanji, false, v) && IsNotation(o, NumberOldKanji, false, v)
    requires IsNotation(t, NumberOldKanji, true, v) && (HasTensTwo(s) ==> t.value == ReplaceAll(o.value, "弐拾", "廿"))
    requires outs == If(|s| > 4, h) + If(|s| > 4, f) + [k]
                     + ([o] + (If(HasTensTwo(s), t) + If(|s| <= 4 && v == 10, NumberString("拾", "大字", NumberOldKanji))
                               + If(|s| <= 4 && v == 1000, NumberString("阡", "大字", NumberOldKanji))))
    ensures Offers(s, v, outs)
  {
    Positions(|s| > 4, h, f, k, o, HasTensTwo(s), t, |s| <= 4 && v == 10, NumberString("拾", "大字", NumberOldKanji),
              |s| <= 4 && v == 1000, NumberString("阡", "大字", NumberOldKanji), outs);
  }

  lemma {:induction false} StyleIs(style: Style, f: string)
    requires Ranked(f) && !style.NumberOldKanji?
    ensures StyleOutputs(style, f) == If(style.IsArabic() ==> |f| > 4, Named(style, PrintedText(style, FormOf(style), f)))
  {
  }

  lemma {:induction false} OldStyleIs(f: string)
    requires Ranked(f)
    ensures StyleOutputs(NumberOldKanji, f) ==
      [Named(NumberOldKanji, PrintedText(NumberOldKanji, Old, f))]
      + (If(HasTwenty(QuadsOf(f)), Named(NumberOldKanji, PrintedText(NumberOldKanji, Twenty, f)))
         + If(f == "0010", NumberString("拾", "大字", NumberOldKanji)) + If(f == "1000", NumberString("阡", "大字", NumberOldKanji)))
  {
  }

  lemma {:induction false} FilledIs(s: string)
    requires IsDecimalInteger(s) && |s| <= 20 && !AllZeros(s)
    ensures Ranked(Filled(s)) && ValueOf(Filled(s)) == ValueOf(s) > 0 && (|Filled(s)| > 4 <==> |s| > 4)
  {
    FilledRanked(s);
    ZeroOnlyIfAllZeros(s, |s|);
    assert s[..|s|] == s;
  }

  // What is offered for a nonzero number of at most 20 digits.
  lemma {:induction false} NotationsAreOffered(s: string)
    requires IsDecimalInteger(s) && |s| <= 20 && !AllZeros(s)
    ensures Offers(s, ValueOf(s), Outputs(s))
  {
    var f := Filled(s);
    FilledIs(s);
    var half := Named(ArabicAndKanjiHalfwidth, PrintedText(ArabicAndKanjiHalfwidth, Arabic, f));
    var full := Named(ArabicAndKanjiFullwidth, PrintedText(ArabicAndKanjiFullwidth, Arabic, f));
    var kanji := Named(NumberKanji, PrintedText(NumberKanji, Kanji, f));
    var old_ := Named(NumberOldKanji, PrintedText(NumberOldKanji, Old, f));
    var twenty := Named(NumberOldKanji, PrintedText(NumberOldKanji, Twenty, f));
    PrintedIsNotation(ArabicAndKanjiHalfwidth, Arabic, f);
    PrintedIsNotation(ArabicAndKanjiFullwidth, Arabic, f);
    PrintedIsNotation(NumberKanji, Kanji, f);
    PrintedIsNotation(NumberOldKanji, Old, f);
    PrintedIsNotation(NumberOldKanji, Twenty, f);
    ReplacingPrintsTwenty(f);
    TensDigits(f);
    FilledTens(s);
    SingleRanks(s);
    StylesJoined(f);
    StyleIs(ArabicAndKanjiHalfwidth, f);
    StyleIs(ArabicAndKanjiFullwidth, f);
    StyleIs(NumberKanji, f);
    OldStyleIs(f);
    Arranged(s, ValueOf(s), half, full, kanji, old_, twenty, Outputs(s));
  }

  lemma {:induction false} ZeroIsOffered(s: string)
    requires IsDecimalInteger(s) && AllZeros(s)
    ensures Outputs(s) == [NumberString("零", "大字", NumberOldKanji)]
  {
  }
}
