/** The numeral printer of `number_util.cc` (`ArabicToKanji`) and its way back
    (`NormalizeNumbers`). Text is a sequence of characters. The printer is specified by the
    tokens of NumberTokens, each spelled by one character of the chosen style. */
module NumberPrinter {
  import opened Decimals
  import opened Hiding
  import opened Wrappers
  import opened NumberParser
  import opened NumberTokens

  datatype Style = ArabicAndKanjiHalfwidth | ArabicAndKanjiFullwidth | NumberKanji | NumberOldKanji {
    predicate IsArabic() { ArabicAndKanjiHalfwidth? || ArabicAndKanjiFullwidth? }
  }

  datatype NumberString = NumberString(value: string, description: string, style: Style)

  // ---- Tables ----

  const KANJI_DIGITS := ["〇", "一", "二", "三", "四", "五", "六", "七", "八", "九"]
  const OLD_DIGITS := ["", "壱", "弐", "参", "四", "五", "六", "七", "八", "九"]
  const FULL_WIDTH_DIGITS := ["０", "１", "２", "３", "４", "５", "６", "７", "８", "９"]
  const HALF_WIDTH_DIGITS := ["0", "1", "2", "3", "4", "5", "6", "7", "8", "9"]
  const RANKS := ["", "", "十", "百", "千"]
  const OLD_RANKS := ["", "", "拾", "百", "阡"]
  const BIGGER_RANKS := ["", "万", "億", "兆", "京"]
  const BIGGER_OLD_RANKS := ["", "萬", "億", "兆", "京"]

  function Digits(style: Style): (t: seq<string>)
    ensures |t| == 10
  {
    match style
    case ArabicAndKanjiHalfwidth => HALF_WIDTH_DIGITS
    case ArabicAndKanjiFullwidth => FULL_WIDTH_DIGITS
    case NumberKanji => KANJI_DIGITS
    case NumberOldKanji => OLD_DIGITS
  }

  function Ranks(style: Style): (t: seq<string>)
    ensures |t| == 5
  {
    if style.NumberOldKanji? then OLD_RANKS else RANKS
  }

  function BiggerRanks(style: Style): (t: seq<string>)
    ensures |t| == 5
  {
    if style.NumberOldKanji? then BIGGER_OLD_RANKS else BIGGER_RANKS
  }

  function Description(style: Style): string {
    match style
    case ArabicAndKanjiHalfwidth => "数字"
    case ArabicAndKanjiFullwidth => "数字"
    case NumberKanji => "漢数字"
    case NumberOldKanji => "大字"
  }

  // The character table of the reader (kanjinumber-arabicnumber.tsv). It has neither 阡 nor 萬.
  function KanjiNumberToArabicNumber(c: char): Option<uint64> {
    if '0' <= c <= '9' then Some(c as int - '0' as int)
    else if '０' <= c <= '９' then Some(c as int - '０' as int)
    else if c == '零' then Some(0)
    else if c == '一' || c == '壱' then Some(1)
    else if c == '二' || c == '弐' then Some(2)
    else if c == '三' || c == '参' then Some(3)
    else if c == '四' then Some(4)
    else if c == '五' then Some(5)
    else if c == '六' then Some(6)
    else if c == '七' then Some(7)
    else if c == '八' then Some(8)
    else if c == '九' then Some(9)
    else if c == '十' || c == '拾' then Some(10)
    else if c == '廿' then Some(20)
    else if c == '卅' then Some(30)
    else if c == '卌' then Some(40)
    else if c == '百' then Some(100)
    else if c == '千' then Some(1000)
    else if c == '万' then Some(10000)
    else if c == '億' then Some(100000000)
    else if c == '兆' then Some(1000000000000)
    else if c == '京' then Some(10000000000000000)
    else None
  }

  // ---- Spelling tokens ----

  // The tokens a style can spell.
  predicate Spellable(style: Style, t: uint64) {
    || (0 < t < 10)
    || (t == 0 && style.IsArabic())
    || (t == 20 && style.NumberOldKanji?)
    || t == 10 || t == 100 || t == 1000
    || t == 10000 || t == 100000000 || t == 1000000000000 || t == 10000000000000000
  }

  function TokenChar(style: Style, t: uint64): char {
    if t < 10 then
      (if style.ArabicAndKanjiHalfwidth? then "0123456789"[t]
       else if style.ArabicAndKanjiFullwidth? then "０１２３４５６７８９"[t]
       else if style.NumberKanji? then "〇一二三四五六七八九"[t]
       else "〇壱弐参四五六七八九"[t])
    else if t == 10 then (if style.NumberOldKanji? then '拾' else '十')
    else if t == 20 then '廿'
    else if t == 100 then '百'
    else if t == 1000 then (if style.NumberOldKanji? then '阡' else '千')
    else if t == 10000 then (if style.NumberOldKanji? then '萬' else '万')
    else if t == 100000000 then '億'
    else if t == 1000000000000 then '兆'
    else '京'
  }

  function Spelled(style: Style, ts: seq<uint64>): (s: string)
    ensures |s| == |ts|
  {
    seq(|ts|, i requires 0 <= i < |ts| => TokenChar(style, ts[i]))
  }

  lemma {:induction false} SpelledConcat(style: Style, t: seq<uint64>, u: seq<uint64>)
    ensures Spelled(style, t + u) == Spelled(style, t) + Spelled(style, u)
  {
  }

  // The reader's table undoes the spelling, but for the two old characters it lacks.
  predicate InTable(style: Style, t: uint64) {
    style.NumberOldKanji? ==> t != 1000 && t != 10000
  }

  lemma {:induction false} DigitRead(style: Style, t: uint64)
    requires t < 10 && (t > 0 || style.IsArabic())
    ensures KanjiNumberToArabicNumber(TokenChar(style, t)) == Some(t)
  {
  }

  lemma {:induction false} TableUndoesSpelling(style: Style, t: uint64)
    requires Spellable(style, t)
    ensures KanjiNumberToArabicNumber(TokenChar(style, t)) == if InTable(style, t) then Some(t) else None
  {
    if t < 10 {
      DigitRead(style, t);
    }
  }

  // The tokens of a text, or None if some character is not in the table.
  function TokensOf(text: string): Option<seq<uint64>> {
    if text == [] then Some([])
    else
      match (KanjiNumberToArabicNumber(text[0]), TokensOf(text[1..]))
      case (Some(t), Some(ts)) => Some([t] + ts)
      case _ => None
  }

  ghost predicate AllSpellable(style: Style, ts: seq<uint64>) {
    forall i :: 0 <= i < |ts| ==> Spellable(style, ts[i])
  }

  ghost predicate AllInTable(style: Style, ts: seq<uint64>) {
    forall i :: 0 <= i < |ts| ==> InTable(style, ts[i])
  }

  lemma {:induction false} TokensOfSpelled(style: Style, ts: seq<uint64>)
    requires AllSpellable(style, ts)
    ensures TokensOf(Spelled(style, ts)) == if AllInTable(style, ts) then Some(ts) else None
  {
    if ts != [] {
      var text := Spelled(style, ts);
      assert text[1..] == Spelled(style, ts[1..]);
      assert ts == [ts[0]] + ts[1..];
      assert AllInTable(style, ts) <==> InTable(style, ts[0]) && AllInTable(style, ts[1..]);
      TableUndoesSpelling(style, ts[0]);
      TokensOfSpelled(style, ts[1..]);
    }
  }

  // ---- Decimal strings ----

  function DigitAt(s: string, i: nat): (d: nat)
    requires i < |s| && IsDigits(s)
    ensures d < 10
  {
    s[i] as int - '0' as int
  }

  // The value of the first n digits.
  function PrefixValue(s: string, n: nat): nat
    requires n <= |s| && IsDigits(s)
    decreases s, n
  {
    if n == 0 then 0 else 10 * PrefixValue(s, n - 1) + DigitAt(s, n - 1)
  }

  function ValueOf(s: string): nat
    requires IsDigits(s)
  {
    PrefixValue(s, |s|)
  }

  predicate AllZeros(s: string) {
    forall i :: 0 <= i < |s| ==> s[i] == '0'
  }

  function Zeros(n: nat): (s: string)
    ensures |s| == n && AllZeros(s)
  {
    seq(n, _ => '0')
  }

  lemma {:induction false} ZeroOnlyIfAllZeros(s: string, n: nat)
    requires n <= |s| && IsDigits(s)
    ensures PrefixValue(s, n) == 0 <==> AllZeros(s[..n])
  {
    if n > 0 {
      ZeroOnlyIfAllZeros(s, n - 1);
      assert s[..n] == s[..n - 1] + [s[n - 1]];
      assert AllZeros(s[..n]) <==> AllZeros(s[..n - 1]) && s[n - 1] == '0';
    }
  }

  lemma {:induction false} LeadingZerosAddNothing(z: nat, s: string, n: nat)
    requires n <= |s| && IsDigits(s)
    ensures IsDigits(Zeros(z) + s) && PrefixValue(Zeros(z) + s, z + n) == PrefixValue(s, n)
  {
    var filled := Zeros(z) + s;
    if n > 0 {
      LeadingZerosAddNothing(z, s, n - 1);
      assert filled[z + n - 1] == s[n - 1];
    } else {
      assert filled[..z] == Zeros(z);
      ZeroOnlyIfAllZeros(filled, z);
    }
  }

  // ---- Ranks of four digits ----

  const DIGITS_IN_BIG_RANK: nat := 4

  function QuadAt(s: string, i: nat): (q: Quad)
    requires i + 4 <= |s| && IsDigits(s)
    ensures q.Valid()
  {
    Quad(DigitAt(s, i), DigitAt(s, i + 1), DigitAt(s, i + 2), DigitAt(s, i + 3))
  }

  // A printable number: digits in whole ranks, of which there are at most five.
  predicate Ranked(s: string) {
    IsDigits(s) && |s| % 4 == 0 && 0 < |s| <= 20
  }

  // The ranks of the number, lowest first.
  function QuadsOf(s: string): (quads: seq<Quad>)
    requires Ranked(s)
    ensures |quads| == |s| / 4 && ValidQuads(quads)
  {
    seq(|s| / 4, k requires 0 <= k < |s| / 4 => QuadAt(s, |s| - 4 * (k + 1)))
  }

  function Filled(s: string): (f: string)
    requires IsDigits(s)
    ensures IsDigits(f) && |f| % 4 == 0 && |s| <= |f| < |s| + 4
  {
    Zeros((4 - |s| % 4) % 4) + s
  }

  // A number above n ranks.
  function Above(v: nat, n: nat): nat
    requires n <= 5
  {
    if n < 5 then Scaled(v, n) else 100000000000000000000 * v
  }

  lemma {:induction false} AboveStep(v: nat, q: nat, n: nat)
    requires n < 5
    ensures Above(10000 * v + q, n) == Above(v, n + 1) + Scaled(q, n)
  {
  }

  lemma {:induction false} QuadValue(s: string, i: nat)
    requires i + 4 <= |s| && IsDigits(s)
    ensures PrefixValue(s, i + 4) == 10000 * PrefixValue(s, i) + QuadAt(s, i).Value()
  {
    assert PrefixValue(s, i + 4) == 10 * PrefixValue(s, i + 3) + DigitAt(s, i + 3);
    assert PrefixValue(s, i + 3) == 10 * PrefixValue(s, i + 2) + DigitAt(s, i + 2);
    assert PrefixValue(s, i + 2) == 10 * PrefixValue(s, i + 1) + DigitAt(s, i + 1);
  }

  ghost predicate RanksOf(s: string, chunks: seq<Chunk>)
    requires Ranked(s)
  {
    |chunks| == |s| / 4 && forall k :: 0 <= k < |chunks| ==> chunks[k].value == QuadAt(s, |s| - 4 * (k + 1)).Value()
  }

  lemma {:induction false} RanksValueStep(s: string, chunks: seq<Chunk>, n: nat)
    requires Ranked(s) && RanksOf(s, chunks) && 0 < n <= |s| / 4
    ensures Above(PrefixValue(s, |s| - 4 * (n - 1)), n - 1) + ChunksValue(chunks, n - 1)
         == Above(PrefixValue(s, |s| - 4 * n), n) + ChunksValue(chunks, n)
  {
    var i := |s| - 4 * n;
    QuadValue(s, i);
    AboveStep(PrefixValue(s, i), chunks[n - 1].value, n - 1);
  }

  // The value of a decimal string is the value of its lowest n ranks and of the digits above.
  lemma {:induction false} RanksValue(s: string, chunks: seq<Chunk>, n: nat)
    requires Ranked(s) && RanksOf(s, chunks) && n <= |s| / 4
    ensures ValueOf(s) == Above(PrefixValue(s, |s| - 4 * n), n) + ChunksValue(chunks, n)
  {
    if n > 0 {
      RanksValue(s, chunks, n - 1);
      RanksValueStep(s, chunks, n);
    }
  }

  function PrintedTokens(form: Form, s: string): seq<uint64>
    requires Ranked(s)
  {
    ChunksTokens(QuadChunks(form, QuadsOf(s)), |s| / 4)
  }

  // ---- Printing one rank ----

  function FormOf(style: Style): Form {
    if style.IsArabic() then Arabic else if style.NumberKanji? then Kanji else Old
  }

  // The tokens of the digit d at position i of a rank, which may still be a leading zero.
  function TokensAt(form: Form, d: nat, i: nat, leading: bool): seq<uint64>
    requires d < 10 && i < 4
  {
    if d == 0 && (leading || form != Arabic) then []
    else if form == Arabic || i == 3 then [d]
    else Place(form, d, BaseOf(3 - i))
  }

  function RestTokens(form: Form, q: Quad, i: nat, leading: bool): seq<uint64>
    requires q.Valid() && i <= 4
    decreases q, 4 - i
  {
    if i == 4 then []
    else TokensAt(form, Digit(q, 3 - i), i, leading) + RestTokens(form, q, i + 1, leading && Digit(q, 3 - i) == 0)
  }

  lemma {:induction false} RestOfKanji(form: Form, q: Quad, i: nat, leading: bool)
    requires form != Arabic && q.Valid() && i < 4
    ensures RestTokens(form, q, i, leading) == TokensFrom(form, q, 3 - i)
    decreases 4 - i
  {
    var next := leading && Digit(q, 3 - i) == 0;
    if i < 3 {
      RestOfKanji(form, q, i + 1, next);
    } else {
      assert RestTokens(form, q, 4, next) == [];
    }
  }

  lemma {:induction false} RestOfArabic(q: Quad)
    requires q.Valid()
    ensures RestTokens(Arabic, q, 0, true) == QuadTokens(Arabic, q)
  {
    assert RestTokens(Arabic, q, 4, false) == [] && RestTokens(Arabic, q, 4, true) == [];
    assert RestTokens(Arabic, q, 3, false) == [q.d];
    assert RestTokens(Arabic, q, 2, false) == [q.c, q.d];
    assert RestTokens(Arabic, q, 1, false) == [q.b, q.c, q.d];
    assert RestTokens(Arabic, q, 3, true) == Ones(q.d);
    assert RestTokens(Arabic, q, 2, true) == if q.c > 0 then [q.c, q.d] else Ones(q.d);
    assert RestTokens(Arabic, q, 1, true) == if q.b > 0 then [q.b, q.c, q.d] else RestTokens(Arabic, q, 2, true);
  }

  lemma {:induction false} AllTokensAreTheQuads(form: Form, q: Quad)
    requires q.Valid()
    ensures RestTokens(form, q, 0, true) == QuadTokens(form, q)
  {
    if form == Arabic {
      RestOfArabic(q);
    } else {
      RestOfKanji(form, q, 0, true);
    }
  }

  lemma {:induction false} DigitSpelled(style: Style, d: uint64)
    requires d < 10 && (d > 0 || style.IsArabic())
    ensures Digits(style)[d] == Spelled(style, [d])
  {
  }

  lemma {:induction false} RankSpelled(style: Style, place: nat)
    requires 1 <= place <= 3
    ensures Ranks(style)[place + 1] == Spelled(style, [BaseOf(place)])
  {
  }

  lemma {:induction false} PlaceSpelled(style: Style, d: uint64, place: nat)
    requires !style.IsArabic() && 0 < d < 10 && 1 <= place <= 3
    ensures Spelled(style, Place(FormOf(style), d, BaseOf(place)))
         == (if style.NumberOldKanji? || d != 1 then Digits(style)[d] else "") + Ranks(style)[place + 1]
  {
    DigitSpelled(style, d);
    RankSpelled(style, place);
    SpelledConcat(style, [d], [BaseOf(place)]);
    assert [d] + [BaseOf(place)] == [d, BaseOf(place)];
  }

  // What the loop over a rank appends for one digit.
  method PrintDigit(style: Style, digit: char, i: nat, leading: bool) returns (text: string)
    requires '0' <= digit <= '9' && i < 4
    ensures text == Spelled(style, TokensAt(FormOf(style), digit as int - '0' as int, i, leading))
  {
    text := "";
    ghost var d := digit as int - '0' as int;
    if leading && digit == '0' {
      return;
    }
    if style.IsArabic() {
      DigitSpelled(style, d);
      return Digits(style)[digit as int - '0' as int];
    }
    if digit == '0' {
      return;
    }
    if i == 3 {
      DigitSpelled(style, d);
    } else {
      PlaceSpelled(style, d, 3 - i);
    }
    if style.NumberOldKanji? || i == DIGITS_IN_BIG_RANK - 1 || digit != '1' {
      text := text + Digits(style)[digit as int - '0' as int];
    }
    text := text + Ranks(style)[DIGITS_IN_BIG_RANK - i];
  }

  // What is still to be printed of a rank from position i on.
  ghost function RestText(style: Style, q: Quad, i: nat, leading: bool): string
    requires q.Valid() && i <= 4
  {
    Spelled(style, RestTokens(FormOf(style), q, i, leading))
  }

  lemma {:induction false} PrintedSoFar(done: string, rest: string, piece: string, rest': string, whole: string)
    requires done + rest == whole && rest == piece + rest'
    ensures (done + piece) + rest' == whole
  {
  }

  lemma {:induction false} RestSpelled(style: Style, q: Quad, i: nat, leading: bool)
    requires q.Valid() && i < 4
    ensures var d := Digit(q, 3 - i);
      RestText(style, q, i, leading)
      == Spelled(style, TokensAt(FormOf(style), d, i, leading)) + RestText(style, q, i + 1, leading && d == 0)
  {
  }

  lemma {:induction false} DigitOfSegment(segment: string, i: nat)
    requires |segment| == 4 && IsDigits(segment) && i < 4
    ensures Digit(QuadAt(segment, 0), 3 - i) == segment[i] as int - '0' as int
  {
  }

  method PrintStep(style: Style, segment: string, i: nat, leading: bool) returns (text: string, leading': bool)
    requires |segment| == 4 && IsDigits(segment) && i < 4
    ensures RestText(style, QuadAt(segment, 0), i, leading) == text + RestText(style, QuadAt(segment, 0), i + 1, leading')
  {
    DigitOfSegment(segment, i);
    RestSpelled(style, QuadAt(segment, 0), i, leading);
    text := PrintDigit(style, segment[i], i, leading);
    leading' := leading && segment[i] == '0';
  }

  lemma {:induction false} NothingLeft(style: Style, q: Quad, leading: bool)
    requires q.Valid()
    ensures RestText(style, q, 0, true) == Spelled(style, QuadTokens(FormOf(style), q))
    ensures RestText(style, q, 4, leading) == ""
  {
    AllTokensAreTheQuads(FormOf(style), q);
  }

  method PrintSegment(style: Style, segment: string) returns (result: string)
    requires |segment| == 4 && IsDigits(segment)
    ensures result == Spelled(style, QuadTokens(FormOf(style), QuadAt(segment, 0)))
  {
    ghost var q := QuadAt(segment, 0);
    ghost var whole := RestText(style, q, 0, true);
    result := "";
    var leading := true;
    for i := 0 to |segment|
      invariant result + RestText(style, q, i, leading) == whole
    {
      ghost var rest := RestText(style, q, i, leading);
      var text;
      text, leading := PrintStep(style, segment, i, leading);
      PrintedSoFar(result, rest, text, RestText(style, q, i + 1, leading), whole);
      result := result + text;
    }
    NothingLeft(style, q, leading);
  }

  // ---- Printing a number ----

  // The segments of a number, lowest rank first.
  ghost predicate SegmentsOf(s: string, segments: seq<string>)
    requires Ranked(s)
  {
    |segments| == |s| / 4 && forall k :: 0 <= k < |segments| ==> segments[k] == s[|s| - 4 * (k + 1)..|s| - 4 * k]
  }

  lemma {:induction false} SegmentQuad(s: string, segments: seq<string>, k: nat)
    requires Ranked(s) && SegmentsOf(s, segments) && k < |segments|
    ensures |segments[k]| == 4 && IsDigits(segments[k]) && QuadAt(segments[k], 0) == QuadsOf(s)[k]
  {
  }

  lemma {:induction false} RankTokensSpelled(style: Style, c: Chunk, rank: nat)
    requires rank <= 4
    ensures Spelled(style, RankTokens(c, rank))
         == if c.tokens == [] then "" else Spelled(style, c.tokens) + BiggerRanks(style)[rank]
  {
  }

  lemma {:induction false} ChunksTokensSpelled(style: Style, chunks: seq<Chunk>, rank: nat)
    requires rank < |chunks| <= 5
    ensures Spelled(style, ChunksTokens(chunks, rank + 1))
         == Spelled(style, RankTokens(chunks[rank], rank)) + Spelled(style, ChunksTokens(chunks, rank))
  {
  }

  // texts[n] is the text of the ranks below n; the loop over the ranks knows no more of it.
  ghost predicate TextsBelow(texts: seq<string>, style: Style, s: string) {
    && Ranked(s) && |texts| == |s| / 4 + 1 && texts[0] == ""
    && forall n: nat {:trigger Peek(n)} :: Peek(n) && n <= |s| / 4 ==>
         texts[n] == Spelled(style, ChunksTokens(QuadChunks(FormOf(style), QuadsOf(s)), n))
  }

  method PrintRank(style: Style, segments: seq<string>, rank: nat, ghost s: string, ghost texts: seq<string>)
    returns (text: string)
    requires TextsBelow(texts, style, s) && SegmentsOf(s, segments) && rank < |segments|
    ensures texts[rank + 1] == text + texts[rank]
  {
    ghost var chunks := QuadChunks(FormOf(style), QuadsOf(s));
    assert Peek(rank) && Peek(rank + 1);
    SegmentQuad(s, segments, rank);
    RankTokensSpelled(style, chunks[rank], rank);
    ChunksTokensSpelled(style, chunks, rank);
    text := PrintSegment(style, segments[rank]);
    if text != "" {
      text := text + BiggerRanks(style)[rank];
    }
  }

  method PrintRanks(style: Style, segments: seq<string>, ghost s: string, ghost texts: seq<string>) returns (result: string)
    requires TextsBelow(texts, style, s) && SegmentsOf(s, segments)
    ensures result == texts[|segments|]
  {
    result := "";
    for rank := |segments| downto 0
      invariant result + texts[rank] == texts[|segments|]
    {
      var text := PrintRank(style, segments, rank, s, texts);
      PrintedSoFar(result, texts[rank + 1], text, texts[rank], texts[|segments|]);
      result := result + text;
    }
  }

  method PrintNumber(style: Style, segments: seq<string>, ghost s: string) returns (result: string)
    requires Ranked(s) && SegmentsOf(s, segments)
    ensures result == Spelled(style, PrintedTokens(FormOf(style), s))
  {
    ghost var chunks := QuadChunks(FormOf(style), QuadsOf(s));
    ghost var texts := seq(|segments| + 1, n requires 0 <= n <= |segments| => Spelled(style, ChunksTokens(chunks, n)));
    result := PrintRanks(style, segments, s, texts);
  }

  method Segment(s: string) returns (segments: seq<string>)
    requires Ranked(s)
    ensures SegmentsOf(s, segments)
  {
    segments := [];
    var i := |s| - DIGITS_IN_BIG_RANK;
    while i >= 0
      invariant -4 <= i <= |s| - 4 && i == |s| - 4 * (|segments| + 1)
      invariant forall k :: 0 <= k < |segments| ==> segments[k] == s[|s| - 4 * (k + 1)..|s| - 4 * k]
    {
      segments := segments + [s[i..i + DIGITS_IN_BIG_RANK]];
      i := i - DIGITS_IN_BIG_RANK;
    }
  }
}
