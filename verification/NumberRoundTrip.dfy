/** Reading back what `ArabicToKanji` prints: `NormalizeNumbers`, and the exact condition under
    which it returns the printed number. */
module NumberRoundTrip {
  import opened Decimals
  import opened Wrappers
  import opened NumberParser
  import opened NumberGroups
  import opened NumberTokens
  import opened NumberPrinter
  import opened NumberVariations

  // ---- The reader of texts ----

  ghost function Parsed(text: string): Option<nat> {
    match TokensOf(text)
    case None => None
    case Some(ts) => NormalizedValue(ts)
  }

  function LeadingZeros(ts: seq<uint64>): (k: nat)
    ensures k <= |ts| && (forall i :: 0 <= i < k ==> ts[i] == 0) && (k < |ts| ==> ts[k] != 0)
  {
    if ts != [] && ts[0] == 0 then 1 + LeadingZeros(ts[1..]) else 0
  }

  // The zeros that are kept in front of the value, of which a number of zeros only has one less.
  function KeptZeros(ts: seq<uint64>): nat {
    var k := LeadingZeros(ts);
    if k == |ts| && k > 0 then k - 1 else k
  }

  // The text NormalizeNumbers writes in Arabic digits, or None where it fails.
  ghost function NormalizedText(text: string, trimLeadingZeros: bool): Option<string> {
    match (TokensOf(text), Parsed(text))
    case (Some(ts), Some(n)) => Some((if trimLeadingZeros then "" else Zeros(KeptZeros(ts))) + Decimal(n))
    case _ => None
  }

  function KanjiChar(c: char): string {
    if '0' <= c <= '9' then KANJI_DIGITS[c as int - '0' as int]
    else if '０' <= c <= '９' then KANJI_DIGITS[c as int - '０' as int]
    else [c]
  }

  function Kanjified(text: string): string {
    if text == "" then "" else Kanjified(text[..|text| - 1]) + KanjiChar(text[|text| - 1])
  }

  lemma {:induction false} TokensOfExtended(text: string, c: char)
    ensures TokensOf(text + [c]) ==
      match (TokensOf(text), KanjiNumberToArabicNumber(c)) case (Some(ts), Some(t)) => Some(ts + [t]) case _ => None
  {
    if text == "" {
      assert text + [c] == [c] && [c][1..] == "" && TokensOf([c][1..]) == Some([]);
      match KanjiNumberToArabicNumber(c) {
        case Some(t) => assert [t] + [] == [] + [t];
        case None =>
      }
    } else {
      assert (text + [c])[1..] == text[1..] + [c];
      TokensOfExtended(text[1..], c);
      match (TokensOf(text), KanjiNumberToArabicNumber(c)) {
        case (Some(ts), Some(t)) => assert ts + [t] == [ts[0]] + (ts[1..] + [t]);
        case _ =>
      }
    }
  }

  lemma {:induction false} UnreadablePrefix(text: string, n: nat)
    requires n <= |text| && TokensOf(text[..n]).None?
    ensures TokensOf(text).None?
    decreases |text| - n
  {
    if n == |text| {
      assert text[..n] == text;
    } else {
      assert text[..n + 1] == text[..n] + [text[n]];
      TokensOfExtended(text[..n], text[n]);
      UnreadablePrefix(text, n + 1);
    }
  }

  // How many characters of the text are read before the first that is not in the table.
  function ReadableLength(text: string): (n: nat)
    ensures n <= |text|
  {
    if text != "" && KanjiNumberToArabicNumber(text[0]).Some? then 1 + ReadableLength(text[1..]) else 0
  }

  // The loop over the characters: the numbers they stand for and the text in kanji digits.
  method ReadCharacters(input: string) returns (ok: bool, numbers: seq<uint64>, kanjiOutput: string)
    ensures ok <==> TokensOf(input).Some?
    ensures ok ==> TokensOf(input) == Some(numbers) && kanjiOutput == Kanjified(input)
    ensures kanjiOutput == Kanjified(input[..ReadableLength(input)])
  {
    numbers, kanjiOutput := [], "";
    for i := 0 to |input|
      invariant TokensOf(input[..i]) == Some(numbers)
      invariant kanjiOutput == Kanjified(input[..i])
      invariant ReadableLength(input) == i + ReadableLength(input[i..])
    {
      assert input[i..][1..] == input[i + 1..];
      assert input[..i + 1] == input[..i] + [input[i]];
      assert input[..i + 1][..i] == input[..i];
      TokensOfExtended(input[..i], input[i]);
      var n := KanjiNumberToArabicNumber(input[i]);
      if n.None? {
        UnreadablePrefix(input, i + 1);
        return false, numbers, kanjiOutput;
      }
      kanjiOutput := kanjiOutput + KanjiChar(input[i]);
      numbers := numbers + [n.value];
    }
    assert input[..|input|] == input;
    ok := true;
  }

  method CountLeadingZeros(numbers: seq<uint64>) returns (k: nat)
    ensures k == LeadingZeros(numbers)
  {
    k := 0;
    while k < |numbers| && numbers[k] == 0
      invariant 0 <= k <= |numbers| && LeadingZeros(numbers) == k + LeadingZeros(numbers[k..])
    {
      assert numbers[k..][1..] == numbers[k + 1..];
      k := k + 1;
    }
  }

  method NormalizeNumbers(input: string, trimLeadingZeros: bool)
    returns (ok: bool, kanjiOutput: string, arabicOutput: string)
    ensures ok <==> Parsed(input).Some?
    ensures ok ==> NormalizedText(input, trimLeadingZeros) == Some(arabicOutput)
    ensures kanjiOutput == Kanjified(if ok then input else input[..ReadableLength(input)])
    ensures !ok ==> arabicOutput == ""
  {
    var numbers, value;
    arabicOutput := "";
    ok, numbers, kanjiOutput := ReadCharacters(input);
    if !ok || numbers == [] {
      return false, kanjiOutput, arabicOutput;
    }
    ok, value := NormalizeNumbersHelper(numbers);
    if !ok {
      return;
    }
    if !trimLeadingZeros {
      var numZeros := CountLeadingZeros(numbers);
      if numZeros == |numbers| {
        numZeros := numZeros - 1;
      }
      arabicOutput := Zeros(numZeros);
    }
    arabicOutput := arabicOutput + Decimal(value);
  }

  // ---- Which 大字 texts can be read ----

  // 大字 writes 阡 for thousands and 萬 for ten thousands, which the table of the reader does not
  // know, and a 1 before 百 and 拾, which the reader refuses.
  predicate RankReadable(q: Quad, rank: nat) {
    q.a == 0 && q.b != 1 && q.c != 1 && (rank == 1 ==> q.IsZero())
  }

  predicate OldReadable(quads: seq<Quad>) {
    forall k :: 0 <= k < |quads| ==> RankReadable(quads[k], k)
  }

  predicate Readable(form: Form, quads: seq<Quad>) {
    form == Old || form == Twenty ==> OldReadable(quads)
  }

  lemma {:induction false} InTableConcat(style: Style, a: seq<uint64>, b: seq<uint64>)
    ensures AllInTable(style, a + b) <==> AllInTable(style, a) && AllInTable(style, b)
  {
    if AllInTable(style, a + b) {
      assert forall i :: 0 <= i < |a| ==> (a + b)[i] == a[i];
      assert forall i :: 0 <= i < |b| ==> (a + b)[|a| + i] == b[i];
    }
  }

  lemma {:induction false} PlaceInTable(form: Form, d: nat, place: nat)
    requires form != Arabic && d < 10 && 1 <= place <= 3
    ensures AllInTable(NumberOldKanji, Place(form, d, BaseOf(place))) <==> place < 3 || d == 0
  {
    var ts := Place(form, d, BaseOf(place));
    if d > 0 {
      assert place == 3 ==> ts[|ts| - 1] == 1000;
    }
  }

  lemma {:induction false} PlacesInTable(form: Form, q: Quad, place: nat)
    requires form != Arabic && q.Valid() && place <= 3
    ensures AllInTable(NumberOldKanji, TokensFrom(form, q, place)) <==> place < 3 || q.a == 0
  {
    if place > 0 {
      PlacesInTable(form, q, place - 1);
      PlaceInTable(form, Digit(q, place), place);
      InTableConcat(NumberOldKanji, Place(form, Digit(q, place), BaseOf(place)), TokensFrom(form, q, place - 1));
    }
  }

  ghost predicate RankOk(c: Chunk, rank: nat)
    requires rank <= 4
  {
    AllInTable(NumberOldKanji, RankTokens(c, rank)) && c.accepted
  }

  lemma {:induction false} ScaleInTable(c: Chunk, rank: nat)
    requires rank <= 4
    ensures AllInTable(NumberOldKanji, RankTokens(c, rank)) <==>
              AllInTable(NumberOldKanji, c.tokens) && (rank == 1 ==> c.tokens == [])
  {
    if c.tokens != [] && rank > 0 {
      InTableConcat(NumberOldKanji, c.tokens, [Pow10000(rank)]);
      assert rank == 1 ==> [Pow10000(rank)][0] == 10000;
    }
  }

  lemma {:induction false} OldQuad(form: Form, q: Quad)
    requires (form == Old || form == Twenty) && q.Valid()
    ensures AllInTable(NumberOldKanji, QuadTokens(form, q)) <==> q.a == 0
    ensures Accepted(form, q) <==> q.b != 1 && q.c != 1
  {
    PlacesInTable(form, q, 3);
  }

  lemma {:induction false} QuadOk(form: Form, q: Quad, rank: nat)
    requires (form == Old || form == Twenty) && q.Valid() && rank <= 4
    ensures RankOk(ChunkOf(form, q), rank) <==> RankReadable(q, rank)
  {
    var c := ChunkOf(form, q);
    OldQuad(form, q);
    assert c.tokens == [] <==> q.IsZero() by {
      QuadPrintsSomething(form, q);
    }
    ScaleInTable(c, rank);
  }

  lemma {:induction false} RanksOk(chunks: seq<Chunk>, n: nat)
    requires n <= |chunks| <= 5
    ensures AllInTable(NumberOldKanji, ChunksTokens(chunks, n)) && ChunksAccepted(chunks, n)
       <==> forall k :: 0 <= k < n ==> RankOk(chunks[k], k)
  {
    if n > 0 {
      RanksOk(chunks, n - 1);
      InTableConcat(NumberOldKanji, RankTokens(chunks[n - 1], n - 1), ChunksTokens(chunks, n - 1));
    }
  }

  lemma {:induction false} OldNumberOk(form: Form, quads: seq<Quad>)
    requires (form == Old || form == Twenty) && ValidQuads(quads)
    ensures var chunks := QuadChunks(form, quads);
      AllInTable(NumberOldKanji, ChunksTokens(chunks, |quads|)) && ChunksAccepted(chunks, |quads|) <==> OldReadable(quads)
  {
    var chunks := QuadChunks(form, quads);
    RanksOk(chunks, |quads|);
    forall k | 0 <= k < |quads|
      ensures RankOk(chunks[k], k) <==> RankReadable(quads[k], k)
    {
      QuadOk(form, quads[k], k);
    }
  }

  lemma {:induction false} OthersAccepted(form: Form, quads: seq<Quad>, n: nat)
    requires (form == Arabic || form == Kanji) && ValidQuads(quads) && n <= |quads|
    ensures ChunksAccepted(QuadChunks(form, quads), n)
  {
    if n > 0 {
      OthersAccepted(form, quads, n - 1);
    }
  }

  lemma {:induction false} NumberOk(style: Style, form: Form, quads: seq<Quad>)
    requires Spells(style, form) && ValidQuads(quads)
    ensures var chunks := QuadChunks(form, quads);
      AllInTable(style, ChunksTokens(chunks, |quads|)) && ChunksAccepted(chunks, |quads|) <==> Readable(form, quads)
  {
    if form == Old || form == Twenty {
      OldNumberOk(form, quads);
    } else {
      OthersAccepted(form, quads, |quads|);
    }
  }

  // ---- Round trips ----

  // The value of a text, if it can be read and the value fits in 64 bits.
  function ReadAs(readable: bool, value: nat): Option<nat> {
    if readable && value < LIMIT then Some(value) else None
  }

  lemma {:induction false} ParsedSpelling(style: Style, ts: seq<uint64>, value: nat, readable: bool, accepted: bool)
    requires AllSpellable(style, ts) && NormalizedValue(ts) == ReadAs(accepted, value)
    requires AllInTable(style, ts) && accepted <==> readable
    ensures Parsed(Spelled(style, ts)) == ReadAs(readable, value)
  {
    TokensOfSpelled(style, ts);
  }

  lemma {:induction false} ChunksAreRanks(form: Form, s: string)
    requires Ranked(s)
    ensures RanksOf(s, QuadChunks(form, QuadsOf(s)))
  {
    var chunks := QuadChunks(form, QuadsOf(s));
    forall k | 0 <= k < |chunks|
      ensures chunks[k].value == QuadAt(s, |s| - 4 * (k + 1)).Value()
    {
      assert chunks[k] == ChunkOf(form, QuadsOf(s)[k]);
    }
  }

  lemma {:induction false} RanksTotal(s: string, chunks: seq<Chunk>)
    requires Ranked(s) && RanksOf(s, chunks)
    ensures ChunksValue(chunks, |chunks|) == ValueOf(s)
  {
    RanksValue(s, chunks, |chunks|);
    assert PrefixValue(s, 0) == 0;
  }

  lemma {:induction false} TokensReadAs(form: Form, s: string)
    requires Ranked(s) && ValueOf(s) > 0
    ensures var chunks := QuadChunks(form, QuadsOf(s));
      NormalizedValue(ChunksTokens(chunks, |chunks|)) == ReadAs(ChunksAccepted(chunks, |chunks|), ValueOf(s))
  {
    ChunksAreRanks(form, s);
    RanksTotal(s, QuadChunks(form, QuadsOf(s)));
    PrintedNormalizes(form, QuadsOf(s));
  }

  // A printed number reads back as its value exactly when its notation is readable and the
  // value fits in 64 bits; otherwise it is rejected.
  lemma {:induction false} PrintedTextReadsBack(style: Style, form: Form, s: string)
    requires Ranked(s) && Spells(style, form) && ValueOf(s) > 0
    ensures Parsed(PrintedText(style, form, s)) == ReadAs(Readable(form, QuadsOf(s)), ValueOf(s))
  {
    var quads := QuadsOf(s);
    var chunks := QuadChunks(form, quads);
    TokensReadAs(form, s);
    ChunksSpellable(style, form, quads, |quads|);
    NumberOk(style, form, quads);
    ParsedSpelling(style, ChunksTokens(chunks, |quads|), ValueOf(s), Readable(form, quads), ChunksAccepted(chunks, |quads|));
  }

  // An output of ArabicToKanji can be read unless it is 大字 for a number with a digit that
  // only 大字 writes in its own way; the extra single 拾 for ten can be read as well.
  predicate OutputReadable(s: string, ns: NumberString)
    requires Convertible(s)
  {
    || AllZeros(s)
    || !ns.style.NumberOldKanji?
    || (FilledRanked(s); OldReadable(QuadsOf(Filled(s))) || (Filled(s) == "0010" && ns.value == "拾"))
  }

  lemma {:induction false} InJoined(ns: NumberString, parts: seq<seq<NumberString>>, n: nat) returns (v: nat)
    requires n <= |parts| && ns in Joined(parts, n)
    ensures v < n && ns in parts[v]
  {
    if ns in parts[n - 1] {
      v := n - 1;
    } else {
      v := InJoined(ns, parts, n - 1);
    }
  }

  lemma {:induction false} SingleCharacter(c: char, t: uint64)
    requires KanjiNumberToArabicNumber(c) == Some(t) && (t < 10 || t == 10)
    ensures Parsed([c]) == Some(t)
  {
    assert [c][1..] == "" && TokensOf("") == Some([]) && TokensOf([c]) == Some([t] + []);
    assert [t] + [] == [t];
    if t < 10 {
      assert RunEnd([t], 1) == 1 && RunEnd([t], 0) == 1;
      assert DecimalValue([t], 0, 0) == 0 && DecimalValue([t], 0, 1) == t;
    } else {
      assert ReadPlace([t], 0, 1000) == Failed(0) && ReadPlace([t], 0, 100) == Failed(0);
      assert ReadFrom([t], 1, 0) == Failed(1);
      assert ReadFrom([t], 0, 1) == Read(1, 10);
      assert ReadFrom([t], 0, 2) == Read(1, 10);
      assert ReadCoefficient([t], 0) == Read(1, 10);
      CoefficientsRead([t]);
      OnlyCoefficient(CoefficientReader([t]), [t], 10);
    }
  }

  lemma {:induction false} TenValue(s: string)
    requires s == "0010"
    ensures Ranked(s) && ValueOf(s) == 10
  {
    QuadValue(s, 0);
    assert QuadAt(s, 0) == Quad(0, 0, 1, 0) && PrefixValue(s, 0) == 0;
  }

  // The extra notations of 大字.
  lemma {:induction false} ExtrasReadBack(s: string, ns: NumberString)
    requires Ranked(s) && ValueOf(s) > 0 && ns in OldExtras(s)
    ensures Parsed(ns.value) == ReadAs(OldReadable(QuadsOf(s)) || (s == "0010" && ns.value == "拾"), ValueOf(s))
  {
    if s == "0010" && ns == Named(NumberOldKanji, "拾") {
      SingleCharacter('拾', 10);
      TenValue(s);
    } else if s == "1000" && ns == Named(NumberOldKanji, "阡") {
      assert TokensOf("阡").None?;
      assert QuadsOf(s)[0].a == 1;
    } else {
      PrintedTextReadsBack(NumberOldKanji, Twenty, s);
      assert ns.value == PrintedText(NumberOldKanji, Twenty, s);
      if s == "0010" {
        assert QuadsOf(s)[0] == Quad(0, 0, 1, 0);
      }
    }
  }

  lemma {:induction false} OldTextIsNotSingle(s: string)
    requires Ranked(s)
    ensures PrintedText(NumberOldKanji, Old, s) != "拾"
  {
    var chunks, n := QuadChunks(Old, QuadsOf(s)), |s| / 4;
    NumberTwentied(QuadsOf(s));
    var ts := ChunksTokens(chunks, n);
    ChunksSpellable(NumberOldKanji, Old, QuadsOf(s), n);
    if ts != [] {
      OnlyTwoIsSpelledTwo(ts[0]);
      assert PrintedText(NumberOldKanji, Old, s)[0] == TokenChar(NumberOldKanji, ts[0]);
    }
  }

  lemma {:induction false} StyleReadsBack(style: Style, s: string, ns: NumberString)
    requires Ranked(s) && ValueOf(s) > 0 && ns in StyleOutputs(style, s)
    ensures ns.style == style
    ensures Parsed(ns.value)
         == ReadAs(!style.NumberOldKanji? || OldReadable(QuadsOf(s)) || (s == "0010" && ns.value == "拾"), ValueOf(s))
  {
    if ns == Named(style, PrintedText(style, FormOf(style), s)) {
      PrintedTextReadsBack(style, FormOf(style), s);
      if style.NumberOldKanji? {
        OldTextIsNotSingle(s);
      }
    } else {
      ExtrasReadBack(s, ns);
    }
  }

  lemma {:induction false} OutputReadsBack(s: string, ns: NumberString)
    requires Convertible(s) && ns in Outputs(s)
    ensures Parsed(ns.value) == ReadAs(OutputReadable(s, ns), ValueOf(s))
  {
    ZeroOnlyIfAllZeros(s, |s|);
    assert s[..|s|] == s;
    if AllZeros(s) {
      SingleCharacter('零', 0);
    } else {
      FilledRanked(s);
      var v := InJoined(ns, StyleParts(Filled(s)), |KANJI_VARIATIONS|);
      StyleReadsBack(KANJI_VARIATIONS[v], Filled(s), ns);
    }
  }

  // Whatever is offered for a decimal string reads back as its value exactly when it can be
  // read and the value fits in 64 bits, and is rejected otherwise.
  lemma {:induction false} OutputsReadBack(s: string)
    requires Convertible(s)
    ensures forall ns :: ns in Outputs(s) ==> Parsed(ns.value) == ReadAs(OutputReadable(s, ns), ValueOf(s))
  {
    forall ns | ns in Outputs(s)
      ensures Parsed(ns.value) == ReadAs(OutputReadable(s, ns), ValueOf(s))
    {
      OutputReadsBack(s, ns);
    }
  }

  lemma {:induction false} LastDigit(v: nat, d: nat)
    requires v > 0 && d < 10
    ensures Decimal(10 * v + d) == Decimal(v) + ["0123456789"[d]]
  {
    assert (10 * v + d) / 10 == v && (10 * v + d) % 10 == d;
  }

  lemma {:induction false} FirstDigit(s: string)
    requires s != "" && IsDigits(s) && s[0] != '0'
    ensures PrefixValue(s, 1) == DigitAt(s, 0) > 0 && Decimal(DigitAt(s, 0)) == [s[0]]
  {
    assert PrefixValue(s, 0) == 0;
    assert "0123456789"[DigitAt(s, 0)] == s[0];
  }

  lemma {:induction false} NextDigit(s: string, n: nat, v: nat)
    requires n < |s| && IsDigits(s) && v > 0 && Decimal(v) == s[..n]
    ensures Decimal(10 * v + DigitAt(s, n)) == s[..n + 1]
  {
    LastDigit(v, DigitAt(s, n));
    assert "0123456789"[DigitAt(s, n)] == s[n];
  }

  lemma {:induction false} DecimalOfPrefix(s: string, n: nat)
    requires 0 < n <= |s| && IsDigits(s) && s[0] != '0'
    ensures PrefixValue(s, n) > 0 && Decimal(PrefixValue(s, n)) == s[..n]
  {
    if n > 1 {
      DecimalOfPrefix(s, n - 1);
      NextDigit(s, n - 1, PrefixValue(s, n - 1));
    } else {
      FirstDigit(s);
      assert s[..1] == [s[0]];
    }
  }

  lemma {:induction false} DecimalWithoutZeros(s: string, z: nat)
    requires IsDigits(s) && z < |s| && AllZeros(s[..z]) && s[z] != '0'
    ensures Decimal(ValueOf(s)) == s[z..]
  {
    var rest := s[z..];
    assert s == Zeros(z) + rest;
    LeadingZerosAddNothing(z, rest, |rest|);
    DecimalOfPrefix(rest, |rest|);
    assert rest[..|rest|] == rest;
  }

  lemma {:induction false} NormalizedIsDecimal(text: string, n: nat)
    requires Parsed(text) == Some(n)
    ensures NormalizedText(text, true) == Some(Decimal(n))
  {
    assert "" + Decimal(n) == Decimal(n);
  }

  // The Arabic text of an output that can be read is the input without its leading zeros.
  lemma {:induction false} OutputsNormalizeToInput(s: string, z: nat)
    requires Convertible(s) && ValueOf(s) < LIMIT && z < |s| && AllZeros(s[..z]) && s[z] != '0'
    ensures forall ns :: ns in Outputs(s) && OutputReadable(s, ns) ==> NormalizedText(ns.value, true) == Some(s[z..])
  {
    forall ns | ns in Outputs(s) && OutputReadable(s, ns)
      ensures NormalizedText(ns.value, true) == Some(s[z..])
    {
      OutputReadsBack(s, ns);
      NormalizedIsDecimal(ns.value, ValueOf(s));
      DecimalWithoutZeros(s, z);
    }
  }

  // ---- 大字 that cannot be read ----

  // 壱 before 拾 is refused.
  lemma {:induction false} OldTenIsRefused(text: string)
    requires text == "壱拾"
    ensures Parsed(text) == None
  {
    var ts := [1, 10];
    assert text[1..] == "拾" && "拾"[1..] == "" && TokensOf("") == Some([]);
    assert TokensOf("拾") == Some([10] + []) && [10] + [] == [10] && [1] + [10] == ts;
    assert TokensOf(text) == Some(ts);
    assert ReadPlace(ts, 0, 1000) == Failed(0) && ReadPlace(ts, 0, 100) == Failed(0) && ReadPlace(ts, 0, 10) == Failed(0);
    assert ReadFrom(ts, 0, 1) == ReadOnes(ts, 0) == Read(1, 1);
    assert ReadFrom(ts, 0, 2) == Read(1, 1);
    assert ReadCoefficient(ts, 0) == Failed(1);
    CoefficientsRead(ts);
    OneGroup(CoefficientReader(ts), ts, 0, LIMIT - 1, 0);
  }

  // 阡 is not in the character table.
  lemma {:induction false} OldThousandIsUnknown(text: string)
    requires text == "弐阡"
    ensures Parsed(text) == None
  {
    assert text[1..] == "阡" && TokensOf(text[1..]) == None;
  }
}
