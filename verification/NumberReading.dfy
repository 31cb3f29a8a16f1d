/** What `NormalizeNumbers` makes of plain digits, in both widths, and of any other list of numbers:
    the two readings, said by their results. */
module NumberReading {
  import opened Decimals
  import opened Wrappers
  import opened NumberParser
  import opened NumberGroups
  import NumberGrammar
  import opened NumberNumerals
  import opened NumberPrinter
  import opened NumberRoundTrip

  // ---- Plain digits ----

  // The same digits in full width.
  function Wide(s: string): (t: string)
    requires IsDigits(s)
    ensures |t| == |s|
  {
    seq(|s|, i requires 0 <= i < |s| => (s[i] as int - '0' as int + '０' as int) as char)
  }

  function DigitTokens(s: string): (ts: seq<uint64>)
    requires IsDigits(s)
    ensures |ts| == |s|
  {
    seq(|s|, i requires 0 <= i < |s| => DigitAt(s, i))
  }

  lemma {:induction false} TokensByCharacter(text: string, ts: seq<uint64>)
    requires |text| == |ts| && forall i :: 0 <= i < |ts| ==> KanjiNumberToArabicNumber(text[i]) == Some(ts[i])
    ensures TokensOf(text) == Some(ts)
  {
    if text != "" {
      TokensByCharacter(text[1..], ts[1..]);
      assert ts == [ts[0]] + ts[1..];
    }
  }

  lemma {:induction false} DigitsAreTokens(s: string)
    requires IsDigits(s)
    ensures TokensOf(s) == TokensOf(Wide(s)) == Some(DigitTokens(s))
  {
    TokensByCharacter(s, DigitTokens(s));
    TokensByCharacter(Wide(s), DigitTokens(s));
  }

  lemma {:induction false} DigitsValue(s: string, n: nat)
    requires IsDigits(s) && n <= |s|
    ensures DecimalValue(DigitTokens(s), 0, n) == PrefixValue(s, n)
  {
    if n > 0 {
      DigitsValue(s, n - 1);
    }
  }

  lemma {:induction false} DigitsRead(s: string)
    requires IsDigits(s) && s != ""
    ensures NormalizedValue(DigitTokens(s)) == ReadAs(true, ValueOf(s))
  {
    DigitsValue(s, |s|);
    NumberGrammar.RunEndIs(DigitTokens(s), 0, |s|);
  }

  // A decimal string of any length is read as its value if that fits in 64 bits, and otherwise
  // rejected, in both widths.
  lemma {:induction false} DecimalsAreRead(s: string)
    requires IsDecimalInteger(s)
    ensures Parsed(s) == Parsed(Wide(s)) == if ValueOf(s) < 0x1_0000_0000_0000_0000 then Some(ValueOf(s)) else None
  {
    DigitsAreTokens(s);
    DigitsRead(s);
  }

  lemma {:induction false} LeadingZerosAre(ts: seq<uint64>, z: nat)
    requires z <= |ts| && (forall i :: 0 <= i < z ==> ts[i] == 0) && (z < |ts| ==> ts[z] != 0)
    ensures LeadingZeros(ts) == z
  {
  }

  lemma {:induction false} FirstNonzero(s: string, i: nat) returns (z: nat)
    requires i <= |s| && AllZeros(s[..i])
    ensures i <= z <= |s| && AllZeros(s[..z]) && (z < |s| ==> s[z] != '0')
    decreases |s| - i
  {
    z := i;
    if i < |s| && s[i] == '0' {
      assert forall k :: 0 <= k < i ==> s[k] == s[..i][k];
      z := FirstNonzero(s, i + 1);
    }
  }

  lemma {:induction false} ZerosOnly(s: string)
    requires IsDecimalInteger(s) && AllZeros(s)
    ensures Zeros(|s| - 1) + Decimal(ValueOf(s)) == s
  {
    ZeroOnlyIfAllZeros(s, |s|);
    assert s[..|s|] == s;
    assert Decimal(0) == "0";
  }

  lemma {:induction false} KeptText(s: string)
    requires IsDecimalInteger(s)
    ensures Zeros(KeptZeros(DigitTokens(s))) + Decimal(ValueOf(s)) == s
  {
    var z := FirstNonzero(s, 0);
    assert forall k :: 0 <= k < z ==> s[..z][k] == s[k];
    LeadingZerosAre(DigitTokens(s), z);
    if z < |s| {
      DecimalWithoutZeros(s, z);
      assert Zeros(z) + s[z..] == s;
    } else {
      assert s[..z] == s;
      ZerosOnly(s);
    }
  }

  // Without trimming, the Arabic text of a decimal string that fits is that string.
  lemma {:induction false} DecimalsNormalizeToThemselves(s: string)
    requires IsDecimalInteger(s) && ValueOf(s) < 0x1_0000_0000_0000_0000
    ensures NormalizedText(s, false) == NormalizedText(Wide(s), false) == Some(s)
  {
    DigitsAreTokens(s);
    DecimalsAreRead(s);
    KeptText(s);
  }

  // ---- Lists with a number from 10 up ----

  // Such a list is read as v if and only if the part of it that counts spells a numeral of value v.
  lemma {:induction false} OthersAreNumerals(numbers: seq<uint64>, v: nat)
    requires exists k :: 0 <= k < |numbers| && numbers[k] >= 10
    ensures NormalizedValue(numbers) == Some(v) <==>
      exists ts :: IsNumeral(ts) && NumeralTokens(ts) == Kept(numbers) && NumeralValue(ts) == Some(v)
  {
    AcceptsExactlyNumerals(numbers, v);
  }

  // ---- The kanji text ----

  function KanjiOf(c: char): char {
    if '0' <= c <= '9' then "〇一二三四五六七八九"[c as int - '0' as int]
    else if '０' <= c <= '９' then "〇一二三四五六七八九"[c as int - '０' as int]
    else c
  }

  lemma {:induction false} KanjiCharacter(c: char)
    ensures KanjiChar(c) == [KanjiOf(c)]
  {
  }

  function KanjiTextOf(text: string): string {
    seq(|text|, i requires 0 <= i < |text| => KanjiOf(text[i]))
  }

  lemma {:induction false} KanjiTextStep(text: string, n: nat)
    requires |text| == n + 1
    ensures KanjiTextOf(text) == KanjiTextOf(text[..n]) + [KanjiOf(text[n])]
  {
  }

  // Digits of both widths become kanji digits, and everything else stays.
  lemma {:induction false} KanjiText(text: string)
    ensures Kanjified(text) == KanjiTextOf(text)
  {
    if text != "" {
      var n := |text| - 1;
      KanjiText(text[..n]);
      KanjiCharacter(text[n]);
      KanjiTextStep(text, n);
    }
  }
}
