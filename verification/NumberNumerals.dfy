/** Whole numerals as a grammar: coefficients with falling scales. A list of numbers is read as v if
    and only if the part of it that counts, which is all of it unless a run of digits is given up,
    spells a numeral of value v. */
module NumberNumerals {
  import opened Hiding
  import opened Wrappers
  import opened NumberParser
  import opened NumberGroups
  import opened NumberGrammar

  // A coefficient and the scale behind it; 1 stands for none.
  datatype Term = Term(pieces: seq<Piece>, scale: uint64)

  function TermTokens(t: Term): seq<uint64> {
    Tokens(t.pieces) + if t.scale == 1 then [] else [t.scale]
  }

  // Every term but the last has a scale.
  predicate IsNumeral(ts: seq<Term>) {
    && ts != [] && IsCoefficient(ts[0].pieces) && (ts[0].scale >= 10000 || (ts[0].scale == 1 && |ts| == 1))
    && (|ts| > 1 ==> IsNumeral(ts[1..]))
  }

  function NumeralTokens(ts: seq<Term>): seq<uint64> {
    if ts == [] then [] else TermTokens(ts[0]) + NumeralTokens(ts[1..])
  }

  function GroupsOf(ts: seq<Term>): seq<Group> {
    if ts == [] then [] else [Group(Sum(ts[0].pieces), ts[0].scale)] + GroupsOf(ts[1..])
  }

  // The value of a numeral: the exact sum, if the scales fall from below the largest number and it fits.
  function NumeralValue(ts: seq<Term>): Option<nat> {
    GroupsValue(GroupsOf(ts), LIMIT - 1, 0)
  }

  // ---- Where the rest of the list is given up ----

  // Where a reader of a coefficient gives up the rest, if it does.
  type Cuts = nat -> Option<nat>

  function CutAt(numbers: seq<uint64>, i: nat): Option<nat>
    requires i <= |numbers|
  {
    if Abandons(numbers, i) then Some(Cut(numbers, i)) else None
  }

  function CoefficientCuts(numbers: seq<uint64>): Cuts {
    (i: nat) => if i <= |numbers| then CutAt(numbers, i) else None
  }

  // The first place where the rest is given up, if the coefficients before it are read.
  ghost function DropFrom(read: Reader, cuts: Cuts, numbers: seq<uint64>, i: nat): Option<nat>
    requires Reads(read, numbers) && i <= |numbers|
    decreases |numbers| - i
  {
    var r := read(i);
    if cuts(i).Some? then cuts(i)
    else if r.Read? && r.next + 1 < |numbers| then DropFrom(read, cuts, numbers, r.next + 1)
    else None
  }

  // The proofs about lists reason about an unknown reader.
  ghost predicate Scans(read: Reader, cuts: Cuts, numbers: seq<uint64>) {
    && Reads(read, numbers)
    && forall i: nat {:trigger Peek(i)} :: Peek(i) && i <= |numbers| ==>
         read(i) == ReadCoefficient(numbers, i) && cuts(i) == CutAt(numbers, i)
  }

  lemma {:induction false} ReadersScan(numbers: seq<uint64>)
    ensures Scans(CoefficientReader(numbers), CoefficientCuts(numbers), numbers)
  {
    CoefficientsRead(numbers);
  }

  lemma {:induction false} CutIsInside(read: Reader, cuts: Cuts, numbers: seq<uint64>, i: nat)
    requires Scans(read, cuts, numbers) && i <= |numbers| && cuts(i).Some?
    ensures cuts(i).value + 1 < |numbers| && numbers[cuts(i).value] != 0
  {
    assert Peek(i);
  }

  lemma {:induction false} DropIsInside(read: Reader, cuts: Cuts, numbers: seq<uint64>, i: nat)
    requires Scans(read, cuts, numbers) && i <= |numbers|
    ensures var drop := DropFrom(read, cuts, numbers, i);
      drop.Some? ==> drop.value + 1 < |numbers| && numbers[drop.value] != 0
    decreases |numbers| - i
  {
    var r := read(i);
    if cuts(i).Some? {
      CutIsInside(read, cuts, numbers, i);
    } else if r.Read? && r.next + 1 < |numbers| {
      DropIsInside(read, cuts, numbers, r.next + 1);
    }
  }

  ghost function DropPoint(numbers: seq<uint64>): (drop: Option<nat>)
    ensures drop.Some? ==> drop.value + 1 < |numbers| && numbers[drop.value] != 0
  {
    ReadersScan(numbers);
    DropIsInside(CoefficientReader(numbers), CoefficientCuts(numbers), numbers, 0);
    DropFrom(CoefficientReader(numbers), CoefficientCuts(numbers), numbers, 0)
  }

  // The part of the list that counts.
  ghost function Kept(numbers: seq<uint64>): seq<uint64> {
    match DropPoint(numbers)
    case None => numbers
    case Some(cut) => numbers[..cut]
  }

  lemma {:induction false} ScansSpelled(read: Reader, cuts: Cuts, numbers: seq<uint64>, i: nat, j: nat, ps: seq<Piece>)
    requires Scans(read, cuts, numbers) && Spells(numbers, i, j, ps)
    ensures read(i) == Read(j, Sum(ps)) && cuts(i) == None
  {
    assert Peek(i);
    SpelledIsRead(numbers, i, j, ps);
  }

  // Where a coefficient that is read ends, or is given up.
  function EndAt(read: Reader, cuts: Cuts, i: nat): nat {
    if cuts(i).Some? then cuts(i).value else read(i).next
  }

  lemma {:induction false} SpellsScanned(read: Reader, cuts: Cuts, numbers: seq<uint64>, i: nat) returns (ps: seq<Piece>)
    requires Scans(read, cuts, numbers) && i <= |numbers| && (read(i).Read? || cuts(i).Some?)
    ensures IsCoefficient(ps) && read(i) == Read(read(i).next, Sum(ps))
    ensures var e := EndAt(read, cuts, i);
      i <= e <= |numbers| && numbers[i..e] == Tokens(ps) && (cuts(i).Some? ==> read(i).next == |numbers|)
    ensures cuts(i).None? ==> AtBreak(numbers, read(i).next)
  {
    assert Peek(i);
    if cuts(i).Some? {
      ps := GivenUpIsSpelled(numbers, i);
    } else {
      ps := ReadIsSpelled(numbers, i);
    }
  }

  // ---- Numerals are read ----

  lemma {:induction false} SomeToken(ts: seq<Term>)
    requires IsNumeral(ts)
    ensures NumeralTokens(ts) != []
  {
    PieceToken(ts[0].pieces[0], 3);
  }

  // How the numbers split into a term and what follows it.
  ghost predicate SplitsOff(numbers: seq<uint64>, i: nat, t: Term, tail: seq<uint64>) {
    var j := i + |Tokens(t.pieces)|;
    && Spells(numbers, i, j, t.pieces)
    && (j == |numbers| ==> t.scale == 1 && tail == [])
    && (j < |numbers| ==> t.scale == numbers[j] && numbers[j + 1..] == tail)
  }

  lemma {:induction false} SplitTerm(numbers: seq<uint64>, i: nat, t: Term, tail: seq<uint64>)
    requires i <= |numbers| && numbers[i..] == TermTokens(t) + tail && IsCoefficient(t.pieces)
    requires t.scale >= 10000 || (t.scale == 1 && tail == [])
    ensures SplitsOff(numbers, i, t, tail)
  {
    var n, k, j := |numbers|, i + |TermTokens(t)|, i + |Tokens(t.pieces)|;
    var scale: seq<uint64> := if t.scale == 1 then [] else [t.scale];
    assert numbers[i..] == numbers[i..n];
    SliceConcat(numbers, i, n, TermTokens(t), tail);
    SliceConcat(numbers, i, k, Tokens(t.pieces), scale);
    if t.scale != 1 {
      assert numbers[j..k][0] == scale[0];
    }
  }

  // A numeral stands from i to the end of the list; the definition is used only where Peek(0) is.
  ghost predicate StandsFrom(numbers: seq<uint64>, i: nat, ts: seq<Term>)
    requires i <= |numbers|
  {
    forall k: nat {:trigger Peek(k)} :: Peek(k) ==> numbers[i..] == NumeralTokens(ts) && IsNumeral(ts)
  }

  lemma {:induction false} FirstTerm(numbers: seq<uint64>, i: nat, ts: seq<Term>)
    requires i <= |numbers| && StandsFrom(numbers, i, ts)
    ensures ts != [] && SplitsOff(numbers, i, ts[0], NumeralTokens(ts[1..]))
    ensures var j := i + |Tokens(ts[0].pieces)|;
      if j + 1 < |numbers| then StandsFrom(numbers, j + 1, ts[1..]) else ts[1..] == []
  {
    assert Peek(0);
    if |ts| > 1 {
      SomeToken(ts[1..]);
    }
    SplitTerm(numbers, i, ts[0], NumeralTokens(ts[1..]));
  }

  // The first term is read up to j, and the others stand behind its scale.
  lemma {:induction false} FirstTermIsRead(read: Reader, cuts: Cuts, numbers: seq<uint64>, i: nat, ts: seq<Term>) returns (j: nat)
    requires Scans(read, cuts, numbers) && i <= |numbers| && StandsFrom(numbers, i, ts)
    ensures ts != [] && j <= |numbers| && cuts(i) == None && read(i) == Read(j, Sum(ts[0].pieces))
    ensures ts[0].scale == if j < |numbers| then numbers[j] else 1
    ensures if j + 1 < |numbers| then StandsFrom(numbers, j + 1, ts[1..]) else ts[1..] == []
  {
    FirstTerm(numbers, i, ts);
    j := i + |Tokens(ts[0].pieces)|;
    ScansSpelled(read, cuts, numbers, i, j, ts[0].pieces);
  }

  // One group is read behind another, or is the last.
  lemma {:induction false} GroupIsRead(read: Reader, cuts: Cuts, numbers: seq<uint64>, i: nat, j: nat, g: Group, gs: seq<Group>)
    requires Reads(read, numbers) && i <= |numbers| && j <= |numbers| && cuts(i) == None
    requires read(i) == Read(j, g.coef) && g.base == if j < |numbers| then numbers[j] else 1
    requires if j + 1 < |numbers| then Groups(read, numbers, j + 1) == Some(gs) && DropFrom(read, cuts, numbers, j + 1) == None
             else gs == []
    ensures Groups(read, numbers, i) == Some([g] + gs) && DropFrom(read, cuts, numbers, i) == None
  {
    assert [g] + [] == [g];
  }

  lemma {:induction false} NumeralIsRead(read: Reader, cuts: Cuts, numbers: seq<uint64>, i: nat, ts: seq<Term>)
    requires Scans(read, cuts, numbers) && i <= |numbers| && StandsFrom(numbers, i, ts)
    ensures Groups(read, numbers, i) == Some(GroupsOf(ts)) && DropFrom(read, cuts, numbers, i) == None
    decreases |ts|
  {
    var j := FirstTermIsRead(read, cuts, numbers, i, ts);
    var rest := ts[1..];
    if j + 1 < |numbers| {
      NumeralIsRead(read, cuts, numbers, j + 1, rest);
    }
    GroupIsRead(read, cuts, numbers, i, j, Group(Sum(ts[0].pieces), ts[0].scale), GroupsOf(rest));
  }

  // ---- What is read is a numeral ----

  lemma {:induction false} ConsTerm(t: Term, rest: seq<Term>)
    requires IsCoefficient(t.pieces) && (t.scale >= 10000 || (t.scale == 1 && rest == []))
    requires rest != [] ==> IsNumeral(rest)
    ensures var ts := [t] + rest;
      && IsNumeral(ts) && NumeralTokens(ts) == TermTokens(t) + NumeralTokens(rest)
      && GroupsOf(ts) == [Group(Sum(t.pieces), t.scale)] + GroupsOf(rest)
      && (rest == [] ==> NumeralTokens(ts) == TermTokens(t) && GroupsOf(ts) == [Group(Sum(t.pieces), t.scale)])
  {
    assert ([t] + rest)[1..] == rest;
  }

  lemma {:induction false} TermSlice(numbers: seq<uint64>, i: nat, j: nat, e: nat, ps: seq<Piece>, rest: seq<uint64>)
    requires i <= j < e <= |numbers| && numbers[j] >= 10000
    requires numbers[i..j] == Tokens(ps) && numbers[j + 1..e] == rest
    ensures numbers[i..e] == TermTokens(Term(ps, numbers[j])) + rest
  {
    JoinSlices(numbers, i, j, j + 1, Tokens(ps), [numbers[j]]);
    JoinSlices(numbers, i, j + 1, e, TermTokens(Term(ps, numbers[j])), rest);
  }

  // A numeral spells the part of the list that counts, from i on, and its groups are read.
  ghost predicate IsReadAs(read: Reader, cuts: Cuts, numbers: seq<uint64>, i: nat, ts: seq<Term>)
    requires Reads(read, numbers) && i <= |numbers|
  {
    var drop := DropFrom(read, cuts, numbers, i);
    var e := if drop.Some? then drop.value else |numbers|;
    && i <= e <= |numbers| && numbers[i..e] == NumeralTokens(ts)
    && IsNumeral(ts) && Groups(read, numbers, i) == Some(GroupsOf(ts))
  }

  lemma {:induction false} LastIsRead(read: Reader, cuts: Cuts, numbers: seq<uint64>, i: nat, ps: seq<Piece>)
    requires Reads(read, numbers) && i <= |numbers| && IsCoefficient(ps)
    requires read(i) == Read(|numbers|, Sum(ps))
    requires i <= EndAt(read, cuts, i) <= |numbers| && numbers[i..EndAt(read, cuts, i)] == Tokens(ps)
    ensures IsReadAs(read, cuts, numbers, i, [Term(ps, 1)])
  {
    ConsTerm(Term(ps, 1), []);
    assert [Term(ps, 1)] + [] == [Term(ps, 1)];
  }

  lemma {:induction false} TermIsRead(read: Reader, cuts: Cuts, numbers: seq<uint64>, i: nat, j: nat, ps: seq<Piece>, rest: seq<Term>)
    requires Reads(read, numbers) && i <= j < |numbers| && numbers[j] >= 10000 && IsCoefficient(ps)
    requires read(i) == Read(j, Sum(ps)) && cuts(i) == None && numbers[i..j] == Tokens(ps)
    requires if j + 1 < |numbers| then IsReadAs(read, cuts, numbers, j + 1, rest) else rest == []
    ensures IsReadAs(read, cuts, numbers, i, [Term(ps, numbers[j])] + rest)
  {
    ConsTerm(Term(ps, numbers[j]), rest);
    var drop := DropFrom(read, cuts, numbers, i);
    TermSlice(numbers, i, j, if drop.Some? then drop.value else |numbers|, ps, NumeralTokens(rest));
  }

  lemma {:induction false} ReadIsNumeral(read: Reader, cuts: Cuts, numbers: seq<uint64>, i: nat) returns (ts: seq<Term>)
    requires Scans(read, cuts, numbers) && i <= |numbers|
    requires Groups(read, numbers, i).Some? || DropFrom(read, cuts, numbers, i).Some?
    ensures IsReadAs(read, cuts, numbers, i, ts)
    decreases |numbers| - i
  {
    var ps := SpellsScanned(read, cuts, numbers, i);
    var j := read(i).next;
    if j == |numbers| {
      LastIsRead(read, cuts, numbers, i, ps);
      ts := [Term(ps, 1)];
    } else {
      var rest := [];
      if j + 1 < |numbers| {
        rest := ReadIsNumeral(read, cuts, numbers, j + 1);
      }
      TermIsRead(read, cuts, numbers, i, j, ps, rest);
      ts := [Term(ps, numbers[j])] + rest;
    }
  }

  // ---- The whole list ----

  // A list that spells a numeral has its value, and nothing of it is given up.
  lemma {:induction false} SpelledNumeral(numbers: seq<uint64>, ts: seq<Term>)
    requires IsNumeral(ts) && NumeralTokens(ts) == numbers
    ensures JapaneseValue(numbers) == NumeralValue(ts) && DropPoint(numbers) == None
  {
    ReadersScan(numbers);
    assert numbers[0..] == numbers;
    NumeralIsRead(CoefficientReader(numbers), CoefficientCuts(numbers), numbers, 0, ts);
  }

  lemma {:induction false} KeptNumeral(numbers: seq<uint64>) returns (ts: seq<Term>)
    requires JapaneseValue(numbers).Some? || DropPoint(numbers).Some?
    ensures IsNumeral(ts) && NumeralTokens(ts) == Kept(numbers) && JapaneseValue(numbers) == NumeralValue(ts)
  {
    ReadersScan(numbers);
    ts := ReadIsNumeral(CoefficientReader(numbers), CoefficientCuts(numbers), numbers, 0);
    assert numbers[0..] == numbers;
  }

  // A list has the value of the part of it that counts.
  lemma {:induction false} OnlyKeptCounts(numbers: seq<uint64>)
    ensures JapaneseValue(numbers) == JapaneseValue(Kept(numbers)) && DropPoint(Kept(numbers)) == None
  {
    if DropPoint(numbers).Some? {
      var ts := KeptNumeral(numbers);
      SpelledNumeral(Kept(numbers), ts);
    }
  }

  // A list is read as v if and only if the part of it that counts spells a numeral of value v.
  lemma {:induction false} AcceptsExactlyNumerals(numbers: seq<uint64>, v: nat)
    ensures JapaneseValue(numbers) == Some(v) <==>
      exists ts :: IsNumeral(ts) && NumeralTokens(ts) == Kept(numbers) && NumeralValue(ts) == Some(v)
  {
    OnlyKeptCounts(numbers);
    if JapaneseValue(numbers) == Some(v) {
      var ts := KeptNumeral(numbers);
    }
    forall ts | IsNumeral(ts) && NumeralTokens(ts) == Kept(numbers) && NumeralValue(ts) == Some(v)
      ensures JapaneseValue(numbers) == Some(v)
    {
      SpelledNumeral(Kept(numbers), ts);
    }
  }

  // Every number of an accepted list counts if and only if nothing was given up.
  lemma {:induction false} EveryNumberCounts(numbers: seq<uint64>)
    requires JapaneseValue(numbers).Some?
    ensures (exists ts :: IsNumeral(ts) && NumeralTokens(ts) == numbers && NumeralValue(ts) == JapaneseValue(numbers))
            <==> DropPoint(numbers) == None
  {
    if DropPoint(numbers) == None {
      var ts := KeptNumeral(numbers);
    }
    forall ts | IsNumeral(ts) && NumeralTokens(ts) == numbers
      ensures DropPoint(numbers) == None
    {
      SpelledNumeral(numbers, ts);
    }
  }

  // ---- Lists of which a part is given up ----

  lemma {:induction false} OnePieceNumeral(p: Piece) returns (ts: seq<Term>)
    requires IsCoefficient([p]) && PieceValue(p) < LIMIT
    ensures IsNumeral(ts) && NumeralTokens(ts) == PieceTokens(p) && NumeralValue(ts) == Some(PieceValue(p))
  {
    assert [p] == [p] + [];
    ConsPieces(p, [], 3);
    var t := Term([p], 1);
    ConsTerm(t, []);
    ts := [t] + [];
    var gs := GroupsOf(ts);
    assert Sum([]) == 0 && Total([]) == 0 && gs == [Group(PieceValue(p), 1)];
    assert gs[1..] == [] && Total(gs) == gs[0].coef * 1 && Descending(gs, LIMIT - 1);
  }

  // The one piece that is read before the rest is given up is the value of the list.
  lemma {:induction false} OnlyPieceCounts(s: seq<uint64>, p: Piece)
    requires Abandons(s, 0) && IsCoefficient([p]) && s[..Cut(s, 0)] == PieceTokens(p) && PieceValue(p) < LIMIT
    ensures Kept(s) == PieceTokens(p) && JapaneseValue(s) == Some(PieceValue(p))
  {
    var ts := OnePieceNumeral(p);
    assert CoefficientCuts(s)(0) == Some(Cut(s, 0));
    SpelledNumeral(Kept(s), ts);
    OnlyKeptCounts(s);
  }

  // A run with too many places for the next place, here the hundreds.
  lemma {:induction false} AbandonedTail(s: seq<uint64>)
    requires s == [1000, 5, 6, 7, 8]
    ensures JapaneseValue(s) == Some(1000) && Kept(s) == [1000]
  {
    assert RunEnd(s, 4) == 5 && RunEnd(s, 3) == 5 && RunEnd(s, 2) == 5 && RunEnd(s, 1) == 5;
    assert DecimalValue(s, 1, 2) == 5 && DecimalValue(s, 1, 3) == 56;
    assert DecimalValue(s, 1, 4) == 567 && DecimalValue(s, 1, 5) == 5678;
    assert ReadPlace(s, 0, 1000) == Read(1, 1000);
    assert RunFails(s, 1, 100);
    assert AbandonsFrom(s, 1, 2, true);
    assert s[..1] == PieceTokens(Base(3));
    OnlyPieceCounts(s, Base(3));
  }

  // A run that would fit the tens place, but a number below 10000 follows it.
  lemma {:induction false} AbandonedRun(s: seq<uint64>)
    requires s == [2, 100, 3, 4, 20]
    ensures JapaneseValue(s) == Some(200) && Kept(s) == [2, 100]
  {
    assert RunEnd(s, 4) == 4 && RunEnd(s, 3) == 4 && RunEnd(s, 2) == 4;
    assert ReadPlace(s, 0, 1000) == Failed(0) && ReadPlace(s, 0, 100) == Read(2, 200);
    assert RunFails(s, 2, 10);
    assert AbandonsFrom(s, 2, 1, true) && AbandonsFrom(s, 0, 2, false);
    assert s[..2] == PieceTokens(Times(2, 2));
    OnlyPieceCounts(s, Times(2, 2));
  }
}
