/** What the readers of a coefficient below 10000 accept, as a grammar: pieces of falling places. They
    accept exactly what the grammar spells, and lists that spell a coefficient up to a run of
    digits at which a reader gives up the rest. */
module NumberGrammar {
  import opened Hiding
  import opened NumberParser

  // ---- Coefficients ----

  // A skipped zero, a final digit, a base alone, 廿, a digit times a base, and a final run of digits.
  datatype Piece =
    | Zero
    | Final(digit: uint64)
    | Base(place: nat)
    | Score
    | Times(digit: uint64, place: nat)
    | Run(digits: seq<uint64>)
  {
    predicate IsLast() { Final? || Run? }
  }

  predicate IsDigits(ds: seq<uint64>) {
    forall k :: 0 <= k < |ds| ==> ds[k] < 10
  }

  // p can come next when the given place is the highest that is still open.
  predicate Fits(p: Piece, place: nat)
    requires place <= 3
  {
    match p
    case Zero => place > 0
    case Final(d) => d < 10 && (d > 0 || place == 0)
    case Base(q) => 1 <= q <= place
    case Score => place > 0
    case Times(d, q) => 1 <= q <= place && 1 <= d < 10 && (d == 1 ==> q == 3)
    case Run(ds) =>
      place > 0 && |ds| >= 2 && ds[0] > 0 && IsDigits(ds) && DecimalValue(ds, 0, |ds|) < 10 * BaseOf(place)
  }

  // The highest place that is open after p.
  function OpenAfter(p: Piece, place: nat): (q: nat)
    requires place <= 3 && Fits(p, place)
    ensures q <= place
  {
    match p
    case Zero => place
    case Base(q) => q - 1
    case Times(_, q) => q - 1
    case _ => 0
  }

  predicate Falling(ps: seq<Piece>, place: nat)
    requires place <= 3
  {
    ps == [] ||
    (Fits(ps[0], place) && (ps[0].IsLast() ==> |ps| == 1) && Falling(ps[1..], OpenAfter(ps[0], place)))
  }

  function PieceTokens(p: Piece): seq<uint64>
  {
    match p
    case Zero => [0]
    case Final(d) => [d]
    case Base(q) => if 1 <= q <= 3 then [BaseOf(q)] else []
    case Score => [20]
    case Times(d, q) => if 1 <= q <= 3 then [d, BaseOf(q)] else []
    case Run(ds) => ds
  }

  function PieceValue(p: Piece): nat
  {
    match p
    case Zero => 0
    case Final(d) => d
    case Base(q) => if 1 <= q <= 3 then BaseOf(q) else 0
    case Score => 20
    case Times(d, q) => if 1 <= q <= 3 then d * BaseOf(q) else 0
    case Run(ds) => DecimalValue(ds, 0, |ds|)
  }

  function Tokens(ps: seq<Piece>): seq<uint64> {
    if ps == [] then [] else PieceTokens(ps[0]) + Tokens(ps[1..])
  }

  function Sum(ps: seq<Piece>): nat {
    if ps == [] then 0 else PieceValue(ps[0]) + Sum(ps[1..])
  }

  // Something besides skipped zeros.
  predicate HasValue(ps: seq<Piece>) {
    ps != [] && (!ps[0].Zero? || HasValue(ps[1..]))
  }

  predicate IsCoefficient(ps: seq<Piece>) {
    Falling(ps, 3) && HasValue(ps)
  }

  // What a reader that reads exactly the pieces up to j reports.
  function ReadingOf(ps: seq<Piece>, j: nat): Reading {
    if HasValue(ps) then Read(j, Sum(ps)) else Failed(j)
  }

  // ---- Giving up ----

  // At a place, a run of digits stands next that does not fit: it has too many places, or a
  // number below 10000 follows it.
  predicate RunFails(numbers: seq<uint64>, i: nat, base: nat)
    requires i <= |numbers|
  {
    var z := SkipZeros(numbers, i);
    && z + 1 < |numbers| && numbers[z] < 10 && numbers[z + 1] < 10
    && var e := RunEnd(numbers, z);
       DecimalValue(numbers, z, e) >= 10 * base || (e < |numbers| && numbers[e] < 10000)
  }

  // From the place down, a run fails after some attempt has succeeded (`read`: one has before).
  predicate AbandonsFrom(numbers: seq<uint64>, i: nat, place: nat, read: bool)
    requires i <= |numbers| && place <= 3
    decreases place
  {
    place > 0 &&
    ((read && RunFails(numbers, i, BaseOf(place)))
     || var r := ReadPlace(numbers, i, BaseOf(place));
        AbandonsFrom(numbers, r.next, place - 1, read || r.Read?))
  }

  // Where the run stands that fails.
  function CutFrom(numbers: seq<uint64>, i: nat, place: nat, read: bool): (cut: nat)
    requires i <= |numbers| && place <= 3 && AbandonsFrom(numbers, i, place, read)
    ensures i <= cut && cut + 1 < |numbers| && numbers[cut] != 0
    decreases place
  {
    if read && RunFails(numbers, i, BaseOf(place)) then SkipZeros(numbers, i)
    else
      var r := ReadPlace(numbers, i, BaseOf(place));
      CutFrom(numbers, r.next, place - 1, read || r.Read?)
  }

  predicate Abandons(numbers: seq<uint64>, i: nat)
    requires i <= |numbers|
  {
    AbandonsFrom(numbers, i, 3, false)
  }

  function Cut(numbers: seq<uint64>, i: nat): (cut: nat)
    requires i <= |numbers| && Abandons(numbers, i)
    ensures i <= cut && cut + 1 < |numbers| && numbers[cut] != 0
  {
    CutFrom(numbers, i, 3, false)
  }

  // ---- The readers accept the grammar ----

  lemma {:induction false} SliceConcat(numbers: seq<uint64>, i: nat, j: nat, a: seq<uint64>, b: seq<uint64>)
    requires i <= j <= |numbers| && numbers[i..j] == a + b
    ensures i + |a| <= j && numbers[i..i + |a|] == a && numbers[i + |a|..j] == b
    ensures forall k :: 0 <= k < |a| ==> numbers[i + k] == a[k]
  {
    assert |numbers[i..j]| == |a| + |b|;
    forall k | 0 <= k < |a|
      ensures numbers[i + k] == a[k]
    {
      assert numbers[i..j][k] == (a + b)[k];
    }
    forall k | 0 <= k < |b|
      ensures numbers[i + |a| + k] == b[k]
    {
      assert numbers[i..j][|a| + k] == (a + b)[|a| + k];
    }
  }

  lemma {:induction false} DecimalValueSlice(numbers: seq<uint64>, i: nat, j: nat, ds: seq<uint64>, k: nat)
    requires i <= j <= |numbers| && ds == numbers[i..j] && k <= |ds|
    ensures DecimalValue(ds, 0, k) == DecimalValue(numbers, i, i + k)
  {
    if k > 0 {
      DecimalValueSlice(numbers, i, j, ds, k - 1);
    }
  }

  lemma {:induction false} RunEndIs(numbers: seq<uint64>, i: nat, e: nat)
    requires i <= e <= |numbers| && (e < |numbers| ==> numbers[e] >= 10)
    requires forall k :: i <= k < e ==> numbers[k] < 10
    ensures RunEnd(numbers, i) == e
    decreases e - i
  {
    if i < e {
      RunEndIs(numbers, i + 1, e);
    }
  }

  lemma {:induction false} NeverAbandonsAtBreak(numbers: seq<uint64>, i: nat, place: nat, read: bool)
    requires i <= |numbers| && place <= 3 && AtBreak(numbers, i)
    ensures !AbandonsFrom(numbers, i, place, read)
  {
    if place > 0 {
      NeverAbandonsAtBreak(numbers, i, place - 1, read);
    }
  }

  // A run up to a break is read at any place it fits.
  lemma {:induction false} ReadsRunPiece(numbers: seq<uint64>, i: nat, j: nat, place: nat, ds: seq<uint64>)
    requires i <= j <= |numbers| && AtBreak(numbers, j) && 1 <= place <= 3
    requires ds == numbers[i..j] && Fits(Run(ds), place)
    ensures ReadPlace(numbers, i, BaseOf(place)) == Read(j, PieceValue(Run(ds))) && !RunFails(numbers, i, BaseOf(place))
  {
    forall k | i <= k < j
      ensures numbers[k] < 10
    {
      assert ds[k - i] == numbers[k];
    }
    RunEndIs(numbers, i, j);
    DecimalValueSlice(numbers, i, j, ds, |ds|);
    assert numbers[i] == ds[0] && numbers[i + 1] == ds[1];
  }

  // A piece with a base is read at its own place.
  lemma {:induction false} ReadsBasePiece(numbers: seq<uint64>, i: nat, p: Piece, place: nat)
    requires 1 <= place <= 3 && i + |PieceTokens(p)| <= |numbers|
    requires forall k :: 0 <= k < |PieceTokens(p)| ==> numbers[i + k] == PieceTokens(p)[k]
    requires Fits(p, place) && (p.Base? || p.Score? || p.Times?) && OpenAfter(p, place) == place - 1
    ensures ReadPlace(numbers, i, BaseOf(place)) == Read(i + |PieceTokens(p)|, PieceValue(p))
    ensures !RunFails(numbers, i, BaseOf(place))
  {
    assert numbers[i + 0] == PieceTokens(p)[0] && SkipZeros(numbers, i) == i;
    if p.Times? {
      assert numbers[i + 1] == PieceTokens(p)[1];
    }
  }

  // Any other piece is not taken for the place, and stops it.
  lemma {:induction false} StopsAtLower(numbers: seq<uint64>, i: nat, p: Piece, place: nat)
    requires 1 <= place <= 3 && i + |PieceTokens(p)| <= |numbers|
    requires forall k :: 0 <= k < |PieceTokens(p)| ==> numbers[i + k] == PieceTokens(p)[k]
    requires Fits(p, place) && !p.Zero? && !p.Run? && (p.Final? ==> AtBreak(numbers, i + 1))
    requires !p.Final? ==> OpenAfter(p, place) < place - 1
    ensures ReadPlace(numbers, i, BaseOf(place)) == Failed(i) && !RunFails(numbers, i, BaseOf(place))
  {
    assert numbers[i + 0] == PieceTokens(p)[0] && SkipZeros(numbers, i) == i;
    if p.Times? {
      assert numbers[i + 1] == PieceTokens(p)[1];
    }
  }

  // All pieces are read, and nothing is given up; the definition is used only where Peek(0) is.
  ghost predicate AreRead(numbers: seq<uint64>, i: nat, j: nat, ps: seq<Piece>, place: nat, read: bool)
    requires i <= |numbers| && place <= 3
  {
    forall k: nat {:trigger Peek(k)} :: Peek(k) ==>
      ReadFrom(numbers, i, place) == ReadingOf(ps, j) && !AbandonsFrom(numbers, i, place, read)
  }

  lemma {:induction false} ZerosAddNothing(ps: seq<Piece>)
    requires !HasValue(ps)
    ensures Sum(ps) == 0
  {
    if ps != [] {
      ZerosAddNothing(ps[1..]);
    }
  }

  lemma {:induction false} PlaceRead(numbers: seq<uint64>, i: nat, k: nat, j: nat, p: Piece, rest: seq<Piece>, place: nat, read: bool)
    requires i <= |numbers| && k <= |numbers| && 1 <= place <= 3 && !p.Zero?
    requires ReadPlace(numbers, i, BaseOf(place)) == Read(k, PieceValue(p)) && !RunFails(numbers, i, BaseOf(place))
    requires AreRead(numbers, k, j, rest, place - 1, true)
    ensures AreRead(numbers, i, j, [p] + rest, place, read)
  {
    assert Peek(0) && ([p] + rest)[1..] == rest;
    if !HasValue(rest) {
      ZerosAddNothing(rest);
    }
  }

  lemma {:induction false} PlaceStopped(numbers: seq<uint64>, i: nat, j: nat, ps: seq<Piece>, place: nat, read: bool)
    requires i <= |numbers| && 1 <= place <= 3
    requires ReadPlace(numbers, i, BaseOf(place)) == Failed(i) && !RunFails(numbers, i, BaseOf(place))
    requires AreRead(numbers, i, j, ps, place - 1, read)
    ensures AreRead(numbers, i, j, ps, place, read)
  {
    assert Peek(0);
  }

  lemma {:induction false} ZeroIsSkipped(numbers: seq<uint64>, i: nat, base: nat)
    requires i < |numbers| && numbers[i] == 0
    ensures ReadPlace(numbers, i, base) == ReadPlace(numbers, i + 1, base)
    ensures RunFails(numbers, i, base) == RunFails(numbers, i + 1, base)
  {
    assert SkipZeros(numbers, i) == SkipZeros(numbers, i + 1);
  }

  lemma {:induction false} ZeroRead(numbers: seq<uint64>, i: nat, j: nat, rest: seq<Piece>, place: nat, read: bool)
    requires i < |numbers| && numbers[i] == 0 && 1 <= place <= 3 && AreRead(numbers, i + 1, j, rest, place, read)
    ensures AreRead(numbers, i, j, [Zero] + rest, place, read)
  {
    assert Peek(0);
    ZeroIsSkipped(numbers, i, BaseOf(place));
    assert ([Zero] + rest)[1..] == rest;
  }

  lemma {:induction false} NothingIsRead(numbers: seq<uint64>, i: nat, place: nat, read: bool)
    requires i <= |numbers| && place <= 3 && AtBreak(numbers, i)
    ensures AreRead(numbers, i, i, [], place, read)
  {
    NothingAtBreak(numbers, i, place);
    NeverAbandonsAtBreak(numbers, i, place, read);
  }

  lemma {:induction false} FinalIsRead(numbers: seq<uint64>, i: nat, p: Piece, read: bool)
    requires i < |numbers| && Fits(p, 0) && numbers[i..i + 1] == PieceTokens(p)
    ensures p.Final? && AreRead(numbers, i, i + 1, [p], 0, read)
  {
    assert numbers[i..i + 1][0] == numbers[i] && PieceTokens(p)[0] == p.digit;
    assert [p][1..] == [] && Sum([p]) == p.digit;
  }

  lemma {:induction false} LowerPlace(ps: seq<Piece>, place: nat)
    requires 1 <= place <= 3 && ps != [] && Falling(ps, place) && !ps[0].Zero? && !ps[0].Run?
    requires !ps[0].Final? ==> OpenAfter(ps[0], place) < place - 1
    ensures Falling(ps, place - 1)
  {
  }

  // The pieces stand from i to j, the first of them at a place that is open; hidden in the same way.
  ghost predicate Stand(numbers: seq<uint64>, i: nat, j: nat, ps: seq<Piece>, place: nat)
    requires i <= j <= |numbers| && place <= 3
  {
    forall k: nat {:trigger Peek(k)} :: Peek(k) ==> numbers[i..j] == Tokens(ps) && Falling(ps, place)
  }

  lemma {:induction false} FirstPiece(numbers: seq<uint64>, i: nat, j: nat, ps: seq<Piece>, place: nat)
    returns (p: Piece, rest: seq<Piece>, k: nat)
    requires i <= j <= |numbers| && place <= 3 && Stand(numbers, i, j, ps, place) && ps != []
    ensures ps == [p] + rest && k == i + |PieceTokens(p)| <= j && numbers[i..k] == PieceTokens(p)
    ensures forall m :: 0 <= m < |PieceTokens(p)| ==> numbers[i + m] == PieceTokens(p)[m]
    ensures Fits(p, place) && Stand(numbers, k, j, rest, OpenAfter(p, place)) && (p.IsLast() ==> rest == [] && k == j)
  {
    assert Peek(0);
    p, rest := ps[0], ps[1..];
    SliceConcat(numbers, i, j, PieceTokens(p), Tokens(rest));
    k := i + |PieceTokens(p)|;
    if p.IsLast() {
      assert |numbers[k..j]| == 0;
    }
  }

  lemma {:induction false} StandLower(numbers: seq<uint64>, i: nat, j: nat, ps: seq<Piece>, place: nat)
    requires i <= j <= |numbers| && 1 <= place <= 3 && Stand(numbers, i, j, ps, place)
    requires ps != [] && Fits(ps[0], place) && !ps[0].Zero? && !ps[0].Run?
    requires !ps[0].Final? ==> OpenAfter(ps[0], place) < place - 1
    ensures Stand(numbers, i, j, ps, place - 1)
  {
    assert Peek(0);
    LowerPlace(ps, place);
  }

  lemma {:induction false} NothingStands(numbers: seq<uint64>, i: nat, j: nat, place: nat, read: bool)
    requires i <= j <= |numbers| && AtBreak(numbers, j) && place <= 3 && Stand(numbers, i, j, [], place)
    ensures AreRead(numbers, i, j, [], place, read)
  {
    assert Peek(0) && |numbers[i..j]| == 0;
    NothingIsRead(numbers, i, place, read);
  }

  lemma {:induction false} RunIsRead(numbers: seq<uint64>, i: nat, j: nat, p: Piece, place: nat, read: bool)
    requires i <= j <= |numbers| && AtBreak(numbers, j) && 1 <= place <= 3
    requires p.Run? && Fits(p, place) && p.digits == numbers[i..j]
    ensures AreRead(numbers, i, j, [p] + [], place, read)
  {
    ReadsRunPiece(numbers, i, j, place, p.digits);
    NothingIsRead(numbers, j, place - 1, true);
    PlaceRead(numbers, i, j, j, p, [], place, read);
  }

  lemma {:induction false} BaseIsRead(numbers: seq<uint64>, i: nat, j: nat, p: Piece, rest: seq<Piece>, place: nat, read: bool)
    requires 1 <= place <= 3 && i + |PieceTokens(p)| <= |numbers|
    requires forall k :: 0 <= k < |PieceTokens(p)| ==> numbers[i + k] == PieceTokens(p)[k]
    requires Fits(p, place) && (p.Base? || p.Score? || p.Times?) && OpenAfter(p, place) == place - 1
    requires AreRead(numbers, i + |PieceTokens(p)|, j, rest, place - 1, true)
    ensures AreRead(numbers, i, j, [p] + rest, place, read)
  {
    ReadsBasePiece(numbers, i, p, place);
    PlaceRead(numbers, i, i + |PieceTokens(p)|, j, p, rest, place, read);
  }

  lemma {:induction false} LowerIsRead(numbers: seq<uint64>, i: nat, j: nat, p: Piece, rest: seq<Piece>, place: nat, read: bool)
    requires 1 <= place <= 3 && i + |PieceTokens(p)| <= |numbers|
    requires forall k :: 0 <= k < |PieceTokens(p)| ==> numbers[i + k] == PieceTokens(p)[k]
    requires Fits(p, place) && !p.Zero? && !p.Run? && (p.Final? ==> AtBreak(numbers, i + 1))
    requires !p.Final? ==> OpenAfter(p, place) < place - 1
    requires AreRead(numbers, i, j, [p] + rest, place - 1, read)
    ensures AreRead(numbers, i, j, [p] + rest, place, read)
  {
    StopsAtLower(numbers, i, p, place);
    PlaceStopped(numbers, i, j, [p] + rest, place, read);
  }

  // The pieces up to a break are read, all of them.
  lemma {:induction false} PiecesAreRead(numbers: seq<uint64>, i: nat, j: nat, ps: seq<Piece>, place: nat, read: bool)
    requires i <= j <= |numbers| && AtBreak(numbers, j) && place <= 3 && Stand(numbers, i, j, ps, place)
    ensures AreRead(numbers, i, j, ps, place, read)
    decreases place, |ps|
  {
    if ps == [] {
      NothingStands(numbers, i, j, place, read);
      return;
    }
    var p, rest, k := FirstPiece(numbers, i, j, ps, place);
    if place == 0 {
      assert ps == [p];
      FinalIsRead(numbers, i, p, read);
    } else if p.Zero? {
      PiecesAreRead(numbers, i + 1, j, rest, place, read);
      ZeroRead(numbers, i, j, rest, place, read);
    } else if p.Run? {
      RunIsRead(numbers, i, j, p, place, read);
    } else if !p.Final? && OpenAfter(p, place) == place - 1 {
      PiecesAreRead(numbers, k, j, rest, place - 1, true);
      BaseIsRead(numbers, i, j, p, rest, place, read);
    } else {
      StandLower(numbers, i, j, ps, place);
      PiecesAreRead(numbers, i, j, ps, place - 1, read);
      LowerIsRead(numbers, i, j, p, rest, place, read);
    }
  }

  // ---- What the readers accept is of the grammar ----

  function Zeros(n: nat): seq<Piece> {
    if n == 0 then [] else [Zero] + Zeros(n - 1)
  }

  lemma {:induction false} ConsPieces(p: Piece, ps: seq<Piece>, place: nat)
    requires place <= 3 && Fits(p, place) && (p.IsLast() ==> ps == []) && Falling(ps, OpenAfter(p, place))
    ensures var all := [p] + ps;
      && Falling(all, place) && Tokens(all) == PieceTokens(p) + Tokens(ps) && Sum(all) == PieceValue(p) + Sum(ps)
      && HasValue(all) == (!p.Zero? || HasValue(ps))
  {
    assert ([p] + ps)[1..] == ps;
  }

  lemma {:induction false} MoreZeros(n: nat, s: seq<uint64>)
    requires n > 0
    ensures seq<uint64>(n, _ => 0) + s == [0] + (seq<uint64>(n - 1, _ => 0) + s)
  {
  }

  lemma {:induction false} ZerosFirst(n: nat, ps: seq<Piece>, place: nat)
    requires 1 <= place <= 3 && Falling(ps, place)
    ensures var all := Zeros(n) + ps;
      && Falling(all, place) && Sum(all) == Sum(ps) && HasValue(all) == HasValue(ps)
      && Tokens(all) == seq(n, _ => 0) + Tokens(ps)
  {
    if n == 0 {
      assert Zeros(n) + ps == ps;
    } else {
      ZerosFirst(n - 1, ps, place);
      MoreZeros(n, Tokens(ps));
      ConsPieces(Zero, Zeros(n - 1) + ps, place);
      assert Zeros(n) + ps == [Zero] + (Zeros(n - 1) + ps);
    }
  }

  lemma {:induction false} JoinSlices(numbers: seq<uint64>, i: nat, k: nat, e: nat, a: seq<uint64>, b: seq<uint64>)
    requires i <= k <= e <= |numbers| && numbers[i..k] == a && numbers[k..e] == b
    ensures numbers[i..e] == a + b
  {
  }

  lemma {:induction false} AfterZeros(numbers: seq<uint64>, i: nat, z: nat, e: nat, ps: seq<Piece>, place: nat)
    requires i <= z <= e <= |numbers| && 1 <= place <= 3
    requires forall k :: i <= k < z ==> numbers[k] == 0
    requires numbers[z..e] == Tokens(ps) && Falling(ps, place)
    ensures var all := Zeros(z - i) + ps;
      numbers[i..e] == Tokens(all) && Falling(all, place) && Sum(all) == Sum(ps) && HasValue(all) == HasValue(ps)
  {
    ZerosFirst(z - i, ps, place);
    var zeros: seq<uint64> := seq(z - i, _ => 0);
    assert numbers[i..z] == zeros;
    JoinSlices(numbers, i, z, e, zeros, Tokens(ps));
  }

  // p is what a place has read behind the zeros.
  ghost predicate IsPieceRead(numbers: seq<uint64>, i: nat, place: nat, p: Piece)
    requires i <= |numbers| && 1 <= place <= 3
  {
    var r, z := ReadPlace(numbers, i, BaseOf(place)), SkipZeros(numbers, i);
    && z < r.next && numbers[z..r.next] == PieceTokens(p) && r == Read(r.next, PieceValue(p))
    && Fits(p, place) && !p.Zero? && !p.Final?
    && (if p.Run? then AtBreak(numbers, r.next) else OpenAfter(p, place) == place - 1)
    && !RunFails(numbers, i, BaseOf(place))
  }

  lemma {:induction false} RunRead(numbers: seq<uint64>, i: nat, place: nat) returns (p: Piece)
    requires i <= |numbers| && 1 <= place <= 3 && ReadPlace(numbers, i, BaseOf(place)).Read?
    requires var z := SkipZeros(numbers, i); z + 1 < |numbers| && numbers[z] < 10 && numbers[z + 1] < 10
    ensures IsPieceRead(numbers, i, place, p)
  {
    var z := SkipZeros(numbers, i);
    var e := RunEnd(numbers, z);
    var ds := numbers[z..e];
    p := Run(ds);
    DecimalValueSlice(numbers, z, e, ds, |ds|);
    assert RunEnd(numbers, z + 1) == e && RunEnd(numbers, z + 2) == e;
    forall k | 0 <= k < |ds|
      ensures ds[k] < 10
    {
      assert ds[k] == numbers[z + k];
    }
  }

  lemma {:induction false} PieceRead(numbers: seq<uint64>, i: nat, place: nat) returns (p: Piece)
    requires i <= |numbers| && 1 <= place <= 3 && ReadPlace(numbers, i, BaseOf(place)).Read?
    ensures IsPieceRead(numbers, i, place, p)
  {
    var z := SkipZeros(numbers, i);
    var r := ReadPlace(numbers, i, BaseOf(place));
    if numbers[z] >= 10 {
      p := if numbers[z] == BaseOf(place) then Base(place) else Score;
    } else if numbers[z + 1] >= 10 {
      p := Times(numbers[z], place);
    } else {
      p := RunRead(numbers, i, place);
    }
  }

  lemma {:induction false} PieceToken(p: Piece, place: nat)
    requires place <= 3 && Fits(p, place)
    ensures PieceTokens(p) != [] && (PieceTokens(p)[0] == 0 ==> p.Zero? || p.Final?)
  {
  }

  // Pieces that do not start with a zero can also stand at the next higher place.
  lemma {:induction false} RaisePlace(ps: seq<Piece>, place: nat)
    requires place < 3 && Falling(ps, place) && (ps != [] ==> Tokens(ps) != [] && Tokens(ps)[0] != 0)
    ensures Falling(ps, place + 1)
  {
  }

  // The end of what was read from a place down: where a run was given up, or where reading stopped.
  function EndFrom(numbers: seq<uint64>, i: nat, place: nat, read: bool): (e: nat)
    requires i <= |numbers| && place <= 3
    ensures i <= e <= |numbers|
  {
    if AbandonsFrom(numbers, i, place, read) then CutFrom(numbers, i, place, read) else ReadFrom(numbers, i, place).next
  }

  // The pieces spell the numbers from i to e; their value is what was read, to e or, if the rest
  // was given up there, to the end of the list.
  ghost predicate Explains(numbers: seq<uint64>, i: nat, e: nat, ps: seq<Piece>, place: nat, gaveUp: bool, r: Reading)
    requires i <= e <= |numbers| && place <= 3
  {
    && numbers[i..e] == Tokens(ps) && Falling(ps, place)
    && r == ReadingOf(ps, if gaveUp then |numbers| else e)
  }

  // A piece is read behind zeros.
  lemma {:induction false} PieceExplained(numbers: seq<uint64>, i: nat, z: nat, k: nat, e: nat, p: Piece, rest: seq<Piece>,
                         place: nat, gaveUp: bool, below: Reading)
    requires i <= z <= k <= e <= |numbers| && 1 <= place <= 3 && forall m :: i <= m < z ==> numbers[m] == 0
    requires numbers[z..k] == PieceTokens(p) && Fits(p, place) && !p.Zero? && (p.IsLast() ==> rest == [])
    requires rest != [] ==> OpenAfter(p, place) == place - 1
    requires Explains(numbers, k, e, rest, place - 1, gaveUp, below)
    ensures Explains(numbers, i, e, Zeros(z - i) + ([p] + rest), place, gaveUp, Then(Read(k, PieceValue(p)), below))
    ensures HasValue(Zeros(z - i) + ([p] + rest))
  {
    ConsPieces(p, rest, place);
    if !HasValue(rest) {
      ZerosAddNothing(rest);
    }
    JoinSlices(numbers, z, k, e, PieceTokens(p), Tokens(rest));
    AfterZeros(numbers, i, z, e, [p] + rest, place);
  }

  // Nothing but zeros is read.
  lemma {:induction false} ZerosExplained(numbers: seq<uint64>, i: nat, z: nat, e: nat, rest: seq<Piece>,
                         place: nat, gaveUp: bool, below: Reading)
    requires i <= z <= e <= |numbers| && 1 <= place <= 3 && forall m :: i <= m < z ==> numbers[m] == 0
    requires z < |numbers| ==> numbers[z] != 0
    requires Explains(numbers, z, e, rest, place - 1, gaveUp, below)
    ensures Explains(numbers, i, e, Zeros(z - i) + rest, place, gaveUp, below)
    ensures HasValue(Zeros(z - i) + rest) == HasValue(rest)
  {
    if rest != [] {
      PieceToken(rest[0], place - 1);
      assert numbers[z..e][0] == numbers[z];
    }
    RaisePlace(rest, place - 1);
    AfterZeros(numbers, i, z, e, rest, place);
  }

  // The place gives up the rest.
  lemma {:induction false} GivingUpExplained(numbers: seq<uint64>, i: nat, z: nat, place: nat)
    requires i <= z <= |numbers| && 1 <= place <= 3 && forall m :: i <= m < z ==> numbers[m] == 0
    ensures Explains(numbers, i, z, Zeros(z - i) + [], place, true, Failed(|numbers|))
  {
    AfterZeros(numbers, i, z, z, [], place);
  }

  lemma {:induction false} OnesExplained(numbers: seq<uint64>, i: nat) returns (ps: seq<Piece>)
    requires i <= |numbers|
    ensures Explains(numbers, i, ReadOnes(numbers, i).next, ps, 0, false, ReadOnes(numbers, i))
  {
    if ReadOnes(numbers, i).Read? {
      ps := [Final(numbers[i])] + [];
      ConsPieces(Final(numbers[i]), [], 0);
      assert Sum([]) == 0 && Tokens([]) == [];
    } else {
      ps := [];
    }
  }

  // A place that gives nothing up leaves it to the lower ones.
  lemma {:induction false} PassesOn(numbers: seq<uint64>, i: nat, place: nat, read: bool)
    requires i <= |numbers| && 1 <= place <= 3 && !RunFails(numbers, i, BaseOf(place))
    ensures var r := ReadPlace(numbers, i, BaseOf(place));
      && AbandonsFrom(numbers, i, place, read) == AbandonsFrom(numbers, r.next, place - 1, read || r.Read?)
      && EndFrom(numbers, i, place, read) == EndFrom(numbers, r.next, place - 1, read || r.Read?)
      && ReadFrom(numbers, i, place) == Then(r, ReadFrom(numbers, r.next, place - 1))
      && (r.Failed? ==> r.next == SkipZeros(numbers, i))
  {
  }

  // A run that fails before anything was read fails the whole reading.
  lemma {:induction false} FirstRunFails(numbers: seq<uint64>, i: nat, place: nat)
    requires i <= |numbers| && 1 <= place <= 3 && RunFails(numbers, i, BaseOf(place))
    ensures ReadFrom(numbers, i, place) == Failed(|numbers|) && !AbandonsFrom(numbers, i, place, false)
  {
    assert ReadPlace(numbers, i, BaseOf(place)) == Failed(|numbers|);
    assert Peek(0);
    NothingIsRead(numbers, |numbers|, place - 1, false);
  }

  // What was read is the reading of pieces.
  lemma {:induction false} ReadIsPieces(numbers: seq<uint64>, i: nat, place: nat, read: bool) returns (ps: seq<Piece>)
    requires i <= |numbers| && place <= 3
    requires AbandonsFrom(numbers, i, place, read)
             || ((read || ReadFrom(numbers, i, place).Read?) && AtBreak(numbers, ReadFrom(numbers, i, place).next))
    ensures Explains(numbers, i, EndFrom(numbers, i, place, read), ps, place, AbandonsFrom(numbers, i, place, read),
                     ReadFrom(numbers, i, place))
    ensures read || HasValue(ps)
    decreases place
  {
    if place == 0 {
      ps := OnesExplained(numbers, i);
      return;
    }
    var z, r := SkipZeros(numbers, i), ReadPlace(numbers, i, BaseOf(place));
    if RunFails(numbers, i, BaseOf(place)) {
      FirstRunFails(numbers, i, place);
      GivingUpExplained(numbers, i, z, place);
      ps := Zeros(z - i) + [];
      return;
    }
    PassesOn(numbers, i, place, read);
    var e := EndFrom(numbers, i, place, read);
    var gaveUp := AbandonsFrom(numbers, i, place, read);
    var below := ReadFrom(numbers, r.next, place - 1);
    if r.Read? {
      var p := PieceRead(numbers, i, place);
      var rest: seq<Piece>;
      if p.Run? {
        assert Peek(0);
        NothingIsRead(numbers, r.next, place - 1, true);
        rest := [];
      } else {
        rest := ReadIsPieces(numbers, r.next, place - 1, true);
      }
      PieceExplained(numbers, i, z, r.next, e, p, rest, place, gaveUp, below);
      ps := Zeros(z - i) + ([p] + rest);
    } else {
      var rest := ReadIsPieces(numbers, z, place - 1, read);
      ZerosExplained(numbers, i, z, e, rest, place, gaveUp, below);
      ps := Zeros(z - i) + rest;
    }
  }

  // ---- Coefficients: what is read, and what is given up ----

  // Up to a break at j, every number from i on belongs to a piece of a coefficient.
  ghost predicate Spells(numbers: seq<uint64>, i: nat, j: nat, ps: seq<Piece>) {
    i <= j <= |numbers| && AtBreak(numbers, j) && numbers[i..j] == Tokens(ps) && IsCoefficient(ps)
  }

  lemma {:induction false} SpelledIsRead(numbers: seq<uint64>, i: nat, j: nat, ps: seq<Piece>)
    requires Spells(numbers, i, j, ps)
    ensures ReadCoefficient(numbers, i) == Read(j, Sum(ps)) && !Abandons(numbers, i)
  {
    assert Peek(0);
    PiecesAreRead(numbers, i, j, ps, 3, false);
  }

  lemma {:induction false} ReadIsSpelled(numbers: seq<uint64>, i: nat) returns (ps: seq<Piece>)
    requires i <= |numbers| && ReadCoefficient(numbers, i).Read? && !Abandons(numbers, i)
    ensures Spells(numbers, i, ReadCoefficient(numbers, i).next, ps) && ReadCoefficient(numbers, i).num == Sum(ps)
  {
    ps := ReadIsPieces(numbers, i, 3, false);
  }

  // Every number up to where an accepted coefficient ends belongs to a piece of it, and the values
  // of the pieces add up to it, if and only if no run was given up.
  lemma {:induction false} EveryTokenCounts(numbers: seq<uint64>, i: nat)
    requires i <= |numbers| && ReadCoefficient(numbers, i).Read?
    ensures var r := ReadCoefficient(numbers, i);
      (exists ps :: Spells(numbers, i, r.next, ps) && Sum(ps) == r.num) <==> !Abandons(numbers, i)
  {
    var r := ReadCoefficient(numbers, i);
    if !Abandons(numbers, i) {
      var ps := ReadIsSpelled(numbers, i);
      assert Spells(numbers, i, r.next, ps);
    } else {
      forall ps | Spells(numbers, i, r.next, ps)
        ensures false
      {
        SpelledIsRead(numbers, i, r.next, ps);
      }
    }
  }

  // The readers accept a coefficient without giving anything up exactly where one is spelled.
  lemma {:induction false} AcceptsExactlyCoefficients(numbers: seq<uint64>, i: nat)
    requires i <= |numbers|
    ensures ReadCoefficient(numbers, i).Read? && !Abandons(numbers, i) <==> exists j, ps :: Spells(numbers, i, j, ps)
  {
    if ReadCoefficient(numbers, i).Read? && !Abandons(numbers, i) {
      var ps := ReadIsSpelled(numbers, i);
      assert Spells(numbers, i, ReadCoefficient(numbers, i).next, ps);
    }
    forall j, ps | Spells(numbers, i, j, ps)
      ensures ReadCoefficient(numbers, i).Read? && !Abandons(numbers, i)
    {
      SpelledIsRead(numbers, i, j, ps);
    }
  }

  // Where a run is given up, the numbers before it are a coefficient, and that is what is read,
  // up to the end of the list.
  lemma {:induction false} GivenUpIsSpelled(numbers: seq<uint64>, i: nat) returns (ps: seq<Piece>)
    requires i <= |numbers| && Abandons(numbers, i)
    ensures IsCoefficient(ps) && i < Cut(numbers, i) && numbers[i..Cut(numbers, i)] == Tokens(ps)
    ensures ReadCoefficient(numbers, i) == Read(|numbers|, Sum(ps))
  {
    ps := ReadIsPieces(numbers, i, 3, false);
  }

  // The same coefficient is read from the list cut off at the run, where nothing is given up.
  lemma {:induction false} AbandonedIsCut(numbers: seq<uint64>, i: nat)
    requires i <= |numbers| && Abandons(numbers, i)
    ensures var cut := Cut(numbers, i);
      && i < cut && cut + 1 < |numbers| && numbers[cut] != 0 && !Abandons(numbers[..cut], i)
      && ReadCoefficient(numbers, i).Read? && ReadCoefficient(numbers, i).next == |numbers|
      && ReadCoefficient(numbers[..cut], i) == Read(cut, ReadCoefficient(numbers, i).num)
  {
    var cut := Cut(numbers, i);
    var ps := GivenUpIsSpelled(numbers, i);
    assert numbers[..cut][i..cut] == numbers[i..cut];
    SpelledIsRead(numbers[..cut], i, cut, ps);
  }
}
