/** The token lists of printed numerals, and the proof that the readers give back the value
    exactly when it fits in 64 bits and the form is one they accept. */
module NumberTokens {
  import opened Hiding
  import opened Wrappers
  import opened NumberParser
  import opened NumberGroups

  // The four digits of one rank: thousands, hundreds, tens, ones.
  datatype Quad = Quad(a: nat, b: nat, c: nat, d: nat) {
    ghost predicate Valid() { a < 10 && b < 10 && c < 10 && d < 10 }
    function Value(): nat { 1000 * a + 100 * b + 10 * c + d }
    predicate IsZero() { a == 0 && b == 0 && c == 0 && d == 0 }
  }

  // Arabic digits, ordinary kanji, 大字, and 大字 with 廿 for 弐拾.
  datatype Form = Arabic | Kanji | Old | Twenty

  function Place(form: Form, digit: nat, base: uint64): seq<uint64>
    requires digit < 10
  {
    if digit == 0 then []
    else if form == Kanji && digit == 1 then [base]
    else if form == Twenty && base == 10 && digit == 2 then [20]
    else [digit, base]
  }

  function Ones(digit: nat): seq<uint64>
    requires digit < 10
  {
    if digit == 0 then [] else [digit]
  }

  function Digit(q: Quad, place: nat): nat
    requires place <= 3
  {
    match place
    case 0 => q.d
    case 1 => q.c
    case 2 => q.b
    case _ => q.a
  }

  // The kanji forms, from the given place down to the ones.
  function TokensFrom(form: Form, q: Quad, place: nat): seq<uint64>
    requires q.Valid() && place <= 3
    decreases q, place
  {
    if place == 0 then Ones(q.d)
    else Place(form, Digit(q, place), BaseOf(place)) + TokensFrom(form, q, place - 1)
  }

  function PlaceValue(digit: nat, place: nat): nat {
    if place == 1 then 10 * digit else if place == 2 then 100 * digit else 1000 * digit
  }

  function ValueBelow(q: Quad, place: nat): nat
    requires place <= 3
    decreases q, place
  {
    if place == 0 then q.d else PlaceValue(Digit(q, place), place) + ValueBelow(q, place - 1)
  }

  function QuadTokens(form: Form, q: Quad): seq<uint64>
    requires q.Valid()
  {
    if form == Arabic then
      if q.a > 0 then [q.a, q.b, q.c, q.d]
      else if q.b > 0 then [q.b, q.c, q.d]
      else if q.c > 0 then [q.c, q.d]
      else Ones(q.d)
    else TokensFrom(form, q, 3)
  }

  // The readers reject a 1 before a hundred or a ten, which only 大字 writes.
  predicate Refused(form: Form, digit: nat, place: nat) {
    (form == Old || form == Twenty) && digit == 1 && 1 <= place < 3
  }

  predicate Accepted(form: Form, q: Quad) {
    !Refused(form, q.b, 2) && !Refused(form, q.c, 1)
  }

  // ts stands at position i of s.
  ghost predicate StandsAt(s: seq<uint64>, i: nat, ts: seq<uint64>) {
    i + |ts| <= |s| && forall k :: 0 <= k < |ts| ==> s[i + k] == ts[k]
  }

  lemma {:induction false} SplitStandsAt(s: seq<uint64>, i: nat, t: seq<uint64>, u: seq<uint64>)
    requires StandsAt(s, i, t + u)
    ensures StandsAt(s, i, t) && StandsAt(s, i + |t|, u)
  {
    forall k | 0 <= k < |t|
      ensures s[i + k] == t[k]
    {
      assert (t + u)[k] == t[k];
    }
    forall k | 0 <= k < |u|
      ensures s[i + |t| + k] == u[k]
    {
      assert (t + u)[|t| + k] == u[k];
    }
  }

  // What stands at i cannot be taken for the place of the given base.
  ghost predicate NoPlace(s: seq<uint64>, i: nat, base: uint64) {
    i == |s| ||
    (i < |s| && s[i] != 0 && s[i] != base && (base == 10 ==> s[i] != 20) &&
     (s[i] < 10 ==> i + 1 == |s| || (s[i + 1] >= 10 && s[i + 1] != base)))
  }

  lemma {:induction false} NoPlaceFails(s: seq<uint64>, i: nat, base: uint64)
    requires NoPlace(s, i, base) && (base == 10 || base == 100 || base == 1000)
    ensures ReadPlace(s, i, base) == Failed(i)
  {
  }

  lemma {:induction false} ReadsPlace(s: seq<uint64>, i: nat, form: Form, digit: nat, place: nat)
    requires form != Arabic && 0 < digit < 10 && 1 <= place <= 3
    requires StandsAt(s, i, Place(form, digit, BaseOf(place)))
    ensures if Refused(form, digit, place)
            then ReadPlace(s, i, BaseOf(place)) == Failed(i) && i + 1 < |s| && s[i] == 1 && s[i + 1] == BaseOf(place)
            else ReadPlace(s, i, BaseOf(place)) == Read(i + |Place(form, digit, BaseOf(place))|, PlaceValue(digit, place))
  {
    var ts := Place(form, digit, BaseOf(place));
    assert s[i] == ts[0] && (|ts| == 2 ==> s[i + 1] == ts[1]);
  }

  // A place that is written starts with a digit followed by its base, the base itself, or 20.
  lemma {:induction false} PlaceIsNoOther(s: seq<uint64>, i: nat, form: Form, digit: nat, place: nat, other: nat)
    requires form != Arabic && 0 < digit < 10 && 1 <= place < other <= 3
    requires StandsAt(s, i, Place(form, digit, BaseOf(place)))
    ensures NoPlace(s, i, BaseOf(other))
  {
    var ts := Place(form, digit, BaseOf(place));
    assert s[i] == ts[0] && (|ts| == 2 ==> s[i + 1] == ts[1]);
  }

  lemma {:induction false} ReadsOnes(s: seq<uint64>, i: nat, digit: nat)
    requires digit < 10 && StandsAt(s, i, Ones(digit)) && AtBreak(s, i + |Ones(digit)|)
    ensures ReadOnes(s, i) == if digit == 0 then Failed(i) else Read(i + 1, digit)
    ensures NoPlace(s, i, 10) && NoPlace(s, i, 100) && NoPlace(s, i, 1000)
  {
    if digit > 0 {
      assert s[i] == Ones(digit)[0];
    }
  }

  // A refused place stops the reader at its base.
  lemma {:induction false} StopsAtRefused(s: seq<uint64>, i: nat, place: nat)
    requires i + 1 < |s| && s[i] == 1 && 10 <= s[i + 1] < 10000 && place <= 2
    requires forall p :: 1 <= p <= place ==> s[i + 1] != BaseOf(p) || p < 3
    ensures ReadFrom(s, i, place) == Read(i + 1, 1)
  {
    if place > 0 {
      assert ReadPlace(s, i, BaseOf(place)) == Failed(i);
      StopsAtRefused(s, i, place - 1);
    }
  }

  // No refused digit at the given place or below it.
  predicate AcceptedBelow(form: Form, q: Quad, place: nat)
    requires place <= 3
    decreases q, place
  {
    place == 0 || (!Refused(form, Digit(q, place), place) && AcceptedBelow(form, q, place - 1))
  }

  // What the reader makes of tokens ts that write v: nothing if they are empty, all of them if
  // no digit is refused, and otherwise it stops before a base.
  ghost predicate Outcome(s: seq<uint64>, i: nat, ts: seq<uint64>, v: nat, accepted: bool, r: Reading)
    requires i <= r.next <= |s|
  {
    if !accepted then r.Read? && !AtBreak(s, r.next)
    else if v == 0 then ts == [] && r == Failed(i)
    else r == Read(i + |ts|, v)
  }

  // What the reader of one place makes of its tokens `head`: nothing to read, a refused 1, before
  // whose base the readers of the lower places stop as well, or the place.
  ghost predicate Found(s: seq<uint64>, i: nat, head: seq<uint64>, v: nat, refused: bool, first: Reading, rest: Reading) {
    && (v == 0 ==> head == [] && first == Failed(i) && !refused)
    && (refused ==> first == Failed(i) && i + 1 < |s| && !AtBreak(s, i + 1) && rest == Read(i + 1, 1))
    && (v > 0 && !refused ==> first == Read(i + |head|, v))
  }

  // The outcome at a place, from what the place itself gave and the outcome below it.
  lemma {:induction false} CombineOutcome(s: seq<uint64>, i: nat, head: seq<uint64>, tail: seq<uint64>, v: nat, w: nat,
                       refused: bool, accepted: bool, first: Reading, rest: Reading)
    requires Found(s, i, head, v, refused, first, rest)
    requires !refused ==> i + |head| <= rest.next <= |s| && Outcome(s, i + |head|, tail, w, accepted, rest)
    ensures i <= Then(first, rest).next <= |s|
    ensures Outcome(s, i, head + tail, v + w, !refused && accepted, Then(first, rest))
  {
  }

  // The tokens from a place down, split into those of the place and the others.
  lemma {:induction false} SplitPlace(s: seq<uint64>, i: nat, form: Form, q: Quad, place: nat)
    requires q.Valid() && 1 <= place <= 3 && StandsAt(s, i, TokensFrom(form, q, place))
    ensures var j := i + |Place(form, Digit(q, place), BaseOf(place))|;
      && StandsAt(s, i, Place(form, Digit(q, place), BaseOf(place))) && StandsAt(s, j, TokensFrom(form, q, place - 1))
      && j + |TokensFrom(form, q, place - 1)| == i + |TokensFrom(form, q, place)|
  {
    SplitStandsAt(s, i, Place(form, Digit(q, place), BaseOf(place)), TokensFrom(form, q, place - 1));
  }

  // Tokens from a place down cannot be taken for a higher place.
  lemma {:induction false} StartsLower(s: seq<uint64>, i: nat, form: Form, q: Quad, place: nat, higher: nat)
    requires form != Arabic && q.Valid() && place < higher <= 3
    requires StandsAt(s, i, TokensFrom(form, q, place)) && AtBreak(s, i + |TokensFrom(form, q, place)|)
    ensures NoPlace(s, i, BaseOf(higher))
    decreases place
  {
    if place == 0 {
      ReadsOnes(s, i, q.d);
    } else {
      SplitPlace(s, i, form, q, place);
      if Digit(q, place) == 0 {
        StartsLower(s, i, form, q, place - 1, higher);
      } else {
        PlaceIsNoOther(s, i, form, Digit(q, place), place, higher);
      }
    }
  }

  lemma {:induction false} FindsPlace(s: seq<uint64>, i: nat, form: Form, q: Quad, place: nat)
    requires form != Arabic && q.Valid() && 1 <= place <= 3
    requires StandsAt(s, i, TokensFrom(form, q, place)) && AtBreak(s, i + |TokensFrom(form, q, place)|)
    ensures var digit, first := Digit(q, place), ReadPlace(s, i, BaseOf(place));
      Found(s, i, Place(form, digit, BaseOf(place)), PlaceValue(digit, place), Refused(form, digit, place),
            first, ReadFrom(s, first.next, place - 1))
  {
    SplitPlace(s, i, form, q, place);
    if Digit(q, place) == 0 {
      StartsLower(s, i, form, q, place - 1, place);
      NoPlaceFails(s, i, BaseOf(place));
    } else {
      ReadsPlace(s, i, form, Digit(q, place), place);
      if Refused(form, Digit(q, place), place) {
        StopsAtRefused(s, i, place - 1);
      }
    }
  }

  // Reading from a place down is reading the place and then the places below it.
  lemma {:induction false} ReadsFirst(s: seq<uint64>, i: nat, place: nat, j: nat) returns (first: Reading, rest: Reading)
    requires 1 <= place <= 3 && i <= |s| && j <= |s|
    ensures first == ReadPlace(s, i, BaseOf(place)) && rest == ReadFrom(s, first.next, place - 1)
    ensures ReadFrom(s, i, place) == Then(first, rest)
    ensures first.next == j ==> rest == ReadFrom(s, j, place - 1)
  {
    first := ReadPlace(s, i, BaseOf(place));
    rest := ReadFrom(s, first.next, place - 1);
  }

  // The outcome from a place down, from what the place gave and the outcome of the places below it.
  lemma {:induction false} CombinePlace(s: seq<uint64>, i: nat, form: Form, q: Quad, place: nat,
                       first: Reading, rest: Reading, below: Reading)
    requires q.Valid() && 1 <= place <= 3
    requires var digit := Digit(q, place);
      Found(s, i, Place(form, digit, BaseOf(place)), PlaceValue(digit, place), Refused(form, digit, place), first, rest)
    requires var j := i + |Place(form, Digit(q, place), BaseOf(place))|;
      && j <= below.next <= |s| && (first.next == j ==> rest == below)
      && Outcome(s, j, TokensFrom(form, q, place - 1), ValueBelow(q, place - 1), AcceptedBelow(form, q, place - 1), below)
    ensures i <= Then(first, rest).next <= |s|
    ensures Outcome(s, i, TokensFrom(form, q, place), ValueBelow(q, place), AcceptedBelow(form, q, place), Then(first, rest))
  {
    var digit := Digit(q, place);
    CombineOutcome(s, i, Place(form, digit, BaseOf(place)), TokensFrom(form, q, place - 1),
                   PlaceValue(digit, place), ValueBelow(q, place - 1), Refused(form, digit, place),
                   AcceptedBelow(form, q, place - 1), first, rest);
  }

  lemma {:induction false} ReadsFrom(s: seq<uint64>, i: nat, form: Form, q: Quad, place: nat)
    requires form != Arabic && q.Valid() && place <= 3
    requires StandsAt(s, i, TokensFrom(form, q, place)) && AtBreak(s, i + |TokensFrom(form, q, place)|)
    ensures Outcome(s, i, TokensFrom(form, q, place), ValueBelow(q, place), AcceptedBelow(form, q, place), ReadFrom(s, i, place))
    decreases place
  {
    if place == 0 {
      ReadsOnes(s, i, q.d);
    } else {
      SplitPlace(s, i, form, q, place);
      var j := i + |Place(form, Digit(q, place), BaseOf(place))|;
      ReadsFrom(s, j, form, q, place - 1);
      FindsPlace(s, i, form, q, place);
      var first, rest := ReadsFirst(s, i, place, j);
      CombinePlace(s, i, form, q, place, first, rest, ReadFrom(s, j, place - 1));
    }
  }

  lemma {:induction false} AllPlaces(form: Form, q: Quad)
    ensures ValueBelow(q, 3) == q.Value() && AcceptedBelow(form, q, 3) == Accepted(form, q)
  {
    assert ValueBelow(q, 2) == 100 * q.b + ValueBelow(q, 1) && ValueBelow(q, 1) == 10 * q.c + ValueBelow(q, 0);
    assert AcceptedBelow(form, q, 2) == (!Refused(form, q.b, 2) && AcceptedBelow(form, q, 1));
    assert AcceptedBelow(form, q, 1) == (!Refused(form, q.c, 1) && AcceptedBelow(form, q, 0));
  }

  lemma {:induction false} ReadsKanjiQuad(s: seq<uint64>, i: nat, form: Form, q: Quad)
    requires form != Arabic && q.Valid() && !q.IsZero() && StandsAt(s, i, QuadTokens(form, q))
    requires AtBreak(s, i + |QuadTokens(form, q)|)
    ensures ReadCoefficient(s, i).next <= |s|
    ensures if Accepted(form, q) then ReadCoefficient(s, i) == Read(i + |QuadTokens(form, q)|, q.Value())
            else ReadCoefficient(s, i).Failed?
  {
    ReadsFrom(s, i, form, q, 3);
    AllPlaces(form, q);
  }

  // ---- Arabic digits ----

  lemma {:induction false} RunStopsAt(s: seq<uint64>, i: nat, e: nat)
    requires i <= e <= |s| && (forall j :: i <= j < e ==> s[j] < 10) && AtBreak(s, e)
    ensures RunEnd(s, i) == e
    decreases e - i
  {
  }

  // The value of at most four digits.
  lemma {:induction false} DigitsValue(s: seq<uint64>, i: nat, ts: seq<uint64>)
    requires StandsAt(s, i, ts) && 1 <= |ts| <= 4 && forall k :: 0 <= k < |ts| ==> ts[k] < 10
    ensures DecimalValue(s, i, i + 1) == ts[0]
    ensures |ts| >= 2 ==> DecimalValue(s, i, i + 2) == 10 * ts[0] + ts[1]
    ensures |ts| >= 3 ==> DecimalValue(s, i, i + 3) == 100 * ts[0] + 10 * ts[1] + ts[2]
    ensures |ts| >= 4 ==> DecimalValue(s, i, i + 4) == 1000 * ts[0] + 100 * ts[1] + 10 * ts[2] + ts[3]
  {
  }

  lemma {:induction false} ArabicTokensValue(s: seq<uint64>, i: nat, q: Quad)
    requires q.Valid() && !q.IsZero() && StandsAt(s, i, QuadTokens(Arabic, q))
    ensures var ts := QuadTokens(Arabic, q);
      1 <= |ts| <= 4 && 0 < ts[0] && (forall k :: 0 <= k < |ts| ==> ts[k] < 10) && DecimalValue(s, i, i + |ts|) == q.Value()
  {
    DigitsValue(s, i, QuadTokens(Arabic, q));
  }

  lemma {:induction false} ReadsArabicQuad(s: seq<uint64>, i: nat, q: Quad)
    requires q.Valid() && !q.IsZero() && StandsAt(s, i, QuadTokens(Arabic, q))
    requires AtBreak(s, i + |QuadTokens(Arabic, q)|)
    ensures ReadCoefficient(s, i) == Read(i + |QuadTokens(Arabic, q)|, q.Value())
  {
    var ts := QuadTokens(Arabic, q);
    var e := i + |ts|;
    ArabicTokensValue(s, i, q);
    assert s[i + 0] == ts[0];
    if |ts| == 1 {
      assert q.a == 0 && q.b == 0 && q.c == 0;
      ReadsOnes(s, i, q.d);
      NoPlaceFails(s, i, 1000);
      NoPlaceFails(s, i, 100);
      NoPlaceFails(s, i, 10);
      assert ReadFrom(s, i, 1) == Read(e, q.d) && ReadFrom(s, i, 2) == Read(e, q.d);
    } else {
      assert s[i + 1] == ts[1];
      assert forall j :: i <= j < e ==> s[j] == ts[j - i];
      RunStopsAt(s, i, e);
      assert ReadPlace(s, i, 1000) == Read(e, q.Value());
      NothingAtBreak(s, e, 2);
    }
  }

  // ---- A whole number ----

  function Pow10000(rank: nat): nat
    requires rank <= 4
  {
    match rank
    case 0 => 1
    case 1 => 10000
    case 2 => 100000000
    case 3 => 1000000000000
    case _ => 10000000000000000
  }

  // What the rest of this section needs to know of the digits of one rank: the tokens that
  // print them, their value, and whether the coefficient reader accepts them.
  datatype Chunk = Chunk(tokens: seq<uint64>, value: nat, accepted: bool)

  function ChunkOf(form: Form, q: Quad): Chunk
    requires q.Valid()
  {
    Chunk(QuadTokens(form, q), q.Value(), Accepted(form, q))
  }

  ghost predicate ValidChunk(c: Chunk) {
    (c.value == 0 <==> c.tokens == []) && (c.value == 0 ==> c.accepted)
  }

  ghost predicate ValidChunks(chunks: seq<Chunk>) {
    |chunks| <= 5 && forall k :: 0 <= k < |chunks| ==> ValidChunk(chunks[k])
  }

  lemma {:induction false} QuadPrintsSomething(form: Form, q: Quad)
    requires q.Valid()
    ensures QuadTokens(form, q) == [] <==> q.Value() == 0
    ensures q.Value() == 0 <==> q.IsZero()
  {
    if form != Arabic {
      assert TokensFrom(form, q, 2) == Place(form, q.b, 100) + TokensFrom(form, q, 1);
      assert TokensFrom(form, q, 1) == Place(form, q.c, 10) + TokensFrom(form, q, 0);
    }
  }

  function Scaled(v: nat, rank: nat): nat
    requires rank <= 4
  {
    match rank
    case 0 => v
    case 1 => 10000 * v
    case 2 => 100000000 * v
    case 3 => 1000000000000 * v
    case _ => 10000000000000000 * v
  }

  lemma {:induction false} ScaledIsProduct(v: nat, rank: nat)
    requires rank <= 4
    ensures Scaled(v, rank) == v * Pow10000(rank)
  {
  }

  // The number whose rank k (a power of 10000) is chunks[k], over the ranks below n.
  function ChunksValue(chunks: seq<Chunk>, n: nat): nat
    requires n <= |chunks| && n <= 5
    decreases chunks, n
  {
    if n == 0 then 0 else Scaled(chunks[n - 1].value, n - 1) + ChunksValue(chunks, n - 1)
  }

  function RankTokens(c: Chunk, rank: nat): seq<uint64>
    requires rank <= 4
  {
    if c.tokens == [] || rank == 0 then c.tokens else c.tokens + [Pow10000(rank)]
  }

  // The printed tokens of the ranks below n, highest first.
  function ChunksTokens(chunks: seq<Chunk>, n: nat): seq<uint64>
    requires n <= |chunks| && n <= 5
    decreases chunks, n
  {
    if n == 0 then [] else RankTokens(chunks[n - 1], n - 1) + ChunksTokens(chunks, n - 1)
  }

  predicate ChunksAccepted(chunks: seq<Chunk>, n: nat)
    requires n <= |chunks|
    decreases chunks, n
  {
    n == 0 || (chunks[n - 1].accepted && ChunksAccepted(chunks, n - 1))
  }

  // The reader reads a chunk before a break, or refuses it.
  ghost predicate ReadsChunk(read: Reader, s: seq<uint64>, c: Chunk) {
    forall i: nat {:trigger StandsAt(s, i, c.tokens)} ::
      StandsAt(s, i, c.tokens) && AtBreak(s, i + |c.tokens|) ==>
      if c.accepted then read(i) == Read(i + |c.tokens|, c.value) else read(i).Failed?
  }

  ghost predicate ReadsChunks(read: Reader, s: seq<uint64>, chunks: seq<Chunk>) {
    forall k: nat {:trigger Peek(k)} :: Peek(k) && k < |chunks| && chunks[k].value > 0 ==> ReadsChunk(read, s, chunks[k])
  }

  lemma {:induction false} ZeroRankTokens(c: Chunk, rank: nat)
    requires rank <= 4 && ValidChunk(c)
    ensures RankTokens(c, rank) == [] <==> c.value == 0
    ensures Scaled(c.value, rank) == 0 <==> c.value == 0
  {
  }

  lemma {:induction false} NothingJoined(a: seq<uint64>, b: seq<uint64>)
    ensures a + b == [] <==> a == [] && b == []
  {
    assert |a + b| == |a| + |b|;
  }

  lemma {:induction false} ZeroPrintsNothing(chunks: seq<Chunk>, n: nat)
    requires ValidChunks(chunks) && n <= |chunks|
    ensures ChunksValue(chunks, n) == 0 <==> ChunksTokens(chunks, n) == []
    ensures ChunksValue(chunks, n) == 0 ==> ChunksAccepted(chunks, n)
  {
    if n > 0 {
      ZeroRankTokens(chunks[n - 1], n - 1);
      ZeroPrintsNothing(chunks, n - 1);
      NothingJoined(RankTokens(chunks[n - 1], n - 1), ChunksTokens(chunks, n - 1));
    }
  }

  // The value of the ranks below n added to acc, if every chunk is accepted and it fits.
  function Expected(chunks: seq<Chunk>, n: nat, acc: nat): Option<nat>
    requires n <= |chunks| && n <= 5
  {
    if ChunksAccepted(chunks, n) && acc + ChunksValue(chunks, n) < LIMIT then Some(acc + ChunksValue(chunks, n)) else None
  }

  lemma {:induction false} SplitWhole(s: seq<uint64>, i: nat, whole: seq<uint64>, t: seq<uint64>, u: seq<uint64>)
    requires StandsAt(s, i, whole) && whole == t + u
    ensures StandsAt(s, i, t) && StandsAt(s, i + |t|, u) && |t| + |u| == |whole|
  {
    SplitStandsAt(s, i, t, u);
  }

  // The tokens of the ranks below n, split into those of the highest and the others.
  lemma {:induction false} SplitRank(s: seq<uint64>, i: nat, chunks: seq<Chunk>, n: nat)
    requires 0 < n <= |chunks| <= 5 && StandsAt(s, i, ChunksTokens(chunks, n))
    ensures var j := i + |RankTokens(chunks[n - 1], n - 1)|;
      && StandsAt(s, i, RankTokens(chunks[n - 1], n - 1)) && StandsAt(s, j, ChunksTokens(chunks, n - 1))
      && j + |ChunksTokens(chunks, n - 1)| == i + |ChunksTokens(chunks, n)|
  {
    SplitWhole(s, i, ChunksTokens(chunks, n), RankTokens(chunks[n - 1], n - 1), ChunksTokens(chunks, n - 1));
  }

  lemma {:induction false} SkipsZeroRank(chunks: seq<Chunk>, n: nat, acc: nat)
    requires ValidChunks(chunks) && 0 < n <= |chunks| && chunks[n - 1].value == 0
    ensures Expected(chunks, n, acc) == Expected(chunks, n - 1, acc)
  {
  }

  lemma {:induction false} ReadsOnesRank(read: Reader, s: seq<uint64>, i: nat, chunks: seq<Chunk>, bound: nat, acc: nat)
    requires Reads(read, s) && ValidChunks(chunks) && |chunks| >= 1 && chunks[0].value > 0 && bound >= 10000
    requires ReadsChunks(read, s, chunks)
    requires StandsAt(s, i, chunks[0].tokens) && i + |chunks[0].tokens| == |s|
    ensures ValueFrom(read, s, i, bound, acc) == Expected(chunks, 1, acc)
  {
    assert Peek(0);
    assert ChunksValue(chunks, 0) == 0 && ChunksAccepted(chunks, 0);
    OneGroup(read, s, i, bound, acc);
  }

  // What is known after the digits of a rank were read: its scale follows.
  ghost predicate RankRead(read: Reader, s: seq<uint64>, i: nat, c: Chunk, rank: nat)
    requires rank <= 4
  {
    var e := i + |c.tokens|;
    && e < |s| && s[e] == Pow10000(rank) && e + 1 == i + |RankTokens(c, rank)|
    && if c.accepted then read(i) == Read(e, c.value) else read(i).Failed?
  }

  lemma {:induction false} ReadsRank(read: Reader, s: seq<uint64>, i: nat, chunks: seq<Chunk>, rank: nat)
    requires rank < |chunks| && ReadsChunks(read, s, chunks) && chunks[rank].value > 0 && chunks[rank].tokens != []
    requires 0 < rank <= 4 && StandsAt(s, i, RankTokens(chunks[rank], rank))
    ensures RankRead(read, s, i, chunks[rank], rank)
  {
    var c := chunks[rank];
    assert Peek(rank);
    SplitStandsAt(s, i, c.tokens, [Pow10000(rank)]);
    assert s[i + |c.tokens| + 0] == [Pow10000(rank)][0];
  }

  // The value of the ranks below n, whose tokens stand at j, if there are any, after rank c.
  ghost predicate RestRead(read: Reader, s: seq<uint64>, j: nat, c: Chunk, chunks: seq<Chunk>, n: nat, acc: nat)
    requires Reads(read, s) && 0 < n <= |chunks| && n <= 5
  {
    j < |s| ==> ValueFrom(read, s, j, Pow10000(n - 1), acc + Scaled(c.value, n - 1))
                == Expected(chunks, n - 1, acc + Scaled(c.value, n - 1))
  }

  // The step of ReadsNumber at a nonzero rank above the ones.
  lemma {:induction false} ReadsHighRank(read: Reader, s: seq<uint64>, i: nat, c: Chunk, chunks: seq<Chunk>, n: nat, bound: nat, acc: nat)
    requires Reads(read, s) && 2 <= n <= |chunks| && n <= 5 && i <= |s| && bound >= 10000 && bound > Pow10000(n - 1)
    requires c == chunks[n - 1] && RankRead(read, s, i, c, n - 1)
    requires RestRead(read, s, i + |RankTokens(c, n - 1)|, c, chunks, n, acc)
    requires ChunksValue(chunks, n - 1) == 0 <==> i + |RankTokens(c, n - 1)| == |s|
    requires ChunksValue(chunks, n - 1) == 0 ==> ChunksAccepted(chunks, n - 1)
    ensures ValueFrom(read, s, i, bound, acc) == Expected(chunks, n, acc)
  {
    ScaledIsProduct(c.value, n - 1);
    OneGroup(read, s, i, bound, acc);
  }

  lemma {:induction false} NothingBelow(s: seq<uint64>, j: nat, chunks: seq<Chunk>, n: nat)
    requires ValidChunks(chunks) && n <= |chunks| && j + |ChunksTokens(chunks, n)| == |s|
    ensures ChunksValue(chunks, n) == 0 <==> j == |s|
    ensures ChunksValue(chunks, n) == 0 ==> ChunksAccepted(chunks, n)
  {
    ZeroPrintsNothing(chunks, n);
  }

  // The tokens of the ranks below n, or of one rank, stand from i to the end of s, or to j; the
  // definitions are used only where Peek(0) is mentioned.
  ghost predicate RanksStand(s: seq<uint64>, i: nat, chunks: seq<Chunk>, n: nat)
    requires n <= |chunks| <= 5
  {
    forall k: nat {:trigger Peek(k)} :: Peek(k) ==>
      StandsAt(s, i, ChunksTokens(chunks, n)) && i + |ChunksTokens(chunks, n)| == |s|
  }

  ghost predicate RankStands(s: seq<uint64>, i: nat, j: nat, c: Chunk, rank: nat)
    requires rank <= 4
  {
    forall k: nat {:trigger Peek(k)} :: Peek(k) ==> StandsAt(s, i, RankTokens(c, rank)) && j == i + |RankTokens(c, rank)|
  }

  // A rank of zeros is passed over.
  lemma {:induction false} ZeroRank(chunks: seq<Chunk>, n: nat, bound: nat)
    requires ValidChunks(chunks) && 0 < n <= |chunks| && chunks[n - 1].value == 0 && ChunksValue(chunks, n) > 0
    requires bound > Pow10000(n - 1)
    ensures n >= 2 && ChunksValue(chunks, n - 1) > 0 && bound > Pow10000(n - 2)
  {
    ZeroRankTokens(chunks[n - 1], n - 1);
    assert ChunksValue(chunks, 0) == 0;
  }

  lemma {:induction false} PassesZeroRank(read: Reader, s: seq<uint64>, i: nat, j: nat, chunks: seq<Chunk>, n: nat, bound: nat, acc: nat)
    requires Reads(read, s) && ValidChunks(chunks) && 0 < n <= |chunks| && chunks[n - 1].value == 0 && i == j <= |s|
    requires ValueFrom(read, s, j, bound, acc) == Expected(chunks, n - 1, acc)
    ensures ValueFrom(read, s, i, bound, acc) == Expected(chunks, n, acc)
  {
    SkipsZeroRank(chunks, n, acc);
  }

  lemma {:induction false} HighestRank(s: seq<uint64>, i: nat, chunks: seq<Chunk>, n: nat) returns (j: nat)
    requires ValidChunks(chunks) && 0 < n <= |chunks| && RanksStand(s, i, chunks, n)
    ensures i <= j <= |s| && RankStands(s, i, j, chunks[n - 1], n - 1) && RanksStand(s, j, chunks, n - 1)
    ensures chunks[n - 1].value == 0 ==> j == i
  {
    assert Peek(0);
    SplitRank(s, i, chunks, n);
    ZeroRankTokens(chunks[n - 1], n - 1);
    j := i + |RankTokens(chunks[n - 1], n - 1)|;
  }

  lemma {:induction false} ReadsLowestRank(read: Reader, s: seq<uint64>, i: nat, chunks: seq<Chunk>, bound: nat, acc: nat)
    requires Reads(read, s) && ReadsChunks(read, s, chunks) && ValidChunks(chunks) && |chunks| >= 1
    requires RanksStand(s, i, chunks, 1) && i <= |s| && chunks[0].value > 0 && bound >= 10000
    ensures ValueFrom(read, s, i, bound, acc) == Expected(chunks, 1, acc)
  {
    assert Peek(0);
    assert ChunksTokens(chunks, 0) == [] && RankTokens(chunks[0], 0) + [] == chunks[0].tokens;
    ReadsOnesRank(read, s, i, chunks, bound, acc);
  }

  // The rank c above the ones, and whether anything stands behind it.
  lemma {:induction false} HigherRank(read: Reader, s: seq<uint64>, i: nat, j: nat, chunks: seq<Chunk>, n: nat)
    requires Reads(read, s) && ReadsChunks(read, s, chunks) && ValidChunks(chunks) && 2 <= n <= |chunks|
    requires chunks[n - 1].value > 0 && RankStands(s, i, j, chunks[n - 1], n - 1) && RanksStand(s, j, chunks, n - 1)
    ensures RankRead(read, s, i, chunks[n - 1], n - 1) && j == i + |RankTokens(chunks[n - 1], n - 1)|
    ensures ChunksValue(chunks, n - 1) == 0 <==> j == |s|
    ensures ChunksValue(chunks, n - 1) == 0 ==> ChunksAccepted(chunks, n - 1)
  {
    assert Peek(0);
    ZeroRankTokens(chunks[n - 1], n - 1);
    ReadsRank(read, s, i, chunks, n - 1);
    NothingBelow(s, j, chunks, n - 1);
  }

  lemma {:induction false} ScalesDescend(rank: nat)
    requires 1 <= rank <= 4
    ensures 10000 <= Pow10000(rank) && Pow10000(rank - 1) < Pow10000(rank)
  {
  }

  lemma {:induction false} ReadsNumber(read: Reader, s: seq<uint64>, i: nat, chunks: seq<Chunk>, n: nat, bound: nat, acc: nat)
    requires Reads(read, s) && ReadsChunks(read, s, chunks)
    requires ValidChunks(chunks) && 0 < n <= |chunks| && ChunksValue(chunks, n) > 0
    requires i <= |s| && RanksStand(s, i, chunks, n)
    requires bound >= 10000 && bound > Pow10000(n - 1)
    ensures ValueFrom(read, s, i, bound, acc) == Expected(chunks, n, acc)
    decreases n, 2
  {
    var j := HighestRank(s, i, chunks, n);
    if chunks[n - 1].value == 0 {
      ZeroRank(chunks, n, bound);
      ReadsNumber(read, s, j, chunks, n - 1, bound, acc);
      PassesZeroRank(read, s, i, j, chunks, n, bound, acc);
    } else if n == 1 {
      ReadsLowestRank(read, s, i, chunks, bound, acc);
    } else {
      ReadsHigherRanks(read, s, i, j, chunks, n, bound, acc);
    }
  }

  // The highest of several ranks, up to j, and the others.
  lemma {:induction false} ReadsHigherRanks(read: Reader, s: seq<uint64>, i: nat, j: nat, chunks: seq<Chunk>, n: nat, bound: nat, acc: nat)
    requires Reads(read, s) && ReadsChunks(read, s, chunks)
    requires ValidChunks(chunks) && 2 <= n <= |chunks| && chunks[n - 1].value > 0 && i <= j <= |s|
    requires RankStands(s, i, j, chunks[n - 1], n - 1) && RanksStand(s, j, chunks, n - 1)
    requires bound >= 10000 && bound > Pow10000(n - 1)
    ensures ValueFrom(read, s, i, bound, acc) == Expected(chunks, n, acc)
    decreases n, 1
  {
    var c := chunks[n - 1];
    HigherRank(read, s, i, j, chunks, n);
    ReadsRest(read, s, j, c, chunks, n, acc);
    ReadsHighRank(read, s, i, c, chunks, n, bound, acc);
  }

  // What is read behind a rank c above the ones, at j.
  lemma {:induction false} ReadsRest(read: Reader, s: seq<uint64>, j: nat, c: Chunk, chunks: seq<Chunk>, n: nat, acc: nat)
    requires Reads(read, s) && ReadsChunks(read, s, chunks) && ValidChunks(chunks) && 2 <= n <= |chunks|
    requires j <= |s| && RanksStand(s, j, chunks, n - 1)
    requires j < |s| ==> ChunksValue(chunks, n - 1) > 0
    ensures RestRead(read, s, j, c, chunks, n, acc)
    decreases n, 0
  {
    if j < |s| {
      ScalesDescend(n - 1);
      ReadsNumber(read, s, j, chunks, n - 1, Pow10000(n - 1), acc + Scaled(c.value, n - 1));
    }
  }

  // ---- Printed numerals ----

  ghost predicate ValidQuads(quads: seq<Quad>) {
    |quads| <= 5 && forall k :: 0 <= k < |quads| ==> quads[k].Valid()
  }

  function QuadChunks(form: Form, quads: seq<Quad>): (chunks: seq<Chunk>)
    requires ValidQuads(quads)
    ensures |chunks| == |quads|
  {
    seq(|quads|, k requires 0 <= k < |quads| => ChunkOf(form, quads[k]))
  }

  lemma {:induction false} ZeroQuadAccepted(form: Form, q: Quad)
    requires q.IsZero()
    ensures Accepted(form, q)
  {
  }

  lemma {:induction false} ChunkValid(tokens: seq<uint64>, value: nat, accepted: bool)
    requires tokens == [] <==> value == 0
    requires value == 0 ==> accepted
    ensures ValidChunk(Chunk(tokens, value, accepted))
  {
  }

  lemma {:induction false} ChunkOfValid(form: Form, q: Quad)
    requires q.Valid()
    ensures ValidChunk(ChunkOf(form, q))
  {
    QuadPrintsSomething(form, q);
    if q.Value() == 0 {
      ZeroQuadAccepted(form, q);
    }
    ChunkValid(QuadTokens(form, q), q.Value(), Accepted(form, q));
  }

  lemma {:induction false} QuadChunksValid(form: Form, quads: seq<Quad>)
    requires ValidQuads(quads)
    ensures ValidChunks(QuadChunks(form, quads))
  {
    var chunks := QuadChunks(form, quads);
    forall k | 0 <= k < |chunks|
      ensures ValidChunk(chunks[k])
    {
      ChunkOfValid(form, quads[k]);
    }
  }

  lemma {:induction false} ReadsQuad(s: seq<uint64>, form: Form, q: Quad)
    requires q.Valid() && q.Value() > 0
    ensures ReadsChunk(CoefficientReader(s), s, ChunkOf(form, q))
  {
    forall i: nat | StandsAt(s, i, QuadTokens(form, q)) && AtBreak(s, i + |QuadTokens(form, q)|)
      ensures if Accepted(form, q) then ReadCoefficient(s, i) == Read(i + |QuadTokens(form, q)|, q.Value())
              else ReadCoefficient(s, i).Failed?
    {
      QuadPrintsSomething(form, q);
      if form == Arabic {
        ReadsArabicQuad(s, i, q);
      } else {
        ReadsKanjiQuad(s, i, form, q);
      }
    }
  }

  lemma {:induction false} SplitAllDigits(t: seq<uint64>, u: seq<uint64>)
    requires AllDigits(t + u)
    ensures AllDigits(t) && AllDigits(u)
  {
    forall k | 0 <= k < |t|
      ensures t[k] < 10
    {
      assert (t + u)[k] == t[k];
    }
    forall k | 0 <= k < |u|
      ensures u[k] < 10
    {
      assert (t + u)[|t| + k] == u[k];
    }
  }

  // A nonzero rank above the ones prints its scale, which is not a digit.
  lemma {:induction false} ScaleIsNoDigit(c: Chunk, rank: nat)
    requires 0 < rank <= 4 && c.tokens != []
    ensures !AllDigits(RankTokens(c, rank))
  {
    assert RankTokens(c, rank)[|c.tokens|] == Pow10000(rank);
  }

  // Scales are not digits, so a list of digits prints the lowest rank alone.
  lemma {:induction false} DigitsAreLowestRank(chunks: seq<Chunk>, n: nat)
    requires ValidChunks(chunks) && 0 < n <= |chunks| && AllDigits(ChunksTokens(chunks, n))
    ensures ChunksTokens(chunks, n) == chunks[0].tokens
    ensures Expected(chunks, n, 0) == Expected(chunks, 1, 0)
  {
    var head, rest := RankTokens(chunks[n - 1], n - 1), ChunksTokens(chunks, n - 1);
    SplitAllDigits(head, rest);
    if n > 1 {
      if chunks[n - 1].tokens != [] {
        ScaleIsNoDigit(chunks[n - 1], n - 1);
      }
      assert head + rest == rest;
      DigitsAreLowestRank(chunks, n - 1);
      SkipsZeroRank(chunks, n, 0);
    } else {
      assert head + rest == head;
    }
  }

  lemma {:induction false} DigitReadsItself(ts: seq<uint64>)
    requires |ts| == 1 && ts[0] < 10
    ensures Base10Value(ts) == Some(ts[0])
  {
    RunStopsAt(ts, 0, 1);
    assert DecimalValue(ts, 0, 1) == 10 * DecimalValue(ts, 0, 0) + ts[0];
  }

  lemma {:induction false} ArabicReadsAsDigits(q: Quad)
    requires q.Valid() && !q.IsZero()
    ensures Base10Value(QuadTokens(Arabic, q)) == Some(q.Value())
  {
    var ts := QuadTokens(Arabic, q);
    ArabicTokensValue(ts, 0, q);
    RunStopsAt(ts, 0, |ts|);
  }

  // A digit above the ones prints its base.
  lemma {:induction false} BaseIsNoDigit(form: Form, digit: nat, place: nat)
    requires form != Arabic && 0 < digit < 10 && 1 <= place <= 3
    ensures !AllDigits(Place(form, digit, BaseOf(place)))
  {
    var ts := Place(form, digit, BaseOf(place));
    assert ts[|ts| - 1] >= 10;
  }

  lemma {:induction false} OnlyOnes(form: Form, q: Quad, place: nat)
    requires form != Arabic && q.Valid() && place <= 3 && AllDigits(TokensFrom(form, q, place))
    ensures TokensFrom(form, q, place) == Ones(q.d) && forall p :: 1 <= p <= place ==> Digit(q, p) == 0
  {
    if place > 0 {
      var head, tail := Place(form, Digit(q, place), BaseOf(place)), TokensFrom(form, q, place - 1);
      SplitAllDigits(head, tail);
      if Digit(q, place) != 0 {
        BaseIsNoDigit(form, Digit(q, place), place);
      }
      assert head + tail == tail;
      OnlyOnes(form, q, place - 1);
    }
  }

  // A quad that prints only digits is read as a plain number.
  lemma {:induction false} DigitsOfQuad(form: Form, q: Quad)
    requires q.Valid() && q.Value() > 0 && AllDigits(QuadTokens(form, q))
    ensures Accepted(form, q) && Base10Value(QuadTokens(form, q)) == Some(q.Value())
  {
    if form == Arabic {
      ArabicReadsAsDigits(q);
    } else {
      OnlyOnes(form, q, 3);
      assert Digit(q, 3) == 0 && Digit(q, 2) == 0 && Digit(q, 1) == 0;
      DigitReadsItself([q.d]);
    }
  }

  lemma {:induction false} LowestRankNormalizes(form: Form, quads: seq<Quad>)
    requires ValidQuads(quads) && |quads| > 0 && quads[0].Value() > 0 && AllDigits(QuadTokens(form, quads[0]))
    ensures Base10Value(QuadTokens(form, quads[0])) == Expected(QuadChunks(form, quads), 1, 0)
  {
    var chunks := QuadChunks(form, quads);
    DigitsOfQuad(form, quads[0]);
    assert ChunksValue(chunks, 0) == 0 && ChunksAccepted(chunks, 0);
  }

  // The readers give back exactly the value of a printed number, and nothing if it needs more
  // than 64 bits or has a 1 that 大字 writes and the readers refuse.
  lemma {:induction false} PrintedNormalizes(form: Form, quads: seq<Quad>)
    requires ValidQuads(quads)
    ensures var chunks := QuadChunks(form, quads);
      ChunksValue(chunks, |quads|) > 0 ==>
        NormalizedValue(ChunksTokens(chunks, |quads|)) == Expected(chunks, |quads|, 0)
  {
    var chunks := QuadChunks(form, quads);
    if ChunksValue(chunks, |quads|) > 0 {
      QuadChunksValid(form, quads);
      ZeroPrintsNothing(chunks, |quads|);
      var s := ChunksTokens(chunks, |quads|);
      if AllDigits(s) {
        DigitsAreLowestRank(chunks, |quads|);
        LowestRankNormalizes(form, quads);
      } else {
        forall k: nat | k < |chunks| && chunks[k].value > 0
          ensures ReadsChunk(CoefficientReader(s), s, chunks[k])
        {
          ReadsQuad(s, form, quads[k]);
        }
        CoefficientsRead(s);
        assert Peek(0);
        ReadsNumber(CoefficientReader(s), s, 0, chunks, |quads|, LIMIT - 1, 0);
      }
    }
  }
}
