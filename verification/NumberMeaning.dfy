/** What a written numeral stands for, whether or not the readers accept it: a tally kept while going
    through it. Every printed form stands for the printed value, and is written in its own manner. */
module NumberMeaning {
  import opened Hiding
  import opened Wrappers
  import opened NumberParser
  import opened NumberTokens

  // ---- The tally ----

  // What the scales have collected, what the bases below the next scale have, and the digits read last.
  datatype Tally = Tally(total: nat, section: nat, digits: nat) {
    function Value(): nat { total + section + digits }
  }

  function Count(t: Tally, n: nat): Tally {
    if n < 10 then t.(digits := 10 * t.digits + n)
    else if n == 20 then Tally(t.total, t.section + 20, 0)
    else if n < 10000 then Tally(t.total, t.section + (if t.digits == 0 then 1 else t.digits) * n, 0)
    else Tally(t.total + (t.section + t.digits) * n, 0, 0)
  }

  function CountAll(t: Tally, ns: seq<uint64>): Tally {
    if ns == [] then t else Count(CountAll(t, ns[..|ns| - 1]), ns[|ns| - 1])
  }

  lemma {:induction false} CountConcat(t: Tally, a: seq<uint64>, b: seq<uint64>)
    ensures CountAll(t, a + b) == CountAll(CountAll(t, a), b)
  {
    if b == [] {
      assert a + b == a;
    } else {
      CountConcat(t, a, b[..|b| - 1]);
      assert (a + b)[..|a + b| - 1] == a + b[..|b| - 1];
    }
  }

  lemma {:induction false} CountOne(t: Tally, n: uint64)
    ensures CountAll(t, [n]) == Count(t, n)
  {
    assert [n][..0] == [] && CountAll(t, []) == t;
  }

  lemma {:induction false} CountTwo(t: Tally, m: uint64, n: uint64)
    ensures CountAll(t, [m, n]) == Count(Count(t, m), n)
  {
    CountOne(t, m);
    assert [m, n][..1] == [m];
  }

  // ---- The ranks ----

  lemma {:induction false} PlaceCounted(form: Form, digit: nat, place: nat, t: Tally)
    requires form != Arabic && digit < 10 && 1 <= place <= 3 && t.digits == 0
    ensures CountAll(t, Place(form, digit, BaseOf(place))) == t.(section := t.section + PlaceValue(digit, place))
  {
    if digit > 0 {
      CountOne(t, BaseOf(place));
      CountOne(t, 20);
      CountTwo(t, digit, BaseOf(place));
    }
  }

  lemma {:induction false} PlacesCounted(form: Form, q: Quad, place: nat, t: Tally)
    requires form != Arabic && q.Valid() && place <= 3 && t.digits == 0
    ensures ValueBelow(q, place) >= q.d
    ensures CountAll(t, TokensFrom(form, q, place)) == t.(section := t.section + ValueBelow(q, place) - q.d, digits := q.d)
    decreases place
  {
    if place == 0 {
      CountOne(t, q.d);
    } else {
      var t' := t.(section := t.section + PlaceValue(Digit(q, place), place));
      PlaceCounted(form, Digit(q, place), place, t);
      PlacesCounted(form, q, place - 1, t');
      CountConcat(t, Place(form, Digit(q, place), BaseOf(place)), TokensFrom(form, q, place - 1));
    }
  }

  lemma {:induction false} ArabicCounted(q: Quad, t: Tally)
    requires q.Valid() && t.digits == 0
    ensures CountAll(t, QuadTokens(Arabic, q)) == t.(digits := q.Value())
  {
    if q.a > 0 {
      CountTwo(t, q.a, q.b);
      CountTwo(CountAll(t, [q.a, q.b]), q.c, q.d);
      CountConcat(t, [q.a, q.b], [q.c, q.d]);
      assert [q.a, q.b] + [q.c, q.d] == [q.a, q.b, q.c, q.d];
    } else if q.b > 0 {
      CountOne(t, q.b);
      CountTwo(CountAll(t, [q.b]), q.c, q.d);
      CountConcat(t, [q.b], [q.c, q.d]);
      assert [q.b] + [q.c, q.d] == [q.b, q.c, q.d];
    } else if q.c > 0 {
      CountTwo(t, q.c, q.d);
    } else {
      CountOne(t, q.d);
    }
  }

  // A rank adds its value, whatever stands before it.
  ghost predicate IsCounted(c: Chunk) {
    forall total: nat {:trigger Peek(total)} :: Peek(total) ==>
      var t := CountAll(Tally(total, 0, 0), c.tokens);
      t.total == total && t.section + t.digits == c.value
  }

  lemma {:induction false} QuadCounted(form: Form, q: Quad)
    requires q.Valid()
    ensures IsCounted(ChunkOf(form, q))
  {
    forall total: nat | Peek(total)
      ensures var t := CountAll(Tally(total, 0, 0), QuadTokens(form, q));
        t.total == total && t.section + t.digits == q.Value()
    {
      if form == Arabic {
        ArabicCounted(q, Tally(total, 0, 0));
      } else {
        PlacesCounted(form, q, 3, Tally(total, 0, 0));
        AllPlaces(form, q);
      }
    }
  }

  lemma {:induction false} LowestCounted(c: Chunk, total: nat)
    requires IsCounted(c)
    ensures CountAll(Tally(total, 0, 0), RankTokens(c, 0)).Value() == total + Scaled(c.value, 0)
  {
    assert Peek(total);
  }

  lemma {:induction false} ScaleCounted(c: Chunk, rank: nat, total: nat)
    requires IsCounted(c) && 1 <= rank <= 4
    ensures CountAll(Tally(total, 0, 0), RankTokens(c, rank)) == Tally(total + Scaled(c.value, rank), 0, 0)
  {
    assert Peek(total);
    var t := CountAll(Tally(total, 0, 0), c.tokens);
    if c.tokens == [] {
      assert c.value == 0;
    } else {
      CountConcat(Tally(total, 0, 0), c.tokens, [Pow10000(rank)]);
      CountOne(t, Pow10000(rank));
      ScaledIsProduct(c.value, rank);
    }
  }

  // What is counted for the ranks below n, when there is a total already.
  ghost predicate RanksCount(chunks: seq<Chunk>, n: nat, t: Tally)
    requires n <= |chunks| <= 5
  {
    CountAll(t, ChunksTokens(chunks, n)).Value() == t.total + ChunksValue(chunks, n)
  }

  lemma {:induction false} LowestRankCounts(chunks: seq<Chunk>, t: Tally)
    requires 1 <= |chunks| <= 5 && IsCounted(chunks[0]) && t.section == t.digits == 0
    ensures RanksCount(chunks, 1, t)
  {
    LowestCounted(chunks[0], t.total);
    assert ChunksTokens(chunks, 0) == [] && RankTokens(chunks[0], 0) + [] == RankTokens(chunks[0], 0);
  }

  lemma {:induction false} NextRankCounts(chunks: seq<Chunk>, n: nat, t: Tally)
    requires 2 <= n <= |chunks| <= 5 && IsCounted(chunks[n - 1]) && t.section == t.digits == 0
    requires RanksCount(chunks, n - 1, Tally(t.total + Scaled(chunks[n - 1].value, n - 1), 0, 0))
    ensures RanksCount(chunks, n, t)
  {
    ScaleCounted(chunks[n - 1], n - 1, t.total);
    CountConcat(t, RankTokens(chunks[n - 1], n - 1), ChunksTokens(chunks, n - 1));
  }

  lemma {:induction false} ChunksCounted(chunks: seq<Chunk>, n: nat, t: Tally)
    requires 1 <= n <= |chunks| <= 5 && t.section == t.digits == 0
    requires forall k :: 0 <= k < |chunks| ==> IsCounted(chunks[k])
    ensures RanksCount(chunks, n, t)
    decreases n
  {
    if n == 1 {
      LowestRankCounts(chunks, t);
    } else {
      ChunksCounted(chunks, n - 1, Tally(t.total + Scaled(chunks[n - 1].value, n - 1), 0, 0));
      NextRankCounts(chunks, n, t);
    }
  }

  // ---- The manner of each form ----

  predicate IsBase(n: nat) { n == 10 || n == 100 || n == 1000 }

  // Arabic digits: no base, and no zero without a digit before it. Ordinary kanji: no 1 before a base.
  // 大字: a digit before every base, and 弐 before 拾 if and only if 廿 is not used.
  predicate TokenMayFollow(form: Form, before: Option<uint64>, t: uint64) {
    match form
    case Arabic => !IsBase(t) && (t == 0 ==> before.Some? && before.value < 10)
    case Kanji => IsBase(t) ==> before != Some(1)
    case Old => t != 20 && (IsBase(t) ==> before.Some? && 1 <= before.value < 10)
    case Twenty => IsBase(t) ==> before.Some? && 1 <= before.value < 10 && (t == 10 ==> before.value != 2)
  }

  function Before<T>(s: seq<T>, i: nat): Option<T>
    requires i < |s|
  {
    if i > 0 then Some(s[i - 1]) else None
  }

  // The definition is used only where Peek(0) is mentioned.
  ghost predicate InManner(form: Form, ts: seq<uint64>) {
    forall k: nat {:trigger Peek(k)} :: Peek(k) ==>
      forall i :: 0 <= i < |ts| ==> TokenMayFollow(form, Before(ts, i), ts[i])
  }

  lemma {:induction false} MannerConcat(form: Form, a: seq<uint64>, b: seq<uint64>)
    requires InManner(form, a) && InManner(form, b)
    requires form == Kanji && a != [] ==> a[|a| - 1] >= 10
    ensures InManner(form, a + b)
  {
    assert Peek(0);
    forall i | 0 <= i < |a + b|
      ensures TokenMayFollow(form, Before(a + b, i), (a + b)[i])
    {
      if i < |a| {
        assert TokenMayFollow(form, Before(a, i), a[i]);
      } else {
        assert TokenMayFollow(form, Before(b, i - |a|), b[i - |a|]);
      }
    }
  }

  lemma {:induction false} PlaceInManner(form: Form, digit: nat, place: nat)
    requires form != Arabic && digit < 10 && 1 <= place <= 3
    ensures var ts := Place(form, digit, BaseOf(place)); InManner(form, ts) && (ts != [] ==> ts[|ts| - 1] >= 10)
  {
  }

  lemma {:induction false} PlacesInManner(form: Form, q: Quad, place: nat)
    requires form != Arabic && q.Valid() && place <= 3
    ensures InManner(form, TokensFrom(form, q, place))
  {
    if place > 0 {
      PlaceInManner(form, Digit(q, place), place);
      PlacesInManner(form, q, place - 1);
      MannerConcat(form, Place(form, Digit(q, place), BaseOf(place)), TokensFrom(form, q, place - 1));
    }
  }

  lemma {:induction false} QuadInManner(form: Form, q: Quad)
    requires q.Valid()
    ensures InManner(form, QuadTokens(form, q))
  {
    if form != Arabic {
      PlacesInManner(form, q, 3);
    }
  }

  lemma {:induction false} RankInManner(form: Form, c: Chunk, rank: nat)
    requires rank <= 4 && InManner(form, c.tokens)
    ensures var ts := RankTokens(c, rank); InManner(form, ts) && (ts != [] && rank > 0 ==> ts[|ts| - 1] >= 10)
  {
  }

  lemma {:induction false} RanksJoinInManner(form: Form, c: Chunk, rank: nat, below: seq<uint64>)
    requires rank <= 4 && InManner(form, c.tokens) && InManner(form, below) && (rank == 0 ==> below == [])
    ensures InManner(form, RankTokens(c, rank) + below)
  {
    RankInManner(form, c, rank);
    if rank > 0 {
      MannerConcat(form, RankTokens(c, rank), below);
    } else {
      assert RankTokens(c, rank) + below == RankTokens(c, rank);
    }
  }

  lemma {:induction false} ChunksInManner(form: Form, chunks: seq<Chunk>, n: nat)
    requires n <= |chunks| <= 5 && forall k :: 0 <= k < |chunks| ==> InManner(form, chunks[k].tokens)
    ensures InManner(form, ChunksTokens(chunks, n))
  {
    if n > 0 {
      ChunksInManner(form, chunks, n - 1);
      RanksJoinInManner(form, chunks[n - 1], n - 1, ChunksTokens(chunks, n - 1));
    }
  }

  // ---- A printed number ----

  lemma {:induction false} QuadsCounted(form: Form, quads: seq<Quad>)
    requires ValidQuads(quads)
    ensures var chunks := QuadChunks(form, quads);
      forall k :: 0 <= k < |chunks| ==> IsCounted(chunks[k]) && InManner(form, chunks[k].tokens)
  {
    var chunks := QuadChunks(form, quads);
    forall k | 0 <= k < |chunks|
      ensures IsCounted(chunks[k]) && InManner(form, chunks[k].tokens)
    {
      QuadCounted(form, quads[k]);
      QuadInManner(form, quads[k]);
      assert chunks[k] == ChunkOf(form, quads[k]);
    }
  }

  lemma {:induction false} NumberCounted(form: Form, quads: seq<Quad>, t: Tally)
    requires ValidQuads(quads) && quads != [] && t.total == t.section == t.digits == 0
    ensures RanksCount(QuadChunks(form, quads), |quads|, t)
    ensures InManner(form, ChunksTokens(QuadChunks(form, quads), |quads|))
  {
    QuadsCounted(form, quads);
    ChunksCounted(QuadChunks(form, quads), |quads|, t);
    ChunksInManner(form, QuadChunks(form, quads), |quads|);
  }
}
