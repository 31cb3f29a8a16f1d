/** The readers of Japanese numerals in `number_util.cc`, over the token list that the
    character table yields ("二百十一" is [2, 100, 10, 1]). Iterators are positions in the
    list; 64-bit arithmetic wraps, and the source's overflow checks are modelled as written. */
module NumberParser {
  import opened Wrappers

  const LIMIT := 0x1_0000_0000_0000_0000
  type uint64 = x: int | 0 <= x < LIMIT

  // ---- Checked arithmetic ----

  method AddAndCheckOverflow(arg1: uint64, arg2: uint64) returns (ok: bool, output: uint64)
    ensures ok <==> arg1 + arg2 < LIMIT
    ensures output == (arg1 + arg2) % LIMIT && (ok ==> output == arg1 + arg2)
  {
    output := (arg1 + arg2) % LIMIT;
    ok := !(arg2 > LIMIT - 1 - arg1);
  }

  lemma {:induction false} TimesGrows(a: nat, b: nat, c: nat)
    requires b <= c
    ensures a * b <= a * c
  {
  }

  lemma {:induction false} QuotientBound(a: nat, b: nat, m: nat)
    requires a > 0
    ensures b > m / a <==> a * b > m
  {
    var q, r := m / a, m % a;
    assert m == a * q + r;
    if b > q {
      TimesGrows(a, q + 1, b);
      assert a * (q + 1) == a * q + a;
    } else {
      TimesGrows(a, b, q);
    }
  }

  method MultiplyAndCheckOverflow(arg1: uint64, arg2: uint64) returns (ok: bool, output: uint64)
    ensures ok <==> arg1 * arg2 < LIMIT
    ensures output == (arg1 * arg2) % LIMIT && (ok ==> output == arg1 * arg2)
  {
    assert arg1 * arg2 >= 0;
    output := (arg1 * arg2) % LIMIT;
    ok := !(arg1 != 0 && arg2 > (LIMIT - 1) / arg1);
    if arg1 != 0 {
      QuotientBound(arg1, arg2, LIMIT - 1);
    }
  }

  // ---- Runs of digits ----

  // The end of the run of numbers below 10 that starts at i.
  function RunEnd(numbers: seq<uint64>, i: nat): (e: nat)
    requires i <= |numbers|
    ensures i <= e <= |numbers|
    ensures forall j :: i <= j < e ==> numbers[j] < 10
    ensures e < |numbers| ==> numbers[e] >= 10
    decreases |numbers| - i
  {
    if i == |numbers| || numbers[i] >= 10 then i else RunEnd(numbers, i + 1)
  }

  function DecimalValue(numbers: seq<uint64>, i: nat, j: nat): nat
    requires i <= j <= |numbers|
  {
    if i == j then 0 else 10 * DecimalValue(numbers, i, j - 1) + numbers[j - 1]
  }

  lemma {:induction false} DecimalValueGrows(numbers: seq<uint64>, i: nat, j: nat, k: nat)
    requires i <= j <= k <= |numbers|
    ensures DecimalValue(numbers, i, j) <= DecimalValue(numbers, i, k)
  {
    if j < k {
      DecimalValueGrows(numbers, i, j, k - 1);
    }
  }

  method ReduceLeadingNumbersAsBase10System(numbers: seq<uint64>, begin: nat)
    returns (ok: bool, next: nat, output: uint64)
    requires begin <= |numbers|
    ensures begin <= next <= RunEnd(numbers, begin)
    ensures ok <==> DecimalValue(numbers, begin, RunEnd(numbers, begin)) < LIMIT
    ensures ok ==> next == RunEnd(numbers, begin) && output == DecimalValue(numbers, begin, next)
  {
    output := 0;
    next := begin;
    ghost var e := RunEnd(numbers, begin);
    while next < |numbers|
      invariant begin <= next <= e
      invariant output == DecimalValue(numbers, begin, next)
      invariant RunEnd(numbers, next) == e
      decreases |numbers| - next
    {
      if numbers[next] >= 10 {
        break;
      }
      DecimalValueGrows(numbers, begin, next + 1, e);
      ok, output := MultiplyAndCheckOverflow(output, 10);
      if ok {
        ok, output := AddAndCheckOverflow(output, numbers[next]);
      }
      if !ok {
        return;
      }
      next := next + 1;
    }
    ok := true;
  }

  // The value of a list of digits, or None if some number is not a digit or the value overflows.
  function Base10Value(numbers: seq<uint64>): Option<nat> {
    if RunEnd(numbers, 0) == |numbers| && DecimalValue(numbers, 0, |numbers|) < LIMIT
    then Some(DecimalValue(numbers, 0, |numbers|))
    else None
  }

  method InterpretNumbersAsBase10System(numbers: seq<uint64>) returns (ok: bool, output: uint64)
    ensures ok <==> Base10Value(numbers).Some?
    ensures ok ==> output == Base10Value(numbers).value
  {
    var success, begin;
    success, begin, output := ReduceLeadingNumbersAsBase10System(numbers, 0);
    ok := success && begin == |numbers|;
  }

  // ---- One place: thousands, hundreds or tens ----

  // What a reader did: how far it advanced and, if it succeeded, what it read.
  datatype Reading = Read(next: nat, num: nat) | Failed(next: nat)

  function SkipZeros(numbers: seq<uint64>, i: nat): (j: nat)
    requires i <= |numbers|
    ensures i <= j <= |numbers|
    ensures forall k :: i <= k < j ==> numbers[k] == 0
    ensures j < |numbers| ==> numbers[j] != 0
    decreases |numbers| - i
  {
    if i < |numbers| && numbers[i] == 0 then SkipZeros(numbers, i + 1) else i
  }

  // A run of digits is accepted if it has at most as many places as the base and nothing
  // below 10000 follows; otherwise the rest of the list is abandoned.
  function ReadRun(numbers: seq<uint64>, i: nat, base: nat): Reading
    requires i <= |numbers|
  {
    var e := RunEnd(numbers, i);
    var v := DecimalValue(numbers, i, e);
    if v < LIMIT && v < 10 * base && (e == |numbers| || numbers[e] >= 10000) then Read(e, v) else Failed(|numbers|)
  }

  function ReadPlace(numbers: seq<uint64>, begin: nat, base: nat): (r: Reading)
    requires begin <= |numbers|
    ensures begin <= r.next <= |numbers|
  {
    var i := SkipZeros(numbers, begin);
    if i == |numbers| then Failed(i)
    else if numbers[i] < 10 then
      if i + 1 == |numbers| then Failed(i)
      else if numbers[i + 1] < 10 then ReadRun(numbers, i, base)
      else if numbers[i + 1] != base || (numbers[i] == 1 && base != 1000) then Failed(i)
      else Read(i + 2, numbers[i] * base)
    else if numbers[i] == base || (base == 10 && numbers[i] == 20) then Read(i + 1, numbers[i])
    else Failed(i)
  }

  method ReduceDigitsHelper(numbers: seq<uint64>, begin: nat, expectedBase: uint64)
    returns (ok: bool, next: nat, num: uint64)
    requires begin <= |numbers|
    requires expectedBase == 10 || expectedBase == 100 || expectedBase == 1000
    ensures next == ReadPlace(numbers, begin, expectedBase).next
    ensures ok <==> ReadPlace(numbers, begin, expectedBase).Read?
    ensures ok ==> num == ReadPlace(numbers, begin, expectedBase).num
  {
    num := 0;
    next := begin;
    while next != |numbers| && numbers[next] == 0
      invariant begin <= next <= |numbers|
      invariant SkipZeros(numbers, next) == SkipZeros(numbers, begin)
      decreases |numbers| - next
    {
      next := next + 1;
    }
    if next == |numbers| {
      return false, next, num;
    }
    var leadingNumber := numbers[next];
    if leadingNumber < 10 {
      if |numbers| - next < 2 {
        return false, next, num;
      }
      var nextNumber := numbers[next + 1];
      if nextNumber < 10 {
        var success, i, run := ReduceLeadingNumbersAsBase10System(numbers, next);
        if !success || run >= expectedBase * 10 || (i != |numbers| && numbers[i] < 10000) {
          return false, |numbers|, run;
        }
        return true, i, run;
      }
      if nextNumber != expectedBase || (leadingNumber == 1 && expectedBase != 1000) {
        return false, next, num;
      }
      return true, next + 2, leadingNumber * expectedBase;
    }
    if leadingNumber == expectedBase || (expectedBase == 10 && leadingNumber == 20) {
      return true, next + 1, leadingNumber;
    }
    return false, next, num;
  }

  function ReadOnes(numbers: seq<uint64>, i: nat): (r: Reading)
    requires i <= |numbers|
    ensures i <= r.next <= |numbers|
  {
    if i == |numbers| || numbers[i] >= 10 then Failed(i) else Read(i + 1, numbers[i])
  }

  method ReduceOnesDigit(numbers: seq<uint64>, begin: nat) returns (ok: bool, next: nat, num: uint64)
    requires begin <= |numbers|
    ensures next == ReadOnes(numbers, begin).next
    ensures ok <==> ReadOnes(numbers, begin).Read?
    ensures ok ==> num == ReadOnes(numbers, begin).num
  {
    num := 0;
    if begin == |numbers| || numbers[begin] >= 10 {
      return false, begin, num;
    }
    return true, begin + 1, numbers[begin];
  }

  // ---- A coefficient below 10000 ----

  // What one reader, and then the next from where the first stopped, have read together.
  function Then(first: Reading, second: Reading): Reading {
    match (first, second)
    case (Read(_, m), Read(j, n)) => Read(j, m + n)
    case (Read(_, m), Failed(j)) => Read(j, m)
    case (Failed(_), r) => r
  }

  function BaseOf(place: nat): uint64
    requires 1 <= place <= 3
  {
    if place == 1 then 10 else if place == 2 then 100 else 1000
  }

  // The attempts at the places from the given one down to the ones.
  function ReadFrom(numbers: seq<uint64>, i: nat, place: nat): (r: Reading)
    requires i <= |numbers| && place <= 3
    ensures i <= r.next <= |numbers|
    decreases numbers, place
  {
    if place == 0 then ReadOnes(numbers, i)
    else
      var first := ReadPlace(numbers, i, BaseOf(place));
      Then(first, ReadFrom(numbers, first.next, place - 1))
  }

  // The end of the list, or a number that can only be a scale.
  predicate AtBreak(numbers: seq<uint64>, i: nat)
    requires i <= |numbers|
  {
    i == |numbers| || numbers[i] >= 10000
  }

  function ReadCoefficient(numbers: seq<uint64>, begin: nat): (r: Reading)
    requires begin <= |numbers|
    ensures begin <= r.next <= |numbers|
  {
    var r := ReadFrom(numbers, begin, 3);
    if r.Read? && AtBreak(numbers, r.next) then r else Failed(r.next)
  }

  lemma {:induction false} PlaceBound(numbers: seq<uint64>, i: nat, base: nat)
    requires i <= |numbers| && (base == 10 || base == 100 || base == 1000)
    ensures var r := ReadPlace(numbers, i, base);
      r.Read? ==> i < r.next && 1 <= r.num && (r.num <= 9 * base || (r.num < 10 * base && AtBreak(numbers, r.next)))
  {
    var j := SkipZeros(numbers, i);
    var r := ReadPlace(numbers, i, base);
    if r.Read? && numbers[j] < 10 && numbers[j + 1] < 10 {
      assert DecimalValue(numbers, j, j + 1) == numbers[j];
      DecimalValueGrows(numbers, j, j + 1, RunEnd(numbers, j));
    }
  }

  // At a break no place is read any more.
  lemma {:induction false} NothingAtBreak(numbers: seq<uint64>, i: nat, place: nat)
    requires i <= |numbers| && AtBreak(numbers, i) && place <= 3
    ensures ReadFrom(numbers, i, place) == Failed(i)
  {
    if place > 0 {
      NothingAtBreak(numbers, i, place - 1);
    }
  }

  // Ten times the base of the place.
  function Bound(place: nat): nat
    requires place <= 3
  {
    if place == 0 then 10 else 10 * BaseOf(place)
  }

  lemma {:induction false} ReadingBound(numbers: seq<uint64>, i: nat, place: nat)
    requires i <= |numbers| && place <= 3
    ensures var r := ReadFrom(numbers, i, place); r.Read? ==> i < r.next && r.num < Bound(place)
    decreases place
  {
    if place > 0 {
      PlaceBound(numbers, i, BaseOf(place));
      var first := ReadPlace(numbers, i, BaseOf(place));
      ReadingBound(numbers, first.next, place - 1);
      if AtBreak(numbers, first.next) {
        NothingAtBreak(numbers, first.next, place - 1);
      }
    }
  }

  // A coefficient is below 10000, whatever the tokens are.
  lemma {:induction false} CoefficientBound(numbers: seq<uint64>, i: nat)
    requires i <= |numbers|
    ensures var r := ReadCoefficient(numbers, i);
      r.Read? ==> i < r.next && r.num < 10000 && AtBreak(numbers, r.next)
  {
    ReadingBound(numbers, i, 3);
  }

  // The local state of the reader after reading acc: the position, whether a place was read,
  // and the sum so far.
  ghost predicate Holds(acc: Reading, next: nat, success: bool, num: uint64) {
    acc == if success then Read(next, num) else Failed(next)
  }

  lemma {:induction false} ThenAssociates(a: Reading, b: Reading, c: Reading)
    ensures Then(Then(a, b), c) == Then(a, Then(b, c))
  {
  }

  method AddPlace(numbers: seq<uint64>, begin: nat, base: uint64, success: bool, num: uint64, ghost acc: Reading)
    returns (next: nat, success': bool, num': uint64)
    requires begin <= |numbers| && (base == 10 || base == 100 || base == 1000)
    requires Holds(acc, begin, success, num) && num < 100000 && (!success ==> num == 0)
    ensures next <= |numbers| && num' < num + 10000 && (!success' ==> num' == 0)
    ensures Holds(Then(acc, ReadPlace(numbers, begin, base)), next, success', num')
  {
    success', num' := success, num;
    PlaceBound(numbers, begin, base);
    var done, n;
    done, next, n := ReduceDigitsHelper(numbers, begin, base);
    if done {
      num' := num + n;
      success' := true;
    }
  }

  // The source's four consecutive attempts, the last two and then the last three of them.
  method AddBelow100(numbers: seq<uint64>, begin: nat, success: bool, num: uint64, ghost acc: Reading)
    returns (next: nat, success': bool, num': uint64)
    requires begin <= |numbers| && Holds(acc, begin, success, num) && num < 50000 && (!success ==> num == 0)
    ensures next <= |numbers|
    ensures Holds(Then(acc, ReadFrom(numbers, begin, 1)), next, success', num')
  {
    next, success', num' := AddPlace(numbers, begin, 10, success, num, acc);
    ThenAssociates(acc, ReadPlace(numbers, begin, 10), ReadOnes(numbers, next));
    var done, n;
    done, next, n := ReduceOnesDigit(numbers, next);
    if done {
      num', success' := num' + n, true;
    }
  }

  method AddBelow1000(numbers: seq<uint64>, begin: nat, success: bool, num: uint64, ghost acc: Reading)
    returns (next: nat, success': bool, num': uint64)
    requires begin <= |numbers| && Holds(acc, begin, success, num) && num < 20000 && (!success ==> num == 0)
    ensures next <= |numbers|
    ensures Holds(Then(acc, ReadFrom(numbers, begin, 2)), next, success', num')
  {
    next, success', num' := AddPlace(numbers, begin, 100, success, num, acc);
    ghost var hundreds := ReadPlace(numbers, begin, 100);
    ThenAssociates(acc, hundreds, ReadFrom(numbers, next, 1));
    next, success', num' := AddBelow100(numbers, next, success', num', Then(acc, hundreds));
  }

  method ReduceNumberLessThan10000(numbers: seq<uint64>, begin: nat) returns (ok: bool, next: nat, num: uint64)
    requires begin <= |numbers|
    ensures next == ReadCoefficient(numbers, begin).next
    ensures ok <==> ReadCoefficient(numbers, begin).Read?
    ensures ok ==> num == ReadCoefficient(numbers, begin).num
  {
    var success;
    next, success, num := AddPlace(numbers, begin, 1000, false, 0, Failed(begin));
    next, success, num := AddBelow1000(numbers, next, success, num, ReadPlace(numbers, begin, 1000));
    ok := success && (next == |numbers| || numbers[next] >= 10000);
  }
}
