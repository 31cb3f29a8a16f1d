/** Reading a whole numeral as coefficients times descending scales
    (`InterpretNumbersInJapaneseWay`), and the choice between that and plain digits. The
    coefficient reader is a parameter, `read`, of which only `Reads` is used. */
module NumberGroups {
  import opened Hiding
  import opened Wrappers
  import opened NumberParser

  // A coefficient and the scale it multiplies; the scale of a final coefficient is 1.
  datatype Group = Group(coef: nat, base: nat)

  type Reader = nat -> Reading

  function CoefficientReader(numbers: seq<uint64>): Reader {
    (i: nat) => if i <= |numbers| then ReadCoefficient(numbers, i) else Failed(i)
  }

  // A reader that moves forward, stops at a break and reads a number below 10000.
  ghost predicate Reads(read: Reader, numbers: seq<uint64>) {
    forall i: nat {:trigger read(i)} :: i <= |numbers| ==>
      var r := read(i);
      i <= r.next <= |numbers| && (r.Read? ==> i < r.next && r.num < 10000 && AtBreak(numbers, r.next))
  }

  lemma {:induction false} CoefficientsRead(numbers: seq<uint64>)
    ensures Reads(CoefficientReader(numbers), numbers)
  {
    forall i: nat | i <= |numbers|
      ensures var r := ReadCoefficient(numbers, i);
        i <= r.next <= |numbers| && (r.Read? ==> i < r.next && r.num < 10000 && AtBreak(numbers, r.next))
    {
      CoefficientBound(numbers, i);
    }
  }

  // The groups the list splits into from position i on, or None if some coefficient is unreadable.
  ghost function Groups(read: Reader, numbers: seq<uint64>, i: nat): Option<seq<Group>>
    requires Reads(read, numbers) && i <= |numbers|
    decreases |numbers| - i
  {
    var r := read(i);
    if r.Failed? then None
    else if r.next == |numbers| then Some([Group(r.num, 1)])
    else if r.next + 1 == |numbers| then Some([Group(r.num, numbers[r.next])])
    else
      match Groups(read, numbers, r.next + 1)
      case None => None
      case Some(gs) => Some([Group(r.num, numbers[r.next])] + gs)
  }

  function Total(gs: seq<Group>): nat {
    if gs == [] then 0 else gs[0].coef * gs[0].base + Total(gs[1..])
  }

  predicate Descending(gs: seq<Group>, bound: nat) {
    gs == [] || (gs[0].base < bound && Descending(gs[1..], gs[0].base))
  }

  // acc plus the total, if the scales descend from the bound and the exact sum fits.
  function GroupsValue(gs: seq<Group>, bound: nat, acc: nat): Option<nat> {
    if Descending(gs, bound) && acc + Total(gs) < LIMIT then Some(acc + Total(gs)) else None
  }

  ghost function ValueFrom(read: Reader, numbers: seq<uint64>, i: nat, bound: nat, acc: nat): Option<nat>
    requires Reads(read, numbers) && i <= |numbers|
  {
    match Groups(read, numbers, i)
    case None => None
    case Some(gs) => GroupsValue(gs, bound, acc)
  }

  lemma {:induction false} ConsValue(head: Group, gs: seq<Group>, bound: nat, acc: nat)
    ensures GroupsValue([head] + gs, bound, acc) ==
      if head.base >= bound then None else GroupsValue(gs, head.base, acc + head.coef * head.base)
  {
  }

  lemma {:induction false} TooLarge(gs: seq<Group>, bound: nat, acc: nat)
    requires acc >= LIMIT
    ensures GroupsValue(gs, bound, acc) == None
  {
  }

  // What one pass of the source's loop does to the value still to be computed.
  lemma {:induction false} OneGroup(read: Reader, numbers: seq<uint64>, i: nat, bound: nat, acc: nat)
    requires Reads(read, numbers) && i <= |numbers| && bound >= 10000
    ensures var r := read(i);
      && (r.Failed? ==> ValueFrom(read, numbers, i, bound, acc) == None)
      && (r.Read? && r.next == |numbers| ==>
           ValueFrom(read, numbers, i, bound, acc) == if acc + r.num < LIMIT then Some(acc + r.num) else None)
      && (r.Read? && r.next < |numbers| ==>
           var base := numbers[r.next];
           var sum := acc + r.num * base;
           && (base >= bound || sum >= LIMIT ==> ValueFrom(read, numbers, i, bound, acc) == None)
           && (base < bound && sum < LIMIT ==>
                ValueFrom(read, numbers, i, bound, acc) ==
                if r.next + 1 == |numbers| then Some(sum) else ValueFrom(read, numbers, r.next + 1, base, sum)))
  {
    var r := read(i);
    if r.Read? {
      var head := Group(r.num, if r.next == |numbers| then 1 else numbers[r.next]);
      assert [head] + [] == [head];
      ConsValue(head, [], bound, acc);
      if r.next + 1 < |numbers| {
        var rest := Groups(read, numbers, r.next + 1);
        if rest.Some? {
          ConsValue(head, rest.value, bound, acc);
          if acc + r.num * numbers[r.next] >= LIMIT {
            TooLarge(rest.value, numbers[r.next], acc + r.num * numbers[r.next]);
          }
        }
      }
    }
  }

  ghost function JapaneseValue(numbers: seq<uint64>): Option<nat> {
    CoefficientsRead(numbers);
    ValueFrom(CoefficientReader(numbers), numbers, 0, LIMIT - 1, 0)
  }

  // The loop reasons about an unknown reader.
  ghost predicate IsReader(read: Reader, numbers: seq<uint64>) {
    forall i: nat {:trigger Peek(i)} :: Peek(i) && i <= |numbers| ==> read(i) == ReadCoefficient(numbers, i)
  }

  method ReduceCoefficient(ghost read: Reader, numbers: seq<uint64>, begin: nat) returns (ok: bool, next: nat, coef: uint64)
    requires IsReader(read, numbers) && begin <= |numbers|
    ensures next == read(begin).next && ok == read(begin).Read? && (ok ==> coef == read(begin).num)
  {
    assert Peek(begin);
    ok, next, coef := ReduceNumberLessThan10000(numbers, begin);
  }

  method InterpretWith(ghost read: Reader, numbers: seq<uint64>) returns (ok: bool, output: uint64)
    requires IsReader(read, numbers) && Reads(read, numbers)
    ensures ok == ValueFrom(read, numbers, 0, LIMIT - 1, 0).Some?
    ensures ok ==> output == ValueFrom(read, numbers, 0, LIMIT - 1, 0).value
  {
    ghost var goal := ValueFrom(read, numbers, 0, LIMIT - 1, 0);
    var lastBase: uint64 := LIMIT - 1;
    var begin := 0;
    output := 0;
    while true
      invariant begin <= |numbers| && lastBase >= 10000
      invariant ValueFrom(read, numbers, begin, lastBase, output) == goal
      decreases |numbers| - begin
    {
      OneGroup(read, numbers, begin, lastBase, output);
      var coef, delta;
      ok, begin, coef := ReduceCoefficient(read, numbers, begin);
      if !ok {
        return;
      }
      if begin == |numbers| {
        ok, output := AddAndCheckOverflow(output, coef);
        return;
      }
      if numbers[begin] >= lastBase {
        return false, output;
      }
      ok, delta := MultiplyAndCheckOverflow(coef, numbers[begin]);
      if !ok {
        return;
      }
      ok, output := AddAndCheckOverflow(output, delta);
      if !ok {
        return;
      }
      lastBase := numbers[begin];
      begin := begin + 1;
      if begin == |numbers| {
        return true, output;
      }
    }
  }

  method InterpretNumbersInJapaneseWay(numbers: seq<uint64>) returns (ok: bool, output: uint64)
    ensures ok == JapaneseValue(numbers).Some?
    ensures ok ==> output == JapaneseValue(numbers).value
  {
    CoefficientsRead(numbers);
    ok, output := InterpretWith(CoefficientReader(numbers), numbers);
  }

  // Every coefficient is below 10000, every scale but a final 1 is a token from 10000 up, and
  // scales strictly decrease.
  ghost predicate WellFormed(numbers: seq<uint64>, gs: seq<Group>, bound: nat) {
    && gs != []
    && (forall k :: 0 <= k < |gs| ==> gs[k].coef < 10000 && gs[k].base < bound)
    && (forall k :: 0 <= k < |gs| ==> (gs[k].base in numbers && gs[k].base >= 10000) || (k == |gs| - 1 && gs[k].base == 1))
    && (forall j, k :: 0 <= j < k < |gs| ==> gs[j].base > gs[k].base)
  }

  lemma {:induction false} ConsWellFormed(numbers: seq<uint64>, head: Group, gs: seq<Group>, bound: nat)
    requires head.coef < 10000 && 10000 <= head.base < bound && head.base in numbers
    requires WellFormed(numbers, gs, head.base)
    ensures WellFormed(numbers, [head] + gs, bound)
  {
  }

  lemma {:induction false} GroupsWellFormed(read: Reader, numbers: seq<uint64>, i: nat, bound: nat)
    requires Reads(read, numbers) && i <= |numbers|
    requires Groups(read, numbers, i).Some? && Descending(Groups(read, numbers, i).value, bound)
    ensures WellFormed(numbers, Groups(read, numbers, i).value, bound)
    decreases |numbers| - i
  {
    var gs := Groups(read, numbers, i).value;
    var r := read(i);
    if r.next + 1 < |numbers| {
      assert gs[1..] == Groups(read, numbers, r.next + 1).value;
      GroupsWellFormed(read, numbers, r.next + 1, gs[0].base);
      ConsWellFormed(numbers, gs[0], gs[1..], bound);
    }
  }

  // An accepted value is an exact sum, never a wrapped one, whatever the tokens are.
  lemma {:induction false} AcceptedIsExactSum(numbers: seq<uint64>)
    requires JapaneseValue(numbers).Some?
    ensures JapaneseValue(numbers).value < LIMIT
    ensures exists gs :: WellFormed(numbers, gs, LIMIT - 1) && Total(gs) == JapaneseValue(numbers).value
  {
    CoefficientsRead(numbers);
    GroupsWellFormed(CoefficientReader(numbers), numbers, 0, LIMIT - 1);
  }

  lemma {:induction false} OnlyCoefficient(read: Reader, numbers: seq<uint64>, v: nat)
    requires Reads(read, numbers) && read(0) == Read(|numbers|, v)
    ensures ValueFrom(read, numbers, 0, LIMIT - 1, 0) == Some(v)
  {
    OneGroup(read, numbers, 0, LIMIT - 1, 0);
  }

  // ---- The two readings together ----

  predicate AllDigits(numbers: seq<uint64>) {
    forall k :: 0 <= k < |numbers| ==> numbers[k] < 10
  }

  ghost function NormalizedValue(numbers: seq<uint64>): Option<nat> {
    if numbers == [] then None
    else if AllDigits(numbers) then Base10Value(numbers)
    else JapaneseValue(numbers)
  }

  method NormalizeNumbersHelper(numbers: seq<uint64>) returns (ok: bool, output: uint64)
    ensures ok == NormalizedValue(numbers).Some?
    ensures ok ==> output == NormalizedValue(numbers).value
  {
    if numbers == [] {
      return false, 0;
    }
    var max := numbers[0];
    for i := 1 to |numbers|
      invariant max in numbers && forall k :: 0 <= k < i ==> numbers[k] <= max
    {
      if numbers[i] > max {
        max := numbers[i];
      }
    }
    if max < 10 {
      ok, output := InterpretNumbersAsBase10System(numbers);
    } else {
      ok, output := InterpretNumbersInJapaneseWay(numbers);
    }
  }
}
