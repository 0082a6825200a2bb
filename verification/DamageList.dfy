/** Damage over time: the list of damage values (engine/src/condition.cpp, generateDamageList).

    The generator runs through the values start, start - 1, .., 1.  At value i it aims at the
    part (start + 1 - i) / start of the amount: it adds i once, and goes on adding i while
    that brings the sum closer to the aim. */
module DamageList {
  import opened Common

  function Sum(xs: seq<nat>): nat {
    if xs == [] then 0 else Sum(xs[..|xs| - 1]) + xs[|xs| - 1]
  }

  function Repeat(value: nat, times: nat): (r: seq<nat>)
    ensures |r| == times && forall k :: 0 <= k < times ==> r[k] == value
  {
    seq(times, _ => value)
  }

  function Times(times: nat, value: nat): nat {
    if times == 0 then 0 else Times(times - 1, value) + value
  }

  // 1 + 2 + .. + n.
  function Triangle(n: nat): nat {
    if n == 0 then 0 else Triangle(n - 1) + n
  }

  lemma {:induction false} TriangleIs(n: nat)
    ensures 2 * Triangle(n) == n * (n + 1)
  {
    if n > 0 {
      TriangleIs(n - 1);
    }
  }

  // What the sum is to be once the first n of the values start, start - 1, .. have been added.
  function Aim(amount: nat, start: nat, n: nat): nat {
    if start == 0 then 0 else (n * amount) / start
  }

  /** The values start, start - 1, .. with their counts. */
  function Expand(start: nat, counts: seq<nat>): seq<nat>
    requires |counts| <= start
  {
    if counts == [] then []
    else Expand(start, counts[..|counts| - 1]) + Repeat(start + 1 - |counts|, counts[|counts| - 1])
  }

  function Total(start: nat, counts: seq<nat>): nat
    requires |counts| <= start
  {
    if counts == [] then 0
    else Total(start, counts[..|counts| - 1]) + Times(counts[|counts| - 1], start + 1 - |counts|)
  }

  /** Every value is taken at least once, the total ends no further than half a value below
      the aim, and only values taken once may take it further than half a value above. */
  ghost predicate Greedy(aim: nat -> nat, start: nat, counts: seq<nat>)
    requires |counts| <= start
  {
    counts == [] || (Greedy(aim, start, counts[..|counts| - 1]) &&
                     Fits(aim(|counts|), start + 1 - |counts|, counts[|counts| - 1], Total(start, counts)))
  }

  predicate Fits(aim: nat, value: nat, count: nat, total: nat) {
    count >= 1 && 2 * total + value >= 2 * aim && (count == 1 || 2 * total < 2 * aim + value)
  }

  ghost predicate IsDamageList(list: seq<nat>, amount: nat, start: nat) {
    exists counts: seq<nat> :: IsExpanded(list, amount, start, counts)
  }

  ghost predicate IsExpanded(list: seq<nat>, amount: nat, start: nat, counts: seq<nat>) {
    |counts| == start && Greedy(n => Aim(amount, start, n), start, counts) && list == Expand(start, counts)
  }

  // ----- The generator -------------------------------------------------------------------

  function AbsReal(x: real): real {
    if x < 0.0 then -x else x
  }

  /** Whether adding i once more brings the sum closer to the aim, in proportion to the aim.
      An aim of zero makes both proportions infinite, and then it does not. */
  predicate Closer(sum: nat, i: nat, aim: nat) {
    aim != 0 &&
    AbsReal(1.0 - (sum + i) as real / aim as real) < AbsReal(1.0 - sum as real / aim as real)
  }

  lemma CloserIff(sum: nat, i: nat, aim: nat)
    requires i > 0
    ensures Closer(sum, i, aim) <==> 2 * sum + i < 2 * aim
  {
    if aim != 0 {
      var a := aim as real;
      var p, h := sum as real / a, i as real / a;
      assert (sum + i) as real / a == p + h;
      Signs(p, h, a, sum as real, i as real);
    }
  }

  lemma Signs(p: real, h: real, a: real, s: real, i: real)
    requires a > 0.0 && p * a == s && h * a == i && i > 0.0
    ensures AbsReal(1.0 - (p + h)) < AbsReal(1.0 - p) <==> 2.0 * s + i < 2.0 * a
  {
    assert h > 0.0;
    var gap := 2.0 * (1.0 - p) - h;
    assert gap * a == 2.0 * a - 2.0 * s - i by {
      assert gap * a == 2.0 * a - 2.0 * (p * a) - h * a;
    }
    assert gap > 0.0 <==> gap * a > 0.0;
  }

  // The turns of the generator at one value.
  method AddValue(sum0: nat, i: nat, med: nat) returns (sum: nat, added: seq<nat>)
    requires i > 0
    ensures added == Repeat(i, |added|) && sum == sum0 + Times(|added|, i)
    ensures Fits(med, i, |added|, sum)
  {
    sum, added := sum0, [];
    var more := true;
    while more
      invariant added == Repeat(i, |added|) && sum == sum0 + Times(|added|, i)
      invariant more ==> |added| == 0 || 2 * sum + i < 2 * med
      invariant !more ==> Fits(med, i, |added|, sum)
      decreases if !more then 0 else if sum < med then 1 + med - sum else 1
    {
      sum := sum + i;
      added := added + [i];
      CloserIff(sum, i, med);
      more := Closer(sum, i, med);
    }
  }

  lemma ExtendGreedy(aim: nat -> nat, start: nat, counts: seq<nat>, count: nat)
    requires |counts| < start && Greedy(aim, start, counts)
    requires Fits(aim(|counts| + 1), start - |counts|, count, Total(start, counts) + Times(count, start - |counts|))
    ensures var longer := counts + [count];
            && Greedy(aim, start, longer)
            && Expand(start, longer) == Expand(start, counts) + Repeat(start - |counts|, count)
            && Total(start, longer) == Total(start, counts) + Times(count, start - |counts|)
  {
    assert (counts + [count])[..|counts|] == counts;
  }

  method GenerateDamageList(amount: int, start: int) returns (list: seq<nat>)
    ensures IsDamageList(list, Abs(amount), if start < 0 then 0 else start)
  {
    list := [];
    var target: nat := if amount < 0 then -amount else amount;
    var sum: nat := 0;
    ghost var top: nat := if start < 0 then 0 else start;
    ghost var counts: seq<nat> := [];
    ghost var aim := (n: nat) => Aim(target, top, n);
    var i := start;
    while i > 0
      invariant i <= start && |counts| == if start <= 0 then 0 else start - i
      invariant |counts| <= top && Greedy(aim, top, counts)
      invariant list == Expand(top, counts) && sum == Total(top, counts)
    {
      var n := start + 1 - i;
      var med := (n * target) / start;
      var added;
      sum, added := AddValue(sum, i, med);
      list := list + added;
      assert aim(n) == med;
      ExtendGreedy(aim, top, counts, |added|);
      counts := counts + [|added|];
      i := i - 1;
    }
    assert IsExpanded(list, target, top, counts);
  }

  // ----- What the list adds up to --------------------------------------------------------

  lemma {:induction false} SumRepeat(xs: seq<nat>, value: nat, times: nat)
    ensures Sum(xs + Repeat(value, times)) == Sum(xs) + Times(times, value)
  {
    if times == 0 {
      assert xs + Repeat(value, 0) == xs;
    } else {
      SumRepeat(xs, value, times - 1);
      assert (xs + Repeat(value, times))[..|xs| + times - 1] == xs + Repeat(value, times - 1);
    }
  }

  lemma {:induction false} SumExpand(start: nat, counts: seq<nat>)
    requires |counts| <= start
    ensures Sum(Expand(start, counts)) == Total(start, counts)
  {
    if counts != [] {
      var front := counts[..|counts| - 1];
      SumExpand(start, front);
      SumRepeat(Expand(start, front), start + 1 - |counts|, counts[|counts| - 1]);
    }
  }

  lemma MulLess(k: nat, x: int, y: int)
    requires k > 0 && x < y
    ensures k * x < k * y
  {
    assert k * y - k * x == k * (y - x);
  }

  lemma MulLessBack(k: nat, x: int, y: int)
    requires k * x < k * y
    ensures x < y
  {
    if x >= y {
      MulLeast(k, y, x);
    }
  }

  lemma MulLeast(k: nat, x: int, y: int)
    requires x <= y
    ensures k * x <= k * y
  {
    assert k * y - k * x == k * (y - x);
  }

  lemma MulSwap(x: int, y: int, z: int)
    ensures x * (y * z) == y * (x * z)
  {
  }

  // S(S + 1) - i(i - 1), factored.
  lemma TriangleGap(start: nat, i: nat)
    requires 1 <= i <= start
    ensures 2 * (Triangle(start) - Triangle(i - 1)) == (start + 1 - i) * (start + i)
  {
    TriangleIs(start);
    TriangleIs(i - 1);
  }

  // From n * width < 2 * aim and an aim of at most the part n / start of the amount.
  lemma AimNeedsAmount(amount: nat, start: nat, n: nat, width: nat, aim: nat)
    requires start > 0 && aim * start <= n * amount && n * width < 2 * aim
    ensures start * width < 2 * amount
  {
    MulLess(start, n * width, 2 * aim);
    MulSwap(start, n, width);
    MulSwap(start, 2, aim);
    MulSwap(n, 2, amount);
    MulLessBack(n, start * width, 2 * amount);
  }

  lemma RestCovers(amount: nat, start: nat, k: nat, width: nat, rest: int)
    requires start > 0 && start * rest >= k * amount && start * width <= 2 * amount
    ensures 2 * rest >= k * width
  {
    MulLeast(k, start * width, 2 * amount);
    MulSwap(k, 2, amount);
    MulSwap(k, start, width);
    MulSwap(start, 2, rest);
    MulLess(start, 2 * rest, 2 * rest + 1);
    MulLessBack(start, k * width, 2 * rest + 1);
  }

  // What is still to come of the amount after the n-th value.
  lemma RestOfAmount(amount: nat, start: nat, n: nat, aim: nat)
    requires n <= start && aim * start <= n * amount
    ensures start * (amount - aim) >= (start - n) * amount
  {
    assert start * (amount - aim) == start * amount - aim * start;
    assert (start - n) * amount == start * amount - n * amount;
  }

  lemma WideEnough(start: nat, i: nat)
    requires 1 <= i <= start
    ensures (i - 1) * (start + i) >= 2 * Triangle(i - 1) + i - 1
  {
    TriangleIs(i - 1);
    MulLeast(i - 1, i + 1, start + i);
    assert (i - 1) * (i + 1) == (i - 1) * i + i - 1;
  }

  // A value i taken more than once: the values below it, once each, still fit the amount.
  lemma RepeatedLeavesRoom(amount: nat, start: nat, i: nat, aim: nat, total: nat)
    requires 1 <= i <= start && aim * start <= (start + 1 - i) * amount
    requires total - i >= Triangle(start) - Triangle(i - 1)
    requires 2 * total < 2 * aim + i
    ensures total + Triangle(i - 1) <= amount
  {
    TriangleGap(start, i);
    AimNeedsAmount(amount, start, start + 1 - i, start + i, aim);
    RestOfAmount(amount, start, start + 1 - i, aim);
    RestCovers(amount, start, i - 1, start + i, amount - aim);
    WideEnough(start, i);
  }

  // The values taken so far, and those still to come once each.
  lemma {:induction false} GreedyTotal(amount: nat, aim: nat -> nat, start: nat, counts: seq<nat>)
    requires |counts| <= start && Greedy(aim, start, counts)
    requires forall n: nat :: aim(n) * start <= n * amount
    ensures var i, total := start - |counts|, Total(start, counts);
            && total >= Triangle(start) - Triangle(i)
            && (total == Triangle(start) - Triangle(i) || total + Triangle(i) <= amount)
  {
    if counts != [] {
      var i, count := start + 1 - |counts|, counts[|counts| - 1];
      var before := Total(start, counts[..|counts| - 1]);
      GreedyTotal(amount, aim, start, counts[..|counts| - 1]);
      OneMoreValue(amount, start, i, aim(|counts|), before, count);
    }
  }

  // The value i is taken after those above it.
  lemma OneMoreValue(amount: nat, start: nat, i: nat, aim: nat, before: nat, count: nat)
    requires 1 <= i <= start && aim * start <= (start + 1 - i) * amount
    requires before >= Triangle(start) - Triangle(i)
    requires before == Triangle(start) - Triangle(i) || before + Triangle(i) <= amount
    requires Fits(aim, i, count, before + Times(count, i))
    ensures var total := before + Times(count, i);
            && total >= Triangle(start) - Triangle(i - 1)
            && (total == Triangle(start) - Triangle(i - 1) || total + Triangle(i - 1) <= amount)
  {
    if count == 1 {
      assert Times(1, i) == Times(0, i) + i;
    } else {
      TimesLeast(2, count, i);
      assert Times(2, i) == Times(1, i) + i == Times(0, i) + i + i;
      RepeatedLeavesRoom(amount, start, i, aim, before + Times(count, i));
    }
  }

  lemma {:induction false} TimesLeast(x: nat, y: nat, value: nat)
    requires x <= y
    ensures Times(x, value) + (if x < y then value else 0) <= Times(y, value)
  {
    if x < y {
      TimesLeast(x, y - 1, value);
    }
  }

  /** The list adds up to the amount, or to 1 + 2 + .. + start where that is more. */
  lemma DamageListSum(list: seq<nat>, amount: nat, start: nat)
    requires start > 0 && IsDamageList(list, amount, start)
    ensures Sum(list) == Max(amount, Triangle(start))
  {
    var counts: seq<nat> :| IsExpanded(list, amount, start, counts);
    SumExpand(start, counts);
    assert forall n: nat :: Aim(amount, start, n) * start <= n * amount;
    GreedyTotal(amount, n => Aim(amount, start, n), start, counts);
    AimOfAll(amount, start);
  }

  lemma AimOfAll(amount: nat, start: nat)
    requires start > 0
    ensures Aim(amount, start, start) == amount
  {
    var q := (start * amount) / start;
    assert q * start <= start * amount < q * start + start;
    MulLessBack(start, amount, q + 1);
    MulLessBack(start, q, amount + 1);
  }

  /** So the list adds up to the amount exactly when the amount has room for each value once;
      in particular whenever it is start * start or more. */
  lemma SumIsAmountIff(list: seq<nat>, amount: nat, start: nat)
    requires start > 0 && IsDamageList(list, amount, start)
    ensures Sum(list) >= amount
    ensures Sum(list) == amount <==> 2 * amount >= start * (start + 1)
    ensures amount >= start * start ==> Sum(list) == amount
  {
    DamageListSum(list, amount, start);
    TriangleIs(start);
    MulLeast(start, start + 1, 2 * start);
  }

  // ----- The shape of the list -------------------------------------------------------------

  ghost predicate Descends(list: seq<nat>, low: nat, high: nat) {
    && (forall k :: 0 <= k < |list| ==> low <= list[k] <= high)
    && (forall j, k :: 0 <= j < k < |list| ==> list[j] >= list[k])
    && (forall v: nat :: low <= v <= high ==> v in list)
  }

  lemma {:induction false} ExpandDescends(aim: nat -> nat, start: nat, counts: seq<nat>)
    requires |counts| <= start && Greedy(aim, start, counts)
    ensures Descends(Expand(start, counts), start + 1 - |counts|, start)
  {
    if counts != [] {
      var front, i, count := Expand(start, counts[..|counts| - 1]), start + 1 - |counts|, counts[|counts| - 1];
      ExpandDescends(aim, start, counts[..|counts| - 1]);
      RunDescends(front, i, count, start);
    }
  }

  lemma RunDescends(front: seq<nat>, i: nat, count: nat, start: nat)
    requires Descends(front, i + 1, start) && count >= 1 && i <= start
    ensures Descends(front + Repeat(i, count), i, start)
  {
    var list := front + Repeat(i, count);
    assert list[|front|] == i;
    forall v: nat | i <= v <= start
      ensures v in list
    {
      if v > i {
        assert v in front;
      }
    }
  }

  /** The damage never grows from one value to the next, and each value from start down to 1
      occurs. */
  lemma DamageListDescends(list: seq<nat>, amount: nat, start: nat)
    requires IsDamageList(list, amount, start)
    ensures Descends(list, 1, start)
  {
    var counts: seq<nat> :| IsExpanded(list, amount, start, counts);
    ExpandDescends(n => Aim(amount, start, n), start, counts);
  }

  lemma OneCountFits(aim: nat, value: nat, x: nat, y: nat, before: nat)
    requires Fits(aim, value, x, before + Times(x, value)) && Fits(aim, value, y, before + Times(y, value))
    ensures x == y
  {
    if x < y {
      TimesLeast(x, y, value);
    } else {
      TimesLeast(y, x, value);
    }
  }

  lemma {:induction false} GreedyIsUnique(aim: nat -> nat, start: nat, a: seq<nat>, b: seq<nat>)
    requires |a| == |b| <= start && Greedy(aim, start, a) && Greedy(aim, start, b)
    ensures a == b
  {
    if a != [] {
      var i, x, y := start + 1 - |a|, a[|a| - 1], b[|b| - 1];
      GreedyIsUnique(aim, start, a[..|a| - 1], b[..|b| - 1]);
      OneCountFits(aim(|a|), i, x, y, Total(start, a[..|a| - 1]));
      assert a == a[..|a| - 1] + [x] && b == b[..|b| - 1] + [y];
    }
  }

  /** Amount and start leave no choice of the list. */
  lemma DamageListIsUnique(a: seq<nat>, b: seq<nat>, amount: nat, start: nat)
    requires IsDamageList(a, amount, start) && IsDamageList(b, amount, start)
    ensures a == b
  {
    var x: seq<nat> :| IsExpanded(a, amount, start, x);
    var y: seq<nat> :| IsExpanded(b, amount, start, y);
    GreedyIsUnique(n => Aim(amount, start, n), start, x, y);
  }

  // ----- The aims, read off the list ---------------------------------------------------------

  // The sum of the values from `low` up.
  function SumFrom(list: seq<nat>, low: nat): nat {
    if list == [] then 0
    else SumFrom(list[..|list| - 1], low) + if list[|list| - 1] >= low then list[|list| - 1] else 0
  }

  lemma {:induction false} SumFromRun(front: seq<nat>, value: nat, times: nat, low: nat)
    ensures SumFrom(front + Repeat(value, times), low)
            == SumFrom(front, low) + if value >= low then Times(times, value) else 0
    ensures multiset(front + Repeat(value, times))[low] == multiset(front)[low] + if value == low then times else 0
  {
    if times == 0 {
      assert front + Repeat(value, 0) == front;
    } else {
      var list, shorter := front + Repeat(value, times), front + Repeat(value, times - 1);
      assert list == shorter + [value];
      SumFromRun(front, value, times - 1, low);
    }
  }

  // The first n counts, or all.
  function Cut(counts: seq<nat>, n: nat): seq<nat> {
    if n <= |counts| then counts[..n] else counts
  }

  lemma CutSnoc(front: seq<nat>, count: nat, n: nat)
    ensures Cut(front + [count], n) == if n <= |front| then Cut(front, n) else front + [count]
    ensures n > |front| ==> Cut(front, n) == front
  {
    if n <= |front| {
      assert (front + [count])[..n] == front[..n];
    }
  }

  // The sum of the first n values with their counts, and the n-th count.
  lemma {:induction false} ExpandFrom(start: nat, counts: seq<nat>, n: nat, low: nat)
    requires |counts| <= start && 1 <= n <= start && low == start + 1 - n
    ensures SumFrom(Expand(start, counts), low) == Total(start, Cut(counts, n))
    ensures multiset(Expand(start, counts))[low] == if n <= |counts| then counts[n - 1] else 0
  {
    if counts != [] {
      var front, count := counts[..|counts| - 1], counts[|counts| - 1];
      assert counts == front + [count];
      ExpandFrom(start, front, n, low);
      CutSnoc(front, count, n);
      SumFromRun(Expand(start, front), start + 1 - |counts|, count, low);
    }
  }

  lemma {:induction false} GreedyAt(aim: nat -> nat, start: nat, counts: seq<nat>, n: nat)
    requires |counts| <= start && Greedy(aim, start, counts) && 1 <= n <= |counts|
    ensures Fits(aim(n), start + 1 - n, counts[n - 1], Total(start, counts[..n]))
  {
    if n < |counts| {
      GreedyAt(aim, start, counts[..|counts| - 1], n);
      assert counts[..|counts| - 1][..n] == counts[..n];
    } else {
      assert counts[..n] == counts;
    }
  }

  /** Value by value: each from start down to 1 occurs; the values down to it add up to no less than
      its part of the amount, in proportion and rounded down, less half of it; and where it occurs
      again, to less than that part and half of it more. */
  lemma DamageListMeetsAims(list: seq<nat>, amount: nat, start: nat, value: nat)
    requires IsDamageList(list, amount, start) && 1 <= value <= start
    ensures var (sum, part) := (SumFrom(list, value), (start + 1 - value) * amount / start);
            var times := multiset(list)[value];
            times >= 1 && 2 * sum + value >= 2 * part && (times > 1 ==> 2 * sum < 2 * part + value)
  {
    var counts: seq<nat> :| IsExpanded(list, amount, start, counts);
    ExpandFrom(start, counts, start + 1 - value, value);
    GreedyAt(n => Aim(amount, start, n), start, counts, start + 1 - value);
  }
}
