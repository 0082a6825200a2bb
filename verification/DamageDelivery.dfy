/** Damage over time: setting up a damage condition and delivering its list
    (engine/src/condition.cpp, ConditionDamage).

    The clock, the random draw, the field under the creature and whether a hit lands are
    inputs. */
module DamageDelivery {
  import opened Common
  import opened DamageList

  const EVENT_CREATURE_THINK_INTERVAL := 1000

  datatype IntervalInfo = IntervalInfo(timeLeft: int, value: int, interval: int)

  /** The part of a damage condition that its execution reads or writes. */
  datatype Dot = Dot(ticks: int, endTime: int, periodDamage: int, periodDamageTick: int,
                     tickInterval: int, damageList: seq<IntervalInfo>)

  datatype Outcome = Outcome(next: Dot, dealt: seq<int>, alive: bool)

  // ----- Executing -----------------------------------------------------------------------

  /** A field of the condition's kind under the creature keeps the damage from being used up;
      another field of a known kind uses it up; without one, only an endless condition keeps
      its damage. */
  function UsesUp(d: Dot, matchingField: Option<bool>): bool {
    match matchingField
    case None => d.ticks != -1
    case Some(matching) => !matching
  }

  // Condition::executeCondition.
  function Tick(d: Dot, interval: int, now: int): Outcome {
    if d.ticks == -1 then Outcome(d, [], true)
    else Outcome(d.(ticks := Max(0, d.ticks - interval)), [], d.endTime >= now)
  }

  function Execute(d: Dot, interval: int, matchingField: Option<bool>, now: int): Outcome {
    if d.periodDamage != 0 then
      var total := d.periodDamageTick + interval;
      if total >= d.tickInterval then
        Tick(d.(periodDamageTick := 0), interval, now).(dealt := [d.periodDamage])
      else
        Tick(d.(periodDamageTick := total), interval, now)
    else if d.damageList != [] then
      var front, remove := d.damageList[0], UsesUp(d, matchingField);
      var due := front.timeLeft - interval <= 0;
      var list :=
        if due && remove then d.damageList[1..]
        else if due then d.damageList[0 := front.(timeLeft := front.interval)]
        else d.damageList[0 := front.(timeLeft := front.timeLeft - interval)];
      var endTime := if !remove && d.ticks > 0 then d.endTime + interval else d.endTime;
      var o := Tick(d.(damageList := list, endTime := endTime), if remove then interval else 0, now);
      o.(dealt := if due then [front.value] else [])
    else
      Tick(d, interval, now)
  }

  // ----- Setting up ------------------------------------------------------------------------

  // Damage is a negative change of health.
  function Harm(value: nat): int {
    -(value as int)
  }

  function Intervals(values: seq<nat>, time: int): (r: seq<IntervalInfo>)
    ensures |r| == |values|
    ensures forall k :: 0 <= k < |r| ==> r[k] == IntervalInfo(time, Harm(values[k]), time)
  {
    seq(|values|, k requires 0 <= k < |values| => IntervalInfo(time, Harm(values[k]), time))
  }

  function Copies(rounds: nat, time: int, value: int): (r: seq<IntervalInfo>)
    ensures |r| == rounds && forall k :: 0 <= k < rounds ==> r[k] == IntervalInfo(time, value, time)
  {
    seq(rounds, _ => IntervalInfo(time, value, time))
  }

  function DamageTime(tickInterval: int): (r: nat)
    ensures r >= EVENT_CREATURE_THINK_INTERVAL
  {
    Max(tickInterval, EVENT_CREATURE_THINK_INTERVAL)
  }

  // The first value of the list, when none was given or the one given is too large.
  function StartValue(startDamage: nat, maxDamage: nat, amount: nat): nat {
    if startDamage > maxDamage then maxDamage
    else if startDamage == 0 then Max(1, (amount + 19) / 20)
    else startDamage
  }

  ghost predicate DrawnList(values: seq<nat>, draw: nat, startDamage: nat, maxDamage: nat) {
    if draw == 0 then values == [] else IsDamageList(values, draw, StartValue(startDamage, maxDamage, draw))
  }

  class ConditionDamage {
    var ticks: int
    var endTime: int
    var periodDamage: int
    var periodDamageTick: int
    var tickInterval: int
    var damageList: seq<IntervalInfo>
    var minDamage: nat
    var maxDamage: nat
    var startDamage: nat
    var delayed: bool

    function View(): Dot
      reads this
    {
      Dot(ticks, endTime, periodDamage, periodDamageTick, tickInterval, damageList)
    }

    method SetTicks(newTicks: int, now: int)
      modifies this`ticks, this`endTime
      ensures ticks == newTicks && endTime == newTicks + now
    {
      ticks := newTicks;
      endTime := ticks + now;
    }

    method AddDamage(rounds: int, time: int, value: int, now: int) returns (added: bool)
      modifies this`ticks, this`endTime, this`periodDamage, this`tickInterval, this`damageList
      ensures added <==> rounds == -1 || old(periodDamage) <= 0
      ensures rounds == -1 ==> View() == old(View()).(periodDamage := value, tickInterval := DamageTime(time),
              ticks := -1)
      ensures !added ==> View() == old(View())
      ensures added && rounds != -1 ==> damageList == old(damageList) + Copies(Max(0, rounds), DamageTime(time), value)
      ensures added && rounds != -1 ==> periodDamage == old(periodDamage) && tickInterval == old(tickInterval)
      ensures added && rounds != -1 && old(ticks) == -1 ==> ticks == -1 && endTime == old(endTime)
      ensures added && 0 < rounds && old(ticks) >= 0 ==>
              ticks == old(ticks) + Times(rounds, DamageTime(time)) && endTime == ticks + now
      ensures added && rounds != -1 && rounds <= 0 ==> View() == old(View())
    {
      var length := if time < EVENT_CREATURE_THINK_INTERVAL then EVENT_CREATURE_THINK_INTERVAL else time;
      if rounds == -1 {
        periodDamage := value;
        tickInterval := if length < 0 then -length else length;
        ticks := -1;
        return true;
      }
      if periodDamage > 0 {
        return false;
      }
      var i := 0;
      while i < rounds
        invariant 0 <= i <= Max(0, rounds)
        invariant periodDamage == old(periodDamage) && tickInterval == old(tickInterval)
        invariant damageList == old(damageList) + Copies(i, length, value)
        invariant old(ticks) == -1 ==> ticks == -1 && endTime == old(endTime)
        invariant old(ticks) >= 0 ==> ticks == old(ticks) + Times(i, length)
        invariant old(ticks) >= 0 && i > 0 ==> endTime == ticks + now
        invariant i == 0 ==> View() == old(View())
      {
        damageList := damageList + [IntervalInfo(length, value, length)];
        if ticks != -1 {
          SetTicks(ticks + length, now);
        }
        i := i + 1;
      }
      added := true;
    }

    /** The draw stands for the random number between minDamage and maxDamage. */
    method Init(draw: nat, now: int) returns (ready: bool)
      modifies this
      ensures minDamage == old(minDamage) && maxDamage == old(maxDamage) && delayed == old(delayed)
      ensures old(periodDamage) != 0 || old(damageList) != [] ==>
              ready && View() == old(View()) && startDamage == old(startDamage)
      ensures old(periodDamage) == 0 && old(damageList) == [] ==>
                && startDamage == (if draw == 0 then old(startDamage)
                                   else StartValue(old(startDamage), maxDamage, draw))
                && ready == (damageList != [])
                && SetUp(old(View()), View(), now)
                && (exists values ::
                      && DrawnList(values, draw, old(startDamage), maxDamage)
                      && damageList == Intervals(values, DamageTime(tickInterval)))
    {
      if periodDamage != 0 {
        return true;
      }
      if damageList == [] {
        SetTicks(0, now);
        if draw != 0 {
          if startDamage > maxDamage {
            startDamage := maxDamage;
          } else if startDamage == 0 {
            startDamage := if (draw + 19) / 20 < 1 then 1 else (draw + 19) / 20;
          }
          var list := GenerateDamageList(draw, startDamage);
          var k := 0;
          while k < |list|
            invariant 0 <= k <= |list|
            invariant damageList == Intervals(list[..k], DamageTime(tickInterval))
            invariant SetUp(old(View()), View(), now)
            invariant minDamage == old(minDamage) && maxDamage == old(maxDamage) && delayed == old(delayed)
            invariant startDamage == StartValue(old(startDamage), maxDamage, draw)
          {
            var added := AddDamage(1, tickInterval, Harm(list[k]), now);
            assert list[..k + 1] == list[..k] + [list[k]];
            k := k + 1;
          }
          assert list[..k] == list;
          assert DrawnList(list, draw, old(startDamage), maxDamage);
        } else {
          assert DrawnList([], draw, old(startDamage), maxDamage) && Intervals([], DamageTime(tickInterval)) == [];
        }
      }
      ready := damageList != [];
    }

    /** The damage taken next; an endless condition keeps it. */
    method GetNextDamage() returns (damage: Option<int>)
      modifies this`damageList
      ensures damage == NextDamage(old(View()))
      ensures damageList == AfterNextDamage(old(View())).damageList
    {
      if periodDamage != 0 {
        damage := Some(periodDamage);
      } else if damageList != [] {
        damage := Some(damageList[0].value);
        if ticks != -1 {
          damageList := damageList[1..];
        }
      } else {
        damage := None;
      }
    }

    /** Start the condition.  The damage dealt at once, if any, is returned, and hit says
        whether it lands. */
    method StartCondition(draw: nat, hit: bool, now: int) returns (started: bool, dealt: seq<int>)
      modifies this
      ensures old(periodDamage) == 0 && old(damageList) == [] ==>
                exists values ::
                  && DrawnList(values, draw, old(startDamage), maxDamage)
                  && StartedWith(values, hit, now, started, dealt)
      ensures old(periodDamage) != 0 || old(damageList) != [] ==>
                Outcome(View(), dealt, started) == Begun(old(View()), old(delayed), hit, now)
    {
      dealt := [];
      if ticks > 0 {
        endTime := ticks + now;
      }
      var ready := Init(draw, now);
      ghost var values :| old(periodDamage) == 0 && old(damageList) == [] ==>
        DrawnList(values, draw, old(startDamage), maxDamage)
            && damageList == Intervals(values, DamageTime(tickInterval));
      ghost var blank := old(periodDamage) == 0 && old(damageList) == [];
      assert !blank ==> ready && View() == Clocked(old(View()), now);
      assert blank && !ready ==> StartedWith(values, hit, now, false, []);
      if !ready {
        return false, [];
      }
      if !delayed {
        var damage := GetNextDamage();
        if damage.Some? {
          assert blank ==> StartedWith(values, hit, now, hit, [damage.value]);
          return hit, [damage.value];
        }
      }
      assert blank ==> StartedWith(values, hit, now, true, []);
      started := true;
    }

    // The condition was set up with these values, and the first was dealt unless delayed.
    ghost predicate StartedWith(values: seq<nat>, hit: bool, now: int, started: bool, dealt: seq<int>)
      reads this
    {
      && (started <==> values != [] && (delayed || hit))
      && dealt == (if delayed || values == [] then [] else [Harm(values[0])])
      && damageList == Intervals(if delayed || values == [] then values else values[1..], DamageTime(tickInterval))
      && ticks == Times(|values|, DamageTime(tickInterval)) && endTime == ticks + now && periodDamage == 0
    }

    /** One call from the creature's think: the damage dealt, and whether the condition stays. */
    method ExecuteCondition(interval: int, matchingField: Option<bool>, now: int) returns (dealt: seq<int>, alive: bool)
      modifies this
      ensures Outcome(View(), dealt, alive) == Execute(old(View()), interval, matchingField, now)
      ensures minDamage == old(minDamage) && maxDamage == old(maxDamage) && delayed == old(delayed)
              && startDamage == old(startDamage)
    {
      dealt := [];
      var left := interval;
      if periodDamage != 0 {
        periodDamageTick := periodDamageTick + interval;
        if periodDamageTick >= tickInterval {
          periodDamageTick := 0;
          dealt := [periodDamage];
        }
      } else if damageList != [] {
        var remove := ticks != -1;
        if matchingField.Some? {
          remove := !matchingField.value;
        }
        damageList := damageList[0 := damageList[0].(timeLeft := damageList[0].timeLeft - interval)];
        if damageList[0].timeLeft <= 0 {
          var damage := damageList[0].value;
          if remove {
            damageList := damageList[1..];
          } else {
            damageList := damageList[0 := damageList[0].(timeLeft := damageList[0].interval)];
          }
          dealt := [damage];
        }
        if !remove {
          if ticks > 0 {
            endTime := endTime + interval;
          }
          left := 0;
        }
      }
      assert dealt == Execute(old(View()), interval, matchingField, now).dealt;
      assert damageList == Execute(old(View()), interval, matchingField, now).next.damageList;
      if ticks == -1 {
        return dealt, true;
      }
      ticks := if ticks - left < 0 then 0 else ticks - left;
      alive := endTime >= now;
    }
  }

  // Setting up leaves everything but the list and the clock as it was, and gives the
  // condition the time that its list takes.
  ghost predicate SetUp(d: Dot, n: Dot, now: int) {
    && n == d.(damageList := n.damageList, ticks := n.ticks, endTime := n.endTime)
    && n.ticks == Times(|n.damageList|, DamageTime(d.tickInterval)) && n.endTime == n.ticks + now
  }

  // Condition::startCondition
  function Clocked(d: Dot, now: int): Dot {
    if d.ticks > 0 then d.(endTime := d.ticks + now) else d
  }

  // Starting a condition that has its damage already: the clock is set, and the first damage
  // dealt unless delayed.
  function Begun(d: Dot, delayed: bool, hit: bool, now: int): Outcome {
    var e := Clocked(d, now);
    if delayed || NextDamage(e).None? then Outcome(e, [], true)
    else Outcome(AfterNextDamage(e), [NextDamage(e).value], hit)
  }

  function NextDamage(d: Dot): Option<int> {
    if d.periodDamage != 0 then Some(d.periodDamage)
    else if d.damageList != [] then Some(d.damageList[0].value)
    else None
  }

  function AfterNextDamage(d: Dot): Dot {
    if d.periodDamage == 0 && d.damageList != [] && d.ticks != -1 then d.(damageList := d.damageList[1..]) else d
  }

  // ----- A life of calls at even distance --------------------------------------------------

  function Harms(values: seq<nat>): (r: seq<int>)
    ensures |r| == |values| && forall k :: 0 <= k < |r| ==> r[k] == Harm(values[k])
  {
    seq(|values|, k requires 0 <= k < |values| => Harm(values[k]))
  }

  // The time that n think intervals take.
  function Turns(n: int): int {
    n * 1000
  }

  /** Whether the creature stands, at each call, in a field of another kind; it never stands in
      one of the condition's own kind. */
  type Fields = nat -> bool

  function FieldAt(fields: Fields, k: nat): Option<bool> {
    if fields(k) then Some(false) else None
  }

  /** The first n calls, the first of them at the time given: all the damage dealt, and
      whether the condition stays through all of them.  The n-th call takes place when the
      condition stays through the n - 1 before it. */
  function Calls(d: Dot, at: int, fields: Fields, n: nat): Outcome {
    if n == 0 then Outcome(d, [], true)
    else
      var before := Calls(d, at, fields, n - 1);
      var o := Execute(before.next, EVENT_CREATURE_THINK_INTERVAL, FieldAt(fields, n - 1), at + Turns(n - 1));
      Outcome(o.next, before.dealt + o.dealt, before.alive && o.alive)
  }

  // A condition with a list, not endless.
  predicate Limited(d: Dot) {
    d.ticks >= 0 && d.periodDamage == 0
  }

  // A call to such a condition outside a field of its own kind: the front value comes closer, or
  // is dealt and leaves the list.
  function Spend(d: Dot, now: int): Outcome {
    var left := d.(ticks := Max(0, d.ticks - 1000));
    if d.damageList == [] then Outcome(left, [], d.endTime >= now)
    else
      var front, rest := d.damageList[0], d.damageList[1..];
      if front.timeLeft <= 1000 then Outcome(left.(damageList := rest), [front.value], d.endTime >= now)
      else Outcome(left.(damageList := [front.(timeLeft := front.timeLeft - 1000)] + rest), [], d.endTime >= now)
  }

  lemma ExecuteSpends(d: Dot, field: Option<bool>, now: int)
    requires Limited(d) && field != Some(true)
    ensures Execute(d, EVENT_CREATURE_THINK_INTERVAL, field, now) == Spend(d, now)
  {
    if d.damageList != [] {
      var front := d.damageList[0].(timeLeft := d.damageList[0].timeLeft - 1000);
      assert d.damageList[0 := front] == [front] + d.damageList[1..];
    }
  }

  function Spends(d: Dot, at: int, n: nat): Outcome {
    if n == 0 then Outcome(d, [], true)
    else
      var before := Spends(d, at, n - 1);
      var o := Spend(before.next, at + Turns(n - 1));
      Outcome(o.next, before.dealt + o.dealt, before.alive && o.alive)
  }

  // The fields make no difference.
  lemma {:induction false} CallsSpend(d: Dot, at: int, fields: Fields, n: nat)
    requires Limited(d)
    ensures Calls(d, at, fields, n) == Spends(d, at, n)
  {
    if n > 0 {
      CallsSpend(d, at, fields, n - 1);
      SpendsKeepEnd(d, at, n - 1);
      ExecuteSpends(Spends(d, at, n - 1).next, FieldAt(fields, n - 1), at + Turns(n - 1));
    }
  }

  lemma {:induction false} SpendsKeepEnd(d: Dot, at: int, n: nat)
    requires Limited(d)
    ensures var o := Spends(d, at, n);
            && Limited(o.next) && o.next.endTime == d.endTime
            && (o.alive <==> n == 0 || at + Turns(n - 1) <= d.endTime)
  {
    if n > 0 {
      SpendsKeepEnd(d, at, n - 1);
    }
  }

  lemma {:induction false} SpendsGrow(d: Dot, at: int, m: nat, n: nat)
    requires m <= n
    ensures Spends(d, at, m).dealt <= Spends(d, at, n).dealt
    ensures Spends(d, at, n).alive ==> Spends(d, at, m).alive
  {
    if m < n {
      SpendsGrow(d, at, m, n - 1);
    }
  }

  // How many calls a value of this time takes.
  predicate CallsEach(time: int, c: nat) {
    c > 0 && Turns(c - 1) < time <= Turns(c)
  }

  function Remaining(values: seq<nat>, time: int, q: nat, r: nat): seq<IntervalInfo>
    requires q <= |values|
  {
    if q == |values| then []
    else [IntervalInfo(time - Turns(r), Harm(values[q]), time)] + Intervals(values[q + 1..], time)
  }

  // A call in the middle of a round, and the call that ends it.
  lemma OneCall(values: seq<nat>, time: int, d: Dot, now: int, q: nat, r: nat)
    requires Limited(d) && q < |values| && d.damageList == Remaining(values, time, q, r)
    ensures var o, left := Spend(d, now), time - Turns(r + 1);
            if left > 0 then o.next.damageList == Remaining(values, time, q, r + 1) && o.dealt == []
            else o.next.damageList == Remaining(values, time, q + 1, 0) && o.dealt == [Harm(values[q])]
  {
    RemainingFromStart(values, time, q + 1);
  }

  lemma RemainingFromStart(values: seq<nat>, time: int, q: nat)
    requires q <= |values|
    ensures Remaining(values, time, q, 0) == Intervals(values[q..], time)
  {
    if q < |values| {
      assert values[q..][1..] == values[q + 1..];
    }
  }

  lemma NextRound(values: seq<nat>, time: int, before: Outcome, now: int, c: nat, q: nat, r: nat, q': nat, r': nat)
    requires Limited(before.next) && CallsEach(time, c) && q < |values| && r < c
    requires before.next.damageList == Remaining(values, time, q, r) && before.dealt == Harms(values[..q])
    requires if r + 1 < c then q' == q && r' == r + 1 else q' == q + 1 && r' == 0
    ensures var o := Spend(before.next, now);
            o.next.damageList == Remaining(values, time, q', r') && before.dealt + o.dealt == Harms(values[..q'])
  {
    OneCall(values, time, before.next, now, q, r);
    if r + 1 < c {
      assert Turns(r + 1) < time;
      assert before.dealt + [] == before.dealt;
    } else {
      assert Turns(r + 1) >= time;
      assert Harms(values[..q + 1]) == Harms(values[..q]) + [Harm(values[q])];
    }
  }

  // After q rounds of c calls and r more, q values have been dealt.
  lemma {:induction false} AfterSpends(values: seq<nat>, time: int, d: Dot, at: int, c: nat, q: nat, r: nat, n: nat)
    requires Limited(d) && d.damageList == Intervals(values, time) && CallsEach(time, c)
    requires q <= |values| && r < c && (q == |values| ==> r == 0) && n == Times(q, c) + r
    ensures var o := Spends(d, at, n);
            o.next.damageList == Remaining(values, time, q, r) && o.dealt == Harms(values[..q])
    decreases q, r
  {
    if n == 0 {
      RemainingFromStart(values, time, 0);
      assert values[0..] == values;
    } else {
      var q', r' := if r > 0 then q else q - 1, if r > 0 then r - 1 else c - 1;
      assert n - 1 == Times(q', c) + r';
      AfterSpends(values, time, d, at, c, q', r', n - 1);
      OneMoreCall(values, time, d, at, c, q', r', q, r, n);
    }
  }

  lemma OneMoreCall(values: seq<nat>, time: int, d: Dot, at: int, c: nat, q: nat, r: nat, q': nat, r': nat, n: nat)
    requires Limited(d) && CallsEach(time, c) && q < |values| && r < c && n > 0
    requires Spends(d, at, n - 1).next.damageList == Remaining(values, time, q, r)
             && Spends(d, at, n - 1).dealt == Harms(values[..q])
    requires if r + 1 < c then q' == q && r' == r + 1 else q' == q + 1 && r' == 0
    ensures Spends(d, at, n).next.damageList == Remaining(values, time, q', r')
            && Spends(d, at, n).dealt == Harms(values[..q'])
  {
    SpendsKeepEnd(d, at, n - 1);
    NextRound(values, time, Spends(d, at, n - 1), at + Turns(n - 1), c, q, r, q', r');
  }

  // Some call that takes place brings the damage dealt to the whole list.
  ghost predicate SpendsAll(d: Dot, at: int, values: seq<nat>) {
    exists n: nat :: SpendsAllAt(d, at, values, n)
  }

  ghost predicate SpendsAllAt(d: Dot, at: int, values: seq<nat>, n: nat) {
    (n == 0 || Spends(d, at, n - 1).alive) && Spends(d, at, n).dealt == Harms(values)
  }

  // The call that deals the last value.
  lemma LastCall(values: seq<nat>, time: int, d: Dot, at: int, c: nat, calls: nat)
    requires Limited(d) && d.damageList == Intervals(values, time) && CallsEach(time, c)
    requires calls == Times(|values|, c)
    ensures Spends(d, at, calls).dealt == Harms(values) && Spends(d, at, calls).next.damageList == []
    ensures values != [] ==> calls > 0 && |Spends(d, at, calls - 1).dealt| < |values|
  {
    AfterSpends(values, time, d, at, c, |values|, 0, calls);
    assert values[..|values|] == values;
    if values != [] {
      AfterSpends(values, time, d, at, c, |values| - 1, c - 1, calls - 1);
    }
  }

  lemma SpendsAllIff(values: seq<nat>, time: int, d: Dot, at: int, c: nat, calls: nat)
    requires Limited(d) && d.damageList == Intervals(values, time) && CallsEach(time, c)
    requires calls == Times(|values|, c)
    ensures SpendsAll(d, at, values) <==> calls <= 1 || at + Turns(calls - 2) <= d.endTime
  {
    LastCall(values, time, d, at, c, calls);
    if calls == 0 {
      assert SpendsAllAt(d, at, values, 0);
    } else {
      SpendsKeepEnd(d, at, calls - 1);
      if Spends(d, at, calls - 1).alive {
        assert SpendsAllAt(d, at, values, calls);
      } else {
        forall n: nat | SpendsAllAt(d, at, values, n)
          ensures false
        {
          NeedsSpends(values, d, at, calls, n);
        }
      }
    }
  }

  // Fewer calls have not dealt everything, so the call before the last needed takes place.
  lemma NeedsSpends(values: seq<nat>, d: Dot, at: int, calls: nat, n: nat)
    requires calls > 0 && |Spends(d, at, calls - 1).dealt| < |values| && SpendsAllAt(d, at, values, n)
    ensures Spends(d, at, calls - 1).alive
  {
    if n < calls {
      SpendsGrow(d, at, n, calls - 1);
      assert false;
    } else {
      SpendsGrow(d, at, calls - 1, n - 1);
    }
  }

  lemma SpentIsPrefix(values: seq<nat>, time: int, d: Dot, at: int, c: nat, n: nat)
    requires Limited(d) && d.damageList == Intervals(values, time) && CallsEach(time, c)
    ensures Spends(d, at, n).dealt <= Harms(values)
  {
    var calls := Times(|values|, c);
    LastCall(values, time, d, at, c, calls);
    if n <= calls {
      SpendsGrow(d, at, n, calls);
    } else {
      NothingLeft(d, at, calls, n);
    }
  }

  lemma {:induction false} NothingLeft(d: Dot, at: int, m: nat, n: nat)
    requires Limited(d) && m <= n && Spends(d, at, m).next.damageList == []
    ensures Spends(d, at, n).dealt == Spends(d, at, m).dealt && Spends(d, at, n).next.damageList == []
  {
    if m < n {
      NothingLeft(d, at, m, n - 1);
      SpendsKeepEnd(d, at, n - 1);
    }
  }

  lemma {:induction false} TimesTimes(n: nat, c: nat, k: nat)
    ensures Times(n, c) * k == Times(n, c * k)
  {
    if n > 0 {
      TimesTimes(n - 1, c, k);
    }
  }

  // ----- What the calls deal -----------------------------------------------------------------

  // After q rounds of c calls and r more, q values have been dealt.
  lemma AfterRounds(values: seq<nat>, time: int, d: Dot, at: int, fields: Fields, c: nat, q: nat, r: nat, n: nat)
    requires Limited(d) && d.damageList == Intervals(values, time) && CallsEach(time, c)
    requires q <= |values| && r < c && (q == |values| ==> r == 0) && n == Times(q, c) + r
    ensures var o := Calls(d, at, fields, n);
            o.next.damageList == Remaining(values, time, q, r) && o.dealt == Harms(values[..q])
  {
    AfterSpends(values, time, d, at, c, q, r, n);
    CallsSpend(d, at, fields, n);
  }

  // The n-th call takes place, and brings what was dealt before to the whole list.
  ghost predicate Delivers(d: Dot, at: int, fields: Fields, dealt: seq<int>, values: seq<nat>, n: nat) {
    (n == 0 || Calls(d, at, fields, n - 1).alive) && dealt + Calls(d, at, fields, n).dealt == Harms(values)
  }

  // Some call does.
  ghost predicate DealsAll(d: Dot, at: int, fields: Fields, dealt: seq<int>, values: seq<nat>) {
    exists n: nat :: Delivers(d, at, fields, dealt, values, n)
  }

  lemma DeliversSpends(d: Dot, at: int, fields: Fields, values: seq<nat>, n: nat)
    requires Limited(d)
    ensures Delivers(d, at, fields, [], values, n) <==> SpendsAllAt(d, at, values, n)
  {
    CallsSpend(d, at, fields, n);
    if n > 0 {
      CallsSpend(d, at, fields, n - 1);
    }
    assert [] + Calls(d, at, fields, n).dealt == Calls(d, at, fields, n).dealt;
  }

  /** All values are dealt exactly when the call before the last one needed still finds the
      condition in time: an expired condition is dropped after its call, so one call may come
      late. */
  lemma DealsAllIff(values: seq<nat>, time: int, d: Dot, at: int, fields: Fields, c: nat, calls: nat)
    requires Limited(d) && d.damageList == Intervals(values, time) && CallsEach(time, c)
    requires calls == Times(|values|, c)
    ensures DealsAll(d, at, fields, [], values) <==> calls <= 1 || at + Turns(calls - 2) <= d.endTime
  {
    SpendsAllIff(values, time, d, at, c, calls);
    forall n: nat
      ensures Delivers(d, at, fields, [], values, n) <==> SpendsAllAt(d, at, values, n)
    {
      DeliversSpends(d, at, fields, values, n);
    }
  }

  /** Whatever has been dealt after any number of calls is the start of the list: every value
      at most once and in order. */
  lemma DealtIsPrefix(values: seq<nat>, time: int, d: Dot, at: int, fields: Fields, c: nat, n: nat)
    requires Limited(d) && d.damageList == Intervals(values, time) && CallsEach(time, c)
    ensures Calls(d, at, fields, n).dealt <= Harms(values)
  {
    SpentIsPrefix(values, time, d, at, c, n);
    CallsSpend(d, at, fields, n);
  }

  /** What starting leaves, with a tick time that is a number of think intervals and a first
      call within one interval of the start: every value is dealt, in order, counting the one
      dealt at the start. */
  lemma StartedDealsAll(all: seq<nat>, delayed: bool, first: seq<int>, c: nat, d: Dot, start: int, at: int,
                        fields: Fields)
    requires all != [] && first == (if delayed then [] else [Harm(all[0])])
    requires c > 0 && Limited(d)
    requires d.damageList == Intervals(if delayed then all else all[1..], Turns(c))
    requires d.endTime == start + Times(|all|, Turns(c))
    requires start <= at <= start + EVENT_CREATURE_THINK_INTERVAL
    ensures DealsAll(d, at, fields, first, all)
  {
    var rest := if delayed then all else all[1..];
    assert Harms(all) == first + Harms(rest);
    RestDelivered(all, rest, first, c, d, start, at, fields);
  }

  lemma RestDelivered(all: seq<nat>, rest: seq<nat>, first: seq<int>, c: nat, d: Dot, start: int, at: int,
                      fields: Fields)
    requires Harms(all) == first + Harms(rest) && |rest| <= |all|
    requires c > 0 && Limited(d) && d.damageList == Intervals(rest, Turns(c))
    requires d.endTime == start + Times(|all|, Turns(c)) && at <= start + EVENT_CREATURE_THINK_INTERVAL
    ensures DealsAll(d, at, fields, first, all)
  {
    var calls := Times(|rest|, c);
    TimeSuffices(|rest|, |all|, c);
    DealsAllIff(rest, Turns(c), d, at, fields, c, calls);
    var n: nat :| Delivers(d, at, fields, [], rest, n);
    FirstDelivered(d, at, fields, first, rest, all, n);
  }

  lemma TimeSuffices(rest: nat, all: nat, c: nat)
    requires rest <= all
    ensures Turns(Times(rest, c)) <= Times(all, Turns(c))
  {
    TimesTimes(rest, c, 1000);
    TimesLeast(rest, all, c * 1000);
  }

  lemma FirstDelivered(d: Dot, at: int, fields: Fields, first: seq<int>, rest: seq<nat>, all: seq<nat>, n: nat)
    requires Delivers(d, at, fields, [], rest, n)
    requires Harms(all) == first + Harms(rest)
    ensures Delivers(d, at, fields, first, all, n)
  {
    assert [] + Calls(d, at, fields, n).dealt == Calls(d, at, fields, n).dealt;
  }

  /** Starting and the calls together: with a tick time that is a number of think intervals and
      a first call within one interval of the start, a condition that starts with nothing set up
      deals every value it has drawn, exactly once and in order, before it is dropped. */
  lemma StartAndCallsDealAll(condition: ConditionDamage, values: seq<nat>, hit: bool, start: int, dealt: seq<int>,
                             c: nat, at: int, fields: Fields)
    requires condition.StartedWith(values, hit, start, true, dealt)
    requires c > 0 && DamageTime(condition.tickInterval) == Turns(c)
    requires start <= at <= start + EVENT_CREATURE_THINK_INTERVAL
    ensures DealsAll(condition.View(), at, fields, dealt, values)
  {
    StartedDealsAll(values, condition.delayed, dealt, c, condition.View(), start, at, fields);
  }

  /** A tick time between two numbers of intervals loses damage: five values of one and a
      half seconds, the first call at once. */
  lemma UnevenTimeLosesDamage(d: Dot, start: int, fields: Fields)
    requires Limited(d) && d.damageList == Intervals([1, 1, 1, 1, 1], 1500) && d.endTime == start + 5 * 1500
    ensures !DealsAll(d, start, fields, [], [1, 1, 1, 1, 1])
  {
    assert Times(5, 2) == 10 by { assert Times(3, 2) == 6; }
    DealsAllIff([1, 1, 1, 1, 1], 1500, d, start, fields, 2, 10);
  }

  // ----- Periodic damage, and fields of the condition's own kind ---------------------------------

  /** One call on periodic damage: it is dealt when its time has come round, and never used up. */
  lemma PeriodicCallIs(d: Dot, interval: int, field: Option<bool>, now: int)
    requires d.periodDamage != 0 && d.ticks == -1
    ensures var o := Execute(d, interval, field, now);
            && o.alive
            && (d.periodDamageTick + interval >= d.tickInterval ==>
                  o.dealt == [d.periodDamage] && o.next == d.(periodDamageTick := 0))
            && (d.periodDamageTick + interval < d.tickInterval ==>
                  o.dealt == [] && o.next == d.(periodDamageTick := d.periodDamageTick + interval))
  {
  }

  /** Over any number of calls, periodic damage is dealt at every c-th call, c being the calls that
      one of its times takes, and it never ends. */
  lemma {:induction false} PeriodicDealsEvery(d: Dot, at: int, fields: Fields, c: nat, n: nat)
    requires d.periodDamage != 0 && d.ticks == -1 && d.periodDamageTick == 0 && CallsEach(d.tickInterval, c)
    ensures var o := Calls(d, at, fields, n);
            && o.alive && |o.dealt| == n / c && (forall k :: 0 <= k < |o.dealt| ==> o.dealt[k] == d.periodDamage)
            && o.next == d.(periodDamageTick := Turns(n % c))
  {
    if n > 0 {
      PeriodicDealsEvery(d, at, fields, c, n - 1);
      var before := Calls(d, at, fields, n - 1).next;
      PeriodicCallIs(before, EVENT_CREATURE_THINK_INTERVAL, FieldAt(fields, n - 1), at + Turns(n - 1));
      NextOfEach(n, c);
    }
  }

  lemma NextOfEach(n: nat, c: nat)
    requires c > 0 && n > 0
    ensures if (n - 1) % c + 1 < c then n % c == (n - 1) % c + 1 && n / c == (n - 1) / c
            else n % c == 0 && n / c == (n - 1) / c + 1
  {
    var q, r := (n - 1) / c, (n - 1) % c;
    if r + 1 < c {
      DivModIs(n, c, q, r + 1);
    } else {
      assert (q + 1) * c == q * c + c;
      DivModIs(n, c, q + 1, 0);
    }
  }

  /** In a field of its own kind a list deals its front value again and again: the value stays in
      front, its time starts anew, and neither the condition's time nor its end comes closer. */
  lemma OwnFieldCallIs(d: Dot, interval: int, now: int)
    requires d.periodDamage == 0 && d.damageList != [] && d.ticks >= 0 && interval >= 0
    ensures var (o, front) := (Execute(d, interval, Some(true), now), d.damageList[0]);
            var due := front.timeLeft <= interval;
            && o.dealt == (if due then [front.value] else [])
            && |o.next.damageList| == |d.damageList| && o.next.damageList[1..] == d.damageList[1..]
            && o.next.damageList[0] == IntervalInfo(if due then front.interval else front.timeLeft - interval,
                front.value, front.interval)
            && o.next.ticks == d.ticks
            && o.next.endTime == (if d.ticks > 0 then d.endTime + interval else d.endTime)
            && (o.alive <==> o.next.endTime >= now)
  {
  }

  /** The numbers of setting up: no time below a second, and a first value of a twentieth of the
      amount, rounded up, where none is given, and never above the largest damage. */
  lemma SetUpNumbers(tickInterval: int, startDamage: nat, maxDamage: nat, amount: nat)
    ensures DamageTime(tickInterval) == if tickInterval < 1000 then 1000 else tickInterval
    ensures var first := StartValue(startDamage, maxDamage, amount);
            && (startDamage > maxDamage ==> first == maxDamage)
            && (0 < startDamage <= maxDamage ==> first == startDamage)
            && (startDamage == 0 && amount > 0 ==> 20 * (first - 1) < amount <= 20 * first)
            && (startDamage == 0 && amount == 0 ==> first == 1)
  {
  }
}
