/** Damage and who is credited with it (engine/src/game.cpp: combatChangeHealth;
    engine/src/creature.cpp: drainHealth, drainMana, addDamagePoints, getDamageRatio, onDeath).

    Script events are absent.  Ratios are exact: what a damager gains is its share of the
    experience, rounded down. */
module DamageCredit {
  import opened Common

  type Id = nat

  // ----- Sums over the damage map --------------------------------------------------------------

  ghost function Pick(m: map<Id, nat>): Id
    requires m != map[]
  {
    assert m.Keys != {};
    var k :| k in m.Keys;
    k
  }

  ghost function Total(m: map<Id, nat>): nat
    decreases |m|
  {
    if m == map[] then 0 else
    var k := Pick(m);
    m[k] + Total(m - {k})
  }

  lemma {:induction false} TotalWithout(m: map<Id, nat>, k: Id)
    requires k in m
    ensures Total(m) == m[k] + Total(m - {k})
    decreases |m|
  {
    var t := Pick(m);
    if t != k {
      TotalWithout(m - {t}, k);
      TotalWithout(m - {k}, t);
      assert m - {t} - {k} == m - {k} - {t};
    }
  }

  // Points added to an attacker's entry.
  function Credited(m: map<Id, nat>, attacker: Id, points: nat): map<Id, nat> {
    if points == 0 then m else m[attacker := (if attacker in m then m[attacker] else 0) + points]
  }

  lemma CreditAdds(m: map<Id, nat>, attacker: Id, points: nat)
    ensures Total(Credited(m, attacker, points)) == Total(m) + points
  {
    if points > 0 {
      var n := Credited(m, attacker, points);
      TotalWithout(n, attacker);
      assert n - {attacker} == m - {attacker};
      if attacker in m {
        TotalWithout(m, attacker);
      } else {
        assert m - {attacker} == m;
      }
    }
  }

  // ----- Taking damage ---------------------------------------------------------------------------

  datatype Victim = Victim(health: nat, mana: nat, damageMap: map<Id, nat>)

  /** A harmful hit: its two values, whether it can be taken by a mana shield, and who dealt it. */
  datatype Hit = Hit(primary: int, secondary: int, shielded: bool, attacker: Option<Id>)

  function HitTotal(h: Hit): nat {
    Abs(h.primary) + Abs(h.secondary)
  }

  function ManaLoss(v: Victim, h: Hit): nat {
    if h.shielded then Min(v.mana, HitTotal(h)) else 0
  }

  function HealthLoss(v: Victim, h: Hit): nat {
    Min(v.health, HitTotal(h) - ManaLoss(v, h))
  }

  /** What the hit leaves: as much of it as there is mana is taken from mana if shielded, as
      much of the rest as there is health from health, and both are credited. */
  function Struck(v: Victim, h: Hit): Victim {
    Victim(v.health - HealthLoss(v, h), v.mana - ManaLoss(v, h),
           if h.attacker.Some? then Credited(v.damageMap, h.attacker.value, ManaLoss(v, h) + HealthLoss(v, h))
               else v.damageMap)
  }

  // An attacker's points.
  function Entry(m: map<Id, nat>, attacker: Id): nat {
    if attacker in m then m[attacker] else 0
  }

  /** What a hit does, read off the victim: mana and health lose together the lesser of the hit
      and what there is to lose, health alone without a shield; behind a shield health is touched
      only when no mana is left; and the attacker's entry, no other, grows by just that loss. */
  lemma StruckIs(v: Victim, h: Hit)
    ensures var n := Struck(v, h);
            var hit := (if h.primary < 0 then -h.primary else h.primary)
                       + (if h.secondary < 0 then -h.secondary else h.secondary);
            var toLose := v.health + if h.shielded then v.mana else 0;
            var loss := (v.mana - n.mana) + (v.health - n.health);
            && n.mana <= v.mana && n.health <= v.health && loss == (if hit < toLose then hit else toLose)
            && (h.shielded && n.health < v.health ==> n.mana == 0)
            && (!h.shielded ==> n.mana == v.mana)
            && (h.attacker.None? ==> n.damageMap == v.damageMap)
            && (h.attacker.Some? ==>
                  && Entry(n.damageMap, h.attacker.value) == Entry(v.damageMap, h.attacker.value) + loss
                  && forall i :: i != h.attacker.value ==> Entry(n.damageMap, i) == Entry(v.damageMap, i))
  {
  }

  function StruckAll(v: Victim, hits: seq<Hit>): Victim {
    if hits == [] then v else Struck(StruckAll(v, hits[..|hits| - 1]), hits[|hits| - 1])
  }

  lemma HitCredits(v: Victim, h: Hit)
    requires h.attacker.Some?
    ensures var n := Struck(v, h);
            n.health == v.health - HealthLoss(v, h) && n.mana == v.mana - ManaLoss(v, h)
            && Total(n.damageMap) == Total(v.damageMap) + (ManaLoss(v, h) + HealthLoss(v, h))
  {
    CreditAdds(v.damageMap, h.attacker.value, ManaLoss(v, h) + HealthLoss(v, h));
  }

  /** Over any run of hits with attackers, the points credited are exactly the mana and health
      lost. */
  lemma {:induction false} CreditIsLoss(v: Victim, hits: seq<Hit>)
    requires forall k :: 0 <= k < |hits| ==> hits[k].attacker.Some?
    ensures var n := StruckAll(v, hits);
            && n.health <= v.health && n.mana <= v.mana
            && Total(n.damageMap) - Total(v.damageMap) == (v.health - n.health) + (v.mana - n.mana)
  {
    if hits != [] {
      CreditIsLoss(v, hits[..|hits| - 1]);
      HitCredits(StruckAll(v, hits[..|hits| - 1]), hits[|hits| - 1]);
    }
  }

  // The loss that hits by one attacker have brought.
  function LossBy(v: Victim, hits: seq<Hit>, attacker: Id): nat {
    if hits == [] then 0
    else
      var before, h := StruckAll(v, hits[..|hits| - 1]), hits[|hits| - 1];
      LossBy(v, hits[..|hits| - 1], attacker)
      + if h.attacker == Some(attacker) then ManaLoss(before, h) + HealthLoss(before, h) else 0
  }

  /** Each attacker's entry is what that attacker's hits have taken. */
  lemma {:induction false} EntryIsOwnLoss(v: Victim, hits: seq<Hit>, attacker: Id)
    requires v.damageMap == map[]
    ensures var m := StruckAll(v, hits).damageMap;
            LossBy(v, hits, attacker) == if attacker in m then m[attacker] else 0
  {
    if hits != [] {
      EntryIsOwnLoss(v, hits[..|hits| - 1], attacker);
    }
  }

  class Creature {
    var health: nat
    var mana: nat
    var damageMap: map<Id, nat>
    var lastHitCreatureId: Option<Id>

    function View(): Victim
      reads this
    {
      Victim(health, mana, damageMap)
    }

    method AddDamagePoints(attacker: Id, points: int)
      modifies this`damageMap, this`lastHitCreatureId
      ensures damageMap == Credited(old(damageMap), attacker, if points < 0 then 0 else points)
      ensures points <= 0 ==> damageMap == old(damageMap)
      ensures points > 0 ==> damageMap == old(damageMap)[attacker := Entry(old(damageMap), attacker) + points]
      ensures lastHitCreatureId == if points > 0 then Some(attacker) else old(lastHitCreatureId)
    {
      if points <= 0 {
        return;
      }
      if attacker !in damageMap {
        damageMap := damageMap[attacker := points];
      } else {
        damageMap := damageMap[attacker := damageMap[attacker] + points];
      }
      lastHitCreatureId := Some(attacker);
    }

    method DrainMana(attacker: Option<Id>, loss: nat)
      requires loss <= mana
      modifies this
      ensures health == old(health) && mana == old(mana) - loss
      ensures damageMap == if attacker.Some? then Credited(old(damageMap), attacker.value, loss) else old(damageMap)
      ensures lastHitCreatureId == if attacker.Some? && loss > 0 then attacker else old(lastHitCreatureId)
    {
      mana := mana - loss;
      if attacker.Some? {
        AddDamagePoints(attacker.value, loss);
      }
    }

    method DrainHealth(attacker: Option<Id>, damage: nat)
      requires damage <= health
      modifies this
      ensures mana == old(mana) && health == old(health) - damage
      ensures damageMap == if attacker.Some? then Credited(old(damageMap), attacker.value, damage) else old(damageMap)
      ensures lastHitCreatureId == if attacker.Some? && damage > 0 then attacker else old(lastHitCreatureId)
    {
      health := health - damage;
      if attacker.Some? {
        AddDamagePoints(attacker.value, damage);
      }
    }

    /** The harmful branch of combatChangeHealth. */
    method CombatChangeHealth(hit: Hit)
      modifies this
      ensures View() == Struck(old(View()), hit)
      ensures mana <= old(mana) && health <= old(health)
      ensures var total := (if hit.primary < 0 then -hit.primary else hit.primary)
                           + (if hit.secondary < 0 then -hit.secondary else hit.secondary);
              var toLose := old(health) + if hit.shielded then old(mana) else 0;
              (old(mana) - mana) + (old(health) - health) == if total < toLose then total else toLose
      ensures hit.shielded && health < old(health) ==> mana == 0
      ensures !hit.shielded ==> mana == old(mana)
      ensures hit.attacker.None? ==> damageMap == old(damageMap)
      ensures hit.attacker.Some? ==>
                && Entry(damageMap, hit.attacker.value)
                   == Entry(old(damageMap), hit.attacker.value) + (old(mana) - mana) + (old(health) - health)
                && forall i :: i != hit.attacker.value ==> Entry(damageMap, i) == Entry(old(damageMap), i)
      ensures lastHitCreatureId ==
              if hit.attacker.Some? && ManaLoss(old(View()), hit) + HealthLoss(old(View()), hit) > 0 then hit.attacker
                                   else old(lastHitCreatureId)
    {
      StruckIs(View(), hit);
      var primary: int, secondary: int := Abs(hit.primary), Abs(hit.secondary);
      var healthChange := primary + secondary;
      if healthChange == 0 {
        return;
      }
      if hit.shielded {
        var manaDamage := if mana < healthChange then mana else healthChange;
        if manaDamage != 0 {
          DrainMana(hit.attacker, manaDamage);
          primary := primary - manaDamage;
          if primary < 0 {
            secondary := if secondary + primary < 0 then 0 else secondary + primary;
            primary := 0;
          }
        }
      }
      if primary + secondary == 0 {
        return;
      }
      if primary >= health {
        primary, secondary := health, 0;
      } else if secondary != 0 {
        secondary := if secondary < health - primary then secondary else health - primary;
      }
      if primary + secondary == 0 {
        return;
      }
      DrainHealth(hit.attacker, primary + secondary);
    }

    /** getDamageRatio, as the attacker's points and all points. */
    method GetDamageRatio(attacker: Id, order: seq<Id>) returns (attackerDamage: nat, totalDamage: nat)
      requires Enumerates(order, damageMap)
      ensures totalDamage == Total(damageMap)
      ensures attackerDamage == if attacker in damageMap then damageMap[attacker] else 0
    {
      attackerDamage, totalDamage := 0, 0;
      for k := 0 to |order|
        invariant totalDamage == Sum(damageMap, order[..k])
        invariant attackerDamage == if attacker in order[..k] then damageMap[attacker] else 0
      {
        assert order[..k + 1] == order[..k] + [order[k]];
        assert order[k] in damageMap && order[k] !in order[..k];
        totalDamage := totalDamage + damageMap[order[k]];
        if order[k] == attacker {
          attackerDamage := attackerDamage + damageMap[order[k]];
        }
      }
      assert order[..|order|] == order;
      SumIsTotal(damageMap, order);
    }

    // The share of the experience, rounded down.
    method GetGainedExperience(attacker: Id, order: seq<Id>, lost: nat) returns (gain: nat)
      requires Enumerates(order, damageMap)
      ensures gain == Gain(damageMap, attacker, lost)
      ensures Total(damageMap) == 0 ==> gain == 0
      ensures var (all, own) := (Total(damageMap), Entry(damageMap, attacker));
              all > 0 ==> all * gain <= own * lost < all * gain + all
    {
      var attackerDamage, totalDamage := GetDamageRatio(attacker, order);
      GainBounds(damageMap, attacker, lost);
      gain := Share(attackerDamage, totalDamage, lost);
    }

    /** The experience that is given on death: each damager that exists and is not the victim
        gains its share, put to the party's leader where the party shares.  So everyone receives
        exactly the shares that are put to them. */
    method ExperienceOnDeath(self: Id, order: seq<Id>, lost: nat, alive: Id -> bool, leader: Id -> Option<Id>)
      returns (experience: map<Id, nat>)
      requires Enumerates(order, damageMap)
      ensures Given(damageMap, order, self, lost, alive, leader, experience)
      ensures forall d :: d in order && alive(d) && d != self ==>
                (if leader(d).Some? then leader(d).value else d) in experience
      ensures forall i :: i in experience ==>
                exists d :: d in order && alive(d) && d != self && i == if leader(d).Some? then leader(d).value else d
    {
      experience := map[];
      for k := 0 to |order|
        invariant Given(damageMap, order[..k], self, lost, alive, leader, experience)
      {
        assert order[..k + 1] == order[..k] + [order[k]];
        var d := order[k];
        experience := GiveShare(d, order, order[..k], self, lost, alive, leader, experience);
      }
      assert order[..|order|] == order;
      GivenTo(order, self, alive, leader, experience.Keys);
      GivenBy(order, self, alive, leader, experience.Keys);
    }

    // One damager's share.
    method GiveShare(d: Id, order: seq<Id>, ghost front: seq<Id>, self: Id, lost: nat, alive: Id -> bool,
                     leader: Id -> Option<Id>, before: map<Id, nat>)
      returns (experience: map<Id, nat>)
      requires Enumerates(order, damageMap) && Given(damageMap, front, self, lost, alive, leader, before)
      ensures Given(damageMap, front + [d], self, lost, alive, leader, experience)
    {
      experience := before;
      if alive(d) && d != self {
        var gain := GetGainedExperience(d, order, lost);
        var receiver := Receiver(leader, d);
        experience := Put(experience, receiver, gain);
      }
      GivenNext(damageMap, front, d, self, lost, alive, leader, before, experience);
    }
  }

  // Everyone receives exactly the shares put to them, and the experience has entries for just
  // those to whom a share is put.
  ghost predicate Given(m: map<Id, nat>, order: seq<Id>, self: Id, lost: nat, alive: Id -> bool,
                        leader: Id -> Option<Id>, experience: map<Id, nat>)
  {
    && Total(experience) == Gains(m, order, self, lost, alive)
    && (forall i {:trigger Received(experience, i)} ::
        Received(experience, i) == GainsFor(m, order, self, lost, alive, leader, i))
    && (forall i :: i in experience <==> exists d :: Gives(order, self, alive, leader, d, i))
  }

  ghost predicate Gives(order: seq<Id>, self: Id, alive: Id -> bool, leader: Id -> Option<Id>, d: Id, i: Id) {
    d in order && alive(d) && d != self && i == Receiver(leader, d)
  }

  lemma GivenTo(order: seq<Id>, self: Id, alive: Id -> bool, leader: Id -> Option<Id>, receivers: set<Id>)
    requires forall i :: i in receivers <==> exists d :: Gives(order, self, alive, leader, d, i)
    ensures forall d :: d in order && alive(d) && d != self ==>
              (if leader(d).Some? then leader(d).value else d) in receivers
  {
    forall d | d in order && alive(d) && d != self
      ensures (if leader(d).Some? then leader(d).value else d) in receivers
    {
      assert Gives(order, self, alive, leader, d, Receiver(leader, d));
    }
  }

  lemma GivenBy(order: seq<Id>, self: Id, alive: Id -> bool, leader: Id -> Option<Id>, receivers: set<Id>)
    requires forall i :: i in receivers <==> exists d :: Gives(order, self, alive, leader, d, i)
    ensures forall i :: i in receivers ==>
              exists d :: d in order && alive(d) && d != self && i == if leader(d).Some? then leader(d).value else d
  {
    forall i | i in receivers
      ensures exists d :: d in order && alive(d) && d != self && i == if leader(d).Some? then leader(d).value else d
    {
      var d :| Gives(order, self, alive, leader, d, i);
    }
  }

  lemma GivenNext(m: map<Id, nat>, front: seq<Id>, d: Id, self: Id, lost: nat, alive: Id -> bool,
                  leader: Id -> Option<Id>, before: map<Id, nat>, after: map<Id, nat>)
    requires Given(m, front, self, lost, alive, leader, before)
    requires var r := Receiver(leader, d);
             if alive(d) && d != self then
               after == before[r := Received(before, r) + Gain(m, d, lost)]
                   && Total(after) == Total(before) + Gain(m, d, lost)
             else after == before
    ensures Given(m, front + [d], self, lost, alive, leader, after)
  {
    var order := front + [d];
    assert order[..|order| - 1] == front;
    forall i
      ensures Received(after, i) == GainsFor(m, order, self, lost, alive, leader, i)
    {
      assert Received(before, i) == GainsFor(m, front, self, lost, alive, leader, i);
    }
    ReceiversNext(front, d, self, alive, leader, before.Keys, after.Keys);
  }

  lemma ReceiversNext(front: seq<Id>, d: Id, self: Id, alive: Id -> bool, leader: Id -> Option<Id>, before: set<Id>,
                      after: set<Id>)
    requires forall i :: i in before <==> exists e :: Gives(front, self, alive, leader, e, i)
    requires after == before + if alive(d) && d != self then {Receiver(leader, d)} else {}
    ensures forall i :: i in after <==> exists e :: Gives(front + [d], self, alive, leader, e, i)
  {
    var order := front + [d];
    forall i
      ensures i in after <==> exists e :: Gives(order, self, alive, leader, e, i)
    {
      if i in before {
        var e :| Gives(front, self, alive, leader, e, i);
        assert Gives(order, self, alive, leader, e, i);
      } else if i in after {
        assert Gives(order, self, alive, leader, d, i);
      } else {
        forall e
          ensures !Gives(order, self, alive, leader, e, i)
        {
          assert !Gives(front, self, alive, leader, e, i);
        }
      }
    }
  }

  // A gain is added to the receiver's entry, which is made if there is none.
  method Put(m: map<Id, nat>, receiver: Id, gain: nat) returns (n: map<Id, nat>)
    ensures n == m[receiver := Received(m, receiver) + gain]
    ensures Total(n) == Total(m) + gain
  {
    n := m[receiver := Received(m, receiver) + gain];
    TotalWithout(n, receiver);
    assert n - {receiver} == m - {receiver};
    if receiver in m {
      TotalWithout(m, receiver);
    } else {
      assert m - {receiver} == m;
    }
  }

  function Received(experience: map<Id, nat>, receiver: Id): nat {
    if receiver in experience then experience[receiver] else 0
  }

  function Receiver(leader: Id -> Option<Id>, d: Id): Id {
    if leader(d).Some? then leader(d).value else d
  }

  // The keys of the map, each once, in the order the map is walked.
  ghost predicate Enumerates(order: seq<Id>, m: map<Id, nat>) {
    (forall i, j :: 0 <= i < j < |order| ==> order[i] != order[j]) && forall k :: k in order <==> k in m
  }

  function Sum(m: map<Id, nat>, order: seq<Id>): nat {
    if order == [] then 0
    else Sum(m, order[..|order| - 1]) + if order[|order| - 1] in m then m[order[|order| - 1]] else 0
  }

  lemma EnumeratesFront(order: seq<Id>, m: map<Id, nat>)
    requires Enumerates(order, m) && order != []
    ensures var front, k := order[..|order| - 1], order[|order| - 1];
            k in m && k !in front && Enumerates(front, m - {k})
  {
    assert order == order[..|order| - 1] + [order[|order| - 1]];
  }

  lemma {:induction false} SumIsTotal(m: map<Id, nat>, order: seq<Id>)
    requires Enumerates(order, m)
    ensures Sum(m, order) == Total(m)
    decreases |order|
  {
    if order == [] {
      assert m == map[];
    } else {
      var front, k := order[..|order| - 1], order[|order| - 1];
      EnumeratesFront(order, m);
      TotalWithout(m, k);
      SumIsTotal(m - {k}, front);
      SumWithout(m, k, front);
    }
  }

  lemma {:induction false} SumWithout(m: map<Id, nat>, k: Id, order: seq<Id>)
    requires k !in order
    ensures Sum(m - {k}, order) == Sum(m, order)
  {
    if order != [] {
      assert order[|order| - 1] != k;
      SumWithout(m, k, order[..|order| - 1]);
    }
  }

  // ----- Sharing the experience ------------------------------------------------------------------

  ghost function Gain(m: map<Id, nat>, attacker: Id, lost: nat): nat {
    Share(Entry(m, attacker), Total(m), lost)
  }

  // The part of `lost` for these points out of all, rounded down.
  function Share(points: nat, all: nat, lost: nat): nat {
    if all == 0 then 0 else (points * lost) / all
  }

  lemma GainBounds(m: map<Id, nat>, attacker: Id, lost: nat)
    ensures var (all, n) := (Total(m), Gain(m, attacker, lost));
            if all == 0 then n == 0 else all * n <= Entry(m, attacker) * lost < all * n + all
  {
    if Total(m) > 0 {
      assert Entry(m, attacker) * lost == Total(m) * Gain(m, attacker, lost) + (Entry(m, attacker) * lost) % Total(m);
    }
  }

  ghost function Gains(m: map<Id, nat>, order: seq<Id>, self: Id, lost: nat, alive: Id -> bool): nat {
    if order == [] then 0
    else
      var d := order[|order| - 1];
      Gains(m, order[..|order| - 1], self, lost, alive) + if alive(d) && d != self then Gain(m, d, lost) else 0
  }

  // The shares that are put to one receiver.
  ghost function GainsFor(m: map<Id, nat>, order: seq<Id>, self: Id, lost: nat, alive: Id -> bool,
                          leader: Id -> Option<Id>, receiver: Id): nat {
    if order == [] then 0
    else
      var d := order[|order| - 1];
      GainsFor(m, order[..|order| - 1], self, lost, alive, leader, receiver)
      + if alive(d) && d != self && Receiver(leader, d) == receiver then Gain(m, d, lost) else 0
  }

  /** Whoever receives from one damager only receives just that damager's share, within one point
      of the exact one. */
  lemma {:induction false} OneShareIs(m: map<Id, nat>, order: seq<Id>, self: Id, lost: nat, alive: Id -> bool,
                                      leader: Id -> Option<Id>, receiver: Id, d: Id)
    requires Distinct(order) && d in m && Total(m) > 0
    requires alive(d) && d != self && receiver == if leader(d).Some? then leader(d).value else d
    requires forall e :: e in order && e != d ==> receiver != if leader(e).Some? then leader(e).value else e
    ensures var n := GainsFor(m, order, self, lost, alive, leader, receiver);
            if d in order then Total(m) * n <= m[d] * lost < Total(m) * n + Total(m) else n == 0
  {
    if order != [] {
      var front, last := order[..|order| - 1], order[|order| - 1];
      assert order == front + [last];
      OneShareIs(m, front, self, lost, alive, leader, receiver, d);
      if last == d {
        GainIs(m, d, lost);
        assert d !in front;
      }
    }
  }

  lemma GainIs(m: map<Id, nat>, d: Id, lost: nat)
    requires d in m && Total(m) > 0
    ensures Total(m) * Gain(m, d, lost) <= m[d] * lost < Total(m) * Gain(m, d, lost) + Total(m)
  {
    GainBounds(m, d, lost);
  }

  // In units of the total damage, no more is given than the shares come to.
  lemma {:induction false} GainsAtMost(m: map<Id, nat>, order: seq<Id>, self: Id, lost: nat, alive: Id -> bool)
    requires Total(m) > 0 && forall k :: k in order ==> k in m
    ensures Total(m) * Gains(m, order, self, lost, alive) <= lost * Sum(m, order)
  {
    if order != [] {
      var front, d := order[..|order| - 1], order[|order| - 1];
      assert order == front + [d];
      GainsAtMost(m, front, self, lost, alive);
      GainIs(m, d, lost);
      Distribute(Total(m), Gains(m, front, self, lost, alive), Gain(m, d, lost));
      Distribute(lost, Sum(m, front), m[d]);
    }
  }

  // And with everyone there to gain, each loses less than one unit to the rounding.
  lemma {:induction false} GainsAtLeast(m: map<Id, nat>, order: seq<Id>, self: Id, lost: nat, alive: Id -> bool)
    requires Total(m) > 0 && forall k :: k in order ==> k in m && alive(k) && k != self
    ensures Total(m) * Gains(m, order, self, lost, alive) + Total(m) * |order| >= lost * Sum(m, order) + |order|
  {
    if order != [] {
      var front, d := order[..|order| - 1], order[|order| - 1];
      assert order == front + [d];
      GainsAtLeast(m, front, self, lost, alive);
      GainIs(m, d, lost);
      Distribute(Total(m), Gains(m, front, self, lost, alive), Gain(m, d, lost));
      Distribute(lost, Sum(m, front), m[d]);
      Distribute(Total(m), |front|, 1);
    }
  }

  lemma Cancel(t: nat, a: nat, b: nat)
    requires t * a < t * b
    ensures a < b
  {
    if a >= b {
      Grows(t, b, a);
    }
  }

  lemma Grows(t: nat, a: nat, b: nat)
    requires a <= b
    ensures t * a <= t * b
  {
    assert t * b == t * a + t * (b - a);
  }

  /** The experience given, merged among parties or not, never exceeds what the victim loses;
      when every damager still exists and none is the victim, it falls short by less than one
      point for each. */
  lemma SharesFit(m: map<Id, nat>, order: seq<Id>, self: Id, lost: nat, alive: Id -> bool)
    requires Enumerates(order, m)
    ensures Gains(m, order, self, lost, alive) <= lost
    ensures Total(m) > 0 && (forall k :: k in m ==> alive(k) && k != self) ==>
            lost - Gains(m, order, self, lost, alive) < |m|
  {
    if Total(m) == 0 {
      NoGains(m, order, self, lost, alive);
    } else {
      var given := Gains(m, order, self, lost, alive);
      SumIsTotal(m, order);
      GainsAtMost(m, order, self, lost, alive);
      assert lost * Total(m) == Total(m) * lost;
      Distribute(Total(m), lost, 1);
      Cancel(Total(m), given, lost + 1);
      if forall k :: k in m ==> alive(k) && k != self {
        GainsAtLeast(m, order, self, lost, alive);
        CountKeys(order, m);
        Distribute(Total(m), given, |order|);
        assert order != [] by { assert m != map[]; }
        Cancel(Total(m), lost, given + |order|);
      }
    }
  }

  lemma {:induction false} NoGains(m: map<Id, nat>, order: seq<Id>, self: Id, lost: nat, alive: Id -> bool)
    requires Total(m) == 0
    ensures Gains(m, order, self, lost, alive) == 0
  {
    if order != [] {
      NoGains(m, order[..|order| - 1], self, lost, alive);
    }
  }

  lemma {:induction false} CountKeys(order: seq<Id>, m: map<Id, nat>)
    requires Enumerates(order, m)
    ensures |order| == |m|
    decreases |order|
  {
    if order == [] {
      assert m == map[];
    } else {
      var front, k := order[..|order| - 1], order[|order| - 1];
      EnumeratesFront(order, m);
      CountKeys(front, m - {k});
      assert m.Keys == (m - {k}).Keys + {k};
    }
  }

  /** A victim among its own damagers, or a damager who is gone, takes its share with it: what
      is given is then at most what the others' shares come to. */
  lemma ShareIsLost(m: map<Id, nat>, order: seq<Id>, self: Id, lost: nat, alive: Id -> bool)
    requires Enumerates(order, m) && self in m && Total(m) > 0
    ensures Total(m) * Gains(m, order, self, lost, alive) <= lost * (Total(m) - m[self])
  {
    SumIsTotal(m, order);
    TotalWithout(m, self);
    OthersAtMost(m, order, self, lost, alive);
    SumOfOthers(m, order, self);
  }

  function SumExcept(m: map<Id, nat>, order: seq<Id>, self: Id): nat {
    if order == [] then 0
    else
      var d := order[|order| - 1];
      SumExcept(m, order[..|order| - 1], self) + if d in m && d != self then m[d] else 0
  }

  lemma {:induction false} OthersAtMost(m: map<Id, nat>, order: seq<Id>, self: Id, lost: nat, alive: Id -> bool)
    requires Total(m) > 0 && forall k :: k in order ==> k in m
    ensures Total(m) * Gains(m, order, self, lost, alive) <= lost * SumExcept(m, order, self)
  {
    if order != [] {
      var front, d := order[..|order| - 1], order[|order| - 1];
      assert order == front + [d];
      OthersAtMost(m, front, self, lost, alive);
      GainIs(m, d, lost);
      Distribute(Total(m), Gains(m, front, self, lost, alive), Gain(m, d, lost));
      Distribute(lost, SumExcept(m, front, self), m[d]);
    }
  }

  lemma {:induction false} SumOfOthers(m: map<Id, nat>, order: seq<Id>, self: Id)
    requires self in m && forall i, j :: 0 <= i < j < |order| ==> order[i] != order[j]
    ensures Sum(m, order) == SumExcept(m, order, self) + if self in order then m[self] else 0
  {
    if order != [] {
      var front, d := order[..|order| - 1], order[|order| - 1];
      assert order == front + [d];
      SumOfOthers(m, front, self);
    }
  }
}
