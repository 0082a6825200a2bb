/** The condition types by name, the class each is made as, and the bytes each class writes
    (engine/src/enums.h, engine/src/condition.h, engine/src/condition.cpp: createCondition). */
module ConditionTypes {
  import opened Common
  import opened ConditionStream

  const POISON := 0x1
  const FIRE := 0x2
  const ENERGY := 0x4
  const BLEEDING := 0x8
  const HASTE := 0x10
  const PARALYZE := 0x20
  const OUTFIT_CHANGE := 0x40
  const INVISIBLE := 0x80
  const LIGHT := 0x100
  const MANASHIELD := 0x200
  const INFIGHT := 0x400
  const DRUNK := 0x800
  const EXHAUST := 0x1000
  const REGENERATION := 0x2000
  const SOUL := 0x4000
  const DROWN := 0x8000
  const MUTED := 0x1_0000
  const CHANNELMUTEDTICKS := 0x2_0000
  const YELLTICKS := 0x4_0000
  const ATTRIBUTES := 0x8_0000
  const FREEZING := 0x10_0000
  const DAZZLED := 0x20_0000
  const CURSED := 0x40_0000
  const EXHAUST_COMBAT := 0x80_0000
  const EXHAUST_HEAL := 0x100_0000
  const PACIFIED := 0x200_0000
  const SPELLCOOLDOWN := 0x400_0000
  const SPELLGROUPCOOLDOWN := 0x800_0000
  const STAMINAREGEN := 0x1000_0000
  const SOULBONUS := 0x2000_0000

  /** The class that the source makes for each type, and the sizes of its arrays. */
  predicate MadeAs(n: uint32, body: Body) {
    match body
    case Damage(_, _, _) => n in {POISON, FIRE, ENERGY, DROWN, FREEZING, DAZZLED, CURSED, BLEEDING}
    case Speed(_, _, _, _, _) => n in {HASTE, PARALYZE}
    case OutfitChange(outfit) => n == OUTFIT_CHANGE && |outfit| == 12
    case Light(_, _, _, _) => n == LIGHT
    case Regeneration(_, _, _, _) => n == REGENERATION
    case Soul(_, _) => n in {SOUL, SOULBONUS}
    case Stamina(_, _) => n == STAMINAREGEN
    case Attributes(skills, stats, _, _) => n == ATTRIBUTES && |skills| == 13 && |stats| == 4
    case Generic =>
      n in {INVISIBLE, SPELLCOOLDOWN, SPELLGROUPCOOLDOWN, INFIGHT, DRUNK, EXHAUST, EXHAUST_COMBAT, EXHAUST_HEAL, MUTED,
            CHANNELMUTEDTICKS, YELLTICKS, PACIFIED, MANASHIELD}
  }

  // The written parts are the same.
  predicate SameParts(a: Body, b: Body) {
    a == b || (a.Attributes? && b.Attributes? && a.skills == b.skills && a.stats == b.stats)
  }

  /** A condition of every type, made as the class the source makes for it, is restored from its
      own bytes, whatever follows them: type, id, buff, sub-id and all parts of its class, and the
      time, which for a damage condition is built up from its intervals. */
  lemma EveryTypeRoundTrips(n: uint32, id: int8, ticks: int32, isBuff: bool, subId: uint32, body: Body,
                            suffix: seq<byte>)
    requires MadeAs(n, body)
    ensures var made := Create(Encode(Cond(n, id, ticks, isBuff, subId, body)) + [254] + suffix);
            && made.Some?
            && var r := ReadAll(made.value.0, made.value.1);
               && r.ok && r.rest == suffix && SameParts(r.cond.body, body)
               && r.cond.conditionType == n && r.cond.id == id && r.cond.isBuff == isBuff && r.cond.subId == subId
               && r.cond.ticks == if body.Damage? then ListTicks(body.damageList) else ticks
  {
    RoundTrip(Cond(n, id, ticks, isBuff, subId, body), suffix);
  }

  /** No other number makes a condition, and a new one starts with these parts. */
  lemma NewConditionIs(n: uint32, id: int8, ticks: int32, isBuff: bool, subId: uint32, tail: seq<byte>)
    ensures var made := Create(EncodeFields(HeadFields(Cond(n, id, ticks, isBuff, subId, Generic))) + tail);
            && (made.Some? <==> exists body :: MadeAs(n, body))
            && (made.Some? ==>
                  && var (c, rest) := made.value;
                     && rest == tail && MadeAs(n, c.body)
                     && c == Cond(n, id, if c.body.Damage? then 0 else ticks, isBuff, subId, c.body)
                     && match c.body
                        case Damage(delayed, period, list) => !delayed && period == 0 && list == []
                        case Speed(delta, mina, minb, maxa, maxb) => delta == 0 && mina == minb == maxa == maxb == 0
                        case OutfitChange(outfit) => forall k :: 0 <= k < 12 ==> outfit[k] == 0
                        case Light(color, level, lightTicks, interval) =>
                          color == level == 0 && lightTicks == interval == 0
                        case Regeneration(healthTicks, healthGain, manaTicks, manaGain) =>
                          healthTicks == manaTicks == 1000 && healthGain == manaGain == 0
                        case Soul(gain, soulTicks) => gain == soulTicks == 0
                        case Stamina(gain, staminaTicks) => gain == 1 && staminaTicks == 0
                        case Attributes(skills, stats, i, j) =>
                          && i == j == 0 && (forall k :: 0 <= k < 13 ==> skills[k] == 0)
                          && forall k :: 0 <= k < 4 ==> stats[k] == 0
                        case Generic => true)
  {
    HeadIsMade(Cond(n, id, ticks, isBuff, subId, Generic), tail);
    var blank := FreshBody(n);
    if blank.Some? {
      assert MadeAs(n, blank.value);
    }
  }

  // ----- The bytes -------------------------------------------------------------------------

  /** Numbers are little-endian. */
  lemma LeIs(x: nat)
    ensures Le(x, 2) == [x % 256, x / 256 % 256]
    ensures Le(x, 4) == [x % 256, x / 256 % 256, x / 256 / 256 % 256, x / 256 / 256 / 256 % 256]
  {
    assert ByteOf(x, 1) == ByteOf(x / 256, 0);
    assert ByteOf(x, 2) == ByteOf(x / 256, 1) == ByteOf(x / 256 / 256, 0);
    assert ByteOf(x, 3) == ByteOf(x / 256, 2) == ByteOf(x / 256 / 256, 1) == ByteOf(x / 256 / 256 / 256, 0);
  }

  // The bytes of fields with these attributes and payloads.
  function Bytes(fields: seq<(byte, seq<byte>)>): seq<byte> {
    if fields == [] then [] else [fields[0].0] + fields[0].1 + Bytes(fields[1..])
  }

  lemma {:induction false} BytesSnoc(fields: seq<(byte, seq<byte>)>, attr: byte, payload: seq<byte>)
    ensures Bytes(fields + [(attr, payload)]) == Bytes(fields) + ([attr] + payload)
  {
    if fields == [] {
      assert [] + [(attr, payload)] == [(attr, payload)];
    } else {
      assert (fields + [(attr, payload)])[1..] == fields[1..] + [(attr, payload)];
      BytesSnoc(fields[1..], attr, payload);
    }
  }

  // The same fields as pairs.
  function Pairs(fields: seq<Field>): (r: seq<(byte, seq<byte>)>)
    ensures |r| == |fields| && forall k :: 0 <= k < |r| ==> r[k] == (fields[k].attr, fields[k].payload)
  {
    seq(|fields|, k requires 0 <= k < |fields| => (fields[k].attr, fields[k].payload))
  }

  lemma {:induction false} BytesOfFields(fields: seq<Field>)
    ensures EncodeFields(fields) == Bytes(Pairs(fields))
  {
    if fields != [] {
      var (front, f) := (fields[..|fields| - 1], fields[|fields| - 1]);
      BytesOfFields(front);
      assert Pairs(fields) == Pairs(front) + [(f.attr, f.payload)];
      BytesSnoc(Pairs(front), f.attr, f.payload);
    }
  }

  /** The common fields in their order: type, id, ticks, buff, sub-id. */
  lemma HeadBytes(c: Cond)
    ensures EncodeFields(HeadFields(c))
            == Bytes([(1, Uint32(c.conditionType)), (2, Int32(c.id)), (3, Int32(c.ticks)),
                   (26, [if c.isBuff then 1 else 0]), (27, Uint32(c.subId))])
  {
    BytesOfFields(HeadFields(c));
    assert Pairs(HeadFields(c))
           == [(1, Uint32(c.conditionType)), (2, Int32(c.id)), (3, Int32(c.ticks)), (26, [if c.isBuff then 1 else 0]),
            (27, Uint32(c.subId))];
  }

  /** The fields of each class, in their order. */
  lemma BodyBytes(body: Body)
    ensures body.Generic? ==> EncodeFields(BodyFields(body)) == []
    ensures body.Regeneration? ==>
              EncodeFields(BodyFields(body)) == Bytes([(4, Uint32(body.healthTicks)), (5, Uint32(body.healthGain)),
                                                       (6, Uint32(body.manaTicks)), (7, Uint32(body.manaGain))])
    ensures body.Soul? ==>
              EncodeFields(BodyFields(body)) == Bytes([(21, Uint32(body.soulGain)), (20, Uint32(body.soulTicks))])
    ensures body.Stamina? ==>
              EncodeFields(BodyFields(body)) == Bytes([(28, Le(body.staminaGain, 2)), (29, Uint32(body.staminaTicks))])
    ensures body.OutfitChange? ==> EncodeFields(BodyFields(body)) == Bytes([(24, body.outfit)])
    ensures body.Speed? ==>
              EncodeFields(BodyFields(body))
              == Bytes([(11, Int32(body.speedDelta)), (12, Uint32(body.mina)), (13, Uint32(body.minb)),
                        (14, Uint32(body.maxa)), (15, Uint32(body.maxb))])
    ensures body.Light? ==>
              EncodeFields(BodyFields(body))
              == Bytes([(16, Uint32(body.color)), (17, Uint32(body.level)), (18, Uint32(body.lightTicks)),
                        (19, Uint32(body.lightInterval))])
  {
    BytesOfFields(BodyFields(body));
    var pairs := Pairs(BodyFields(body));
    match body
    case Generic => assert pairs == [];
    case Regeneration(a, b, c, d) => assert pairs == [(4, Uint32(a)), (5, Uint32(b)), (6, Uint32(c)), (7, Uint32(d))];
    case Soul(a, b) => assert pairs == [(21, Uint32(a)), (20, Uint32(b))];
    case Stamina(a, b) => assert pairs == [(28, Le(a, 2)), (29, Uint32(b))];
    case OutfitChange(a) => assert pairs == [(24, a)];
    case Speed(a, b, c, d, e) =>
      assert pairs == [(11, Int32(a)), (12, Uint32(b)), (13, Uint32(c)), (14, Uint32(d)), (15, Uint32(e))];
    case Light(a, b, c, d) => assert pairs == [(16, Uint32(a)), (17, Uint32(b)), (18, Uint32(c)), (19, Uint32(d))];
    case _ =>
  }

  function NumberPairs(attr: byte, xs: seq<int32>): (r: seq<(byte, seq<byte>)>)
    ensures |r| == |xs| && forall k :: 0 <= k < |r| ==> r[k] == (attr, Int32(xs[k]))
  {
    seq(|xs|, k requires 0 <= k < |xs| => (attr, Int32(xs[k])))
  }

  function IntervalPairs(list: seq<Interval>): (r: seq<(byte, seq<byte>)>)
    ensures |r| == |list|
    ensures forall k :: 0 <= k < |r| ==>
              r[k] == (10, Int32(list[k].timeLeft) + Int32(list[k].value) + Int32(list[k].interval))
  {
    seq(|list|, k requires 0 <= k < |list| =>
                  (10, Int32(list[k].timeLeft) + Int32(list[k].value) + Int32(list[k].interval)))
  }

  /** And the lists of skills, stats and damage intervals, one field each. */
  lemma ListBytes(attr: byte, xs: seq<int32>, list: seq<Interval>)
    ensures EncodeFields(Int32Fields(attr, xs)) == Bytes(NumberPairs(attr, xs))
    ensures EncodeFields(IntervalFields(list)) == Bytes(IntervalPairs(list))
  {
    BytesOfFields(Int32Fields(attr, xs));
    BytesOfFields(IntervalFields(list));
    Int32FieldsAre(attr, xs);
    IntervalFieldsAre(list);
    assert Pairs(Int32Fields(attr, xs)) == NumberPairs(attr, xs);
    assert Pairs(IntervalFields(list)) == IntervalPairs(list);
  }

  lemma {:induction false} Int32FieldsAre(attr: byte, xs: seq<int32>)
    ensures var f := Int32Fields(attr, xs);
            |f| == |xs| && forall k :: 0 <= k < |xs| ==> f[k] == Field(attr, Int32(xs[k]))
  {
    if xs != [] {
      Int32FieldsAre(attr, xs[..|xs| - 1]);
    }
  }

  lemma {:induction false} IntervalFieldsAre(list: seq<Interval>)
    ensures var f := IntervalFields(list);
            && |f| == |list|
            && forall k :: 0 <= k < |list| ==>
                 f[k] == Field(10, Int32(list[k].timeLeft) + Int32(list[k].value) + Int32(list[k].interval))
  {
    if list != [] {
      IntervalFieldsAre(list[..|list| - 1]);
    }
  }

  /** The order within a damage condition and within the attributes. */
  lemma PartsInOrder(body: Body)
    ensures body.Attributes? ==> EncodeFields(BodyFields(body))
                                 == EncodeFields(Int32Fields(22, body.skills))
                                     + EncodeFields(Int32Fields(23, body.stats))
    ensures body.Damage? ==> EncodeFields(BodyFields(body))
                             == Bytes([(8, [if body.delayed then 1 else 0]), (25, Int32(body.periodDamage))])
                                + EncodeFields(IntervalFields(body.damageList))
  {
    if body.Attributes? {
      EncodeConcat(Int32Fields(22, body.skills), Int32Fields(23, body.stats));
    }
    if body.Damage? {
      var fixed := [Field(8, [if body.delayed then 1 else 0]), Field(25, Int32(body.periodDamage))];
      BytesOfFields(fixed);
      assert Pairs(fixed) == [(8, [if body.delayed then 1 else 0]), (25, Int32(body.periodDamage))];
      EncodeConcat(fixed, IntervalFields(body.damageList));
    }
  }

  /** Of one condition that is saved and loaded, nothing comes back if it is endless or comes from
      equipment; otherwise it does, with its parts. */
  lemma SavedComesBackIff(n: uint32, id: int8, ticks: int32, isBuff: bool, subId: uint32, body: Body)
    requires MadeAs(n, body)
    ensures var back := Load(Save([Cond(n, id, ticks, isBuff, subId, body)]));
            if ticks == -1 || (id != -1 && id != 0) then back == []
            else && |back| == 1 && back[0].conditionType == n && back[0].id == id && back[0].isBuff == isBuff
                 && back[0].subId == subId && SameParts(back[0].body, body)
                 && back[0].ticks == if body.Damage? then ListTicks(body.damageList) else ticks
  {
    var c := Cond(n, id, ticks, isBuff, subId, body);
    LoadSaved([c]);
    assert [c][1..] == [];
    assert Reversed([]) == [];
  }

  // ----- What each class reads -----------------------------------------------------------------

  /** How many bytes a class reads for an attribute number, -1 where it knows none. */
  function BytesFor(body: Body, attr: byte): int {
    if attr in {1, 2, 3, 27} then 4
    else if attr == 26 then 1
    else match body
      case Regeneration(_, _, _, _) => if attr in {4, 5, 6, 7} then 4 else -1
      case Damage(_, _, _) => if attr == 8 then 1 else if attr in {9, 25} then 4 else if attr == 10 then 12 else -1
      case Speed(_, _, _, _, _) => if attr in {11, 12, 13, 14, 15} then 4 else -1
      case Light(_, _, _, _) => if attr in {16, 17, 18, 19} then 4 else -1
      case Soul(_, _) => if attr in {20, 21} then 4 else -1
      case Attributes(skills, stats, i, j) =>
        if (attr == 22 && i < |skills|) || (attr == 23 && j < |stats|) then 4 else -1
      case OutfitChange(_) => if attr == 24 then 12 else -1
      case Stamina(_, _) => if attr == 28 then 2 else if attr == 29 then 4 else -1
      case Generic => -1
  }

  /** One attribute is read exactly when the class knows it and its bytes are there; then these are
      gone from the stream and no others. */
  lemma ReadsIff(c: Cond, attr: byte, s: seq<byte>)
    requires attr != 254
    ensures var (r, n) := (ReadProp(c, attr, s), BytesFor(c.body, attr));
            && (r.ok <==> 0 <= n <= |s|)
            && (r.ok ==> r.rest == s[n..])
  {
  }
}
