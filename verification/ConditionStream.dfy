/** The byte format of conditions (engine/src/condition.cpp, engine/src/fileloader.h).

    A condition is written as fields, each an attribute byte and a payload of fixed size; the
    attribute END closes it.  Numbers are little-endian, as on the machines the server runs
    on.  A float is its bit pattern, and an outfit is its twelve bytes in memory. */
module ConditionStream {
  import opened Common

  const TYPE: byte := 1
  const ID: byte := 2
  const TICKS: byte := 3
  const HEALTHTICKS: byte := 4
  const HEALTHGAIN: byte := 5
  const MANATICKS: byte := 6
  const MANAGAIN: byte := 7
  const DELAYED: byte := 8
  const OWNER: byte := 9
  const INTERVALDATA: byte := 10
  const SPEEDDELTA: byte := 11
  const FORMULA_MINA: byte := 12
  const FORMULA_MINB: byte := 13
  const FORMULA_MAXA: byte := 14
  const FORMULA_MAXB: byte := 15
  const LIGHTCOLOR: byte := 16
  const LIGHTLEVEL: byte := 17
  const LIGHTTICKS: byte := 18
  const LIGHTINTERVAL: byte := 19
  const SOULTICKS: byte := 20
  const SOULGAIN: byte := 21
  const SKILLS: byte := 22
  const STATS: byte := 23
  const OUTFIT: byte := 24
  const PERIODDAMAGE: byte := 25
  const ISBUFF: byte := 26
  const SUBID: byte := 27
  const STAMINAGAIN: byte := 28
  const STAMINATICKS: byte := 29
  const END: byte := 254

  const SKILL_COUNT: nat := 13
  const STAT_COUNT: nat := 4

  // ----- Numbers ---------------------------------------------------------------------------

  // The k-th byte of x, the lowest first.
  function ByteOf(x: nat, k: nat): byte {
    if k == 0 then x % 256 else ByteOf(x / 256, k - 1)
  }

  function Le(x: nat, size: nat): (r: seq<byte>)
    ensures |r| == size
  {
    seq(size, k requires 0 <= k < size => ByteOf(x, k))
  }

  function FromLe(bytes: seq<byte>): nat {
    if bytes == [] then 0 else bytes[0] + 256 * FromLe(bytes[1..])
  }

  function Bound(size: nat): nat {
    if size == 0 then 1 else 256 * Bound(size - 1)
  }

  lemma {:induction false} LeRoundTrip(x: nat, size: nat)
    requires x < Bound(size)
    ensures FromLe(Le(x, size)) == x
  {
    if size > 0 {
      LeRoundTrip(x / 256, size - 1);
      assert Le(x, size)[1..] == Le(x / 256, size - 1);
    }
  }

  // The unsigned word of a signed number, and back.
  function Word(x: int): nat
    requires IsInt32(x) || IsUint32(x)
  {
    if x < 0 then x + 0x1_0000_0000 else x
  }

  function Signed(x: int): int {
    if x < 0x8000_0000 then x else x - 0x1_0000_0000
  }

  // A sum in 32 bits.
  function Wrapped(x: int): int {
    if IsInt32(x) then x else Signed(x % 0x1_0000_0000)
  }

  predicate IsInt32(x: int) {
    -0x8000_0000 <= x < 0x8000_0000
  }

  predicate IsUint32(x: int) {
    0 <= x < 0x1_0000_0000
  }

  type int8 = x: int | -128 <= x < 128

  type uint16 = x: int | 0 <= x < 65536

  type int32 = x: int | -0x8000_0000 <= x < 0x8000_0000

  type uint32 = x: int | 0 <= x < 0x1_0000_0000

  function Int32(x: int32): (r: seq<byte>)
    ensures |r| == 4
  {
    Le(Word(x), 4)
  }

  function Uint32(x: uint32): (r: seq<byte>)
    ensures |r| == 4
  {
    Le(x, 4)
  }

  // Four bytes are a 32-bit number.
  lemma FourBytes(bytes: seq<byte>)
    requires |bytes| == 4
    ensures IsUint32(FromLe(bytes)) && IsInt32(Signed(FromLe(bytes)))
  {
    assert FromLe(bytes[1..][1..]) == bytes[2] + 256 * FromLe(bytes[3..]);
    assert bytes[1..][1..][1..] == bytes[3..] && bytes[3..][1..] == [];
  }

  lemma TwoBytes(bytes: seq<byte>)
    requires |bytes| == 2
    ensures FromLe(bytes) < 65536
  {
    assert FromLe(bytes[1..]) == bytes[1] + 256 * FromLe(bytes[1..][1..]);
    assert bytes[1..][1..] == [];
  }

  function ToUint32(bytes: seq<byte>): uint32
    requires |bytes| == 4
  {
    FourBytes(bytes);
    FromLe(bytes)
  }

  function ToInt32(bytes: seq<byte>): int32
    requires |bytes| == 4
  {
    FourBytes(bytes);
    Signed(FromLe(bytes))
  }

  function ToUint16(bytes: seq<byte>): uint16
    requires |bytes| == 2
  {
    TwoBytes(bytes);
    FromLe(bytes)
  }

  // The conversions to the smaller numbers keep the low byte.
  function ToInt8(x: uint32): int8 {
    if x % 256 < 128 then x % 256 else x % 256 - 256
  }

  function ToUint8(x: uint32): byte {
    x % 256
  }

  lemma Int32RoundTrip(x: int32)
    ensures ToInt32(Int32(x)) == x
    ensures -128 <= x < 128 ==> ToInt8(ToUint32(Int32(x))) == x
  {
    assert Bound(4) == 0x1_0000_0000 by { assert Bound(2) == 65536; }
    LeRoundTrip(Word(x), 4);
  }

  lemma Uint32RoundTrip(x: uint32)
    ensures ToUint32(Uint32(x)) == x
    ensures x < 256 ==> ToUint8(ToUint32(Uint32(x))) == x
  {
    assert Bound(4) == 0x1_0000_0000 by { assert Bound(2) == 65536; }
    LeRoundTrip(x, 4);
  }

  lemma Uint16RoundTrip(x: uint16)
    ensures ToUint16(Le(x, 2)) == x
  {
    assert Bound(2) == 65536;
    LeRoundTrip(x, 2);
  }

  // ----- Streams ---------------------------------------------------------------------------

  class PropWriteStream {
    var buffer: seq<byte>

    constructor ()
      ensures buffer == []
    {
      buffer := [];
    }

    method Write(bytes: seq<byte>)
      modifies this
      ensures buffer == old(buffer) + bytes
    {
      buffer := buffer + bytes;
    }

    method WriteField(attr: byte, payload: seq<byte>)
      modifies this
      ensures buffer == old(buffer) + ([attr] + payload)
    {
      Write([attr]);
      Write(payload);
    }

    /** A string too long for its length word is written as an empty one. */
    method WriteString(text: seq<byte>)
      modifies this
      ensures buffer == old(buffer) + EncodeString(text)
    {
      if |text| > 65535 {
        Write(Le(0, 2));
        return;
      }
      Write(Le(|text|, 2));
      Write(text);
    }
  }

  class PropStream {
    var data: seq<byte>
    var p: nat

    predicate Valid()
      reads this
    {
      p <= |data|
    }

    function Rest(): seq<byte>
      reads this
      requires Valid()
    {
      data[p..]
    }

    constructor (bytes: seq<byte>)
      ensures Valid() && Rest() == bytes
    {
      data, p := bytes, 0;
    }

    method Size() returns (size: nat)
      requires Valid()
      ensures size == |Rest()|
    {
      size := |data| - p;
    }

    method Read(n: nat) returns (bytes: Option<seq<byte>>)
      requires Valid()
      modifies this`p
      ensures Valid()
      ensures |old(Rest())| >= n ==> bytes == Some(old(Rest())[..n]) && Rest() == old(Rest())[n..]
      ensures |old(Rest())| < n ==> bytes == None && Rest() == old(Rest())
    {
      var size := Size();
      if size < n {
        return None;
      }
      assert data[p..p + n] == Rest()[..n] && data[p + n..] == Rest()[n..];
      bytes := Some(data[p..p + n]);
      p := p + n;
    }

    method ReadUint32() returns (x: Option<uint32>)
      requires Valid()
      modifies this`p
      ensures Valid()
      ensures |old(Rest())| >= 4 ==> x == Some(ToUint32(old(Rest())[..4])) && Rest() == old(Rest())[4..]
      ensures |old(Rest())| < 4 ==> x == None && Rest() == old(Rest())
    {
      var bytes := Read(4);
      x := if bytes.None? then None else Some(ToUint32(bytes.value));
    }

    method ReadInt32() returns (x: Option<int32>)
      requires Valid()
      modifies this`p
      ensures Valid()
      ensures |old(Rest())| >= 4 ==> x == Some(ToInt32(old(Rest())[..4])) && Rest() == old(Rest())[4..]
      ensures |old(Rest())| < 4 ==> x == None && Rest() == old(Rest())
    {
      var bytes := Read(4);
      x := if bytes.None? then None else Some(ToInt32(bytes.value));
    }

    method ReadString() returns (text: Option<seq<byte>>)
      requires Valid()
      modifies this`p
      ensures Valid()
      ensures text == DecodeString(old(Rest())).0 && Rest() == DecodeString(old(Rest())).1
    {
      var length := Read(2);
      if length.None? {
        return None;
      }
      text := Read(FromLe(length.value));
    }

    method Skip(n: nat) returns (ok: bool)
      requires Valid()
      modifies this`p
      ensures Valid()
      ensures ok <==> |old(Rest())| >= n
      ensures Rest() == if ok then old(Rest())[n..] else old(Rest())
    {
      var size := Size();
      if size < n {
        return false;
      }
      p := p + n;
      ok := true;
    }
  }

  function EncodeString(text: seq<byte>): seq<byte> {
    if |text| > 65535 then Le(0, 2) else Le(|text|, 2) + text
  }

  function DecodeString(s: seq<byte>): (Option<seq<byte>>, seq<byte>) {
    if |s| < 2 then (None, s)
    else if |s| - 2 < FromLe(s[..2]) then (None, s[2..])
    else (Some(s[2..][..FromLe(s[..2])]), s[2..][FromLe(s[..2])..])
  }

  /** What is written as a string is read back, up to the longest length the format has; a
      longer string comes back empty.  What follows stays unread. */
  lemma StringRoundTrip(text: seq<byte>, suffix: seq<byte>)
    ensures DecodeString(EncodeString(text) + suffix) == (Some(if |text| <= 65535 then text else []), suffix)
  {
    var length := if |text| <= 65535 then |text| else 0;
    assert Bound(2) == 65536;
    LeRoundTrip(length, 2);
    var s := EncodeString(text) + suffix;
    assert s[..2] == Le(length, 2);
    assert s[2..] == (if |text| <= 65535 then text else []) + suffix;
  }

  // ----- Conditions ------------------------------------------------------------------------

  datatype Interval = Interval(timeLeft: int32, value: int32, interval: int32)

  /** What a condition of each class adds to the common fields: the parts that are written,
      and for attributes the two counters of the reader. */
  datatype Body =
    | Generic
    | Attributes(skills: seq<int32>, stats: seq<int32>, currentSkill: nat, currentStat: nat)
    | Regeneration(healthTicks: uint32, healthGain: uint32, manaTicks: uint32, manaGain: uint32)
    | Soul(soulGain: uint32, soulTicks: uint32)
    | Stamina(staminaGain: uint16, staminaTicks: uint32)
    | Damage(delayed: bool, periodDamage: int32, damageList: seq<Interval>)
    | Speed(speedDelta: int32, mina: uint32, minb: uint32, maxa: uint32, maxb: uint32)
    | OutfitChange(outfit: seq<byte>)
    | Light(color: byte, level: byte, lightTicks: uint32, lightInterval: uint32)

  datatype Cond = Cond(conditionType: uint32, id: int8, ticks: int32, isBuff: bool, subId: uint32, body: Body)

  const ZERO_OUTFIT: seq<byte> := [0, 0, 0, 0, 0, 0, 0, 0, 0, 0, 0, 0]

  /** The class that a condition type is made as; none for a number that is no type. */
  function FreshBody(conditionType: uint32): Option<Body> {
    if conditionType in {0x1, 0x2, 0x4, 0x8, 0x8000, 0x10_0000, 0x20_0000, 0x40_0000} then Some(Damage(false, 0, []))
    else if conditionType in {0x10, 0x20} then Some(Speed(0, 0, 0, 0, 0))
    else if conditionType == 0x40 then Some(OutfitChange(ZERO_OUTFIT))
    else if conditionType == 0x100 then Some(Light(0, 0, 0, 0))
    else if conditionType == 0x2000 then Some(Regeneration(1000, 0, 1000, 0))
    else if conditionType in {0x4000, 0x2000_0000} then Some(Soul(0, 0))
    else if conditionType == 0x1000_0000 then Some(Stamina(1, 0))
    else if conditionType == 0x8_0000 then Some(Attributes(Zeros(SKILL_COUNT), Zeros(STAT_COUNT), 0, 0))
    else if conditionType in {0x80, 0x200, 0x400, 0x800, 0x1000, 0x1_0000, 0x2_0000, 0x4_0000,
                              0x80_0000, 0x100_0000, 0x200_0000, 0x400_0000, 0x800_0000} then Some(Generic)
    else None
  }

  function Zeros(n: nat): (r: seq<int32>)
    ensures |r| == n && forall k :: 0 <= k < n ==> r[k] == 0
  {
    seq(n, _ => 0)
  }

  /** The class fits the type, and the arrays have their sizes. */
  ghost predicate WellFormed(c: Cond) {
    var blank := FreshBody(c.conditionType);
    && blank.Some?
    && match c.body
       case Generic => blank.value.Generic?
       case Attributes(skills, stats, _, _) => blank.value.Attributes? && |skills| == SKILL_COUNT
           && |stats| == STAT_COUNT
       case Regeneration(_, _, _, _) => blank.value.Regeneration?
       case Soul(_, _) => blank.value.Soul?
       case Stamina(_, _) => blank.value.Stamina?
       case Damage(_, _, _) => blank.value.Damage?
       case Speed(_, _, _, _, _) => blank.value.Speed?
       case OutfitChange(outfit) => blank.value.OutfitChange? && |outfit| == 12
       case Light(_, _, _, _) => blank.value.Light?
  }

  // ----- Writing ---------------------------------------------------------------------------

  datatype Field = Field(attr: byte, payload: seq<byte>)

  function Flag(b: bool): seq<byte> {
    if b then [1] else [0]
  }

  function HeadFields(c: Cond): seq<Field> {
    [Field(TYPE, Uint32(c.conditionType)), Field(ID, Int32(c.id)), Field(TICKS, Int32(c.ticks)),
     Field(ISBUFF, Flag(c.isBuff)), Field(SUBID, Uint32(c.subId))]
  }

  function Int32Fields(attr: byte, xs: seq<int32>): seq<Field> {
    if xs == [] then [] else Int32Fields(attr, xs[..|xs| - 1]) + [Field(attr, Int32(xs[|xs| - 1]))]
  }

  function IntervalBytes(i: Interval): seq<byte> {
    Int32(i.timeLeft) + Int32(i.value) + Int32(i.interval)
  }

  function IntervalFields(list: seq<Interval>): seq<Field> {
    if list == [] then []
    else IntervalFields(list[..|list| - 1]) + [Field(INTERVALDATA, IntervalBytes(list[|list| - 1]))]
  }

  function BodyFields(body: Body): seq<Field> {
    match body
    case Generic => []
    case Attributes(skills, stats, _, _) => Int32Fields(SKILLS, skills) + Int32Fields(STATS, stats)
    case Regeneration(healthTicks, healthGain, manaTicks, manaGain) =>
      [Field(HEALTHTICKS, Uint32(healthTicks)), Field(HEALTHGAIN, Uint32(healthGain)),
       Field(MANATICKS, Uint32(manaTicks)), Field(MANAGAIN, Uint32(manaGain))]
    case Soul(soulGain, soulTicks) => [Field(SOULGAIN, Uint32(soulGain)), Field(SOULTICKS, Uint32(soulTicks))]
    case Stamina(staminaGain, staminaTicks) =>
      [Field(STAMINAGAIN, Le(staminaGain, 2)), Field(STAMINATICKS, Uint32(staminaTicks))]
    case Damage(delayed, periodDamage, damageList) =>
      [Field(DELAYED, Flag(delayed)), Field(PERIODDAMAGE, Int32(periodDamage))] + IntervalFields(damageList)
    case Speed(speedDelta, mina, minb, maxa, maxb) =>
      [Field(SPEEDDELTA, Int32(speedDelta)), Field(FORMULA_MINA, Uint32(mina)), Field(FORMULA_MINB, Uint32(minb)),
       Field(FORMULA_MAXA, Uint32(maxa)), Field(FORMULA_MAXB, Uint32(maxb))]
    case OutfitChange(outfit) => [Field(OUTFIT, outfit)]
    case Light(color, level, lightTicks, lightInterval) =>
      [Field(LIGHTCOLOR, Uint32(color)), Field(LIGHTLEVEL, Uint32(level)),
       Field(LIGHTTICKS, Uint32(lightTicks)), Field(LIGHTINTERVAL, Uint32(lightInterval))]
  }

  function EncodeFields(fields: seq<Field>): seq<byte> {
    if fields == [] then []
    else EncodeFields(fields[..|fields| - 1]) + [fields[|fields| - 1].attr] + fields[|fields| - 1].payload
  }

  function Encode(c: Cond): seq<byte> {
    EncodeFields(HeadFields(c) + BodyFields(c.body))
  }

  // ----- Reading ---------------------------------------------------------------------------

  /** The payload size of an attribute, none where the class does not know it. */
  function PayloadSize(body: Body, attr: byte): Option<nat> {
    if body.Attributes? && attr == SKILLS then (if body.currentSkill < |body.skills| then Some(4) else None)
    else if body.Attributes? && attr == STATS then (if body.currentStat < |body.stats| then Some(4) else None)
    else if body.Regeneration? && attr in {HEALTHTICKS, HEALTHGAIN, MANATICKS, MANAGAIN} then Some(4)
    else if body.Soul? && attr in {SOULGAIN, SOULTICKS} then Some(4)
    else if body.Stamina? && attr == STAMINAGAIN then Some(2)
    else if body.Stamina? && attr == STAMINATICKS then Some(4)
    else if body.Damage? && attr == DELAYED then Some(1)
    else if body.Damage? && attr in {PERIODDAMAGE, OWNER} then Some(4)
    else if body.Damage? && attr == INTERVALDATA then Some(12)
    else if body.Speed? && attr in {SPEEDDELTA, FORMULA_MINA, FORMULA_MINB, FORMULA_MAXA, FORMULA_MAXB} then Some(4)
    else if body.OutfitChange? && attr == OUTFIT then Some(12)
    else if body.Light? && attr in {LIGHTCOLOR, LIGHTLEVEL, LIGHTTICKS, LIGHTINTERVAL} then Some(4)
    else if attr in {TYPE, ID, TICKS, SUBID} then Some(4)
    else if attr == ISBUFF then Some(1)
    else if attr == END then Some(0)
    else None
  }

  function ToInterval(payload: seq<byte>): Interval
    requires |payload| == 12
  {
    Interval(ToInt32(payload[..4]), ToInt32(payload[4..8]), ToInt32(payload[8..]))
  }

  // An endless condition stays endless.
  function Longer(ticks: int32, interval: int32): int32 {
    if ticks == -1 then -1 else Wrapped(ticks + interval)
  }

  /** What a field does to a condition.  A damage interval also lengthens the time, unless the
      condition is endless. */
  function Apply(c: Cond, attr: byte, payload: seq<byte>): Cond
    requires PayloadSize(c.body, attr) == Some(|payload|)
  {
    var b := c.body;
    if b.Attributes? && attr == SKILLS then
      c.(body := b.(skills := b.skills[b.currentSkill := ToInt32(payload)], currentSkill := b.currentSkill + 1))
    else if b.Attributes? && attr == STATS then
      c.(body := b.(stats := b.stats[b.currentStat := ToInt32(payload)], currentStat := b.currentStat + 1))
    else if b.Regeneration? && attr == HEALTHTICKS then c.(body := b.(healthTicks := ToUint32(payload)))
    else if b.Regeneration? && attr == HEALTHGAIN then c.(body := b.(healthGain := ToUint32(payload)))
    else if b.Regeneration? && attr == MANATICKS then c.(body := b.(manaTicks := ToUint32(payload)))
    else if b.Regeneration? && attr == MANAGAIN then c.(body := b.(manaGain := ToUint32(payload)))
    else if b.Soul? && attr == SOULGAIN then c.(body := b.(soulGain := ToUint32(payload)))
    else if b.Soul? && attr == SOULTICKS then c.(body := b.(soulTicks := ToUint32(payload)))
    else if b.Stamina? && attr == STAMINAGAIN then c.(body := b.(staminaGain := ToUint16(payload)))
    else if b.Stamina? && attr == STAMINATICKS then c.(body := b.(staminaTicks := ToUint32(payload)))
    else if b.Damage? && attr == DELAYED then c.(body := b.(delayed := payload != [0]))
    else if b.Damage? && attr == PERIODDAMAGE then c.(body := b.(periodDamage := ToInt32(payload)))
    else if b.Damage? && attr == OWNER then c
    else if b.Damage? && attr == INTERVALDATA then
      var i := ToInterval(payload);
      c.(body := b.(damageList := b.damageList + [i]), ticks := Longer(c.ticks, i.interval))
    else if b.Speed? && attr == SPEEDDELTA then c.(body := b.(speedDelta := ToInt32(payload)))
    else if b.Speed? && attr == FORMULA_MINA then c.(body := b.(mina := ToUint32(payload)))
    else if b.Speed? && attr == FORMULA_MINB then c.(body := b.(minb := ToUint32(payload)))
    else if b.Speed? && attr == FORMULA_MAXA then c.(body := b.(maxa := ToUint32(payload)))
    else if b.Speed? && attr == FORMULA_MAXB then c.(body := b.(maxb := ToUint32(payload)))
    else if b.OutfitChange? && attr == OUTFIT then c.(body := b.(outfit := payload))
    else if b.Light? && attr == LIGHTCOLOR then c.(body := b.(color := ToUint8(ToUint32(payload))))
    else if b.Light? && attr == LIGHTLEVEL then c.(body := b.(level := ToUint8(ToUint32(payload))))
    else if b.Light? && attr == LIGHTTICKS then c.(body := b.(lightTicks := ToUint32(payload)))
    else if b.Light? && attr == LIGHTINTERVAL then c.(body := b.(lightInterval := ToUint32(payload)))
    else if attr == TYPE then c.(conditionType := ToUint32(payload))
    else if attr == ID then c.(id := ToInt8(ToUint32(payload)))
    else if attr == TICKS then c.(ticks := ToInt32(payload))
    else if attr == SUBID then c.(subId := ToUint32(payload))
    else if attr == ISBUFF then c.(isBuff := payload != [0])
    else c
  }

  /** What has been read, and the bytes left. */
  datatype Parsed = Parsed(ok: bool, cond: Cond, rest: seq<byte>)

  // A skill or stat counter moves on even if its number is cut off.
  function CutOff(c: Cond, attr: byte): Cond {
    if c.body.Attributes? && attr == SKILLS then c.(body := c.body.(currentSkill := c.body.currentSkill + 1))
    else if c.body.Attributes? && attr == STATS then c.(body := c.body.(currentStat := c.body.currentStat + 1))
    else c
  }

  function ReadProp(c: Cond, attr: byte, s: seq<byte>): Parsed {
    var size := PayloadSize(c.body, attr);
    if size.None? then Parsed(false, c, s)
    else if |s| < size.value then Parsed(false, CutOff(c, attr), s)
    else Parsed(true, Apply(c, attr, s[..size.value]), s[size.value..])
  }

  function ReadAll(c: Cond, s: seq<byte>): Parsed
    decreases |s|
  {
    if s == [] then Parsed(true, c, [])
    else if s[0] == END then Parsed(true, c, s[1..])
    else
      var r := ReadProp(c, s[0], s[1..]);
      if r.ok then ReadAll(r.cond, r.rest) else r
  }

  // An attribute that must come next, with its payload.
  function Expect(s: seq<byte>, attr: byte, size: nat): (r: Option<(seq<byte>, seq<byte>)>)
    ensures r.Some? ==> |r.value.0| == size && s == [attr] + r.value.0 + r.value.1
  {
    if |s| < 1 + size || s[0] != attr then None else Some((s[1..][..size], s[1..][size..]))
  }

  /** A new condition from the common fields, and the bytes behind them. */
  function Create(s: seq<byte>): Option<(Cond, seq<byte>)> {
    var t := Expect(s, TYPE, 4);
    if t.None? then None else
    var i := Expect(t.value.1, ID, 4);
    if i.None? then None else
    var k := Expect(i.value.1, TICKS, 4);
    if k.None? then None else
    var b := Expect(k.value.1, ISBUFF, 1);
    if b.None? then None else
    var u := Expect(b.value.1, SUBID, 4);
    if u.None? then None else
    var made := Made(ToUint32(t.value.0), ToInt8(ToUint32(i.value.0)), ToInt32(k.value.0), b.value.0 != [0],
        ToUint32(u.value.0));
    if made.None? then None else Some((made.value, u.value.1))
  }

  /** A damage condition starts without time: its intervals bring it. */
  function Made(conditionType: uint32, id: int8, ticks: int32, isBuff: bool, subId: uint32): Option<Cond> {
    var body := FreshBody(conditionType);
    if body.None? then None
    else Some(Cond(conditionType, id, if body.value.Damage? then 0 else ticks, isBuff, subId, body.value))
  }

  // ----- The round trip ----------------------------------------------------------------------

  predicate Takes(c: Cond, f: Field) {
    f.attr != END && PayloadSize(c.body, f.attr) == Some(|f.payload|)
  }

  function ApplyAll(c: Cond, fields: seq<Field>): Cond {
    if fields == [] then c
    else
      var before, f := ApplyAll(c, fields[..|fields| - 1]), fields[|fields| - 1];
      if Takes(before, f) then Apply(before, f.attr, f.payload) else before
  }

  predicate Readable(c: Cond, fields: seq<Field>) {
    fields == [] || (Readable(c, fields[..|fields| - 1])
        && Takes(ApplyAll(c, fields[..|fields| - 1]), fields[|fields| - 1]))
  }

  lemma ReadAllStep(c: Cond, attr: byte, rest: seq<byte>)
    ensures ReadAll(c, [attr] + rest) ==
            if attr == END then Parsed(true, c, rest)
            else if ReadProp(c, attr, rest).ok then ReadAll(ReadProp(c, attr, rest).cond, ReadProp(c, attr, rest).rest)
            else ReadProp(c, attr, rest)
  {
    assert ([attr] + rest)[1..] == rest;
  }

  lemma ReadOne(c: Cond, f: Field, tail: seq<byte>)
    requires Takes(c, f)
    ensures ReadAll(c, [f.attr] + f.payload + tail) == ReadAll(Apply(c, f.attr, f.payload), tail)
  {
    var s := [f.attr] + f.payload + tail;
    assert s[1..] == f.payload + tail;
    assert s[1..][..|f.payload|] == f.payload && s[1..][|f.payload|..] == tail;
  }

  lemma EncodeNext(fields: seq<Field>, f: Field)
    ensures EncodeFields(fields + [f]) == EncodeFields(fields) + ([f.attr] + f.payload)
  {
    assert (fields + [f])[..|fields|] == fields;
  }

  lemma {:induction false} EncodeConcat(a: seq<Field>, b: seq<Field>)
    ensures EncodeFields(a + b) == EncodeFields(a) + EncodeFields(b)
  {
    if b == [] {
      assert a + b == a;
    } else {
      var front, f := b[..|b| - 1], b[|b| - 1];
      EncodeConcat(a, front);
      assert a + b == (a + front) + [f] && b == front + [f];
      var last := [f.attr] + f.payload;
      assert EncodeFields(a + b) == EncodeFields(a + front) + last by { EncodeNext(a + front, f); }
      assert EncodeFields(b) == EncodeFields(front) + last by { EncodeNext(front, f); }
      Associative(EncodeFields(a), EncodeFields(front), last);
    }
  }

  lemma Associative(a: seq<byte>, b: seq<byte>, c: seq<byte>)
    ensures (a + b) + c == a + (b + c)
  {
  }

  // The reader does with the bytes of fields what the fields say.
  lemma {:induction false} ReadFields(c: Cond, fields: seq<Field>, tail: seq<byte>)
    requires Readable(c, fields)
    ensures ReadAll(c, EncodeFields(fields) + tail) == ReadAll(ApplyAll(c, fields), tail)
  {
    if fields == [] {
      assert EncodeFields(fields) + tail == tail;
    } else {
      var front, f := fields[..|fields| - 1], fields[|fields| - 1];
      var more := [f.attr] + f.payload + tail;
      assert EncodeFields(fields) + tail == EncodeFields(front) + more;
      ReadFields(c, front, more);
      ReadOne(ApplyAll(c, front), f, tail);
    }
  }

  lemma NextField(c: Cond, fields: seq<Field>, k: nat)
    requires k < |fields| && Readable(c, fields[..k]) && Takes(ApplyAll(c, fields[..k]), fields[k])
    ensures Readable(c, fields[..k + 1])
    ensures ApplyAll(c, fields[..k + 1]) == Apply(ApplyAll(c, fields[..k]), fields[k].attr, fields[k].payload)
  {
    assert fields[..k + 1][..k] == fields[..k];
  }

  lemma NextIs(c: Cond, fields: seq<Field>, f: Field)
    requires Readable(c, fields) && Takes(ApplyAll(c, fields), f)
    ensures Readable(c, fields + [f]) && ApplyAll(c, fields + [f]) == Apply(ApplyAll(c, fields), f.attr, f.payload)
  {
    assert (fields + [f])[..|fields|] == fields;
  }

  lemma SkillIsRead(c: Cond, x: int32)
    requires c.body.Attributes? && c.body.currentSkill < |c.body.skills|
    ensures Takes(c, Field(SKILLS, Int32(x)))
    ensures Apply(c, SKILLS, Int32(x)) ==
            c.(body := c.body.(skills := c.body.skills[c.body.currentSkill := x],
                currentSkill := c.body.currentSkill + 1))
  {
    Int32RoundTrip(x);
  }

  lemma StatIsRead(c: Cond, x: int32)
    requires c.body.Attributes? && c.body.currentStat < |c.body.stats|
    ensures Takes(c, Field(STATS, Int32(x)))
    ensures Apply(c, STATS, Int32(x)) ==
            c.(body := c.body.(stats := c.body.stats[c.body.currentStat := x], currentStat := c.body.currentStat + 1))
  {
    Int32RoundTrip(x);
  }

  // The start of an array overwritten.
  function Overwritten(xs: seq<int32>, ys: seq<int32>): seq<int32>
    requires |xs| <= |ys|
  {
    xs + ys[|xs|..]
  }

  lemma OverwriteNext(xs: seq<int32>, x: int32, ys: seq<int32>)
    requires |xs| < |ys|
    ensures Overwritten(xs, ys)[|xs| := x] == Overwritten(xs + [x], ys)
  {
  }

  lemma {:induction false} SkillsAreRead(c: Cond, xs: seq<int32>)
    requires c.body.Attributes? && |xs| <= |c.body.skills| && c.body.currentSkill == 0
    ensures Readable(c, Int32Fields(SKILLS, xs))
    ensures ApplyAll(c, Int32Fields(SKILLS, xs))
            == c.(body := c.body.(skills := Overwritten(xs, c.body.skills), currentSkill := |xs|))
  {
    if xs != [] {
      var front, x := xs[..|xs| - 1], xs[|xs| - 1];
      SkillsAreRead(c, front);
      SkillIsRead(ApplyAll(c, Int32Fields(SKILLS, front)), x);
      NextIs(c, Int32Fields(SKILLS, front), Field(SKILLS, Int32(x)));
      OverwriteNext(front, x, c.body.skills);
      assert xs == front + [x];
    }
  }

  lemma {:induction false} StatsAreRead(c: Cond, xs: seq<int32>)
    requires c.body.Attributes? && |xs| <= |c.body.stats| && c.body.currentStat == 0
    ensures Readable(c, Int32Fields(STATS, xs))
    ensures ApplyAll(c, Int32Fields(STATS, xs))
            == c.(body := c.body.(stats := Overwritten(xs, c.body.stats), currentStat := |xs|))
  {
    if xs != [] {
      var front, x := xs[..|xs| - 1], xs[|xs| - 1];
      StatsAreRead(c, front);
      StatIsRead(ApplyAll(c, Int32Fields(STATS, front)), x);
      NextIs(c, Int32Fields(STATS, front), Field(STATS, Int32(x)));
      OverwriteNext(front, x, c.body.stats);
      assert xs == front + [x];
    }
  }

  // The time that reading the intervals one after the other builds up.
  function ListTicks(list: seq<Interval>): int32 {
    if list == [] then 0
    else Longer(ListTicks(list[..|list| - 1]), list[|list| - 1].interval)
  }

  function SumIntervals(list: seq<Interval>): int {
    if list == [] then 0 else SumIntervals(list[..|list| - 1]) + list[|list| - 1].interval
  }

  /** That time is the sum of the intervals, as long as no interval is negative and the sum
      fits. */
  lemma {:induction false} ListTicksIsSum(list: seq<Interval>)
    requires forall k :: 0 <= k < |list| ==> list[k].interval >= 0
    requires IsInt32(SumIntervals(list))
    ensures ListTicks(list) == SumIntervals(list) >= 0
  {
    if list != [] {
      SumGrows(list[..|list| - 1]);
      ListTicksIsSum(list[..|list| - 1]);
    }
  }

  lemma {:induction false} SumGrows(list: seq<Interval>)
    requires forall k :: 0 <= k < |list| ==> list[k].interval >= 0
    ensures SumIntervals(list) >= 0
  {
    if list != [] {
      SumGrows(list[..|list| - 1]);
    }
  }

  lemma IntervalRoundTrip(i: Interval)
    ensures |IntervalBytes(i)| == 12 && ToInterval(IntervalBytes(i)) == i
  {
    Int32RoundTrip(i.timeLeft);
    Int32RoundTrip(i.value);
    Int32RoundTrip(i.interval);
    var bytes := IntervalBytes(i);
    assert bytes[..4] == Int32(i.timeLeft) && bytes[4..8] == Int32(i.value) && bytes[8..] == Int32(i.interval);
  }

  lemma IntervalIsRead(c: Cond, i: Interval)
    requires c.body.Damage?
    ensures Takes(c, Field(INTERVALDATA, IntervalBytes(i)))
    ensures Apply(c, INTERVALDATA, IntervalBytes(i)) ==
            c.(body := c.body.(damageList := c.body.damageList + [i]),
               ticks := Longer(c.ticks, i.interval))
  {
    IntervalRoundTrip(i);
  }

  lemma {:induction false} IntervalsAreRead(c: Cond, list: seq<Interval>)
    requires c.body.Damage? && c.body.damageList == [] && c.ticks == 0
    ensures Readable(c, IntervalFields(list))
    ensures ApplyAll(c, IntervalFields(list)) == c.(body := c.body.(damageList := list), ticks := ListTicks(list))
  {
    if list != [] {
      var front, i := list[..|list| - 1], list[|list| - 1];
      IntervalsAreRead(c, front);
      IntervalIsRead(ApplyAll(c, IntervalFields(front)), i);
      NextIs(c, IntervalFields(front), Field(INTERVALDATA, IntervalBytes(i)));
      assert list == front + [i];
    }
  }

  /** What reading gives back: every written part, except that the time of a damage condition
      is built up from its intervals, and the counters of the reader have run through. */
  function Restored(c: Cond): Cond {
    match c.body
    case Damage(_, _, list) => c.(ticks := ListTicks(list))
    case Attributes(skills, stats, _, _) => c.(body := Attributes(skills, stats, |skills|, |stats|))
    case _ => c
  }

  // The condition as created from the common fields alone.
  function Blank(c: Cond): Cond
    requires FreshBody(c.conditionType).Some?
  {
    Made(c.conditionType, c.id, c.ticks, c.isBuff, c.subId).value
  }

  lemma AttributesAreRead(c: Cond, tail: seq<byte>)
    requires WellFormed(c) && c.body.Attributes?
    ensures ReadAll(Blank(c), EncodeFields(BodyFields(c.body)) + tail) == ReadAll(Restored(c), tail)
  {
    var skills, stats := Int32Fields(SKILLS, c.body.skills), Int32Fields(STATS, c.body.stats);
    SkillsAreRead(Blank(c), c.body.skills);
    var half := ApplyAll(Blank(c), skills);
    StatsAreRead(half, c.body.stats);
    assert Overwritten(c.body.skills, Blank(c).body.skills) == c.body.skills
        && Overwritten(c.body.stats, half.body.stats) == c.body.stats;
    ReadTwoParts(Blank(c), skills, stats, tail);
  }

  lemma ReadTwoParts(c: Cond, a: seq<Field>, b: seq<Field>, tail: seq<byte>)
    requires Readable(c, a) && Readable(ApplyAll(c, a), b)
    ensures ReadAll(c, EncodeFields(a + b) + tail) == ReadAll(ApplyAll(ApplyAll(c, a), b), tail)
  {
    assert EncodeFields(a + b) + tail == EncodeFields(a) + (EncodeFields(b) + tail) by {
      EncodeConcat(a, b);
      Associative(EncodeFields(a), EncodeFields(b), tail);
    }
    ReadFields(c, a, EncodeFields(b) + tail);
    ReadFields(ApplyAll(c, a), b, tail);
  }

  lemma DamageIsRead(c: Cond, tail: seq<byte>)
    requires WellFormed(c) && c.body.Damage?
    ensures ReadAll(Blank(c), EncodeFields(BodyFields(c.body)) + tail) == ReadAll(Restored(c), tail)
  {
    var fixed := [Field(DELAYED, Flag(c.body.delayed)), Field(PERIODDAMAGE, Int32(c.body.periodDamage))];
    Int32RoundTrip(c.body.periodDamage);
    NextField(Blank(c), fixed, 0);
    NextField(Blank(c), fixed, 1);
    assert fixed[..2] == fixed;
    assert ApplyAll(Blank(c), fixed) == Blank(c).(body := Damage(c.body.delayed, c.body.periodDamage, []));
    IntervalsAreRead(ApplyAll(Blank(c), fixed), c.body.damageList);
    ReadTwoParts(Blank(c), fixed, IntervalFields(c.body.damageList), tail);
  }

  lemma SpeedTakes(c: Cond, f: Field)
    requires c.body.Speed? && |f.payload| == 4
             && f.attr in {SPEEDDELTA, FORMULA_MINA, FORMULA_MINB, FORMULA_MAXA, FORMULA_MAXB}
    ensures Takes(c, f) && Apply(c, f.attr, f.payload).body.Speed?
  {
  }

  lemma SpeedBytes(c: Cond, fields: seq<Field>)
    requires c.body.Speed? && |fields| == 5 && forall k :: 0 <= k < 5 ==> |fields[k].payload| == 4
    requires fields[0].attr == SPEEDDELTA && fields[1].attr == FORMULA_MINA && fields[2].attr == FORMULA_MINB
    requires fields[3].attr == FORMULA_MAXA && fields[4].attr == FORMULA_MAXB
    ensures Readable(c, fields)
    ensures ApplyAll(c, fields) ==
            c.(body := Speed(ToInt32(fields[0].payload), ToUint32(fields[1].payload), ToUint32(fields[2].payload),
                             ToUint32(fields[3].payload), ToUint32(fields[4].payload)))
  {
    SpeedTakes(ApplyAll(c, fields[..0]), fields[0]);
    NextField(c, fields, 0);
    SpeedTakes(ApplyAll(c, fields[..1]), fields[1]);
    NextField(c, fields, 1);
    SpeedTakes(ApplyAll(c, fields[..2]), fields[2]);
    NextField(c, fields, 2);
    SpeedTakes(ApplyAll(c, fields[..3]), fields[3]);
    NextField(c, fields, 3);
    SpeedTakes(ApplyAll(c, fields[..4]), fields[4]);
    NextField(c, fields, 4);
    assert fields[..5] == fields;
  }

  lemma SpeedIsRead(c: Cond)
    requires WellFormed(c) && c.body.Speed?
    ensures Readable(Blank(c), BodyFields(c.body)) && ApplyAll(Blank(c), BodyFields(c.body)) == Restored(c)
  {
    Int32RoundTrip(c.body.speedDelta);
    Uint32RoundTrip(c.body.mina);
    Uint32RoundTrip(c.body.minb);
    Uint32RoundTrip(c.body.maxa);
    Uint32RoundTrip(c.body.maxb);
    SpeedBytes(Blank(c), BodyFields(c.body));
  }

  lemma RegenerationBytes(c: Cond, fields: seq<Field>)
    requires c.body.Regeneration? && |fields| == 4 && forall k :: 0 <= k < 4 ==> |fields[k].payload| == 4
    requires fields[0].attr == HEALTHTICKS && fields[1].attr == HEALTHGAIN && fields[2].attr == MANATICKS
             && fields[3].attr == MANAGAIN
    ensures Readable(c, fields)
    ensures ApplyAll(c, fields) ==
            c.(body := Regeneration(ToUint32(fields[0].payload), ToUint32(fields[1].payload),
                                    ToUint32(fields[2].payload), ToUint32(fields[3].payload)))
  {
    NextField(c, fields, 0);
    NextField(c, fields, 1);
    NextField(c, fields, 2);
    NextField(c, fields, 3);
    assert fields[..4] == fields;
  }

  lemma RegenerationIsRead(c: Cond)
    requires WellFormed(c) && c.body.Regeneration?
    ensures Readable(Blank(c), BodyFields(c.body)) && ApplyAll(Blank(c), BodyFields(c.body)) == Restored(c)
  {
    Uint32RoundTrip(c.body.healthTicks);
    Uint32RoundTrip(c.body.healthGain);
    Uint32RoundTrip(c.body.manaTicks);
    Uint32RoundTrip(c.body.manaGain);
    RegenerationBytes(Blank(c), BodyFields(c.body));
  }

  lemma LightTakes(c: Cond, f: Field)
    requires c.body.Light? && |f.payload| == 4 && f.attr in {LIGHTCOLOR, LIGHTLEVEL, LIGHTTICKS, LIGHTINTERVAL}
    ensures Takes(c, f) && Apply(c, f.attr, f.payload).body.Light?
  {
  }

  lemma LightBytes(c: Cond, fields: seq<Field>)
    requires c.body.Light? && |fields| == 4 && forall k :: 0 <= k < 4 ==> |fields[k].payload| == 4
    requires fields[0].attr == LIGHTCOLOR && fields[1].attr == LIGHTLEVEL && fields[2].attr == LIGHTTICKS
             && fields[3].attr == LIGHTINTERVAL
    ensures Readable(c, fields)
    ensures ApplyAll(c, fields) ==
            c.(body := Light(ToUint8(ToUint32(fields[0].payload)), ToUint8(ToUint32(fields[1].payload)),
                             ToUint32(fields[2].payload), ToUint32(fields[3].payload)))
  {
    LightTakes(ApplyAll(c, fields[..0]), fields[0]);
    NextField(c, fields, 0);
    LightTakes(ApplyAll(c, fields[..1]), fields[1]);
    NextField(c, fields, 1);
    LightTakes(ApplyAll(c, fields[..2]), fields[2]);
    NextField(c, fields, 2);
    LightTakes(ApplyAll(c, fields[..3]), fields[3]);
    NextField(c, fields, 3);
    assert fields[..4] == fields;
  }

  lemma LightIsRead(c: Cond)
    requires WellFormed(c) && c.body.Light?
    ensures Readable(Blank(c), BodyFields(c.body)) && ApplyAll(Blank(c), BodyFields(c.body)) == Restored(c)
  {
    Uint32RoundTrip(c.body.color);
    Uint32RoundTrip(c.body.level);
    Uint32RoundTrip(c.body.lightTicks);
    Uint32RoundTrip(c.body.lightInterval);
    LightBytes(Blank(c), BodyFields(c.body));
  }

  lemma SmallBodyIsRead(c: Cond)
    requires WellFormed(c) && (c.body.Generic? || c.body.Soul? || c.body.Stamina? || c.body.OutfitChange?)
    ensures Readable(Blank(c), BodyFields(c.body)) && ApplyAll(Blank(c), BodyFields(c.body)) == Restored(c)
  {
    var fields := BodyFields(c.body);
    if c.body.Soul? {
      Uint32RoundTrip(c.body.soulGain);
      Uint32RoundTrip(c.body.soulTicks);
    } else if c.body.Stamina? {
      Uint16RoundTrip(c.body.staminaGain);
      Uint32RoundTrip(c.body.staminaTicks);
    }
    if |fields| > 0 {
      NextField(Blank(c), fields, 0);
    }
    if |fields| > 1 {
      NextField(Blank(c), fields, 1);
    }
    assert fields[..|fields|] == fields;
  }

  lemma BodyIsRead(c: Cond, tail: seq<byte>)
    requires WellFormed(c)
    ensures ReadAll(Blank(c), EncodeFields(BodyFields(c.body)) + tail) == ReadAll(Restored(c), tail)
  {
    if c.body.Attributes? {
      AttributesAreRead(c, tail);
    } else if c.body.Damage? {
      DamageIsRead(c, tail);
    } else {
      match c.body {
        case Speed(_, _, _, _, _) => SpeedIsRead(c);
        case Regeneration(_, _, _, _) => RegenerationIsRead(c);
        case Light(_, _, _, _) => LightIsRead(c);
        case _ => SmallBodyIsRead(c);
      }
      ReadFields(Blank(c), BodyFields(c.body), tail);
    }
  }

  lemma EncodeFirst(f: Field, rest: seq<Field>, tail: seq<byte>)
    ensures EncodeFields([f] + rest) + tail == [f.attr] + f.payload + (EncodeFields(rest) + tail)
  {
    EncodeConcat([f], rest);
    assert [f][..0] == [];
  }

  lemma ExpectFirst(f: Field, tail: seq<byte>)
    ensures Expect([f.attr] + f.payload + tail, f.attr, |f.payload|) == Some((f.payload, tail))
  {
    var s := [f.attr] + f.payload + tail;
    assert s[1..] == f.payload + tail;
  }

  lemma HeadIsRead(c: Cond, tail: seq<byte>)
    requires WellFormed(c)
    ensures Create(EncodeFields(HeadFields(c)) + tail) == Some((Blank(c), tail))
  {
    HeadIsMade(c, tail);
  }

  // The common fields of any condition are read, and a condition made from them or not.
  lemma HeadIsMade(c: Cond, tail: seq<byte>)
    ensures var made := Made(c.conditionType, c.id, c.ticks, c.isBuff, c.subId);
            Create(EncodeFields(HeadFields(c)) + tail) == if made.None? then None else Some((made.value, tail))
  {
    var h := HeadFields(c);
    var s5 := EncodeFields([]) + tail;
    var s4 := EncodeFields([h[4]]) + tail;
    var s3 := EncodeFields([h[3]] + [h[4]]) + tail;
    var s2 := EncodeFields([h[2]] + ([h[3]] + [h[4]])) + tail;
    var s1 := EncodeFields([h[1]] + ([h[2]] + ([h[3]] + [h[4]]))) + tail;
    assert s5 == tail && [h[4]] == [h[4]] + [];
    EncodeFirst(h[4], [], tail);
    EncodeFirst(h[3], [h[4]], tail);
    EncodeFirst(h[2], [h[3]] + [h[4]], tail);
    EncodeFirst(h[1], [h[2]] + ([h[3]] + [h[4]]), tail);
    EncodeFirst(h[0], [h[1]] + ([h[2]] + ([h[3]] + [h[4]])), tail);
    assert h == [h[0]] + ([h[1]] + ([h[2]] + ([h[3]] + [h[4]])));
    ExpectFirst(h[0], s1);
    ExpectFirst(h[1], s2);
    ExpectFirst(h[2], s3);
    ExpectFirst(h[3], s4);
    ExpectFirst(h[4], s5);
    HeadNumbers(c);
  }

  lemma HeadNumbers(c: Cond)
    ensures forall k :: 0 <= k < 5 ==> |HeadFields(c)[k].payload| == if k == 3 then 1 else 4
    ensures ToUint32(Uint32(c.conditionType)) == c.conditionType && ToInt8(ToUint32(Int32(c.id))) == c.id
    ensures ToInt32(Int32(c.ticks)) == c.ticks && ToUint32(Uint32(c.subId)) == c.subId
    ensures Flag(c.isBuff) != [0] <==> c.isBuff
  {
    Uint32RoundTrip(c.conditionType);
    Int32RoundTrip(c.id);
    Int32RoundTrip(c.ticks);
    Uint32RoundTrip(c.subId);
  }

  /** A condition made from its own bytes is the condition as it was written, and exactly the
      bytes behind its END are left unread. */
  lemma RoundTrip(c: Cond, suffix: seq<byte>)
    requires WellFormed(c)
    ensures var made := Create(Encode(c) + [END] + suffix);
            made.Some? && ReadAll(made.value.0, made.value.1) == Parsed(true, Restored(c), suffix)
  {
    var tail := EncodeFields(BodyFields(c.body)) + ([END] + suffix);
    assert Encode(c) + [END] + suffix == EncodeFields(HeadFields(c)) + tail by {
      EncodeConcat(HeadFields(c), BodyFields(c.body));
      Associative(Encode(c), [END], suffix);
      Associative(EncodeFields(HeadFields(c)), EncodeFields(BodyFields(c.body)), [END] + suffix);
    }
    HeadIsRead(c, tail);
    BodyIsRead(c, [END] + suffix);
    assert ([END] + suffix)[1..] == suffix;
  }

  // ----- The conditions of a player ----------------------------------------------------------

  predicate IsPersistent(c: Cond) {
    c.ticks != -1 && c.id in {-1, 0}
  }

  /** What is saved of a player's conditions. */
  function Save(conditions: seq<Cond>): seq<byte> {
    if conditions == [] then []
    else (if IsPersistent(conditions[0]) then Encode(conditions[0]) + [END] else []) + Save(conditions[1..])
  }

  lemma CreateShortens(s: seq<byte>)
    ensures Create(s).Some? ==> |Create(s).value.1| < |s|
  {
  }

  lemma {:induction false} ReadAllShortens(c: Cond, s: seq<byte>)
    ensures |ReadAll(c, s).rest| <= |s|
    decreases |s|
  {
    if s != [] && s[0] != END {
      var r := ReadProp(c, s[0], s[1..]);
      if r.ok {
        ReadAllShortens(r.cond, r.rest);
      }
    }
  }

  /** What is loaded: the stored list, each condition put in front of those before it; one
      that cannot be read is dropped. */
  function Load(s: seq<byte>): seq<Cond>
    decreases |s|
  {
    var made := Create(s);
    if made.None? then []
    else
      CreateShortens(s);
      ReadAllShortens(made.value.0, made.value.1);
      var r := ReadAll(made.value.0, made.value.1);
      Load(r.rest) + (if r.ok then [r.cond] else [])
  }

  function Reversed(conditions: seq<Cond>): seq<Cond> {
    if conditions == [] then []
    else Reversed(conditions[1..]) + (if IsPersistent(conditions[0]) then [Restored(conditions[0])] else [])
  }

  /** Loading what was saved gives the persistent conditions, restored, in reverse order. */
  lemma {:induction false} LoadSaved(conditions: seq<Cond>)
    requires forall k :: 0 <= k < |conditions| ==> WellFormed(conditions[k])
    ensures Load(Save(conditions)) == Reversed(conditions)
  {
    if conditions != [] {
      LoadSaved(conditions[1..]);
      if IsPersistent(conditions[0]) {
        RoundTrip(conditions[0], Save(conditions[1..]));
      } else {
        assert Save(conditions) == Save(conditions[1..]);
      }
    }
  }

  // ----- The classes that write and read -----------------------------------------------------

  // One field more in the stream, after those written since base.
  method Put(stream: PropWriteStream, attr: byte, payload: seq<byte>, ghost base: seq<byte>, ghost written: seq<Field>)
    returns (ghost now: seq<Field>)
    requires stream.buffer == base + EncodeFields(written)
    modifies stream
    ensures now == written + [Field(attr, payload)] && stream.buffer == base + EncodeFields(now)
  {
    EncodeNext(written, Field(attr, payload));
    stream.WriteField(attr, payload);
    now := written + [Field(attr, payload)];
  }

  method PutInt32s(stream: PropWriteStream, attr: byte, xs: seq<int32>, ghost base: seq<byte>,
                   ghost written: seq<Field>)
    returns (ghost now: seq<Field>)
    requires stream.buffer == base + EncodeFields(written)
    modifies stream
    ensures now == written + Int32Fields(attr, xs) && stream.buffer == base + EncodeFields(now)
  {
    now := written;
    assert xs[..0] == [];
    for i := 0 to |xs|
      invariant now == written + Int32Fields(attr, xs[..i]) && stream.buffer == base + EncodeFields(now)
    {
      now := Put(stream, attr, Int32(xs[i]), base, now);
      assert xs[..i + 1][..i] == xs[..i];
    }
    assert xs[..|xs|] == xs;
  }

  /** A condition of any class: its body says which. */
  class Condition {
    var conditionType: uint32
    var id: int8
    var ticks: int32
    var isBuff: bool
    var subId: uint32
    var body: Body

    function View(): Cond
      reads this
    {
      Cond(conditionType, id, ticks, isBuff, subId, body)
    }

    constructor (c: Cond)
      ensures View() == c
    {
      conditionType, id, ticks, isBuff, subId, body := c.conditionType, c.id, c.ticks, c.isBuff, c.subId, c.body;
    }

    method SerializeHead(stream: PropWriteStream)
      modifies stream
      ensures stream.buffer == old(stream.buffer) + EncodeFields(HeadFields(View()))
    {
      ghost var base := stream.buffer;
      ghost var f := Put(stream, TYPE, Uint32(conditionType), base, []);
      f := Put(stream, ID, Int32(id), base, f);
      f := Put(stream, TICKS, Int32(ticks), base, f);
      f := Put(stream, ISBUFF, Flag(isBuff), base, f);
      f := Put(stream, SUBID, Uint32(subId), base, f);
      assert f == HeadFields(View());
    }

    method SerializeAttributes(stream: PropWriteStream)
      requires body.Attributes?
      modifies stream
      ensures stream.buffer == old(stream.buffer) + EncodeFields(BodyFields(body))
    {
      ghost var base := stream.buffer;
      ghost var f := PutInt32s(stream, SKILLS, body.skills, base, []);
      f := PutInt32s(stream, STATS, body.stats, base, f);
      assert f == BodyFields(body);
    }

    method SerializeDamage(stream: PropWriteStream)
      requires body.Damage?
      modifies stream
      ensures stream.buffer == old(stream.buffer) + EncodeFields(BodyFields(body))
    {
      ghost var base := stream.buffer;
      ghost var f := Put(stream, DELAYED, Flag(body.delayed), base, []);
      f := Put(stream, PERIODDAMAGE, Int32(body.periodDamage), base, f);
      ghost var fixed := f;
      assert body.damageList[..0] == [];
      for i := 0 to |body.damageList|
        invariant f == fixed + IntervalFields(body.damageList[..i]) && stream.buffer == base + EncodeFields(f)
      {
        f := Put(stream, INTERVALDATA, IntervalBytes(body.damageList[i]), base, f);
        assert body.damageList[..i + 1][..i] == body.damageList[..i];
      }
      assert body.damageList[..|body.damageList|] == body.damageList;
      assert f == BodyFields(body);
    }

    method SerializeSpeed(stream: PropWriteStream)
      requires body.Speed?
      modifies stream
      ensures stream.buffer == old(stream.buffer) + EncodeFields(BodyFields(body))
    {
      ghost var base := stream.buffer;
      ghost var f := Put(stream, SPEEDDELTA, Int32(body.speedDelta), base, []);
      f := Put(stream, FORMULA_MINA, Uint32(body.mina), base, f);
      f := Put(stream, FORMULA_MINB, Uint32(body.minb), base, f);
      f := Put(stream, FORMULA_MAXA, Uint32(body.maxa), base, f);
      f := Put(stream, FORMULA_MAXB, Uint32(body.maxb), base, f);
      assert f == BodyFields(body);
    }

    method SerializeRegeneration(stream: PropWriteStream)
      requires body.Regeneration?
      modifies stream
      ensures stream.buffer == old(stream.buffer) + EncodeFields(BodyFields(body))
    {
      ghost var base := stream.buffer;
      ghost var f := Put(stream, HEALTHTICKS, Uint32(body.healthTicks), base, []);
      f := Put(stream, HEALTHGAIN, Uint32(body.healthGain), base, f);
      f := Put(stream, MANATICKS, Uint32(body.manaTicks), base, f);
      f := Put(stream, MANAGAIN, Uint32(body.manaGain), base, f);
      assert f == BodyFields(body);
    }

    method SerializeLight(stream: PropWriteStream)
      requires body.Light?
      modifies stream
      ensures stream.buffer == old(stream.buffer) + EncodeFields(BodyFields(body))
    {
      ghost var base := stream.buffer;
      ghost var f := Put(stream, LIGHTCOLOR, Uint32(body.color), base, []);
      f := Put(stream, LIGHTLEVEL, Uint32(body.level), base, f);
      f := Put(stream, LIGHTTICKS, Uint32(body.lightTicks), base, f);
      f := Put(stream, LIGHTINTERVAL, Uint32(body.lightInterval), base, f);
      assert f == BodyFields(body);
    }

    method SerializeBody(stream: PropWriteStream)
      modifies stream
      ensures stream.buffer == old(stream.buffer) + EncodeFields(BodyFields(body))
    {
      ghost var base := stream.buffer;
      match body
      case Generic =>
      case Attributes(_, _, _, _) => SerializeAttributes(stream);
      case Damage(_, _, _) => SerializeDamage(stream);
      case Speed(_, _, _, _, _) => SerializeSpeed(stream);
      case Regeneration(_, _, _, _) => SerializeRegeneration(stream);
      case Light(_, _, _, _) => SerializeLight(stream);
      case Soul(soulGain, soulTicks) =>
        ghost var f := Put(stream, SOULGAIN, Uint32(soulGain), base, []);
        f := Put(stream, SOULTICKS, Uint32(soulTicks), base, f);
        assert f == BodyFields(body);
      case Stamina(staminaGain, staminaTicks) =>
        ghost var f := Put(stream, STAMINAGAIN, Le(staminaGain, 2), base, []);
        f := Put(stream, STAMINATICKS, Uint32(staminaTicks), base, f);
        assert f == BodyFields(body);
      case OutfitChange(outfit) =>
        ghost var f := Put(stream, OUTFIT, outfit, base, []);
        assert f == BodyFields(body);
    }

    /** The common fields, then those of the class. */
    method Serialize(stream: PropWriteStream)
      modifies stream
      ensures stream.buffer == old(stream.buffer) + Encode(View())
    {
      SerializeHead(stream);
      SerializeBody(stream);
      EncodeConcat(HeadFields(View()), BodyFields(body));
    }

    /** Condition::unserializeProp, for the attributes that a class leaves to it. */
    method UnserializeBase(attr: byte, stream: PropStream) returns (ok: bool)
      requires stream.Valid() && BaseAttribute(body, attr)
      modifies this, stream`p
      ensures stream.Valid() && Parsed(ok, View(), stream.Rest()) == ReadProp(old(View()), attr, old(stream.Rest()))
    {
      if attr == TYPE {
        var x := stream.ReadUint32();
        if x.Some? {
          conditionType := x.value;
        }
        return x.Some?;
      } else if attr == ID {
        var x := stream.ReadUint32();
        if x.Some? {
          id := ToInt8(x.value);
        }
        return x.Some?;
      } else if attr == TICKS {
        var x := stream.ReadInt32();
        if x.Some? {
          ticks := x.value;
        }
        return x.Some?;
      }
      ok := UnserializeBuff(attr, stream);
    }

    // The last two of the common attributes.
    method UnserializeBuff(attr: byte, stream: PropStream) returns (ok: bool)
      requires stream.Valid() && BaseAttribute(body, attr) && attr != TYPE && attr != ID && attr != TICKS
      modifies this, stream`p
      ensures stream.Valid() && Parsed(ok, View(), stream.Rest()) == ReadProp(old(View()), attr, old(stream.Rest()))
    {
      if attr == ISBUFF {
        var x := stream.Read(1);
        if x.Some? {
          isBuff := x.value != [0];
        }
        return x.Some?;
      } else if attr == SUBID {
        var x := stream.ReadUint32();
        if x.Some? {
          subId := x.value;
        }
        return x.Some?;
      }
      ok := attr == END;
    }

    /** A skill or stat past the end of its array is refused here. */
    method UnserializeAttributes(attr: byte, stream: PropStream) returns (ok: bool)
      requires stream.Valid() && body.Attributes?
      modifies this, stream`p
      ensures stream.Valid() && Parsed(ok, View(), stream.Rest()) == ReadProp(old(View()), attr, old(stream.Rest()))
    {
      if attr == SKILLS {
        if body.currentSkill >= |body.skills| {
          return false;
        }
        var k := body.currentSkill;
        body := body.(currentSkill := k + 1);
        var x := stream.ReadInt32();
        if x.Some? {
          body := body.(skills := body.skills[k := x.value]);
        }
        return x.Some?;
      } else if attr == STATS {
        if body.currentStat >= |body.stats| {
          return false;
        }
        var k := body.currentStat;
        body := body.(currentStat := k + 1);
        var x := stream.ReadInt32();
        if x.Some? {
          body := body.(stats := body.stats[k := x.value]);
        }
        return x.Some?;
      }
      ok := UnserializeBase(attr, stream);
    }

    method UnserializeRegeneration(attr: byte, stream: PropStream) returns (ok: bool)
      requires stream.Valid() && body.Regeneration?
      modifies this, stream`p
      ensures stream.Valid() && Parsed(ok, View(), stream.Rest()) == ReadProp(old(View()), attr, old(stream.Rest()))
    {
      if attr == HEALTHTICKS {
        var x := stream.ReadUint32();
        if x.Some? {
          body := body.(healthTicks := x.value);
        }
        return x.Some?;
      } else if attr == HEALTHGAIN {
        var x := stream.ReadUint32();
        if x.Some? {
          body := body.(healthGain := x.value);
        }
        return x.Some?;
      } else if attr == MANATICKS {
        var x := stream.ReadUint32();
        if x.Some? {
          body := body.(manaTicks := x.value);
        }
        return x.Some?;
      } else if attr == MANAGAIN {
        var x := stream.ReadUint32();
        if x.Some? {
          body := body.(manaGain := x.value);
        }
        return x.Some?;
      }
      ok := UnserializeBase(attr, stream);
    }

    method UnserializeSpeed(attr: byte, stream: PropStream) returns (ok: bool)
      requires stream.Valid() && body.Speed?
      modifies this, stream`p
      ensures stream.Valid() && Parsed(ok, View(), stream.Rest()) == ReadProp(old(View()), attr, old(stream.Rest()))
    {
      if attr == SPEEDDELTA {
        var x := stream.ReadInt32();
        if x.Some? {
          body := body.(speedDelta := x.value);
        }
        return x.Some?;
      } else if attr == FORMULA_MINA {
        var x := stream.ReadUint32();
        if x.Some? {
          body := body.(mina := x.value);
        }
        return x.Some?;
      } else if attr == FORMULA_MINB {
        var x := stream.ReadUint32();
        if x.Some? {
          body := body.(minb := x.value);
        }
        return x.Some?;
      } else if attr == FORMULA_MAXA {
        var x := stream.ReadUint32();
        if x.Some? {
          body := body.(maxa := x.value);
        }
        return x.Some?;
      } else if attr == FORMULA_MAXB {
        var x := stream.ReadUint32();
        if x.Some? {
          body := body.(maxb := x.value);
        }
        return x.Some?;
      }
      ok := UnserializeBase(attr, stream);
    }

    method UnserializeLight(attr: byte, stream: PropStream) returns (ok: bool)
      requires stream.Valid() && body.Light?
      modifies this, stream`p
      ensures stream.Valid() && Parsed(ok, View(), stream.Rest()) == ReadProp(old(View()), attr, old(stream.Rest()))
    {
      if attr == LIGHTCOLOR {
        var x := stream.ReadUint32();
        if x.Some? {
          body := body.(color := ToUint8(x.value));
        }
        return x.Some?;
      } else if attr == LIGHTLEVEL {
        var x := stream.ReadUint32();
        if x.Some? {
          body := body.(level := ToUint8(x.value));
        }
        return x.Some?;
      } else if attr == LIGHTTICKS {
        var x := stream.ReadUint32();
        if x.Some? {
          body := body.(lightTicks := x.value);
        }
        return x.Some?;
      } else if attr == LIGHTINTERVAL {
        var x := stream.ReadUint32();
        if x.Some? {
          body := body.(lightInterval := x.value);
        }
        return x.Some?;
      }
      ok := UnserializeBase(attr, stream);
    }

    method UnserializeSoul(attr: byte, stream: PropStream) returns (ok: bool)
      requires stream.Valid() && body.Soul?
      modifies this, stream`p
      ensures stream.Valid() && Parsed(ok, View(), stream.Rest()) == ReadProp(old(View()), attr, old(stream.Rest()))
    {
      if attr == SOULGAIN {
        var x := stream.ReadUint32();
        if x.Some? {
          body := body.(soulGain := x.value);
        }
        return x.Some?;
      } else if attr == SOULTICKS {
        var x := stream.ReadUint32();
        if x.Some? {
          body := body.(soulTicks := x.value);
        }
        return x.Some?;
      }
      ok := UnserializeBase(attr, stream);
    }

    method UnserializeStamina(attr: byte, stream: PropStream) returns (ok: bool)
      requires stream.Valid() && body.Stamina?
      modifies this, stream`p
      ensures stream.Valid() && Parsed(ok, View(), stream.Rest()) == ReadProp(old(View()), attr, old(stream.Rest()))
    {
      if attr == STAMINAGAIN {
        var x := stream.Read(2);
        if x.Some? {
          body := body.(staminaGain := ToUint16(x.value));
        }
        return x.Some?;
      } else if attr == STAMINATICKS {
        var x := stream.ReadUint32();
        if x.Some? {
          body := body.(staminaTicks := x.value);
        }
        return x.Some?;
      }
      ok := UnserializeBase(attr, stream);
    }

    method UnserializeOutfit(attr: byte, stream: PropStream) returns (ok: bool)
      requires stream.Valid() && body.OutfitChange?
      modifies this, stream`p
      ensures stream.Valid() && Parsed(ok, View(), stream.Rest()) == ReadProp(old(View()), attr, old(stream.Rest()))
    {
      if attr == OUTFIT {
        var x := stream.Read(12);
        if x.Some? {
          body := body.(outfit := x.value);
        }
        return x.Some?;
      }
      ok := UnserializeBase(attr, stream);
    }

    method UnserializeDamage(attr: byte, stream: PropStream) returns (ok: bool)
      requires stream.Valid() && body.Damage?
      modifies this, stream`p
      ensures stream.Valid() && Parsed(ok, View(), stream.Rest()) == ReadProp(old(View()), attr, old(stream.Rest()))
    {
      if attr == DELAYED {
        var x := stream.Read(1);
        if x.Some? {
          body := body.(delayed := x.value != [0]);
        }
        return x.Some?;
      } else if attr == PERIODDAMAGE {
        var x := stream.ReadInt32();
        if x.Some? {
          body := body.(periodDamage := x.value);
        }
        return x.Some?;
      } else if attr == OWNER {
        ok := stream.Skip(4);
        return ok;
      } else if attr == INTERVALDATA {
        var x := stream.Read(12);
        if x.Some? {
          var i := ToInterval(x.value);
          body := body.(damageList := body.damageList + [i]);
          if ticks != -1 {
            ticks := Wrapped(ticks + i.interval);
          }
        }
        return x.Some?;
      }
      ok := UnserializeBase(attr, stream);
    }

    method UnserializeProp(attr: byte, stream: PropStream) returns (ok: bool)
      requires stream.Valid()
      modifies this, stream`p
      ensures stream.Valid() && Parsed(ok, View(), stream.Rest()) == ReadProp(old(View()), attr, old(stream.Rest()))
    {
      match body
      case Generic => ok := UnserializeBase(attr, stream);
      case Attributes(_, _, _, _) => ok := UnserializeAttributes(attr, stream);
      case Regeneration(_, _, _, _) => ok := UnserializeRegeneration(attr, stream);
      case Soul(_, _) => ok := UnserializeSoul(attr, stream);
      case Stamina(_, _) => ok := UnserializeStamina(attr, stream);
      case Damage(_, _, _) => ok := UnserializeDamage(attr, stream);
      case Speed(_, _, _, _, _) => ok := UnserializeSpeed(attr, stream);
      case OutfitChange(_) => ok := UnserializeOutfit(attr, stream);
      case Light(_, _, _, _) => ok := UnserializeLight(attr, stream);
    }

    // One turn of the loop of unserialize: whether there may be more, and whether all is well.
    method UnserializeNext(stream: PropStream) returns (more: bool, ok: bool)
      requires stream.Valid()
      modifies this, stream`p
      ensures stream.Valid()
      ensures more ==> ok && |stream.Rest()| < |old(stream.Rest())|
      ensures if more then ReadAll(View(), stream.Rest()) == ReadAll(old(View()), old(stream.Rest()))
              else Parsed(ok, View(), stream.Rest()) == ReadAll(old(View()), old(stream.Rest()))
    {
      var attr := stream.Read(1);
      if attr.None? || attr.value == [END] {
        return false, true;
      }
      ghost var s := old(stream.Rest());
      assert s == [s[0]] + s[1..];
      ReadAllStep(View(), s[0], s[1..]);
      ok := UnserializeProp(attr.value[0], stream);
      more := ok;
    }

    /** Read fields up to END or the end of the stream. */
    method Unserialize(stream: PropStream) returns (ok: bool)
      requires stream.Valid()
      modifies this, stream`p
      ensures stream.Valid() && Parsed(ok, View(), stream.Rest()) == ReadAll(old(View()), old(stream.Rest()))
    {
      var more := true;
      ok := true;
      while more
        invariant stream.Valid()
        invariant if more then ReadAll(View(), stream.Rest()) == ReadAll(old(View()), old(stream.Rest()))
                  else Parsed(ok, View(), stream.Rest()) == ReadAll(old(View()), old(stream.Rest()))
        decreases if more then |stream.Rest()| + 1 else 0
      {
        more, ok := UnserializeNext(stream);
      }
    }
  }

  predicate BaseAttribute(body: Body, attr: byte) {
    match body
    case Generic => true
    case Attributes(_, _, _, _) => attr !in {SKILLS, STATS}
    case Regeneration(_, _, _, _) => attr !in {HEALTHTICKS, HEALTHGAIN, MANATICKS, MANAGAIN}
    case Soul(_, _) => attr !in {SOULGAIN, SOULTICKS}
    case Stamina(_, _) => attr !in {STAMINAGAIN, STAMINATICKS}
    case Damage(_, _, _) => attr !in {DELAYED, PERIODDAMAGE, OWNER, INTERVALDATA}
    case Speed(_, _, _, _, _) => attr !in {SPEEDDELTA, FORMULA_MINA, FORMULA_MINB, FORMULA_MAXA, FORMULA_MAXB}
    case OutfitChange(_) => attr != OUTFIT
    case Light(_, _, _, _) => attr !in {LIGHTCOLOR, LIGHTLEVEL, LIGHTTICKS, LIGHTINTERVAL}
  }

  // The payload of the attribute that must come next.
  method ReadExpected(stream: PropStream, attr: byte, size: nat) returns (payload: Option<seq<byte>>)
    requires stream.Valid()
    modifies stream`p
    ensures stream.Valid()
    ensures payload.Some? ==> Expect(old(stream.Rest()), attr, size) == Some((payload.value, stream.Rest()))
    ensures payload.None? ==> Expect(old(stream.Rest()), attr, size) == None
  {
    var next := stream.Read(1);
    if next.None? || next.value != [attr] {
      return None;
    }
    payload := stream.Read(size);
  }

  /** A condition object from the common fields at the head of the stream, or null. */
  method CreateCondition(stream: PropStream) returns (condition: Condition?)
    requires stream.Valid()
    modifies stream`p
    ensures stream.Valid()
    ensures condition == null <==> Create(old(stream.Rest())).None?
    ensures condition != null ==>
              fresh(condition) && Create(old(stream.Rest())) == Some((condition.View(), stream.Rest()))
  {
    condition := null;
    var conditionType := ReadExpected(stream, TYPE, 4);
    if conditionType.None? { return; }
    var id := ReadExpected(stream, ID, 4);
    if id.None? { return; }
    var ticks := ReadExpected(stream, TICKS, 4);
    if ticks.None? { return; }
    var buff := ReadExpected(stream, ISBUFF, 1);
    if buff.None? { return; }
    var subId := ReadExpected(stream, SUBID, 4);
    if subId.None? { return; }
    var made := Made(ToUint32(conditionType.value), ToInt8(ToUint32(id.value)), ToInt32(ticks.value),
                     buff.value != [0], ToUint32(subId.value));
    if made.Some? {
      condition := new Condition(made.value);
    }
  }

  // These objects are conditions with these values.
  ghost predicate Show(conditions: seq<Condition>, views: seq<Cond>)
    reads conditions
  {
    |conditions| == |views| && forall k :: 0 <= k < |views| ==> conditions[k].View() == views[k]
  }

  /** Write the persistent conditions of a player, each closed by END. */
  method SaveConditions(conditions: seq<Condition>, stream: PropWriteStream, ghost views: seq<Cond>)
    requires Show(conditions, views)
    modifies stream
    ensures stream.buffer == old(stream.buffer) + Save(views)
  {
    for k := 0 to |conditions|
      invariant Show(conditions, views)
      invariant old(stream.buffer) + Save(views) == stream.buffer + Save(views[k..])
    {
      assert views[k..][1..] == views[k + 1..] && conditions[k].View() == views[k];
      if conditions[k].ticks != -1 && conditions[k].id in {-1, 0} {
        conditions[k].Serialize(stream);
        stream.Write([END]);
      }
    }
  }

  lemma LoadFirst(s: seq<byte>, c: Cond, rest: seq<byte>, r: Parsed)
    requires Create(s) == Some((c, rest)) && r == ReadAll(c, rest)
    ensures |r.rest| < |s| && Load(s) == Load(r.rest) + (if r.ok then [r.cond] else [])
  {
    CreateShortens(s);
    ReadAllShortens(c, rest);
  }

  lemma Regroup(all: seq<Cond>, before: seq<Cond>, x: seq<Cond>, views: seq<Cond>)
    requires all == (before + x) + views
    ensures all == before + (x + views)
  {
  }

  // What one condition more does to the list.
  lemma LoadNext(start: seq<byte>, s: seq<byte>, views: seq<Cond>, c: Cond, rest: seq<byte>, r: Parsed)
    requires Load(start) == Load(s) + views && Create(s) == Some((c, rest)) && r == ReadAll(c, rest)
    ensures |r.rest| < |s| && Load(start) == Load(r.rest) + ((if r.ok then [r.cond] else []) + views)
  {
    LoadFirst(s, c, rest, r);
    Regroup(Load(start), Load(r.rest), if r.ok then [r.cond] else [], views);
  }

  // The list shows what has been loaded since start, and the condition, if any, is what the
  // bytes s are the head of.
  ghost predicate Loading(start: seq<byte>, s: seq<byte>, views: seq<Cond>, condition: Condition?, stream: PropStream)
    reads stream, condition
  {
    && stream.Valid() && Load(start) == Load(s) + views
    && Create(s) == if condition == null then None else Some((condition.View(), stream.Rest()))
  }

  method PutInFront(condition: Condition, list: seq<Condition>, ghost views: seq<Cond>) returns (longer: seq<Condition>)
    requires Show(list, views)
    ensures longer == [condition] + list && Show(longer, [condition.View()] + views)
  {
    longer := [condition] + list;
  }

  // The rest of a condition is read, and the condition put in front unless that fails.
  method LoadOne(stream: PropStream, condition: Condition, list: seq<Condition>,
                 ghost start: seq<byte>, ghost s: seq<byte>, ghost views: seq<Cond>)
    returns (longer: seq<Condition>, ghost longerViews: seq<Cond>)
    requires Loading(start, s, views, condition, stream) && condition !in list && Show(list, views)
    modifies condition, stream`p
    ensures stream.Valid() && |stream.Rest()| < |s| && Load(start) == Load(stream.Rest()) + longerViews
    ensures Show(longer, longerViews) && (longer == list || longer == [condition] + list)
  {
    ghost var r := ReadAll(condition.View(), stream.Rest());
    LoadNext(start, s, views, condition.View(), stream.Rest(), r);
    var ok := condition.Unserialize(stream);
    if ok {
      longer := PutInFront(condition, list, views);
      longerViews := [condition.View()] + views;
    } else {
      longer, longerViews := list, views;
      assert [] + views == views;
    }
  }

  method MakeNext(stream: PropStream, list: seq<Condition>, ghost start: seq<byte>, ghost views: seq<Cond>)
    returns (next: Condition?)
    requires stream.Valid() && Load(start) == Load(stream.Rest()) + views && Show(list, views)
    modifies stream`p
    ensures Loading(start, old(stream.Rest()), views, next, stream) && Show(list, views)
    ensures next != null ==> fresh(next) && next !in list
    ensures next == null ==> Load(start) == views
  {
    next := CreateCondition(stream);
  }

  /** Read conditions while one can be made, each put in front of the list. */
  method LoadConditions(stream: PropStream) returns (list: seq<Condition>)
    requires stream.Valid()
    modifies stream`p
    ensures stream.Valid()
    ensures Show(list, Load(old(stream.Rest())))
  {
    list := [];
    ghost var views: seq<Cond> := [];
    ghost var start, s := stream.Rest(), stream.Rest();
    var condition := MakeNext(stream, list, start, views);
    while condition != null
      invariant Loading(start, s, views, condition, stream) && Show(list, views)
      invariant condition != null ==> fresh(condition) && condition !in list
      invariant condition == null ==> Load(start) == views
      decreases |s|
    {
      list, views := LoadOne(stream, condition, list, start, s, views);
      s := stream.Rest();
      condition := MakeNext(stream, list, start, views);
    }
  }
}
