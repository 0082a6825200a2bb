/** Adding and moving items between plain containers: queryAdd, queryMaxCount, queryRemove and
    queryDestination of engine/src/container.cpp, internalMoveItem and internalAddItem of
    engine/src/game.cpp.

    A creature carrying the outermost container is asked too; its answer is an input. */
module ItemMoves {
  import opened Common
  import opened Containers
  import opened ContainerIteration

  datatype ReturnValue =
    | NOERROR | NOTPOSSIBLE | CANNOTPICKUP | THISISIMPOSSIBLE | CONTAINERNOTENOUGHROOM | ONLYAMMOINQUIVER | NOTMOVEABLE
    | NOTENOUGHROOM
    | Other(code: int)

  datatype Flags = Flags(noLimit: bool, childIsOwner: bool, ignoreAutoStack: bool, ignoreNotMoveable: bool)

  // The configured limits, and what the carrier answers.
  datatype Limits = Limits(maxItem: nat, maxContainer: nat, carrier: ReturnValue)

  const WHEREEVER := -1
  const MOVE_UP := 254
  const ADD_WHEREVER := 255
  const STACK := 100
  const MAP_MAX_LAYERS := 16

  const NO_FLAGS := Flags(false, false, false, false)

  // ----- queryAdd ------------------------------------------------------------------------

  // getTopParentContainer: the outermost container, except that for a nested container it
  // is the one just inside the outermost.
  ghost function TopParent(h: Forest, c: Item): Item
    requires c in h && Acyclic(h)
    decreases h[c].depth
  {
    var p := h[c].parent;
    if p == null || h[p].parent == null then c else TopParent(h, p)
  }

  // The container that lies in no other.
  ghost function Outermost(h: Forest, c: Item): (top: Item)
    requires c in h && Acyclic(h)
    ensures top in h && h[top].parent == null && (top == c || Contains(h, top, c))
    decreases h[c].depth
  {
    if h[c].parent == null then c else Outermost(h, h[c].parent)
  }

  // The container just inside the outermost one, if there is any.
  lemma {:induction false} TopParentIs(h: Forest, c: Item)
    requires c in h && Acyclic(h)
    ensures TopParent(h, c) in h
    ensures h[c].parent == null ==> TopParent(h, c) == Outermost(h, c)
    ensures h[c].parent != null ==> TopParent(h, c) != Outermost(h, c) && h[TopParent(h, c)].parent == Outermost(h, c)
    decreases h[c].depth
  {
    if h[c].parent != null {
      TopParentIs(h, h[c].parent);
    }
  }

  ghost predicate WithinLimits(h: Forest, top: Item, item: Item, limits: Limits)
    requires Shaped(h) && top in h && item in h
  {
    && Count(h, top, Any) + 1 <= limits.maxItem
    && (item.isContainer ==>
          && Count(h, item, IsContainer) + 1 + Count(h, top, IsContainer) <= limits.maxContainer
          && Count(h, item, Any) + 1 + Count(h, top, Any) <= limits.maxItem)
  }

  // An inbox contains it, directly or at any depth.
  ghost predicate InInbox(h: Forest, c: Item)
    requires c in h && Acyclic(h)
    decreases h[c].depth
  {
    h[c].parent != null && (h[c].parent.isInbox || InInbox(h, h[c].parent))
  }

  // What a container asks of an item it takes.
  ghost predicate Takes(t: ItemTable, h: Forest, c: Item, index: int, item: Item, flags: Flags, limits: Limits)
    requires Shaped(h) && c in h && item in h
  {
    && c.unlocked && t(h[item].id).pickupable && Fits(h, c, item)
    && (flags.noLimit || (!InInbox(h, c) && (index != WHEREEVER || |h[c].contents| < c.maxSize || c.pagination)))
    && TopParent(h, c) in h && WithinLimits(h, TopParent(h, c), item, limits)
    && (t(h[c].id).quiver ==> t(h[item].id).ammo)
    && limits.carrier == NOERROR
  }

  // `item` is found on the way up from c.
  method IsOnTheWayUp(c: Item, item: Item, ghost h: Forest) returns (found: bool)
    requires c in h && Mirrors(h) && Shaped(h)
    ensures found <==> Contains(h, item, c)
  {
    var cylinder := c.parent;
    ghost var below := c;
    while cylinder != null
      invariant below in h && h[below].parent == cylinder
      invariant Contains(h, item, c) <==> Contains(h, item, below)
      decreases h[below].depth
    {
      if cylinder == item {
        return true;
      }
      below := cylinder;
      cylinder := cylinder.parent;
    }
    return false;
  }

  // The walk up the parents: no item enters itself, nor, within the limits, an inbox.
  method QueryParents(c: Item, item: Item, flags: Flags, ghost h: Forest) returns (r: ReturnValue)
    requires c in h && Mirrors(h) && Shaped(h)
    ensures r == NOERROR <==> !Contains(h, item, c) && (flags.noLimit || !InInbox(h, c))
    ensures Contains(h, item, c) && (flags.noLimit || !InInbox(h, c)) ==> r == THISISIMPOSSIBLE
    ensures !Contains(h, item, c) && r != NOERROR ==> r == CONTAINERNOTENOUGHROOM
  {
    var cylinder := c.parent;
    ghost var below := c;
    while cylinder != null
      invariant below in h && h[below].parent == cylinder
      invariant Contains(h, item, c) <==> Contains(h, item, below)
      invariant flags.noLimit || (InInbox(h, c) <==> InInbox(h, below))
      decreases h[below].depth
    {
      if cylinder == item {
        return THISISIMPOSSIBLE;
      }
      if !flags.noLimit && cylinder.isInbox {
        return CONTAINERNOTENOUGHROOM;
      }
      below := cylinder;
      cylinder := cylinder.parent;
    }
    return NOERROR;
  }

  method GetTopParentContainer(c: Item, ghost h: Forest) returns (top: Item)
    requires c in h && Mirrors(h) && Shaped(h)
    ensures top in h && top == TopParent(h, c)
    ensures if h[c].parent == null then top == Outermost(h, c)
            else top != Outermost(h, c) && h[top].parent == Outermost(h, c)
  {
    var thing := c.parent;
    top := c;
    TopParentIs(h, c);
    while thing != null && thing.parent != null
      invariant top in h && thing == h[top].parent
      invariant TopParent(h, top) == TopParent(h, c)
      decreases h[top].depth
    {
      top := thing;
      thing := thing.parent;
    }
  }

  method QueryAdd(t: ItemTable, c: Item, index: int, item: Item, flags: Flags, limits: Limits, ghost h: Forest)
    returns (r: ReturnValue)
    requires c in h && item in h && Mirrors(h) && Shaped(h)
    ensures flags.childIsOwner ==> r == NOERROR
    ensures !flags.childIsOwner ==> (r == NOERROR <==> Takes(t, h, c, index, item, flags, limits))
    ensures !flags.childIsOwner && c.unlocked && t(h[item].id).pickupable && !Fits(h, c, item)
            && (flags.noLimit || item == c || !InInbox(h, c)) ==>
              r == THISISIMPOSSIBLE
  {
    if flags.childIsOwner {
      return NOERROR;
    }
    if !c.unlocked {
      return NOTPOSSIBLE;
    }
    if !t(item.id).pickupable {
      return CANNOTPICKUP;
    }
    if item == c {
      return THISISIMPOSSIBLE;
    }
    r := QueryParents(c, item, flags, h);
    if r != NOERROR {
      return;
    }
    if !flags.noLimit && index == WHEREEVER && |c.itemlist| >= c.maxSize && !c.pagination {
      return CONTAINERNOTENOUGHROOM;
    }
    var top := GetTopParentContainer(c, h);
    var topItems := GetItemHoldingCount(top, h);
    if item.isContainer {
      var addContainers := GetContainerHoldingCount(item, h);
      var topContainers := GetContainerHoldingCount(top, h);
      if addContainers + 1 + topContainers > limits.maxContainer {
        return NOTPOSSIBLE;
      }
      var addItems := GetItemHoldingCount(item, h);
      if addItems + 1 + topItems > limits.maxItem {
        return NOTPOSSIBLE;
      }
    }
    if topItems + 1 > limits.maxItem {
      return NOTPOSSIBLE;
    }
    if t(c.id).quiver && !t(item.id).ammo {
      return ONLYAMMOINQUIVER;
    }
    return limits.carrier;
  }

  // An accepted loose item can be added: the forest stays free of cycles and every cached
  // weight stays right.
  lemma AcceptedKeepsForest(t: ItemTable, h: Forest, c: Item, index: int, item: Item, flags: Flags, limits: Limits)
    requires Valid(t, h) && c in h && c.isContainer && item in h && h[item].parent == null
    requires Takes(t, h, c, index, item, flags, limits)
    ensures Valid(t, Apply(t, h, Add(c, item, false)))
  {
    OperationKeepsValid(t, h, Add(c, item, false));
  }

  // ----- How much of an item id a container holds ----------------------------------------

  ghost function CountIn(h: Forest, xs: seq<Item>, id: int): nat {
    if xs == [] then 0 else AmountOf(h, xs[0], id) + CountIn(h, xs[1..], id)
  }

  ghost function AmountOf(h: Forest, x: Item, id: int): nat {
    if x in h && h[x].id == id then h[x].count else 0
  }

  ghost function CountOf(h: Forest, c: Item, id: int): nat {
    CountIn(h, Members(h, c), id)
  }

  lemma {:induction false} CountInSame(h: Forest, g: Forest, xs: seq<Item>, id: int)
    requires forall x :: x in xs ==> AmountOf(g, x, id) == AmountOf(h, x, id)
    ensures CountIn(g, xs, id) == CountIn(h, xs, id)
  {
    if xs != [] {
      CountInSame(h, g, xs[1..], id);
    }
  }

  lemma {:induction false} CountInChanged(h: Forest, g: Forest, xs: seq<Item>, y: Item, id: int)
    requires forall x :: x in xs && x != y ==> AmountOf(g, x, id) == AmountOf(h, x, id)
    requires Distinct(xs) && y in xs
    ensures CountIn(g, xs, id) == CountIn(h, xs, id) + AmountOf(g, y, id) - AmountOf(h, y, id)
  {
    if xs[0] == y {
      assert y !in xs[1..];
      CountInSame(h, g, xs[1..], id);
    } else {
      CountInChanged(h, g, xs[1..], y, id);
    }
  }

  lemma {:induction false} CountInWithout(h: Forest, xs: seq<Item>, i: nat, id: int)
    requires i < |xs|
    ensures CountIn(h, Without(xs, i), id) == CountIn(h, xs, id) - AmountOf(h, xs[i], id)
  {
    if i == 0 {
      assert Without(xs, 0) == xs[1..];
    } else {
      CountInWithout(h, xs[1..], i - 1, id);
      assert Without(xs, i)[1..] == Without(xs[1..], i - 1);
    }
  }

  // Pushing weights up changes no count.
  lemma PushUpCounts(h: Forest, x: Item, diff: int, y: Item, id: int)
    requires x in h && Acyclic(h) && y in h
    ensures CountOf(PushUp(h, x, diff), y, id) == CountOf(h, y, id)
    ensures PushUp(h, x, diff)[y] == h[y].(total := PushUp(h, x, diff)[y].total)
  {
    var g := PushUp(h, x, diff);
    forall z | z in h
      ensures g[z].contents == h[z].contents && g[z] == h[z].(total := g[z].total)
    {
      PushUpEffect(h, x, diff, z);
    }
    CountInSame(h, g, h[y].contents, id);
  }

  // The amount of one id that an operation adds to one container.
  ghost function Gain(h: Forest, op: Operation, id: int): int
    requires op.item in h
  {
    match op
    case Add(c, item, back) => AmountOf(h, item, id)
    case Update(c, item, newId, count) => (if newId == id then count else 0) - AmountOf(h, item, id)
    case Replace(c, i, item) =>
      AmountOf(h, item, id) - if i < |Members(h, c)| then AmountOf(h, Members(h, c)[i], id) else 0
    case Remove(c, item, i) => 0 - AmountOf(h, item, id)
  }

  lemma AddCounts(t: ItemTable, h: Forest, c: Item, item: Item, contents: seq<Item>, i: nat, y: Item, id: int)
    requires Shaped(h) && c in h && item in h && Fits(h, c, item) && y in h
    requires i < |contents| && contents[i] == item && Without(contents, i) == h[c].contents
    ensures CountOf(Added(t, h, c, item, contents), y, id)
         == CountOf(h, y, id) + if y == c then AmountOf(h, item, id) else 0
  {
    var g := Attached(h, c, item, contents);
    AttachKeepsAcyclic(h, c, item, contents);
    PushUpCounts(g, c, Weight(t, h, item), y, id);
    CountInSame(h, g, g[y].contents, id);
    if y == c {
      CountInWithout(h, contents, i, id);
    }
  }

  lemma UpdateCounts(t: ItemTable, h: Forest, c: Item, item: Item, newId: int, count: nat, y: Item, id: int)
    requires Shaped(h) && c in h && item in h && item in h[c].contents && y in h
    ensures CountOf(Updated(t, h, c, item, newId, count), y, id)
         == CountOf(h, y, id) + if y == c then (if newId == id then count else 0) - AmountOf(h, item, id) else 0
  {
    assert LinkedAt(h, y) && LinkedAt(h, c);
    var g := Changed(h, item, newId, count);
    PushUpCounts(g, c, Weight(t, g, item) - Weight(t, h, item), y, id);
    if item in h[y].contents {
      CountInChanged(h, g, h[y].contents, item, id);
    } else {
      CountInSame(h, g, h[y].contents, id);
    }
  }

  lemma RemoveCounts(t: ItemTable, h: Forest, c: Item, item: Item, i: nat, y: Item, id: int)
    requires Shaped(h) && c in h && item in h && item != c && i < |h[c].contents| && item == h[c].contents[i] && y in h
    ensures CountOf(Removed(t, h, c, item, i), y, id) == CountOf(h, y, id) - if y == c then AmountOf(h, item, id) else 0
  {
    var diff := -Weight(t, h, item);
    var g := PushUp(h, c, diff);
    PushUpCounts(h, c, diff, y, id);
    PushUpCounts(h, c, diff, c, id);
    PushUpCounts(h, c, diff, item, id);
    DetachCounts(g, c, item, i, y, id);
  }

  lemma DetachCounts(h: Forest, c: Item, item: Item, i: nat, y: Item, id: int)
    requires c in h && item in h && item != c && i < |h[c].contents| && item == h[c].contents[i] && y in h
    ensures CountOf(Detached(h, c, item, Without(h[c].contents, i)), y, id)
         == CountOf(h, y, id) - if y == c then AmountOf(h, item, id) else 0
  {
    var f := Detached(h, c, item, Without(h[c].contents, i));
    CountInSame(h, f, f[y].contents, id);
    if y == c {
      CountInWithout(h, h[c].contents, i, id);
    }
  }

  lemma ReplaceCounts(t: ItemTable, h: Forest, c: Item, i: nat, item: Item, y: Item, id: int)
    requires Shaped(h) && c in h && c.isContainer && item in h && h[item].parent == null && Fits(h, c, item) && y in h
    requires i < |h[c].contents| && h[c].contents[i] in h
    ensures CountOf(Replaced(t, h, c, i, item), y, id)
         == CountOf(h, y, id) + if y == c then AmountOf(h, item, id) - AmountOf(h, h[c].contents[i], id) else 0
  {
    var f := Exchanged(h, c, i, item);
    PushUpCounts(f, c, Weight(t, h, item) - Weight(t, h, h[c].contents[i]), y, id);
    ExchangeCounts(h, c, i, item, y, id);
  }

  lemma ExchangeCounts(h: Forest, c: Item, i: nat, item: Item, y: Item, id: int)
    requires Shaped(h) && c in h && c.isContainer && item in h && Fits(h, c, item) && y in h
    requires i < |h[c].contents| && h[c].contents[i] in h
    ensures CountOf(Exchanged(h, c, i, item), y, id)
         == CountOf(h, y, id) + if y == c then AmountOf(h, item, id) - AmountOf(h, h[c].contents[i], id) else 0
  {
    var f := Exchanged(h, c, i, item);
    ExchangeFields(h, c, i, item);
    CountInSame(h, f, f[y].contents, id);
    if y == c {
      var contents := h[c].contents[i := item];
      CountInWithout(h, contents, i, id);
      CountInWithout(h, h[c].contents, i, id);
      assert Without(contents, i) == Without(h[c].contents, i);
    }
  }

  lemma ExchangeFields(h: Forest, c: Item, i: nat, item: Item)
    requires Shaped(h) && c in h && c.isContainer && item in h && Fits(h, c, item)
    requires i < |h[c].contents| && h[c].contents[i] in h
    ensures forall x :: x in h ==>
              var f := Exchanged(h, c, i, item);
              && f[x].id == h[x].id && f[x].count == h[x].count
              && f[x].contents == if x == c then h[c].contents[i := item] else h[x].contents
  {
  }

  // What an operation does to the counts of every container.
  lemma OperationCounts(t: ItemTable, h: Forest, op: Operation, y: Item, id: int)
    requires Shaped(h) && Legal(t, h, op) && y in h
    ensures CountOf(Apply(t, h, op), y, id) == CountOf(h, y, id) + if y == op.c then Gain(h, op, id) else 0
  {
    match op
    case Add(c, item, back) =>
      var contents := if back then h[c].contents + [item] else [item] + h[c].contents;
      var i := if back then |h[c].contents| else 0;
      assert Without(contents, i) == h[c].contents;
      AddCounts(t, h, c, item, contents, i, y, id);
    case Update(c, item, newId, count) => UpdateCounts(t, h, c, item, newId, count, y, id);
    case Replace(c, i, item) => ReplaceCounts(t, h, c, i, item, y, id);
    case Remove(c, item, i) => RemoveCounts(t, h, c, item, i, y, id);
  }

  // ----- Stacks ----------------------------------------------------------------------------

  // A stack inside a container holds 1 to 100.
  ghost predicate StackOk(t: ItemTable, h: Forest, x: Item)
    requires x in h
  {
    h[x].parent != null && t(h[x].id).stackable ==> 1 <= h[x].count <= STACK
  }

  ghost predicate StacksOk(t: ItemTable, h: Forest) {
    forall x {:trigger StackOk(t, h, x)} :: x in h ==> StackOk(t, h, x)
  }

  // The sub-type of a stackable item is its count, and containers do not stack.
  ghost predicate SaneTable(t: ItemTable, h: Forest) {
    && (forall id :: t(id).stackable ==> t(id).subTypeIsCount)
    && (forall x {:trigger h[x]} :: x in h && x.isContainer ==> !t(h[x].id).stackable)
  }

  ghost predicate SameKind(h: Forest, x: Item, y: Item) {
    x in h && y in h && h[x].id == h[y].id && x.attributes == y.attributes
  }

  method Equals(x: Item, y: Item, ghost h: Forest) returns (same: bool)
    requires x in h && y in h && Mirrors(h)
    ensures same <==> SameKind(h, x, y)
  {
    same := x.id == y.id && x.attributes == y.attributes;
  }

  // ----- queryMaxCount -----------------------------------------------------------------------

  // What of `item` fits on one stack.
  ghost function RoomAt(h: Forest, x: Item, item: Item): nat {
    if SameKind(h, x, item) && h[x].count < STACK then STACK - h[x].count else 0
  }

  // What of `item` fits on the other stacks.
  ghost function RoomOn(h: Forest, xs: seq<Item>, item: Item): nat {
    if xs == [] then 0 else (if xs[0] != item then RoomAt(h, xs[0], item) else 0) + RoomOn(h, xs[1..], item)
  }

  lemma {:induction false} RoomOnAppend(h: Forest, xs: seq<Item>, x: Item, item: Item)
    ensures RoomOn(h, xs + [x], item) == RoomOn(h, xs, item) + if x != item then RoomAt(h, x, item) else 0
  {
    if xs == [] {
      assert [] + [x] == [x];
    } else {
      RoomOnAppend(h, xs[1..], x, item);
      assert (xs + [x])[1..] == xs[1..] + [x];
    }
  }

  // On the stack at an index.
  ghost function RoomAtIndex(h: Forest, c: Item, index: int, item: Item): nat
    requires c in h
  {
    if 0 <= index < |h[c].contents| then RoomAt(h, h[c].contents[index], item) else 0
  }

  // How many of `item` fit: a hundred on each free slot, and what fits on the stacks there are.
  ghost function MaxCount(t: ItemTable, h: Forest, c: Item, index: int, item: Item, count: nat, flags: Flags,
                          limits: Limits): nat
    requires Shaped(h) && c in h && item in h
  {
    if flags.noLimit || c.pagination then (if count < 1 then 1 else count)
    else
      var freeSlots := if |h[c].contents| < c.maxSize then c.maxSize - |h[c].contents| else 0;
      if !t(h[item].id).stackable then freeSlots
      else if index == WHEREEVER then
        freeSlots * STACK + if Takes(t, h, c, 0, item, flags, limits) then RoomOn(h, h[c].contents, item) else 0
      else
        freeSlots * STACK + if Takes(t, h, c, index, item, flags, limits) then RoomAtIndex(h, c, index, item) else 0
  }

  // The sum over all stacks; each is asked at an index of its own.
  method StackRoom(t: ItemTable, c: Item, item: Item, flags: Flags, limits: Limits, ghost h: Forest) returns (n: nat)
    requires c in h && item in h && Mirrors(h) && Shaped(h) && !flags.childIsOwner
    ensures n == if Takes(t, h, c, 0, item, flags, limits) then RoomOn(h, h[c].contents, item) else 0
  {
    n := 0;
    var slotIndex := 0;
    assert LinkedAt(h, c);
    for k := 0 to |c.itemlist|
      invariant slotIndex >= 0
      invariant n == if Takes(t, h, c, 0, item, flags, limits) then RoomOn(h, c.itemlist[..k], item) else 0
    {
      var containerItem := c.itemlist[k];
      assert containerItem in h[c].contents;
      assert c.itemlist[..k + 1] == c.itemlist[..k] + [containerItem];
      RoomOnAppend(h, c.itemlist[..k], containerItem, item);
      var same := Equals(containerItem, item, h);
      if containerItem != item && same && containerItem.count < STACK {
        var r := QueryAdd(t, c, slotIndex, item, flags, limits, h);
        slotIndex := slotIndex + 1;
        if r == NOERROR {
          n := n + (STACK - containerItem.count);
        }
      }
    }
    assert c.itemlist[..|c.itemlist|] == c.itemlist;
  }

  method IndexRoom(t: ItemTable, c: Item, index: int, item: Item, flags: Flags, limits: Limits, ghost h: Forest)
    returns (n: nat)
    requires c in h && item in h && Mirrors(h) && Shaped(h) && !flags.childIsOwner && index >= 0
    ensures n == if Takes(t, h, c, index, item, flags, limits) then RoomAtIndex(h, c, index, item) else 0
  {
    n := 0;
    assert LinkedAt(h, c);
    if index < |c.itemlist| {
      var destItem := c.itemlist[index];
      assert destItem in h[c].contents;
      var same := Equals(item, destItem, h);
      if same && destItem.count < STACK {
        var r := QueryAdd(t, c, index, item, flags, limits, h);
        if r == NOERROR {
          n := STACK - destItem.count;
        }
      }
    }
  }

  method QueryMaxCount(t: ItemTable, c: Item, index: int, item: Item, count: nat, flags: Flags, limits: Limits,
                       ghost h: Forest)
    returns (r: ReturnValue, maxQueryCount: nat)
    requires c in h && item in h && Mirrors(h) && Shaped(h) && !flags.childIsOwner && index >= WHEREEVER
    ensures maxQueryCount == MaxCount(t, h, c, index, item, count, flags, limits)
    ensures r == if (if t(h[item].id).stackable then maxQueryCount >= count else maxQueryCount > 0) then NOERROR
            else CONTAINERNOTENOUGHROOM
  {
    if flags.noLimit || c.pagination {
      return NOERROR, if count < 1 then 1 else count;
    }
    var freeSlots := if c.maxSize - |c.itemlist| < 0 then 0 else c.maxSize - |c.itemlist|;
    if t(item.id).stackable {
      var n;
      if index == WHEREEVER {
        n := StackRoom(t, c, item, flags, limits, h);
      } else {
        n := IndexRoom(t, c, index, item, flags, limits, h);
      }
      maxQueryCount := freeSlots * STACK + n;
      r := if maxQueryCount < count then CONTAINERNOTENOUGHROOM else NOERROR;
    } else {
      maxQueryCount := freeSlots;
      r := if maxQueryCount == 0 then CONTAINERNOTENOUGHROOM else NOERROR;
    }
  }

  // ----- queryRemove and queryDestination ------------------------------------------------------

  // What a container asks of an item it gives away.
  ghost predicate Releases(t: ItemTable, h: Forest, c: Item, item: Item, count: nat, flags: Flags)
    requires c in h && item in h
  {
    && item in h[c].contents && count > 0 && (t(h[item].id).stackable ==> count <= h[item].count)
    && (t(h[item].id).moveable || flags.ignoreNotMoveable)
  }

  method QueryRemove(t: ItemTable, c: Item, item: Item, count: nat, flags: Flags, ghost h: Forest)
    returns (r: ReturnValue)
    requires c in h && item in h && Mirrors(h)
    ensures r == NOERROR <==> Releases(t, h, c, item, count, flags)
  {
    var index := c.GetThingIndex(item);
    if index == -1 {
      return NOTPOSSIBLE;
    }
    if count == 0 || (t(item.id).stackable && count > item.count) {
      return NOTPOSSIBLE;
    }
    if !t(item.id).moveable && !flags.ignoreNotMoveable {
      return NOTMOVEABLE;
    }
    r := NOERROR;
  }

  // A container, and perhaps one of its members.
  ghost predicate IsTarget(h: Forest, dest: Item, toItem: Item?) {
    dest in h && dest.isContainer && (toItem != null ==> toItem in h && toItem in h[dest].contents)
  }

  // The position of the first other stack that `item` may join, or behind the last item.
  ghost function FirstStack(h: Forest, xs: seq<Item>, item: Item): (n: nat)
    ensures n <= |xs| && forall k :: 0 <= k < n ==> xs[k] == item || RoomAt(h, xs[k], item) == 0
    ensures n < |xs| ==> xs[n] != item && RoomAt(h, xs[n], item) > 0
  {
    if xs == [] || (xs[0] != item && RoomAt(h, xs[0], item) > 0) then 0 else 1 + FirstStack(h, xs[1..], item)
  }

  lemma {:induction false} NoStackNoRoom(h: Forest, xs: seq<Item>, item: Item)
    requires FirstStack(h, xs, item) == |xs|
    ensures RoomOn(h, xs, item) == 0
  {
    if xs != [] {
      NoStackNoRoom(h, xs[1..], item);
    }
  }

  method FindStack(t: ItemTable, c: Item, item: Item, ghost h: Forest) returns (n: nat, listItem: Item?)
    requires c in h && item in h && Mirrors(h) && Shaped(h)
    ensures n == FirstStack(h, h[c].contents, item)
    ensures listItem == if n < |h[c].contents| then h[c].contents[n] else null
  {
    n := 0;
    assert LinkedAt(h, c);
    while n < |c.itemlist|
      invariant n <= |c.itemlist|
      invariant forall k :: 0 <= k < n ==> c.itemlist[k] == item || RoomAt(h, c.itemlist[k], item) == 0
    {
      listItem := c.itemlist[n];
      assert listItem in h[c].contents;
      var same := Equals(listItem, item, h);
      if listItem != item && same && listItem.count < STACK {
        return;
      }
      n := n + 1;
    }
    listItem := null;
  }

  // Where to: a container, a position, and the item there that may be joined.
  datatype Target = Target(dest: Item, index: int, item: Item?)

  // What queryDestination answers.
  ghost function Destination(t: ItemTable, h: Forest, c: Item, index: int, item: Item, flags: Flags): (d: Target)
    requires Shaped(h) && c in h && item in h
    ensures d.dest in h
  {
    var contents := h[c].contents;
    assert LinkedAt(h, c) && forall k :: 0 <= k < |contents| ==> contents[k] in h[c].contents;
    if !c.unlocked then Target(c, index, null)
    else if index == MOVE_UP then Target(if h[c].parent != null then h[c].parent else c, WHEREEVER, null)
    else
      var i := if index == ADD_WHEREVER || (index >= c.maxSize && !c.pagination) then WHEREEVER else index;
      var n := FirstStack(h, contents, item);
      if 0 <= i < |contents| && contents[i].isContainer then Target(contents[i], WHEREEVER, null)
      else if !flags.ignoreAutoStack && t(h[item].id).stackable && h[item].parent != c && n < |contents| then
        Target(c, n, contents[n])
      else Target(c, i, if 0 <= i < |contents| then contents[i] else null)
  }

  lemma DestinationIsTarget(t: ItemTable, h: Forest, c: Item, index: int, item: Item, flags: Flags)
    requires Shaped(h) && c in h && item in h && c.isContainer && index >= WHEREEVER
    ensures var d := Destination(t, h, c, index, item, flags);
            && IsTarget(h, d.dest, d.item) && d.index >= WHEREEVER && (d.item != null ==> d.index >= 0)
            && (d.dest.unlocked && 0 <= d.index < |h[d.dest].contents| ==> d.item == h[d.dest].contents[d.index])
            && (d.dest != c ==> d.index == WHEREEVER && d.item == null)
  {
    var contents := h[c].contents;
    assert LinkedAt(h, c) && forall k :: 0 <= k < |contents| ==> contents[k] in h[c].contents;
  }

  // Without an index the container itself is meant, and a stack with room if there is one.
  lemma WhereeverDestination(t: ItemTable, h: Forest, c: Item, item: Item, flags: Flags)
    requires Shaped(h) && c in h && item in h
    ensures var d := Destination(t, h, c, WHEREEVER, item, flags);
            && d.dest == c && (d.item == null ==> d.index == WHEREEVER)
            && (d.item != null ==> d.item != item && SameKind(h, item, d.item) && h[d.item].count < STACK)
            && (d.item != null ==> t(h[item].id).stackable && !flags.ignoreAutoStack)
            && (d.item == null && c.unlocked && !flags.ignoreAutoStack && t(h[item].id).stackable
                && h[item].parent != c ==>
                  RoomOn(h, h[c].contents, item) == 0)
  {
    if FirstStack(h, h[c].contents, item) == |h[c].contents| {
      NoStackNoRoom(h, h[c].contents, item);
    }
  }

  // The first other stack of the same id and attributes that is not full.
  ghost predicate IsFirstToJoin(h: Forest, c: Item, item: Item, k: int)
    requires c in h && item in h
  {
    && 0 <= k < |h[c].contents| && MayJoin(h, h[c].contents[k], item)
    && forall j :: 0 <= j < k ==> !MayJoin(h, h[c].contents[j], item)
  }

  ghost predicate MayJoin(h: Forest, x: Item, item: Item)
    requires item in h
  {
    x != item && x in h && h[x].id == h[item].id && x.attributes == item.attributes && h[x].count < 100
  }

  // The destination, read off the container and the index.
  lemma DestinationIs(t: ItemTable, h: Forest, c: Item, index: int, item: Item, flags: Flags, d: Target)
    requires Shaped(h) && c in h && item in h && index >= WHEREEVER && d == Destination(t, h, c, index, item, flags)
    // A locked container is its own destination.
    ensures !c.unlocked ==> d.dest == c && d.index == index && d.item == null
    // 254 moves up, if there is a container above.
    ensures c.unlocked && index == 254 && h[c].parent != null ==>
              d.dest == h[c].parent && d.index == -1 && d.item == null
    ensures c.unlocked && index == 254 && h[c].parent == null ==> d.dest == c && d.index == -1 && d.item == null
    // A container at the index is the destination itself.
    ensures c.unlocked && 0 <= index < |h[c].contents| && index != 254 && index != 255
            && (index < c.maxSize || c.pagination) && h[c].contents[index].isContainer ==>
              d.dest == h[c].contents[index] && d.index == -1 && d.item == null
    // 255, no index, and one behind the capacity of one page mean a stack with room, or none.
    ensures c.unlocked && index != 254 && (index == 255 || index == -1 || (index >= c.maxSize && !c.pagination)) ==>
              d.dest == c && (d.item == null ==> d.index == -1)
              && (d.item != null ==> t(h[item].id).stackable && !flags.ignoreAutoStack && h[item].parent != c
                                       && IsFirstToJoin(h, c, item, d.index) && d.item == h[c].contents[d.index])
    // Any other index is kept, unless the item is to join the first stack with room.
    ensures c.unlocked && index >= 0 && index != 254 && index != 255 && (index < c.maxSize || c.pagination)
            && (index < |h[c].contents| ==> !h[c].contents[index].isContainer) ==>
              d.dest == c
              && (d.index != index ==> IsFirstToJoin(h, c, item, d.index) && d.item == h[c].contents[d.index])
              && (d.index == index ==> d.item == if index < |h[c].contents| then h[c].contents[index] else null)
    // Where there is a stack to join, it is joined.
    ensures c.unlocked && d.dest == c && index != 254 && t(h[item].id).stackable && !flags.ignoreAutoStack
            && h[item].parent != c ==>
              forall k :: IsFirstToJoin(h, c, item, k) ==> d.index == k && d.item == h[c].contents[k]
  {
    var contents := h[c].contents;
    assert LinkedAt(h, c) && forall k :: 0 <= k < |contents| ==> contents[k] in h[c].contents;
    assert forall x :: MayJoin(h, x, item) <==> x != item && x in h && RoomAt(h, x, item) > 0;
    assert forall k :: IsFirstToJoin(h, c, item, k) ==> k == FirstStack(h, contents, item);
  }

  method QueryDestination(t: ItemTable, c: Item, index: int, item: Item, flags: Flags, ghost h: Forest)
    returns (dest: Item, newIndex: int, destItem: Item?)
    requires c in h && item in h && Mirrors(h) && Shaped(h) && index >= WHEREEVER
    ensures Target(dest, newIndex, destItem) == Destination(t, h, c, index, item, flags)
    // A locked container is its own destination.
    ensures !c.unlocked ==> dest == c && newIndex == index && destItem == null
    // 254 moves up, if there is a container above.
    ensures c.unlocked && index == 254 && h[c].parent != null ==>
              dest == h[c].parent && newIndex == -1 && destItem == null
    ensures c.unlocked && index == 254 && h[c].parent == null ==> dest == c && newIndex == -1 && destItem == null
    // A container at the index is the destination itself.
    ensures c.unlocked && 0 <= index < |h[c].contents| && index != 254 && index != 255
            && (index < c.maxSize || c.pagination) && h[c].contents[index].isContainer ==>
              dest == h[c].contents[index] && newIndex == -1 && destItem == null
    // 255, no index, and one behind the capacity of one page mean a stack with room, or none.
    ensures c.unlocked && index != 254 && (index == 255 || index == -1 || (index >= c.maxSize && !c.pagination)) ==>
              dest == c && (destItem == null ==> newIndex == -1)
              && (destItem != null ==> t(h[item].id).stackable && !flags.ignoreAutoStack && h[item].parent != c
                                       && IsFirstToJoin(h, c, item, newIndex) && destItem == h[c].contents[newIndex])
    // Any other index is kept, unless the item is to join the first stack with room.
    ensures c.unlocked && index >= 0 && index != 254 && index != 255 && (index < c.maxSize || c.pagination)
            && (index < |h[c].contents| ==> !h[c].contents[index].isContainer) ==>
              dest == c
              && (newIndex != index ==> IsFirstToJoin(h, c, item, newIndex) && destItem == h[c].contents[newIndex])
              && (newIndex == index ==> destItem == if index < |h[c].contents| then h[c].contents[index] else null)
    // Where there is a stack to join, it is joined.
    ensures c.unlocked && dest == c && index != 254 && t(h[item].id).stackable && !flags.ignoreAutoStack
            && h[item].parent != c ==>
              forall k :: IsFirstToJoin(h, c, item, k) ==> newIndex == k && destItem == h[c].contents[k]
  {
    DestinationIs(t, h, c, index, item, flags, Destination(t, h, c, index, item, flags));
    newIndex := index;
    destItem := null;
    assert LinkedAt(h, c);
    if !c.unlocked {
      return c, newIndex, destItem;
    }
    if index == MOVE_UP {
      if c.parent != null {
        return c.parent, WHEREEVER, null;
      }
      return c, WHEREEVER, null;
    }
    if index == ADD_WHEREVER {
      newIndex := WHEREEVER;
    } else if index >= c.maxSize && !c.pagination {
      newIndex := WHEREEVER;
    }
    if newIndex != WHEREEVER {
      if newIndex < |c.itemlist| {
        destItem := c.itemlist[newIndex];
      }
      if destItem != null && destItem.isContainer {
        return destItem, WHEREEVER, null;
      }
    }
    if !flags.ignoreAutoStack && t(item.id).stackable && item.parent != c {
      var n, listItem := FindStack(t, c, item, h);
      if listItem != null {
        return c, n, listItem;
      }
    }
    return c, newIndex, destItem;
  }

  // ----- What operations leave alone -----------------------------------------------------

  // Ids, counts and parents after an operation, and the list of its container.
  lemma OperationFields(t: ItemTable, h: Forest, op: Operation, x: Item)
    requires Shaped(h) && Legal(t, h, op) && !op.Replace? && x in h
    ensures x in Apply(t, h, op)
    ensures var (g, hit) := (Apply(t, h, op), x == op.item);
            && g[x].id == (if hit && op.Update? then op.id else h[x].id)
            && g[x].count == (if hit && op.Update? then op.count else h[x].count)
            && g[x].parent == (if hit && op.Add? then op.c else if hit && op.Remove? then null else h[x].parent)
            && (x != op.c || op.Update? ==> g[x].contents == h[x].contents)
            && (op.Update? ==> g[x].depth == h[x].depth)
            && (x == op.c && op.Remove? ==> g[x].contents == Without(h[x].contents, op.i))
            && (x == op.c && op.Add? && !op.back ==> g[x].contents == [op.item] + h[x].contents)
  {
    match op
    case Add(c, item, back) => AddIs(t, h, c, item, back, x);
    case Update(c, item, id, count) => UpdateFields(t, h, op, x);
    case Remove(c, item, i) => RemoveIs(t, h, c, item, i, x);
  }

  lemma UpdateFields(t: ItemTable, h: Forest, op: Operation, x: Item)
    requires Shaped(h) && Legal(t, h, op) && op.Update? && x in h
    ensures x in Apply(t, h, op)
    ensures var g := Apply(t, h, op);
            && g[x].id == (if x == op.item then op.id else h[x].id)
                && g[x].count == (if x == op.item then op.count else h[x].count)
            && g[x].parent == h[x].parent && g[x].contents == h[x].contents && g[x].depth == h[x].depth
  {
    var g := Changed(h, op.item, op.id, op.count);
    PushUpCounts(g, op.c, Weight(t, g, op.item) - Weight(t, h, op.item), x, 0);
  }

  // A new loose item disturbs nothing.
  ghost function WithLoose(h: Forest, x: Item, id: int, count: nat): Forest {
    h[x := Cell(id, count, null, [], 0, 0)]
  }

  lemma LooseKeepsShape(h: Forest, x: Item, id: int, count: nat)
    requires Shaped(h) && x !in h
    ensures Shaped(WithLoose(h, x, id, count))
  {
    var g := WithLoose(h, x, id, count);
    forall y | y in g
      ensures LinkedAt(g, y)
    {
      if y != x {
        assert LinkedAt(h, y);
      }
    }
  }

  lemma LooseKeepsValid(t: ItemTable, h: Forest, x: Item, id: int, count: nat)
    requires Valid(t, h) && x !in h
    ensures Valid(t, WithLoose(h, x, id, count))
  {
    var g := WithLoose(h, x, id, count);
    LooseKeepsShape(h, x, id, count);
    forall y | y in g
      ensures BalancedAt(t, g, y)
    {
      assert LinkedAt(g, y);
      if y != x {
        assert LinkedAt(h, y) && BalancedAt(t, h, y);
        SumUnchanged(t, h, g, h[y].contents);
      }
    }
  }

  lemma LooseCounts(h: Forest, x: Item, id: int, count: nat, y: Item, k: int)
    requires Shaped(h) && x !in h && y in h
    ensures CountOf(WithLoose(h, x, id, count), y, k) == CountOf(h, y, k)
  {
    assert LinkedAt(h, y);
    CountInSame(h, WithLoose(h, x, id, count), h[y].contents, k);
  }

  // A loose item holding nothing fits anywhere.
  lemma LooseFits(h: Forest, c: Item, x: Item)
    requires Shaped(h) && c in h && x in h && h[x].parent == null && h[x].contents == [] && c != x
    ensures Fits(h, c, x)
  {
    if Contains(h, x, c) {
      ContainsHasMembers(h, x, c);
    }
  }

  // Taking an item out leaves what it does not contain where it was.
  lemma {:induction false} FitsAfterRemoval(h: Forest, g: Forest, c: Item, item: Item)
    requires Shaped(h) && Acyclic(g) && g.Keys == h.Keys && c in h && Fits(h, c, item)
    requires forall y :: y in h && y != item ==> g[y].parent == h[y].parent
    ensures Fits(g, c, item)
    decreases h[c].depth
  {
    if h[c].parent != null {
      assert h[c].parent != item && !Contains(h, item, h[c].parent);
      FitsAfterRemoval(h, g, h[c].parent, item);
    }
  }

  // ----- Moving --------------------------------------------------------------------------

  // Of `id`, `left` left one container and `arrived` arrived in another; nothing else changed
  // its contents.
  ghost predicate Moved(h: Forest, g: Forest, from: Item, dest: Item, id: int, left: int, arrived: int) {
    forall y, k {:trigger CountOf(g, y, k)} :: y in h ==>
      CountOf(g, y, k) == CountOf(h, y, k) - (if y == from && k == id then left else 0)
          + (if y == dest && k == id then arrived else 0)
  }

  // An operation on one item, seen as a move.
  lemma OperationMoves(t: ItemTable, h: Forest, op: Operation, from: Item, dest: Item, id: int, left: int, arrived: int)
    requires Shaped(h) && Legal(t, h, op) && !op.Replace? && id == h[op.item].id
    requires op.Update? ==> op.id == id
    requires Gain(h, op, id) == (if op.c == from then -left else 0) + (if op.c == dest then arrived else 0)
    requires op.c == from || left == 0
    requires op.c == dest || arrived == 0
    ensures Moved(h, Apply(t, h, op), from, dest, id, left, arrived)
  {
    forall y, k | y in h
      ensures CountOf(Apply(t, h, op), y, k)
           == CountOf(h, y, k) - (if y == from && k == id then left else 0)
               + (if y == dest && k == id then arrived else 0)
    {
      OperationCounts(t, h, op, y, k);
    }
  }

  lemma MovesAddUp(h: Forest, g: Forest, f: Forest, from: Item, dest: Item, id: int, left: int, a: int, more: int,
                   b: int)
    requires h.Keys <= g.Keys && Moved(h, g, from, dest, id, left, a) && Moved(g, f, from, dest, id, more, b)
    ensures Moved(h, f, from, dest, id, left + more, a + b)
  {
    forall y, k | y in h
      ensures CountOf(f, y, k)
           == CountOf(h, y, k) - (if y == from && k == id then left + more else 0)
               + (if y == dest && k == id then a + b else 0)
    {
      assert CountOf(g, y, k)
          == CountOf(h, y, k) - (if y == from && k == id then left else 0) + (if y == dest && k == id then a else 0);
    }
  }

  lemma OperationStacks(t: ItemTable, h: Forest, op: Operation)
    requires Shaped(h) && Legal(t, h, op) && !op.Replace? && StacksOk(t, h)
    requires op.Add? && t(h[op.item].id).stackable ==> 1 <= h[op.item].count <= STACK
    requires op.Update? ==> op.id == h[op.item].id && (t(op.id).stackable ==> 1 <= op.count <= STACK)
    ensures StacksOk(t, Apply(t, h, op))
  {
    var g := Apply(t, h, op);
    forall x | x in g
      ensures StackOk(t, g, x)
    {
      OperationFields(t, h, op, x);
      assert StackOk(t, h, x);
    }
  }

  // Same parents, lists and ids; `g` may have more, loose, items.
  ghost predicate SameShape(h: Forest, g: Forest) {
    h.Keys <= g.Keys && forall x {:trigger g[x]} :: x in h ==>
      g[x].parent == h[x].parent && g[x].contents == h[x].contents && g[x].depth == h[x].depth && g[x].id == h[x].id
  }

  // What every step of a move keeps.
  ghost predicate Good(t: ItemTable, h: Forest) {
    Valid(t, h) && StacksOk(t, h) && SaneTable(t, h)
  }

  lemma OperationKeepsGood(t: ItemTable, h: Forest, op: Operation)
    requires Good(t, h) && Legal(t, h, op) && !op.Replace?
    requires op.Add? && t(h[op.item].id).stackable ==> 1 <= h[op.item].count <= STACK
    requires op.Update? ==> op.id == h[op.item].id && (t(op.id).stackable ==> 1 <= op.count <= STACK)
    ensures Good(t, Apply(t, h, op))
  {
    OperationKeepsValid(t, h, op);
    OperationStacks(t, h, op);
    var g := Apply(t, h, op);
    forall x | x in g && x.isContainer
      ensures !t(g[x].id).stackable
    {
      OperationFields(t, h, op, x);
      assert !t(h[x].id).stackable;
    }
  }

  // What is left when part of a stack, or a whole item, has left its container.
  ghost predicate Withdrawn(t: ItemTable, h: Forest, g: Forest, from: Item, item: Item, m: nat)
    requires from in h && item in h && g.Keys == h.Keys
  {
    && Moved(h, g, from, from, h[item].id, if t(h[item].id).stackable then m else h[item].count, 0)
    && (forall x {:trigger g[x]} :: x in h ==>
          && g[x].id == h[x].id && (x != item ==> g[x].count == h[x].count && g[x].parent == h[x].parent)
          && (x != from ==> g[x].contents == h[x].contents))
    && (forall x :: x in h[from].contents && x != item ==> x in g[from].contents)
    && |g[from].contents| <= |h[from].contents|
    && (!t(h[item].id).stackable ==> g[item].parent == null && g[item].count == h[item].count)
  }

  lemma RemovalWithdraws(t: ItemTable, h: Forest, from: Item, item: Item, i: nat, m: nat)
    requires Good(t, h) && from in h && from.isContainer && item in h && item != from
    requires i < |h[from].contents| && h[from].contents[i] == item
    requires t(h[item].id).stackable ==> 1 <= m <= h[item].count
    ensures Legal(t, h, Removal(t, h, from, item, i, m))
    ensures var g := Apply(t, h, Removal(t, h, from, item, i, m));
            Good(t, g) && g.Keys == h.Keys && Withdrawn(t, h, g, from, item, m)
  {
    var op := Removal(t, h, from, item, i, m);
    assert LinkedAt(h, from) && StackOk(t, h, item);
    var g := Apply(t, h, op);
    OperationKeepsGood(t, h, op);
    OperationMoves(t, h, op, from, from, h[item].id, if t(h[item].id).stackable then m else h[item].count, 0);
    WithoutMembers(h[from].contents, i);
    forall x | x in h
      ensures g[x].id == h[x].id && (x != item ==> g[x].count == h[x].count && g[x].parent == h[x].parent)
      ensures x != from ==> g[x].contents == h[x].contents
    {
      OperationFields(t, h, op, x);
    }
    OperationFields(t, h, op, from);
    OperationFields(t, h, op, item);
  }

  method Withdraw(t: ItemTable, from: Item, item: Item, m: nat, ghost h: Forest) returns (ghost g: Forest)
    requires Mirrors(h) && Good(t, h) && from in h && from.isContainer && item in h && item in h[from].contents
    requires t(h[item].id).stackable ==> 1 <= m <= h[item].count
    modifies h.Keys
    ensures g.Keys == h.Keys && Mirrors(g) && Good(t, g) && Withdrawn(t, h, g, from, item, m)
  {
    ghost var i := from.RemoveThing(t, item, m, h);
    RemovalWithdraws(t, h, from, item, i, m);
    g := Apply(t, h, Removal(t, h, from, item, i, m));
  }

  // n more on a stack.
  method Merge(t: ItemTable, dest: Item, toItem: Item, n: nat, ghost h: Forest) returns (ghost g: Forest)
    requires Mirrors(h) && Good(t, h) && dest in h && dest.isContainer && toItem in h && toItem in h[dest].contents
    requires t(h[toItem].id).stackable && h[toItem].count + n <= STACK
    modifies h.Keys
    ensures g.Keys == h.Keys && Mirrors(g) && Good(t, g)
    ensures Moved(h, g, dest, dest, h[toItem].id, 0, n)
    ensures SameShape(h, g) && g[toItem].count == h[toItem].count + n
    ensures forall x :: x in h && x != toItem ==> g[x].count == h[x].count
  {
    var total := toItem.count + n;
    assert LinkedAt(h, dest) && StackOk(t, h, toItem);
    dest.UpdateThing(t, toItem, toItem.id, total, h);
    ghost var op := Update(dest, toItem, h[toItem].id, total);
    assert SubTypeCount(t, h[toItem].id, h[toItem].count, total) == total;
    g := Apply(t, h, op);
    OperationKeepsGood(t, h, op);
    OperationMoves(t, h, op, dest, dest, h[toItem].id, 0, n);
    forall x | x in h
      ensures g[x].contents == h[x].contents && g[x].parent == h[x].parent && g[x].id == h[x].id
              && g[x].depth == h[x].depth
      ensures x != toItem ==> g[x].count == h[x].count
    {
      OperationFields(t, h, op, x);
    }
    OperationFields(t, h, op, toItem);
  }

  // A loose item enters a container; at an index beyond the capacity it is lost.
  method Deposit(t: ItemTable, dest: Item, index: int, item: Item, ghost h: Forest) returns (ghost g: Forest)
    requires Mirrors(h) && Good(t, h) && dest in h && dest.isContainer && item in h
    requires h[item].parent == null && Fits(h, dest, item)
    requires t(h[item].id).stackable ==> 1 <= h[item].count <= STACK
    modifies h.Keys
    ensures g.Keys == h.Keys && Mirrors(g) && Good(t, g)
    ensures Moved(h, g, dest, dest, h[item].id, 0, if index < dest.maxSize then h[item].count else 0)
    ensures |g[dest].contents| == |h[dest].contents| + if index < dest.maxSize then 1 else 0
    ensures g[item].parent == if index < dest.maxSize then dest else null
    ensures forall x :: x in h ==> g[x].count == h[x].count && g[x].id == h[x].id
  {
    dest.AddThing(t, index, item, h);
    ghost var op := Add(dest, item, false);
    if index < dest.maxSize {
      g := Apply(t, h, op);
      OperationKeepsGood(t, h, op);
      OperationMoves(t, h, op, dest, dest, h[item].id, 0, h[item].count);
      forall x | x in h
        ensures g[x].count == h[x].count && g[x].id == h[x].id
      {
        OperationFields(t, h, op, x);
      }
      OperationFields(t, h, op, dest);
      OperationFields(t, h, op, item);
    } else {
      g := h;
    }
  }

  lemma NothingArrives(h: Forest, g: Forest, from: Item, dest: Item, id: int, left: int)
    requires Moved(h, g, from, from, id, left, 0)
    ensures Moved(h, g, from, dest, id, left, 0)
  {
    forall y, k | y in h
      ensures CountOf(g, y, k) == CountOf(h, y, k) - if y == from && k == id then left else 0
    {
      assert CountOf(g, y, k)
          == CountOf(h, y, k) - (if y == from && k == id then left else 0) + (if y == from && k == id then 0 else 0);
    }
  }

  lemma NothingLeaves(h: Forest, g: Forest, from: Item, dest: Item, id: int, arrived: int)
    requires Moved(h, g, dest, dest, id, 0, arrived)
    ensures Moved(h, g, from, dest, id, 0, arrived)
  {
    forall y, k | y in h
      ensures CountOf(g, y, k) == CountOf(h, y, k) + if y == dest && k == id then arrived else 0
    {
      assert CountOf(g, y, k)
          == CountOf(h, y, k) - (if y == dest && k == id then 0 else 0) + (if y == dest && k == id then arrived else 0);
    }
  }

  // The target of a move, and the flags that hold there.
  datatype Route = Route(target: Target, flags: Flags)

  // A container found at the index, or the parent, is asked once more, without flags.
  ghost function RouteOf(t: ItemTable, h: Forest, to: Item, index: int, item: Item, flags: Flags): Route
    requires Shaped(h) && to in h && item in h
  {
    var d := Destination(t, h, to, index, item, flags);
    if d.dest == to then Route(d, flags)
    else Route(Destination(t, h, d.dest, d.index, item, NO_FLAGS), NO_FLAGS)
  }

  lemma RouteIsTarget(t: ItemTable, h: Forest, to: Item, index: int, item: Item, flags: Flags)
    requires Shaped(h) && to in h && item in h && to.isContainer && index >= WHEREEVER
    ensures var d := RouteOf(t, h, to, index, item, flags).target;
            && IsTarget(h, d.dest, d.item) && d.index >= WHEREEVER
            && (d.dest.unlocked && 0 <= d.index < |h[d.dest].contents| ==> d.item == h[d.dest].contents[d.index])
            && d.dest == Destination(t, h, to, index, item, flags).dest
  {
    DestinationIsTarget(t, h, to, index, item, flags);
    var d := Destination(t, h, to, index, item, flags);
    if d.dest != to {
      DestinationIsTarget(t, h, d.dest, d.index, item, NO_FLAGS);
      WhereeverDestination(t, h, d.dest, item, NO_FLAGS);
    }
  }

  // The loop over sub-containers: the second answer is the last.
  method FindDestination(t: ItemTable, to: Item, index: int, item: Item, flags: Flags, ghost h: Forest)
    returns (dest: Item, newIndex: int, toItem: Item?, newFlags: Flags)
    requires to in h && item in h && Mirrors(h) && Shaped(h) && to.isContainer && index >= WHEREEVER
    ensures Route(Target(dest, newIndex, toItem), newFlags) == RouteOf(t, h, to, index, item, flags)
  {
    var floorN := 0;
    dest, newIndex, newFlags := to, index, flags;
    var subCylinder;
    subCylinder, newIndex, toItem := QueryDestination(t, dest, newIndex, item, newFlags, h);
    DestinationIsTarget(t, h, to, index, item, flags);
    while subCylinder != dest
      invariant floorN == 0 ==>
                  && dest == to && newFlags == flags && subCylinder in h && newIndex >= WHEREEVER
                  && Target(subCylinder, newIndex, toItem) == Destination(t, h, to, index, item, flags)
      invariant floorN != 0 ==>
                  && subCylinder == dest
                  && Route(Target(subCylinder, newIndex, toItem), newFlags) == RouteOf(t, h, to, index, item, flags)
      decreases MAP_MAX_LAYERS - floorN
    {
      dest := subCylinder;
      newFlags := NO_FLAGS;
      floorN := floorN + 1;
      if floorN >= MAP_MAX_LAYERS {
        break;
      }
      WhereeverDestination(t, h, dest, item, newFlags);
      subCylinder, newIndex, toItem := QueryDestination(t, dest, newIndex, item, newFlags, h);
    }
  }

  // What of m fits on the stack the destination pointed at.
  ghost function Joining(h: Forest, item: Item, toItem: Item?, m: nat): nat {
    if toItem == null || !SameKind(h, item, toItem) || h[toItem].count >= STACK then 0
    else if STACK - h[toItem].count < m then STACK - h[toItem].count else m
  }

  method MergeInto(t: ItemTable, ghost from: Item, dest: Item, item: Item, toItem: Item?, m: nat, ghost h: Forest)
    returns (n: nat, ghost g: Forest)
    requires Mirrors(h) && Good(t, h) && IsTarget(h, dest, toItem) && item in h && t(h[item].id).stackable
    modifies h.Keys
    ensures g.Keys == h.Keys && Mirrors(g) && Good(t, g)
    ensures n == Joining(h, item, toItem, m) <= m && Moved(h, g, from, dest, h[item].id, 0, n)
    ensures g[dest].contents == h[dest].contents && g[item].id == h[item].id
    ensures toItem != null ==> g[toItem].count == h[toItem].count + n
  {
    n, g := 0, h;
    assert LinkedAt(h, dest);
    if toItem != null {
      assert StackOk(t, h, toItem);
      var same := Equals(item, toItem, h);
      if same {
        n := if STACK - toItem.count < m then STACK - toItem.count else m;
        g := Merge(t, dest, toItem, n, h);
        NothingLeaves(h, g, from, dest, h[item].id, n);
      }
    }
  }

  // A copy of the stack with another count enters the destination.
  method DepositClone(t: ItemTable, ghost from: Item, dest: Item, index: int, item: Item, newCount: nat,
                      ghost h: Forest)
    returns (clone: Item, ghost g: Forest)
    requires Mirrors(h) && Good(t, h) && dest in h && dest.isContainer && item in h && 1 <= newCount <= STACK
    modifies h.Keys
    ensures h.Keys <= g.Keys && fresh(g.Keys - h.Keys) && Mirrors(g) && Good(t, g)
    ensures Moved(h, g, from, dest, h[item].id, 0, if index < dest.maxSize then newCount else 0)
    ensures |g[dest].contents| == |h[dest].contents| + if index < dest.maxSize then 1 else 0
    ensures forall x :: x in h ==> g[x].count == h[x].count
  {
    clone := new Item(item.id, newCount, item.attributes);
    ghost var f := WithLoose(h, clone, h[item].id, newCount);
    AddLoose(t, h, clone, h[item].id, newCount, from, dest);
    LooseFits(f, dest, clone);
    g := Deposit(t, dest, index, clone, f);
    NothingLeaves(f, g, from, dest, h[item].id, if index < dest.maxSize then newCount else 0);
    MovesAddUp(h, f, g, from, dest, h[item].id, 0, 0, 0, if index < dest.maxSize then newCount else 0);
  }

  // The stackable case once everything has been asked: m leave, n of them join `toItem`, the
  // rest arrives as a new stack.
  method MoveStack(t: ItemTable, from: Item, dest: Item, index: int, item: Item, toItem: Item?, m: nat, ghost h: Forest)
    returns (moveItem: Item?, ghost g: Forest, ghost arrived: nat)
    requires Mirrors(h) && Good(t, h) && from in h && from.isContainer && item in h && item in h[from].contents
    requires IsTarget(h, dest, toItem) && toItem != item && t(h[item].id).stackable && 1 <= m <= h[item].count
    modifies h.Keys
    ensures h.Keys <= g.Keys && fresh(g.Keys - h.Keys) && Mirrors(g) && Good(t, g)
    ensures Moved(h, g, from, dest, h[item].id, m, arrived)
    ensures arrived == if index < dest.maxSize then m else Joining(h, item, toItem, m)
    ensures |g[dest].contents|
         <= |h[dest].contents| + if Joining(h, item, toItem, m) < m && index < dest.maxSize then 1 else 0
    ensures moveItem == null <==> Joining(h, item, toItem, m) == m
    ensures toItem != null ==> g[toItem].count == h[toItem].count + Joining(h, item, toItem, m)
  {
    assert LinkedAt(h, from) && LinkedAt(h, dest) && StackOk(t, h, item);
    ghost var g1 := Withdraw(t, from, item, m, h);
    JoiningSame(h, g1, item, toItem, m);
    NothingArrives(h, g1, from, dest, h[item].id, m);
    moveItem, g, arrived := JoinAndDeposit(t, from, dest, index, item, toItem, m, g1);
    MovesAddUp(h, g1, g, from, dest, h[item].id, m, 0, 0, arrived);
  }

  // What has left joins `toItem` as far as it fits; the rest is a new stack.
  method JoinAndDeposit(t: ItemTable, ghost from: Item, dest: Item, index: int, item: Item, toItem: Item?, m: nat,
                        ghost h: Forest)
    returns (moveItem: Item?, ghost g: Forest, ghost arrived: nat)
    requires Mirrors(h) && Good(t, h) && item in h && IsTarget(h, dest, toItem) && t(h[item].id).stackable && m <= STACK
    modifies h.Keys
    ensures h.Keys <= g.Keys && fresh(g.Keys - h.Keys) && Mirrors(g) && Good(t, g)
    ensures Moved(h, g, from, dest, h[item].id, 0, arrived)
    ensures arrived == if index < dest.maxSize then m else Joining(h, item, toItem, m)
    ensures |g[dest].contents|
         == |h[dest].contents| + if Joining(h, item, toItem, m) < m && index < dest.maxSize then 1 else 0
    ensures moveItem == null <==> Joining(h, item, toItem, m) == m
    ensures toItem != null ==> g[toItem].count == h[toItem].count + Joining(h, item, toItem, m)
  {
    var n;
    ghost var g1;
    n, g1 := MergeInto(t, from, dest, item, toItem, m, h);
    moveItem, g := DepositRest(t, from, dest, index, item, m - n, g1);
    arrived := if index < dest.maxSize then m else n;
    MovesAddUp(h, g1, g, from, dest, h[item].id, 0, n, 0, arrived - n);
  }

  // What did not join a stack.
  method DepositRest(t: ItemTable, ghost from: Item, dest: Item, index: int, item: Item, newCount: nat, ghost h: Forest)
    returns (moveItem: Item?, ghost g: Forest)
    requires Mirrors(h) && Good(t, h) && dest in h && dest.isContainer && item in h && newCount <= STACK
    modifies h.Keys
    ensures h.Keys <= g.Keys && fresh(g.Keys - h.Keys) && Mirrors(g) && Good(t, g)
    ensures Moved(h, g, from, dest, h[item].id, 0, if index < dest.maxSize then newCount else 0)
    ensures |g[dest].contents| == |h[dest].contents| + if newCount > 0 && index < dest.maxSize then 1 else 0
    ensures moveItem == null <==> newCount == 0
    ensures forall x :: x in h ==> g[x].count == h[x].count
  {
    moveItem, g := null, h;
    if newCount > 0 {
      moveItem, g := DepositClone(t, from, dest, index, item, newCount, h);
    } else {
      NothingMoved(h, from, dest, h[item].id);
    }
  }

  lemma JoiningSame(h: Forest, g: Forest, item: Item, toItem: Item?, m: nat)
    requires g.Keys == h.Keys && item in h && g[item].id == h[item].id
    requires toItem != null && toItem in h ==> g[toItem].id == h[toItem].id && g[toItem].count == h[toItem].count
    ensures Joining(g, item, toItem, m) == Joining(h, item, toItem, m)
  {
  }

  lemma AddLoose(t: ItemTable, h: Forest, x: Item, id: int, count: nat, from: Item, dest: Item)
    requires Good(t, h) && x !in h && !x.isContainer
    ensures Good(t, WithLoose(h, x, id, count))
    ensures Moved(h, WithLoose(h, x, id, count), from, dest, id, 0, 0)
  {
    var g := WithLoose(h, x, id, count);
    LooseKeepsValid(t, h, x, id, count);
    forall y | y in g
      ensures StackOk(t, g, y)
    {
      assert y != x ==> StackOk(t, h, y);
    }
    forall y | y in g && y.isContainer
      ensures !t(g[y].id).stackable
    {
      assert !t(h[y].id).stackable;
    }
    forall y, k | y in h
      ensures CountOf(g, y, k) == CountOf(h, y, k)
    {
      LooseCounts(h, x, id, count, y, k);
    }
  }

  // The other case: the whole item leaves, and arrives.
  method MoveWhole(t: ItemTable, from: Item, dest: Item, index: int, item: Item, m: nat, ghost h: Forest)
    returns (ghost g: Forest, ghost arrived: nat)
    requires Mirrors(h) && Good(t, h) && from in h && from.isContainer && item in h && item in h[from].contents
    requires dest in h && dest.isContainer && Fits(h, dest, item) && !t(h[item].id).stackable
    modifies h.Keys
    ensures g.Keys == h.Keys && Mirrors(g) && Good(t, g)
    ensures Moved(h, g, from, dest, h[item].id, h[item].count, arrived)
    ensures arrived == if index < dest.maxSize then h[item].count else 0
    ensures g[item].parent == if index < dest.maxSize then dest else null
    ensures |g[dest].contents| <= |h[dest].contents| + 1
  {
    assert LinkedAt(h, from) && LinkedAt(h, dest);
    ghost var g1 := Withdraw(t, from, item, m, h);
    NothingArrives(h, g1, from, dest, h[item].id, h[item].count);
    FitsAfterRemoval(h, g1, dest, item);
    g := Deposit(t, dest, index, item, g1);
    arrived := if index < dest.maxSize then h[item].count else 0;
    NothingLeaves(g1, g, from, dest, h[item].id, arrived);
    MovesAddUp(h, g1, g, from, dest, h[item].id, h[item].count, 0, 0, arrived);
  }

  // How much of a stack moves: 255 stands for the whole stack.
  function StackMove(count: nat, maxQueryCount: nat, itemCount: nat): nat {
    var m := if count < maxQueryCount then count else maxQueryCount;
    if m == 255 then itemCount else m
  }

  // The arguments of a move.
  datatype Request = Request(from: Item, to: Item, index: int, item: Item, count: nat, flags: Flags, limits: Limits,
                             tradeItem: Item?)

  ghost predicate Asks(h: Forest, q: Request) {
    && q.from in h && q.from.isContainer && q.to in h && q.to.isContainer && q.item in h
    && q.index >= WHEREEVER && !q.flags.childIsOwner
  }

  ghost function Way(t: ItemTable, h: Forest, q: Request): Route
    requires Shaped(h) && Asks(h, q)
  {
    RouteOf(t, h, q.to, q.index, q.item, q.flags)
  }

  ghost function MaxToMove(t: ItemTable, h: Forest, q: Request): nat
    requires Shaped(h) && Asks(h, q)
  {
    var r := Way(t, h, q);
    MaxCount(t, h, r.target.dest, r.target.index, q.item, q.count, r.flags, q.limits)
  }

  ghost function ToMove(t: ItemTable, h: Forest, q: Request): nat
    requires Shaped(h) && Asks(h, q)
  {
    var most := MaxToMove(t, h, q);
    if t(h[q.item].id).stackable then StackMove(q.count, most, h[q.item].count) else most
  }

  // The destination is, or lies in, what is being traded away.
  ghost predicate InTradeItem(h: Forest, dest: Item, tradeItem: Item?)
    requires Shaped(h) && dest in h
  {
    tradeItem != null && (dest == tradeItem || Contains(h, tradeItem, dest))
  }

  // Everyone asked agrees: something moves.
  ghost predicate Goes(t: ItemTable, h: Forest, q: Request)
    requires Shaped(h) && Asks(h, q)
  {
    var r := Way(t, h, q);
    && r.target.item != q.item
    && Takes(t, h, r.target.dest, r.target.index, q.item, r.flags, q.limits)
    && Releases(t, h, q.from, q.item, ToMove(t, h, q), r.flags)
    && !InTradeItem(h, r.target.dest, q.tradeItem)
  }

  // What leaves the source, and what of it arrives.
  ghost function Leaving(t: ItemTable, h: Forest, q: Request): nat
    requires Shaped(h) && Asks(h, q)
  {
    if !Goes(t, h, q) then 0 else if t(h[q.item].id).stackable then ToMove(t, h, q) else h[q.item].count
  }

  ghost function Arriving(t: ItemTable, h: Forest, q: Request): nat
    requires Shaped(h) && Asks(h, q)
  {
    var d := Way(t, h, q).target;
    if !Goes(t, h, q) then 0 else Received(t, h, d, q.item, ToMove(t, h, q))
  }

  // Behind its capacity a container receives only what joins a stack.
  ghost function Received(t: ItemTable, h: Forest, d: Target, item: Item, m: nat): nat
    requires item in h
  {
    if d.index < d.dest.maxSize then (if t(h[item].id).stackable then m else h[item].count)
    else if t(h[item].id).stackable then Joining(h, item, d.item, m) else 0
  }

  /** A move succeeds exactly when the item lies at its target already or everything asked for
      moves; and exactly what the questions say leaves the source and arrives. */
  method InternalMoveItem(t: ItemTable, from: Item, to: Item, index: int, item: Item, count: nat, flags: Flags,
                          limits: Limits, tradeItem: Item?, ghost h: Forest)
    returns (ret: ReturnValue, ghost g: Forest)
    requires Mirrors(h) && Good(t, h) && Asks(h, Request(from, to, index, item, count, flags, limits, tradeItem))
    modifies h.Keys
    ensures h.Keys <= g.Keys && fresh(g.Keys - h.Keys) && Mirrors(g) && Good(t, g)
    ensures var q := Request(from, to, index, item, count, flags, limits, tradeItem);
            var d := Way(t, h, q).target;
            && Moved(h, g, from, d.dest, h[item].id, Leaving(t, h, q), Arriving(t, h, q))
            && (ret == NOERROR <==>
                  d.item == item || (Goes(t, h, q) && (t(h[item].id).stackable ==> count <= MaxToMove(t, h, q))))
            && (Goes(t, h, q) && t(h[item].id).stackable && d.item != null && d.item in h ==>
                  g[d.item].count - h[d.item].count
                  == if h[d.item].id != h[item].id || d.item.attributes != item.attributes then 0
                     else if h[d.item].count + Leaving(t, h, q) > 100 then 100 - h[d.item].count
                     else Leaving(t, h, q))
            && (!Goes(t, h, q) ==> g == h)
            && (Goes(t, h, q) && !t(h[item].id).stackable ==>
                  g[item].parent == if d.index < d.dest.maxSize then d.dest else null)
            && (!flags.noLimit && !d.dest.pagination ==>
                  |g[d.dest].contents| <= |h[d.dest].contents| || |g[d.dest].contents| <= d.dest.maxSize)
    // 254 moves up, a container at the index is where the item goes, and otherwise it goes to `to`.
    ensures var d := Way(t, h, Request(from, to, index, item, count, flags, limits, tradeItem)).target;
            && (to.unlocked && index == 254 && h[to].parent != null ==> d.dest == h[to].parent)
            && (to.unlocked && 0 <= index < |h[to].contents| && index != 254 && index != 255
                && (index < to.maxSize || to.pagination) && h[to].contents[index].isContainer ==>
                  d.dest == h[to].contents[index])
            && (!to.unlocked || (index == 254 && h[to].parent == null) || index == 255 || index == -1
                || (index != 254 && index >= to.maxSize && !to.pagination)
                || (index != 254 && (|h[to].contents| <= index || !h[to].contents[index].isContainer)) ==>
                  d.dest == to)
  {
    ghost var q := Request(from, to, index, item, count, flags, limits, tradeItem);
    RouteIsTarget(t, h, to, index, item, flags);
    DestinationIs(t, h, to, index, item, flags, Destination(t, h, to, index, item, flags));
    g := h;
    var go, dest, newIndex, toItem, m;
    ret, go, dest, newIndex, toItem, m := PlanMove(t, from, to, index, item, count, flags, limits, tradeItem, h);
    NothingMoved(h, from, dest, h[item].id);
    if go {
      TargetStackOk(t, h, dest, toItem);
      FullTakesNoSlot(t, h, dest, newIndex, item, toItem, from, count, m, Way(t, h, q).flags, limits);
      g := CarryOut(t, from, dest, newIndex, item, toItem, m, h);
    }
  }

  lemma TargetStackOk(t: ItemTable, h: Forest, dest: Item, toItem: Item?)
    requires Good(t, h) && IsTarget(h, dest, toItem)
    ensures toItem != null && t(h[toItem].id).stackable ==> h[toItem].count <= STACK
  {
    if toItem != null {
      assert LinkedAt(h, dest) && StackOk(t, h, toItem);
    }
  }

  // The questions: where to, whether at all, and how much.
  method PlanMove(t: ItemTable, from: Item, to: Item, index: int, item: Item, count: nat, flags: Flags, limits: Limits,
                  tradeItem: Item?, ghost h: Forest)
    returns (ret: ReturnValue, go: bool, dest: Item, newIndex: int, toItem: Item?, m: nat)
    requires Mirrors(h) && Good(t, h) && Asks(h, Request(from, to, index, item, count, flags, limits, tradeItem))
    ensures var q := Request(from, to, index, item, count, flags, limits, tradeItem);
            && Way(t, h, q).target == Target(dest, newIndex, toItem)
            && (go <==> Goes(t, h, q)) && (go ==> m == ToMove(t, h, q))
            && (ret == NOERROR <==> toItem == item || (go && (t(h[item].id).stackable ==> count <= MaxToMove(t, h, q))))
  {
    go, m := false, 0;
    var used;
    dest, newIndex, toItem, used := FindDestination(t, to, index, item, flags, h);
    RouteIsTarget(t, h, to, index, item, flags);
    if item == toItem {
      ret := NOERROR;
      return;
    }
    ret := QueryAdd(t, dest, newIndex, item, used, limits, h);
    if ret != NOERROR {
      return;
    }
    var retMaxCount, maxQueryCount := QueryMaxCount(t, dest, newIndex, item, count, used, limits, h);
    if retMaxCount != NOERROR && maxQueryCount == 0 {
      ret := retMaxCount;
      return;
    }
    m := if t(item.id).stackable then StackMove(count, maxQueryCount, item.count) else maxQueryCount;
    ret := QueryRemove(t, from, item, m, used, h);
    if ret != NOERROR {
      return;
    }
    if tradeItem != null {
      var inTradeItem := IsOnTheWayUp(dest, tradeItem, h);
      if dest == tradeItem || inTradeItem {
        ret := NOTENOUGHROOM;
        return;
      }
    }
    go := true;
    if t(item.id).stackable && maxQueryCount < count {
      ret := retMaxCount;
    }
  }

  // All questions have been answered.
  method CarryOut(t: ItemTable, from: Item, dest: Item, index: int, item: Item, toItem: Item?, m: nat, ghost h: Forest)
    returns (ghost g: Forest)
    requires Mirrors(h) && Good(t, h) && from in h && from.isContainer && item in h && item in h[from].contents
    requires IsTarget(h, dest, toItem) && toItem != item && Fits(h, dest, item)
    requires t(h[item].id).stackable ==> 1 <= m <= h[item].count
    modifies h.Keys
    ensures h.Keys <= g.Keys && fresh(g.Keys - h.Keys) && Mirrors(g) && Good(t, g)
    ensures Moved(h, g, from, dest, h[item].id, if t(h[item].id).stackable then m else h[item].count,
                  Received(t, h, Target(dest, index, toItem), item, m))
    ensures t(h[item].id).stackable && toItem != null ==>
              g[toItem].count == h[toItem].count + Joining(h, item, toItem, m)
    ensures !t(h[item].id).stackable ==> g[item].parent == if index < dest.maxSize then dest else null
    ensures |g[dest].contents| <= |h[dest].contents| + if TakesSlot(t, h, item, toItem, m) then 1 else 0
  {
    if t(item.id).stackable {
      var moveItem;
      ghost var arrived;
      moveItem, g, arrived := MoveStack(t, from, dest, index, item, toItem, m, h);
    } else {
      ghost var arrived;
      g, arrived := MoveWhole(t, from, dest, index, item, m, h);
    }
  }

  ghost predicate TakesSlot(t: ItemTable, h: Forest, item: Item, toItem: Item?, m: nat)
    requires item in h
  {
    t(h[item].id).stackable ==> Joining(h, item, toItem, m) < m
  }

  lemma NothingMoved(h: Forest, from: Item, dest: Item, id: int)
    ensures Moved(h, h, from, dest, id, 0, 0)
  {
  }

  // A full container takes only what joins the stack it was pointed at.
  lemma FullTakesNoSlot(t: ItemTable, h: Forest, dest: Item, index: int, item: Item, toItem: Item?, from: Item,
                        count: nat, m: nat, flags: Flags, limits: Limits)
    requires Good(t, h) && dest in h && item in h && IsTarget(h, dest, toItem) && toItem != item
    requires Takes(t, h, dest, index, item, flags, limits) && index >= WHEREEVER
    requires 0 <= index < |h[dest].contents| ==> toItem == h[dest].contents[index]
    requires from in h && item in h[from].contents && m > 0
    requires m == (if t(h[item].id).stackable
                   then StackMove(count, MaxCount(t, h, dest, index, item, count, flags, limits), h[item].count)
                   else MaxCount(t, h, dest, index, item, count, flags, limits))
    ensures t(h[item].id).stackable ==> h[item].count <= STACK
    ensures !flags.noLimit && !dest.pagination && |h[dest].contents| >= dest.maxSize ==>
            !TakesSlot(t, h, item, toItem, m)
  {
    assert LinkedAt(h, from) && StackOk(t, h, item);
  }

  // ----- Adding --------------------------------------------------------------------------

  lemma {:induction false} CountSameShape(h: Forest, g: Forest, x: Item, f: Item -> bool)
    requires Shaped(h) && Shaped(g) && SameShape(h, g) && x in h
    ensures Count(g, x, f) == Count(h, x, f)
    decreases Bound(h) - h[x].depth + 1, 0
  {
    assert LinkedAt(h, x) && LinkedAt(g, x);
    CountBelowSameShape(h, g, x, h[x].contents, f);
  }

  lemma {:induction false} CountBelowSameShape(h: Forest, g: Forest, x: Item, ys: seq<Item>, f: Item -> bool)
    requires Shaped(h) && Shaped(g) && SameShape(h, g) && x in h
    requires forall y :: y in ys ==> y in h && h[y].parent == x
    ensures forall y :: y in ys ==> y in g && g[y].parent == x
    ensures CountBelow(g, x, ys, f) == CountBelow(h, x, ys, f)
    decreases Bound(h) - h[x].depth, |ys|
  {
    if ys != [] {
      CountSameShape(h, g, ys[0], f);
      CountBelowSameShape(h, g, x, ys[1..], f);
    }
  }

  lemma {:induction false} TopParentSameShape(h: Forest, g: Forest, c: Item)
    requires Shaped(h) && Shaped(g) && SameShape(h, g) && c in h
    ensures TopParent(g, c) == TopParent(h, c)
    decreases h[c].depth
  {
    var p := h[c].parent;
    if p != null && h[p].parent != null {
      TopParentSameShape(h, g, p);
    }
  }

  lemma {:induction false} InInboxSameShape(h: Forest, g: Forest, c: Item)
    requires Shaped(h) && Shaped(g) && SameShape(h, g) && c in h
    ensures InInbox(g, c) == InInbox(h, c)
    decreases h[c].depth
  {
    if h[c].parent != null {
      InInboxSameShape(h, g, h[c].parent);
    }
  }

  // A container that takes an item still takes a copy of it after stacks have changed.
  lemma StillTakes(t: ItemTable, h: Forest, g: Forest, c: Item, index: int, newIndex: int, item: Item, clone: Item,
                   flags: Flags, limits: Limits)
    requires Shaped(h) && Shaped(g) && SameShape(h, g) && c in h && item in h && clone in g && clone !in h
    requires Takes(t, h, c, index, item, flags, limits) && !item.isContainer && !clone.isContainer
    requires g[clone].id == h[item].id && g[clone].contents == [] && g[clone].parent == null
    requires newIndex != WHEREEVER || flags.noLimit || c.pagination || |h[c].contents| < c.maxSize
    ensures Takes(t, g, c, newIndex, clone, flags, limits)
  {
    TopParentIs(h, c);
    TopParentSameShape(h, g, c);
    InInboxSameShape(h, g, c);
    CountSameShape(h, g, TopParent(h, c), Any);
    LooseFits(g, c, clone);
  }

  // What joins one stack no longer fits the room on the stacks.
  lemma {:induction false} RoomShrinks(h: Forest, g: Forest, xs: seq<Item>, item: Item, clone: Item, toItem: Item,
                                       n: nat)
    requires SameShape(h, g) && item in h && clone in g && g[clone].id == h[item].id
             && clone.attributes == item.attributes
    requires Distinct(xs) && item !in xs && clone !in xs && forall x :: x in xs ==> x in h
    requires toItem in xs && SameKind(h, toItem, item) && h[toItem].count + n <= STACK
             && g[toItem].count == h[toItem].count + n
    requires forall x :: x in h && x != toItem ==> g[x].count == h[x].count
    ensures RoomOn(g, xs, clone) == RoomOn(h, xs, item) - n
  {
    if xs[0] == toItem {
      assert toItem !in xs[1..];
      RoomSame(h, g, xs[1..], item, clone, toItem);
    } else {
      RoomShrinks(h, g, xs[1..], item, clone, toItem, n);
    }
  }

  lemma {:induction false} RoomSame(h: Forest, g: Forest, xs: seq<Item>, item: Item, clone: Item, toItem: Item)
    requires SameShape(h, g) && item in h && clone in g && g[clone].id == h[item].id
             && clone.attributes == item.attributes
    requires item !in xs && clone !in xs && toItem !in xs && forall x :: x in xs ==> x in h
    requires forall x :: x in h && x != toItem ==> g[x].count == h[x].count
    ensures RoomOn(g, xs, clone) == RoomOn(h, xs, item)
  {
    if xs != [] {
      RoomSame(h, g, xs[1..], item, clone, toItem);
    }
  }

  // c has been asked, and has room for all of `item` on its stacks and free slots.
  ghost predicate CanTakeAll(t: ItemTable, h: Forest, c: Item, item: Item, flags: Flags, limits: Limits)
    requires Shaped(h) && c in h && item in h
  {
    && Takes(t, h, c, 0, item, flags, limits)
    && MaxCount(t, h, c, WHEREEVER, item, h[item].count, flags, limits) >= h[item].count
  }

  // After part of a stack has joined another one, there is still room for the rest.
  lemma StillCanTakeAll(t: ItemTable, h: Forest, g: Forest, c: Item, item: Item, toItem: Item, n: nat, clone: Item,
                        count: nat, flags: Flags, limits: Limits)
    requires Good(t, h) && g.Keys == h.Keys && SameShape(h, g)
    requires c in h && item in h && Shaped(WithLoose(g, clone, h[item].id, count)) && h[item].parent == null
             && t(h[item].id).stackable && !item.isContainer
    requires clone !in h && !clone.isContainer && clone.attributes == item.attributes
    requires toItem in h && toItem in h[c].contents && SameKind(h, item, toItem)
    requires g[toItem].count == h[toItem].count + n <= STACK
             && forall x :: x in h && x != toItem ==> g[x].count == h[x].count
    requires n + count == h[item].count && CanTakeAll(t, h, c, item, flags, limits)
    ensures CanTakeAll(t, WithLoose(g, clone, h[item].id, count), c, clone, flags, limits)
  {
    var f := WithLoose(g, clone, h[item].id, count);
    assert LinkedAt(h, c);
    assert item !in h[c].contents;
    StillTakes(t, h, f, c, 0, 0, item, clone, flags, limits);
    RoomShrinks(h, f, h[c].contents, item, clone, toItem, n);
  }

  // With room on no stack, there is a free slot.
  lemma TakesAtDestination(t: ItemTable, h: Forest, c: Item, item: Item, index: int, flags: Flags, limits: Limits)
    requires Shaped(h) && c in h && item in h && t(h[item].id).stackable && h[item].count >= 1
    requires CanTakeAll(t, h, c, item, flags, limits)
    requires index == WHEREEVER ==> RoomOn(h, h[c].contents, item) == 0
    ensures Takes(t, h, c, index, item, flags, limits)
  {
  }

  // ----- What adding leaves over -----------------------------------------------------------

  // Part of `item` at least joins the stack it is pointed at.
  ghost predicate Joins(t: ItemTable, h: Forest, d: Target, item: Item)
    requires item in h
  {
    t(h[item].id).stackable && d.item != null && RoomAt(h, d.item, item) > 0
  }

  ghost predicate NoSlotFree(h: Forest, c: Item, flags: Flags)
    requires c in h
  {
    !flags.noLimit && !c.pagination && |h[c].contents| >= c.maxSize
  }

  // What finds no place once the stack is full: stacks are ignored, and there is no free slot.
  ghost function Remainder(t: ItemTable, h: Forest, d: Target, item: Item, flags: Flags): nat
    requires item in h && d.dest in h
  {
    if Joins(t, h, d, item) && flags.ignoreAutoStack && NoSlotFree(h, d.dest, flags)
        && RoomAt(h, d.item, item) < h[item].count
    then h[item].count - RoomAt(h, d.item, item) else 0
  }

  // What addThing drops behind the capacity.
  ghost function Dropped(t: ItemTable, h: Forest, d: Target, item: Item): nat
    requires item in h
  {
    if d.index >= d.dest.maxSize && !Joins(t, h, d, item) then h[item].count else 0
  }

  ghost function Gained(t: ItemTable, h: Forest, d: Target, item: Item, flags: Flags): nat
    requires item in h && d.dest in h
  {
    h[item].count - Dropped(t, h, d, item) - Remainder(t, h, d, item, flags)
  }

  // Without an index nothing is dropped or left over, and a container with room for all takes
  // it unless it ignores its stacks and has no free slot.
  lemma WhereeverAdds(t: ItemTable, h: Forest, c: Item, item: Item, flags: Flags, limits: Limits)
    requires Shaped(h) && c in h && item in h && h[item].parent == null
    ensures var d := Destination(t, h, c, WHEREEVER, item, flags);
            && d.dest == c && Dropped(t, h, d, item) == 0 && Remainder(t, h, d, item, flags) == 0
            && (t(h[item].id).stackable && h[item].count >= 1 && CanTakeAll(t, h, c, item, flags, limits) ==>
                  HasRoom(t, h, c, item, flags, limits)
                  && (Takes(t, h, c, d.index, item, flags, limits) <==>
                      !(flags.ignoreAutoStack && NoSlotFree(h, c, flags))))
  {
    WhereeverDestination(t, h, c, item, flags);
    var d := Destination(t, h, c, WHEREEVER, item, flags);
    if t(h[item].id).stackable && h[item].count >= 1 && CanTakeAll(t, h, c, item, flags, limits)
        && !flags.ignoreAutoStack {
      TakesAtDestination(t, h, c, item, d.index, flags, limits);
    }
  }

  // ----- Adding, on the objects -------------------------------------------------------------

  // Full stacks are let alone.
  ghost predicate FullStay(h: Forest, g: Forest) {
    forall x :: x in h && h[x].count >= STACK ==> x in g && g[x].count == h[x].count
  }

  // As much as fits joins the stack; the rest is a smaller copy that is added in its turn.
  method AddToStack(t: ItemTable, c: Item, i: int, item: Item, toItem: Item, maxQueryCount: nat, flags: Flags,
                    limits: Limits, ghost h: Forest)
    returns (remainderCount: nat, ghost g: Forest)
    requires Mirrors(h) && Good(t, h) && c in h && c.isContainer && item in h && h[item].parent == null
    requires t(h[item].id).stackable && 1 <= h[item].count <= STACK && i >= 0 && !flags.childIsOwner
    requires IsTarget(h, c, toItem) && SameKind(h, item, toItem) && maxQueryCount >= h[item].count
    requires CanTakeAll(t, h, c, item, flags, limits)
    modifies h.Keys
    ensures h.Keys <= g.Keys && fresh(g.Keys - h.Keys) && Mirrors(g) && Good(t, g)
    ensures Moved(h, g, c, c, h[item].id, 0, Gained(t, h, Target(c, i, toItem), item, flags))
    ensures remainderCount == Remainder(t, h, Target(c, i, toItem), item, flags)
    ensures FullStay(h, g) && toItem in g
    ensures g[toItem].count == if h[toItem].count + h[item].count > 100 then 100 else h[toItem].count + h[item].count
    decreases h[item].count, 1
  {
    LooseStack(t, h, c, item);
    var m := if item.count < maxQueryCount then item.count else maxQueryCount;
    var n;
    ghost var g1;
    n, g1 := JoinFirst(t, c, item, toItem, m, h);
    ShareOfStack(t, h, c, i, item, toItem, flags, n);
    remainderCount, g := AddBehind(t, c, i, item, toItem, n, m - n, flags, limits, h, g1);
  }

  lemma LooseStack(t: ItemTable, h: Forest, c: Item, item: Item)
    requires Good(t, h) && c in h && c.isContainer && item in h && t(h[item].id).stackable
    ensures !item.isContainer && c != item && h[item].contents == []
  {
    assert LinkedAt(h, item);
  }

  // What becomes of the item when n of it have joined.
  lemma ShareOfStack(t: ItemTable, h: Forest, c: Item, i: int, item: Item, toItem: Item, flags: Flags, n: nat)
    requires Good(t, h) && item in h && t(h[item].id).stackable && 1 <= h[item].count && i >= 0
    requires IsTarget(h, c, toItem) && SameKind(h, item, toItem)
    requires n == if RoomAt(h, toItem, item) < h[item].count then RoomAt(h, toItem, item) else h[item].count
    ensures var d := Target(c, i, toItem);
            && Remainder(t, h, d, item, flags)
            == (if n > 0 && flags.ignoreAutoStack && NoSlotFree(h, c, flags) then h[item].count - n else 0)
            && Gained(t, h, d, item, flags)
            == if n == 0 && i >= c.maxSize then 0 else h[item].count - Remainder(t, h, d, item, flags)
  {
  }

  // As many of m as fit join `toItem`.
  method JoinFirst(t: ItemTable, c: Item, item: Item, toItem: Item, m: nat, ghost h: Forest)
    returns (n: nat, ghost g: Forest)
    requires Mirrors(h) && Good(t, h) && item in h && h[item].parent == null && t(h[item].id).stackable
    requires IsTarget(h, c, toItem) && SameKind(h, item, toItem)
    modifies h.Keys
    ensures g.Keys == h.Keys && Mirrors(g) && Good(t, g) && SameShape(h, g)
    ensures n == (if RoomAt(h, toItem, item) < m then RoomAt(h, toItem, item) else m)
    ensures toItem != item && g[toItem].count == h[toItem].count + n <= STACK
    ensures forall x :: x in h && x != toItem ==> g[x].count == h[x].count
    ensures Moved(h, g, c, c, h[item].id, 0, n)
  {
    assert LinkedAt(h, c) && StackOk(t, h, toItem);
    n := if STACK - toItem.count < m then STACK - toItem.count else m;
    g := Merge(t, c, toItem, n, h);
  }

  // What is left of `item` once n have joined `toItem`: nothing, all of it, or a smaller copy.
  method AddBehind(t: ItemTable, c: Item, i: int, item: Item, ghost toItem: Item, ghost n: nat, count: nat,
                   flags: Flags, limits: Limits, ghost h: Forest, ghost g1: Forest)
    returns (remainderCount: nat, ghost g: Forest)
    requires Good(t, h) && Mirrors(g1) && Good(t, g1) && g1.Keys == h.Keys && SameShape(h, g1)
    requires c in h && c.isContainer && item in h && h[item].parent == null && !item.isContainer && c != item
    requires h[item].contents == [] && t(h[item].id).stackable && 1 <= h[item].count <= STACK
    requires IsTarget(h, c, toItem) && SameKind(h, item, toItem) && toItem != item && !flags.childIsOwner
    requires g1[toItem].count == h[toItem].count + n <= STACK
    requires forall x :: x in h && x != toItem ==> g1[x].count == h[x].count
    requires n + count == h[item].count && Moved(h, g1, c, c, h[item].id, 0, n)
    requires count > 0 ==> g1[toItem].count == STACK
    requires CanTakeAll(t, h, c, item, flags, limits)
    modifies h.Keys
    ensures h.Keys <= g.Keys && fresh(g.Keys - h.Keys) && Mirrors(g) && Good(t, g)
    ensures FullStay(g1, g) && g[toItem].count == g1[toItem].count
    ensures remainderCount == if n > 0 && flags.ignoreAutoStack && NoSlotFree(h, c, flags) then count else 0
    ensures Moved(h, g, c, c, h[item].id, 0,
                  if n == 0 && i >= c.maxSize then 0 else h[item].count - remainderCount)
    decreases h[item].count, 0
  {
    ghost var more: nat := 0;
    remainderCount, g := 0, g1;
    if count == 0 {
      NothingMoved(g1, c, c, h[item].id);
    } else if item.count != count {
      remainderCount, g := AddRest(t, c, item, toItem, n, count, flags, limits, h, g1);
      more := count - remainderCount;
    } else {
      LooseFits(g1, c, item);
      g := Deposit(t, c, i, item, g1);
      more := if i < c.maxSize then count else 0;
    }
    MovesAddUp(h, g1, g, c, c, h[item].id, 0, n, 0, more);
  }

  // The smaller copy, once n have joined `toItem`.
  method AddRest(t: ItemTable, c: Item, item: Item, ghost toItem: Item, ghost n: nat, count: nat, flags: Flags,
                 limits: Limits, ghost h: Forest, ghost g1: Forest)
    returns (remainderCount: nat, ghost g: Forest)
    requires Good(t, h) && Mirrors(g1) && Good(t, g1) && g1.Keys == h.Keys && SameShape(h, g1)
    requires c in h && c.isContainer && item in h && h[item].parent == null && !item.isContainer
    requires t(h[item].id).stackable && 1 <= h[item].count <= STACK && !flags.childIsOwner
    requires IsTarget(h, c, toItem) && SameKind(h, item, toItem)
    requires g1[toItem].count == h[toItem].count + n <= STACK
    requires forall x :: x in h && x != toItem ==> g1[x].count == h[x].count
    requires n + count == h[item].count && 0 < count < h[item].count
    requires CanTakeAll(t, h, c, item, flags, limits)
    modifies g1.Keys
    ensures g1.Keys <= g.Keys && fresh(g.Keys - g1.Keys) && Mirrors(g) && Good(t, g)
    ensures FullStay(g1, g)
    ensures remainderCount == if flags.ignoreAutoStack && NoSlotFree(h, c, flags) then count else 0
    ensures Moved(g1, g, c, c, h[item].id, 0, count - remainderCount)
    decreases count, 3
  {
    ghost var id := h[item].id;
    var clone := new Item(item.id, count, item.attributes);
    ghost var g2 := WithLoose(g1, clone, id, count);
    AddLoose(t, g1, clone, id, count, c, c);
    StillCanTakeAll(t, h, g1, c, item, toItem, n, clone, count, flags, limits);
    WhereeverAdds(t, g2, c, clone, flags, limits);
    var r, unused;
    r, unused, g := InternalAddItem(t, c, WHEREEVER, clone, flags, limits, false, g2);
    remainderCount := if r != NOERROR then count else 0;
    MovesAddUp(g1, g2, g, c, c, id, 0, 0, 0, count - remainderCount);
  }

  // A container has room for all of a stack, or a slot for another item.
  ghost predicate HasRoom(t: ItemTable, h: Forest, c: Item, item: Item, flags: Flags, limits: Limits)
    requires Shaped(h) && c in h && item in h
  {
    var most := MaxCount(t, h, c, WHEREEVER, item, h[item].count, flags, limits);
    if t(h[item].id).stackable then most >= h[item].count else most > 0
  }

  // The questions before a plain add: where to, whether at all, and how much.
  method AskToAdd(t: ItemTable, c: Item, index: int, item: Item, flags: Flags, limits: Limits, ghost h: Forest)
    returns (ret: ReturnValue, target: Item, i: int, toItem: Item?, maxQueryCount: nat)
    requires Mirrors(h) && Good(t, h) && c in h && c.isContainer && item in h && h[item].parent == null
    requires index >= WHEREEVER && !flags.childIsOwner
    ensures Target(target, i, toItem) == Destination(t, h, c, index, item, flags) && IsTarget(h, target, toItem)
    ensures i >= WHEREEVER && (toItem != null ==> i >= 0 && target == c) && (target != c ==> i == WHEREEVER)
    ensures ret == NOERROR ==> maxQueryCount == MaxCount(t, h, c, WHEREEVER, item, h[item].count, flags, limits)
    ensures ret == NOERROR <==> Takes(t, h, target, i, item, flags, limits) && HasRoom(t, h, c, item, flags, limits)
  {
    maxQueryCount := 0;
    target, i, toItem := QueryDestination(t, c, index, item, flags, h);
    DestinationIsTarget(t, h, c, index, item, flags);
    ret := QueryAdd(t, target, i, item, flags, limits, h);
    if ret != NOERROR {
      return;
    }
    ret, maxQueryCount := QueryMaxCount(t, c, WHEREEVER, item, item.count, flags, limits, h);
  }

  // The add succeeds.
  ghost predicate Adds(t: ItemTable, h: Forest, c: Item, index: int, item: Item, flags: Flags, limits: Limits)
    requires Shaped(h) && c in h && item in h
  {
    var d := Destination(t, h, c, index, item, flags);
    Takes(t, h, d.dest, d.index, item, flags, limits) && HasRoom(t, h, c, item, flags, limits)
  }

  /** An add succeeds exactly when the destination takes the item and the container given has
      room for it; the destination then gains exactly the count of the item, less what is dropped
      behind the capacity and what is left over. */
  method InternalAddItem(t: ItemTable, c: Item, index: int, item: Item, flags: Flags, limits: Limits, test: bool,
                         ghost h: Forest)
    returns (ret: ReturnValue, remainderCount: nat, ghost g: Forest)
    requires Mirrors(h) && Good(t, h) && c in h && c.isContainer && item in h && h[item].parent == null
    requires t(h[item].id).stackable ==> 1 <= h[item].count <= STACK
    requires index >= WHEREEVER && !flags.childIsOwner
    modifies h.Keys
    ensures h.Keys <= g.Keys && fresh(g.Keys - h.Keys) && Mirrors(g) && Good(t, g)
    ensures ret == NOERROR <==> Adds(t, h, c, index, item, flags, limits)
    ensures ret != NOERROR || test ==> g == h && remainderCount == 0
    ensures var d := Destination(t, h, c, index, item, flags);
            ret == NOERROR && !test ==>
              && Moved(h, g, d.dest, d.dest, h[item].id, 0, Gained(t, h, d, item, flags))
              && remainderCount == Remainder(t, h, d, item, flags)
    // The stack pointed at is filled up first; any other item is put down as it is.
    ensures FullStay(h, g)
    ensures var d := Destination(t, h, c, index, item, flags);
            ret == NOERROR && !test && t(h[item].id).stackable && d.item != null && SameKind(h, item, d.item) ==>
              d.item in g && g[d.item].count == if h[d.item].count + h[item].count > 100 then 100
                                                else h[d.item].count + h[item].count
    ensures var d := Destination(t, h, c, index, item, flags);
            ret == NOERROR && !test && !(t(h[item].id).stackable && d.item != null && SameKind(h, item, d.item)) ==>
              && g.Keys == h.Keys && (forall x :: x in h ==> g[x].count == h[x].count)
              && g[item].parent == if d.index < d.dest.maxSize then d.dest else null
    decreases h[item].count, 2
  {
    remainderCount, g := 0, h;
    var target, i, toItem, maxQueryCount;
    ret, target, i, toItem, maxQueryCount := AskToAdd(t, c, index, item, flags, limits, h);
    if ret != NOERROR {
      return;
    }
    if test {
      return;
    }
    var same := false;
    if toItem != null && t(item.id).stackable {
      same := Equals(item, toItem, h);
    }
    if same {
      remainderCount, g := AddToStack(t, c, i, item, toItem, maxQueryCount, flags, limits, h);
    } else {
      g := Deposit(t, target, i, item, h);
    }
  }
}
