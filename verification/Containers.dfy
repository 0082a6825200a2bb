/** Items and containers (engine/src/container.cpp): a forest of objects linked by parent
    pointers and item lists, with the weight of its contents cached in every container.

    Containers whose parent is a tile, a creature or nothing have no parent here. */
module Containers {
  import opened Common

  // ----- Items ---------------------------------------------------------------------------

  // What Item::items says of an item id; `weight` is that of a stack of the given count
  // without contents.
  datatype ItemType = ItemType(weight: nat -> nat, stackable: bool, subTypeIsCount: bool, pickupable: bool,
                               moveable: bool, quiver: bool, ammo: bool)
  type ItemTable = int -> ItemType

  class Item {
    const isContainer: bool
    const maxSize: nat
    const unlocked: bool
    const pagination: bool
    const isInbox: bool
    // Everything else that equals() compares.
    const attributes: int
    var id: int
    var count: nat
    var parent: Item?
    var itemlist: seq<Item>
    var totalWeight: int
    // Strictly larger than the parent's.
    ghost var depth: nat

    ghost function Value(): Cell
      reads this
    {
      Cell(id, count, parent, itemlist, totalWeight, depth)
    }

    constructor (id: int, count: nat, attributes: int)
      ensures Value() == Cell(id, count, null, [], 0, 0) && !isContainer && this.attributes == attributes
    {
      this.id, this.count, this.parent, this.itemlist, this.totalWeight, this.depth := id, count, null, [], 0, 0;
      isContainer, maxSize, unlocked, pagination, isInbox, this.attributes := false, 0, true, false, false, attributes;
    }

    constructor Container(id: int, maxSize: nat, unlocked: bool, pagination: bool, isInbox: bool, attributes: int)
      ensures Value() == Cell(id, 1, null, [], 0, 0) && isContainer && this.maxSize == maxSize
      ensures this.unlocked == unlocked && this.pagination == pagination && this.isInbox == isInbox
      ensures this.attributes == attributes
    {
      this.id, this.count, this.parent, this.itemlist, this.totalWeight, this.depth := id, 1, null, [], 0, 0;
      isContainer, this.maxSize, this.unlocked, this.pagination := true, maxSize, unlocked, pagination;
      this.isInbox, this.attributes := isInbox, attributes;
    }

    method GetWeight(t: ItemTable) returns (weight: int)
      ensures weight == OwnWeight(t, Value()) + if isContainer then totalWeight else 0
    {
      weight := t(id).weight(count);
      if isContainer {
        weight := weight + totalWeight;
      }
    }

    method GetThingIndex(thing: Item) returns (index: int)
      ensures index == -1 ==> thing !in itemlist
      ensures index != -1 ==> 0 <= index < |itemlist| && itemlist[index] == thing && thing !in itemlist[..index]
    {
      index := 0;
      while index < |itemlist|
        invariant 0 <= index <= |itemlist| && thing !in itemlist[..index]
      {
        if itemlist[index] == thing {
          return;
        }
        index := index + 1;
      }
      return -1;
    }

    method AddToTotal(diff: int, ghost h: Forest)
      requires this in h && Mirrors(h)
      modifies this`totalWeight
      ensures Mirrors(WithTotal(h, this, diff))
    {
      totalWeight := totalWeight + diff;
    }

    method UpdateItemWeight(diff: int, ghost h: Forest)
      requires this in h && Mirrors(h) && Linked(h) && Acyclic(h)
      modifies h.Keys`totalWeight
      ensures Mirrors(PushUp(h, this, diff))
    {
      AddToTotal(diff, h);
      ghost var g := WithTotal(h, this, diff);
      TotalKeepsShape(h, this, diff);
      var parentContainer := this;
      while parentContainer.parent != null
        invariant parentContainer in g && g.Keys == h.Keys && Mirrors(g) && Linked(g) && Acyclic(g)
        invariant PushUp(h, this, diff) == if parentContainer.parent == null then g
                                           else PushUp(g, parentContainer.parent, diff)
        decreases parentContainer.depth
      {
        assert LinkedAt(g, parentContainer) && g[parentContainer].parent == parentContainer.parent;
        parentContainer := parentContainer.parent;
        parentContainer.AddToTotal(diff, g);
        TotalKeepsShape(g, parentContainer, diff);
        g := WithTotal(g, parentContainer, diff);
      }
    }

    // The new list, and the parent of the item that joins it.
    method Link(item: Item, contents: seq<Item>, ghost h: Forest)
      requires this in h && item in h && item != this && Mirrors(h) && Acyclic(h)
      modifies h.Keys`depth, item`parent, this`itemlist
      ensures Mirrors(Attached(h, this, item, contents))
    {
      Lower(item, depth + 1, h);
      item.parent := this;
      itemlist := contents;
    }

    ghost method Lower(item: Item, levels: nat, h: Forest)
      requires item in h && Mirrors(h) && Acyclic(h)
      modifies h.Keys`depth
      ensures Mirrors(Lowered(h, item, levels))
    {
      forall x | x in h && (x == item || Contains(h, item, x)) {
        x.depth := h[x].depth + levels;
      }
    }

    method Unlink(item: Item, contents: seq<Item>, ghost h: Forest)
      requires this in h && item in h && item != this && Mirrors(h)
      modifies item`parent, this`itemlist
      ensures Mirrors(Detached(h, this, item, contents))
    {
      item.parent := null;
      itemlist := contents;
    }

    // addThing(index, thing): the caller has taken `item` out of its old parent, and asked queryAdd.
    method AddThing(t: ItemTable, index: int, item: Item, ghost h: Forest)
      requires this in h && item in h && isContainer && item.parent == null && Mirrors(h)
      requires Valid(t, h) && Fits(h, this, item)
      modifies h.Keys
      ensures index >= maxSize ==> Mirrors(h)
      ensures index < maxSize ==>
                Mirrors(Apply(t, h, Add(this, item, false))) && Valid(t, Apply(t, h, Add(this, item, false)))
      ensures index < maxSize ==> itemlist == [item] + old(itemlist) && item.parent == this
    {
      if index >= maxSize {
        return;
      }
      AddIs(t, h, this, item, false, this);
      AddIs(t, h, this, item, false, item);
      OperationKeepsValid(t, h, Add(this, item, false));
      Attach(t, item, [item] + itemlist, 0, h);
    }

    method AddItemBack(t: ItemTable, item: Item, ghost h: Forest)
      requires this in h && item in h && isContainer && item.parent == null && Mirrors(h)
      requires Valid(t, h) && Fits(h, this, item)
      modifies h.Keys
      ensures Mirrors(Apply(t, h, Add(this, item, true))) && Valid(t, Apply(t, h, Add(this, item, true)))
      ensures itemlist == old(itemlist) + [item] && item.parent == this
    {
      AddIs(t, h, this, item, true, this);
      AddIs(t, h, this, item, true, item);
      OperationKeepsValid(t, h, Add(this, item, true));
      Attach(t, item, itemlist + [item], |itemlist|, h);
    }

    // setParent, the list, then the weight.
    method Attach(t: ItemTable, item: Item, contents: seq<Item>, ghost i: nat, ghost h: Forest)
      requires this in h && item in h && isContainer && item.parent == null && Mirrors(h)
      requires Linked(h) && Acyclic(h) && Fits(h, this, item)
      requires i < |contents| && contents[i] == item && Without(contents, i) == itemlist
      modifies h.Keys
      ensures Mirrors(Added(t, h, this, item, contents))
    {
      var weight := item.GetWeight(t);
      assert weight == Weight(t, h, item);
      AttachKeepsAcyclic(h, this, item, contents);
      AttachKeepsLinked(h, this, item, contents, i);
      Link(item, contents, h);
      UpdateItemWeight(weight, Attached(h, this, item, contents));
    }

    method Change(item: Item, newId: int, newCount: nat, ghost h: Forest)
      requires item in h && Mirrors(h)
      modifies item`id, item`count
      ensures Mirrors(Changed(h, item, newId, newCount))
    {
      item.id, item.count := newId, newCount;
    }

    // A new id and count, then the weight.
    method ChangeAndWeigh(t: ItemTable, item: Item, newId: int, newCount: nat, ghost h: Forest)
      requires this in h && isContainer && item in itemlist && item in h && Mirrors(h) && Linked(h) && Acyclic(h)
      modifies h.Keys
      ensures Mirrors(Updated(t, h, this, item, newId, newCount))
    {
      ghost var g := Changed(h, item, newId, newCount);
      ChangeKeepsShape(h, item, newId, newCount);
      var oldWeight := item.GetWeight(t);
      assert oldWeight == Weight(t, h, item);
      Change(item, newId, newCount, h);
      var newWeight := item.GetWeight(t);
      var diff := -oldWeight + newWeight;
      assert diff == Weight(t, g, item) - Weight(t, h, item);
      UpdatePushesUp(t, h, this, item, newId, newCount, diff);
      UpdateItemWeight(diff, g);
    }

    method UpdateThing(t: ItemTable, item: Item, itemId: int, n: nat, ghost h: Forest)
      requires this in h && isContainer && item in h && Mirrors(h) && Valid(t, h)
      modifies h.Keys
      ensures item !in h[this].contents ==> Mirrors(h)
      ensures item in h[this].contents ==>
                var op := Update(this, item, itemId, SubTypeCount(t, itemId, h[item].count, n));
                Mirrors(Apply(t, h, op)) && Valid(t, Apply(t, h, op))
      ensures item in old(itemlist) ==>
                itemlist == old(itemlist) && item.id == itemId
                && item.count == if t(itemId).subTypeIsCount then n % 256 else old(item.count)
    {
      var index := GetThingIndex(item);
      if index == -1 {
        return;
      }
      UpdateIs(t, h, this, item, itemId, SubTypeCount(t, itemId, h[item].count, n), this);
      UpdateIs(t, h, this, item, itemId, SubTypeCount(t, itemId, h[item].count, n), item);
      var newCount := SubTypeCount(t, itemId, item.count, n);
      OperationKeepsValid(t, h, Update(this, item, itemId, newCount));
      ChangeAndWeigh(t, item, itemId, newCount, h);
    }

    // The member at `index` gives its place to `item`.
    method Exchange(index: nat, item: Item, replacedItem: Item, ghost h: Forest)
      requires this in h && item in h && replacedItem in h && isContainer && Mirrors(h)
      requires Linked(h) && Acyclic(h) && Fits(h, this, item)
      requires index < |itemlist| && replacedItem == itemlist[index]
      modifies h.Keys
      ensures Mirrors(Exchanged(h, this, index, item))
    {
      DetachKeepsShape(h, this, replacedItem, index);
      var contents := itemlist[index := item];
      var rest := Without(itemlist, index);
      Unlink(replacedItem, rest, h);
      Link(item, contents, Detached(h, this, replacedItem, rest));
    }

    method ReplaceThing(t: ItemTable, index: nat, item: Item, ghost h: Forest)
      requires this in h && item in h && isContainer && item.parent == null && Mirrors(h)
      requires Valid(t, h) && Fits(h, this, item)
      modifies h.Keys
      ensures index >= |h[this].contents| ==> Mirrors(h)
      ensures index < |h[this].contents| ==>
                && h[this].contents[index] in h
                && Mirrors(Apply(t, h, Replace(this, index, item))) && Valid(t, Apply(t, h, Replace(this, index, item)))
      ensures index < |old(itemlist)| ==>
                && itemlist == old(itemlist)[index := item] && item.parent == this
                && old(itemlist)[index] in h && old(itemlist)[index].parent == null
    {
      if index >= |itemlist| {
        return;
      }
      var replacedItem := itemlist[index];
      assert LinkedAt(h, this) && replacedItem in h[this].contents;
      ReplaceIs(t, h, this, index, item, this);
      ReplaceIs(t, h, this, index, item, item);
      ReplaceIs(t, h, this, index, item, replacedItem);
      OperationKeepsValid(t, h, Replace(this, index, item));
      ReplaceMember(t, index, item, replacedItem, h);
    }

    method ReplaceMember(t: ItemTable, index: nat, item: Item, replacedItem: Item, ghost h: Forest)
      requires this in h && item in h && replacedItem in h && isContainer && item.parent == null && Mirrors(h)
      requires Linked(h) && Acyclic(h) && Fits(h, this, item)
      requires index < |itemlist| && replacedItem == itemlist[index]
      modifies h.Keys
      ensures Mirrors(Replaced(t, h, this, index, item))
    {
      var oldWeight := replacedItem.GetWeight(t);
      var newWeight := item.GetWeight(t);
      var diff := -oldWeight + newWeight;
      ghost var g := Exchanged(h, this, index, item);
      assert diff == Weight(t, h, item) - Weight(t, h, replacedItem);
      assert Replaced(t, h, this, index, item) == PushUp(g, this, diff);
      ExchangeKeepsLinked(h, this, index, item);
      Exchange(index, item, replacedItem, h);
      UpdateItemWeight(diff, g);
    }

    // The weight of a member is taken off all the way up.
    method WeighOut(t: ItemTable, item: Item, ghost h: Forest)
      requires this in h && item in h && Mirrors(h) && Linked(h) && Acyclic(h)
      modifies h.Keys`totalWeight
      ensures Mirrors(PushUp(h, this, -Weight(t, h, item)))
    {
      var weight := item.GetWeight(t);
      var diff := -weight;
      assert diff == -Weight(t, h, item);
      UpdateItemWeight(diff, h);
    }

    // A whole item leaves: first its weight, then the item.
    method TakeOut(t: ItemTable, item: Item, index: nat, ghost h: Forest)
      requires this in h && isContainer && item in h && item != this && Mirrors(h) && Linked(h) && Acyclic(h)
      requires index < |itemlist| && itemlist[index] == item
      modifies h.Keys
      ensures Mirrors(Removed(t, h, this, item, index))
    {
      var contents := Without(itemlist, index);
      WeighOut(t, item, h);
      Unlink(item, contents, PushUp(h, this, -Weight(t, h, item)));
    }

    // Part of a stack, or the whole item.
    method RemoveThing(t: ItemTable, item: Item, n: nat, ghost h: Forest) returns (ghost index: int)
      requires this in h && isContainer && item in h && Mirrors(h) && Valid(t, h)
      modifies h.Keys
      ensures item !in h[this].contents ==> Mirrors(h)
      ensures item in h[this].contents ==>
                && 0 <= index < |h[this].contents| && h[this].contents[index] == item && item != this
                && Mirrors(Apply(t, h, Removal(t, h, this, item, index, n)))
                && Valid(t, Apply(t, h, Removal(t, h, this, item, index, n)))
      ensures item in old(itemlist) && t(old(item.id)).stackable && n != old(item.count) ==>
                && itemlist == old(itemlist) && item.id == old(item.id)
                && item.count == if n > old(item.count) then 0 else (old(item.count) - n) % 256
      ensures item in old(itemlist) && !(t(old(item.id)).stackable && n != old(item.count)) ==>
                && 0 <= index < |old(itemlist)| && old(itemlist)[index] == item && item.parent == null
                && itemlist == old(itemlist)[..index] + old(itemlist)[index + 1..]
    {
      var i := GetThingIndex(item);
      index := i;
      if i == -1 {
        return;
      }
      RemoveKeepsShape(t, h, this, item, i);
      OperationKeepsValid(t, h, Removal(t, h, this, item, i, n));
      if t(item.id).stackable && n != item.count {
        UpdateIs(t, h, this, item, item.id, Left(item.count, n), this);
        UpdateIs(t, h, this, item, item.id, Left(item.count, n), item);
        ChangeAndWeigh(t, item, item.id, Left(item.count, n), h);
      } else {
        RemoveIs(t, h, this, item, i, this);
        RemoveIs(t, h, this, item, i, item);
        TakeOut(t, item, i, h);
      }
    }
  }

  // The fields of an item at one time, and those of a set of items.
  datatype Cell = Cell(id: int, count: nat, parent: Item?, contents: seq<Item>, total: int, depth: nat)
  type Forest = map<Item, Cell>

  // The heap holds exactly these fields.
  ghost predicate Mirrors(h: Forest)
    reads h.Keys
  {
    forall x {:trigger h[x]} :: x in h ==> x.Value() == h[x]
  }

  // setSubType: a uint8_t count, or an attribute that weighs nothing.
  function SubTypeCount(t: ItemTable, id: int, count: nat, n: nat): nat {
    if t(id).subTypeIsCount then n % 0x100 else count
  }

  // What removeThing leaves of a stack.
  function Left(count: nat, n: nat): nat {
    if n >= count then 0 else (count - n) % 0x100
  }

  // ----- Shape ---------------------------------------------------------------------------

  // Parent pointers and item lists agree.
  ghost predicate LinkedAt(h: Forest, x: Item)
    requires x in h
  {
    && (h[x].parent != null ==> h[x].parent in h && h[x].parent.isContainer && x in h[h[x].parent].contents)
    && (forall y {:trigger y in h[x].contents} :: y in h[x].contents ==> y in h && h[y].parent == x)
    && Distinct(h[x].contents)
    && (!x.isContainer ==> h[x].contents == [])
  }

  ghost predicate Linked(h: Forest) {
    forall x {:trigger LinkedAt(h, x)} :: x in h ==> LinkedAt(h, x)
  }

  // No item lies, at any distance, inside itself.
  ghost predicate Acyclic(h: Forest) {
    forall x {:trigger h[x].parent} :: x in h && h[x].parent != null ==>
        h[x].parent in h && h[h[x].parent].depth < h[x].depth
  }

  // `a` contains `x`, directly or at any depth.
  ghost predicate Contains(h: Forest, a: Item, x: Item)
    requires x in h && Acyclic(h)
    decreases h[x].depth
  {
    h[x].parent != null && (h[x].parent == a || Contains(h, a, h[x].parent))
  }

  lemma {:induction false} ContainsIsDeeper(h: Forest, a: Item, x: Item)
    requires x in h && Acyclic(h) && Contains(h, a, x)
    ensures a in h && h[a].depth < h[x].depth
    decreases h[x].depth
  {
    if h[x].parent != a {
      ContainsIsDeeper(h, a, h[x].parent);
    }
  }

  // ----- Weights -------------------------------------------------------------------------

  // Item::getWeight
  function OwnWeight(t: ItemTable, c: Cell): int {
    t(c.id).weight(c.count)
  }

  // getWeight: a container adds its cached total.
  ghost function Weight(t: ItemTable, h: Forest, x: Item): int
    requires x in h
  {
    OwnWeight(t, h[x]) + if x.isContainer then h[x].total else 0
  }

  ghost function SumOfWeights(t: ItemTable, h: Forest, xs: seq<Item>): int
    requires forall x :: x in xs ==> x in h
  {
    if xs == [] then 0 else Weight(t, h, xs[0]) + SumOfWeights(t, h, xs[1..])
  }

  // The cached total of one container fits the cached totals one level below.
  ghost predicate BalancedAt(t: ItemTable, h: Forest, x: Item)
    requires x in h && LinkedAt(h, x)
  {
    x.isContainer ==> h[x].total == SumOfWeights(t, h, h[x].contents)
  }

  ghost predicate Balanced(t: ItemTable, h: Forest)
    requires Linked(h)
  {
    forall x {:trigger BalancedAt(t, h, x)} :: x in h ==> BalancedAt(t, h, x)
  }

  ghost predicate Valid(t: ItemTable, h: Forest) {
    Linked(h) && Acyclic(h) && Balanced(t, h)
  }

  // A bound on the depths, to walk downwards.
  ghost function Bound(h: Forest): (b: nat)
    ensures forall x :: x in h ==> h[x].depth <= b
  {
    if h == map[] then 0
    else
      var x :| x in h;
      var rest := h - {x};
      assert forall y :: y in h && y != x ==> y in rest && rest[y] == h[y];
      var b := Bound(rest);
      if b < h[x].depth then h[x].depth else b
  }

  // The true weight of everything inside, by recursion over the whole tree below.
  ghost function TrueWeight(t: ItemTable, h: Forest, x: Item): int
    requires x in h && Linked(h) && Acyclic(h)
    decreases Bound(h) - h[x].depth + 1, 0
  {
    assert LinkedAt(h, x);
    OwnWeight(t, h[x]) + TrueContents(t, h, x, h[x].contents)
  }

  ghost function TrueContents(t: ItemTable, h: Forest, x: Item, ys: seq<Item>): int
    requires x in h && Linked(h) && Acyclic(h) && forall y :: y in ys ==> y in h && h[y].parent == x
    decreases Bound(h) - h[x].depth, |ys|
  {
    if ys == [] then 0 else TrueWeight(t, h, ys[0]) + TrueContents(t, h, x, ys[1..])
  }

  // Local balance everywhere makes every cached total the true one, at every level.
  lemma {:induction false} BalancedIsTrue(t: ItemTable, h: Forest, x: Item)
    requires x in h && Valid(t, h)
    ensures Weight(t, h, x) == TrueWeight(t, h, x)
    ensures LinkedAt(h, x) && (x.isContainer ==> h[x].total == TrueContents(t, h, x, h[x].contents))
    decreases Bound(h) - h[x].depth + 1, 0
  {
    assert LinkedAt(h, x) && BalancedAt(t, h, x);
    BalancedContentsAreTrue(t, h, x, h[x].contents);
  }

  lemma {:induction false} BalancedContentsAreTrue(t: ItemTable, h: Forest, x: Item, ys: seq<Item>)
    requires x in h && Valid(t, h) && forall y :: y in ys ==> y in h && h[y].parent == x
    ensures SumOfWeights(t, h, ys) == TrueContents(t, h, x, ys)
    decreases Bound(h) - h[x].depth, |ys|
  {
    if ys != [] {
      BalancedIsTrue(t, h, ys[0]);
      BalancedContentsAreTrue(t, h, x, ys[1..]);
    }
  }

  // ----- Pushing a difference up the parent chain ----------------------------------------

  ghost function WithTotal(h: Forest, x: Item, diff: int): (h': Forest)
    requires x in h
    ensures h'.Keys == h.Keys
  {
    h[x := h[x].(total := h[x].total + diff)]
  }

  // updateItemWeight
  ghost function PushUp(h: Forest, x: Item, diff: int): (h': Forest)
    requires x in h && Acyclic(h)
    ensures h'.Keys == h.Keys
    decreases h[x].depth
  {
    var h' := WithTotal(h, x, diff);
    if h[x].parent == null then h' else PushUp(h', h[x].parent, diff)
  }

  // Exactly the container and everything containing it change, each by the difference.
  lemma {:induction false} PushUpEffect(h: Forest, x: Item, diff: int, y: Item)
    requires x in h && Acyclic(h) && y in h
    ensures PushUp(h, x, diff)[y]
         == h[y].(total := h[y].total + if y == x || Contains(h, y, x) then diff else 0)
    decreases h[x].depth
  {
    if h[x].parent != null {
      var h' := WithTotal(h, x, diff);
      PushUpEffect(h', h[x].parent, diff, y);
      ContainsSame(h, h', y, h[x].parent);
      if y == x && Contains(h, y, h[x].parent) {
        ContainsIsDeeper(h, y, h[x].parent);
      }
    }
  }

  // Containment depends on parent pointers only.
  lemma {:induction false} ContainsSame(h: Forest, h': Forest, a: Item, x: Item)
    requires x in h && Acyclic(h) && Acyclic(h') && h'.Keys == h.Keys
    requires forall y :: y in h && h[y].depth <= h[x].depth ==> h'[y].parent == h[y].parent
    ensures Contains(h, a, x) == Contains(h', a, x)
    decreases h[x].depth
  {
    if h[x].parent != null && h[x].parent != a {
      ContainsSame(h, h', a, h[x].parent);
    }
  }

  lemma {:induction false} SumUnchanged(t: ItemTable, h: Forest, h': Forest, xs: seq<Item>)
    requires forall x :: x in xs ==> x in h && x in h' && Weight(t, h', x) == Weight(t, h, x)
    ensures SumOfWeights(t, h', xs) == SumOfWeights(t, h, xs)
  {
    if xs != [] {
      SumUnchanged(t, h, h', xs[1..]);
    }
  }

  // One member of the list changes its weight.
  lemma {:induction false} SumChanged(t: ItemTable, h: Forest, h': Forest, xs: seq<Item>, y: Item, diff: int)
    requires forall x :: x in xs ==> x in h && x in h'
    requires forall x :: x in xs && x != y ==> Weight(t, h', x) == Weight(t, h, x)
    requires y in xs && Distinct(xs) && Weight(t, h', y) == Weight(t, h, y) + diff
    ensures SumOfWeights(t, h', xs) == SumOfWeights(t, h, xs) + diff
  {
    if xs[0] == y {
      assert y !in xs[1..];
      SumUnchanged(t, h, h', xs[1..]);
    } else {
      SumChanged(t, h, h', xs[1..], y, diff);
    }
  }

  // How much the cached total of x lacks of the weights in its list.
  ghost function Lack(t: ItemTable, h: Forest, x: Item): int
    requires x in h && LinkedAt(h, x)
  {
    SumOfWeights(t, h, h[x].contents) - h[x].total
  }

  lemma TotalKeepsShape(h: Forest, x: Item, diff: int)
    requires Linked(h) && Acyclic(h) && x in h
    ensures Linked(WithTotal(h, x, diff)) && Acyclic(WithTotal(h, x, diff))
  {
    var h' := WithTotal(h, x, diff);
    forall y | y in h'
      ensures LinkedAt(h', y)
    {
      assert LinkedAt(h, y);
    }
  }

  lemma {:induction false} PushUpKeepsShape(h: Forest, x: Item, diff: int)
    requires Linked(h) && Acyclic(h) && x in h
    ensures Linked(PushUp(h, x, diff)) && Acyclic(PushUp(h, x, diff))
    decreases h[x].depth
  {
    TotalKeepsShape(h, x, diff);
    if h[x].parent != null {
      PushUpKeepsShape(WithTotal(h, x, diff), h[x].parent, diff);
    }
  }

  // A changed total is felt one level up only.
  lemma TotalFeltByParent(t: ItemTable, h: Forest, x: Item, diff: int, y: Item)
    requires Linked(h) && Acyclic(h) && x in h && x.isContainer && y in h
    requires Linked(WithTotal(h, x, diff))
    ensures Lack(t, WithTotal(h, x, diff), y)
         == Lack(t, h, y) + (if h[x].parent == y then diff else 0) - (if x == y then diff else 0)
  {
    var h' := WithTotal(h, x, diff);
    assert LinkedAt(h, y) && LinkedAt(h, x);
    if h[x].parent == y {
      SumChanged(t, h, h', h[y].contents, x, diff);
    } else {
      SumUnchanged(t, h, h', h[y].contents);
    }
  }

  // Along the chain the changes cancel out: only x itself lacks less than before.
  lemma {:induction false} PushUpLack(t: ItemTable, h: Forest, x: Item, diff: int, y: Item)
    requires Linked(h) && Acyclic(h) && x in h && x.isContainer && y in h
    requires Linked(PushUp(h, x, diff))
    ensures Lack(t, PushUp(h, x, diff), y) == Lack(t, h, y) - if x == y then diff else 0
    decreases h[x].depth
  {
    TotalKeepsShape(h, x, diff);
    TotalFeltByParent(t, h, x, diff, y);
    if h[x].parent != null {
      assert LinkedAt(h, x);
      PushUpLack(t, WithTotal(h, x, diff), h[x].parent, diff, y);
    }
  }

  // Everything balances except container x, which lacks `diff`; adding it along the chain
  // balances everything.
  lemma PushUpBalances(t: ItemTable, h: Forest, x: Item, diff: int)
    requires Linked(h) && Acyclic(h) && x in h && x.isContainer
    requires forall y :: y in h && y.isContainer ==> LinkedAt(h, y) && Lack(t, h, y) == if x == y then diff else 0
    ensures Valid(t, PushUp(h, x, diff))
  {
    PushUpKeepsShape(h, x, diff);
    forall y | y in h
      ensures BalancedAt(t, PushUp(h, x, diff), y)
    {
      PushUpLack(t, h, x, diff, y);
      assert LinkedAt(PushUp(h, x, diff), y);
    }
  }

  // ----- The operations ------------------------------------------------------------------

  // Everything inside `item`, and `item`, moves down some levels.
  ghost function Lowered(h: Forest, item: Item, levels: nat): (h': Forest)
    requires Acyclic(h)
    ensures h'.Keys == h.Keys
  {
    map x | x in h :: if x == item || Contains(h, item, x) then h[x].(depth := h[x].depth + levels) else h[x]
  }

  // `item` becomes a member of c's list, which becomes `contents`.
  ghost function Attached(h: Forest, c: Item, item: Item, contents: seq<Item>): (h': Forest)
    requires c in h && item in h && item != c && Acyclic(h)
    ensures h'.Keys == h.Keys
  {
    var g := Lowered(h, item, h[c].depth + 1);
    g[c := g[c].(contents := contents)][item := g[item].(parent := c)]
  }

  // `item` leaves c's list, which becomes `contents`.
  ghost function Detached(h: Forest, c: Item, item: Item, contents: seq<Item>): (h': Forest)
    requires c in h && item in h && item != c
    ensures h'.Keys == h.Keys
  {
    h[c := h[c].(contents := contents)][item := h[item].(parent := null)]
  }

  // An item that is neither c nor a container of c may be added to c.
  ghost predicate Fits(h: Forest, c: Item, item: Item)
    requires c in h && Acyclic(h)
  {
    item != c && !Contains(h, item, c)
  }

  // An item that is nowhere yet can be added without closing a cycle.
  lemma AttachKeepsAcyclic(h: Forest, c: Item, item: Item, contents: seq<Item>)
    requires Linked(h) && Acyclic(h) && c in h && item in h && Fits(h, c, item)
    ensures Acyclic(Attached(h, c, item, contents))
  {
    var g := Attached(h, c, item, contents);
    forall x | x in g && g[x].parent != null
      ensures g[x].parent in g && g[g[x].parent].depth < g[x].depth
    {
      if x != item {
        var p := h[x].parent;
        assert p == item || Contains(h, item, p) ==> Contains(h, item, x);
      }
    }
  }

  // Leaving a list.
  function Without(xs: seq<Item>, i: nat): seq<Item>
    requires i < |xs|
  {
    xs[..i] + xs[i + 1..]
  }

  lemma {:induction false} SumWithout(t: ItemTable, h: Forest, xs: seq<Item>, i: nat)
    requires i < |xs| && forall x :: x in xs ==> x in h
    ensures SumOfWeights(t, h, Without(xs, i)) == SumOfWeights(t, h, xs) - Weight(t, h, xs[i])
  {
    if i == 0 {
      assert Without(xs, 0) == xs[1..];
    } else {
      SumWithout(t, h, xs[1..], i - 1);
      assert Without(xs, i)[1..] == Without(xs[1..], i - 1);
    }
  }

  lemma WithoutMembers(xs: seq<Item>, i: nat)
    requires i < |xs| && Distinct(xs)
    ensures Distinct(Without(xs, i))
    ensures forall y :: y in Without(xs, i) ==> y != xs[i] && y in xs
    ensures forall y :: y in xs && y != xs[i] ==> y in Without(xs, i)
  {
    var ys := Without(xs, i);
    forall y | y in xs && y != xs[i]
      ensures y in ys
    {
      var k :| 0 <= k < |xs| && xs[k] == y;
      assert ys[if k < i then k else k - 1] == y;
    }
  }

  lemma InsertedMembers(xs: seq<Item>, i: nat)
    requires i < |xs| && Distinct(Without(xs, i)) && xs[i] !in Without(xs, i)
    ensures Distinct(xs)
    ensures forall y :: y in xs ==> y == xs[i] || y in Without(xs, i)
    ensures forall y :: y in Without(xs, i) ==> y in xs
  {
    var ys := Without(xs, i);
    forall k | 0 <= k < |xs| && k != i
      ensures xs[k] == ys[if k < i then k else k - 1]
    {
    }
  }

  // Only c's list and the parent of `item` change, and they change together.
  ghost predicate Relinked(h: Forest, g: Forest, c: Item, item: Item, joins: bool) {
    && c in h && item in h && item != c && g.Keys == h.Keys
    && (forall y :: y in h && y != item ==> g[y].parent == h[y].parent)
    && (forall y :: y in h && y != c ==> g[y].contents == h[y].contents)
    && h[item].parent == (if joins then null else c) && g[item].parent == (if joins then c else null)
    && Distinct(g[c].contents)
    && (forall y :: y in g[c].contents ==> y in h)
    && (forall y :: y in h ==> (y in g[c].contents <==> if y == item then joins else y in h[c].contents))
  }

  lemma RelinkedIsLinkedAt(h: Forest, g: Forest, c: Item, item: Item, joins: bool, x: Item)
    requires Linked(h) && Relinked(h, g, c, item, joins) && c.isContainer && x in h
    ensures LinkedAt(g, x)
  {
    assert LinkedAt(h, x) && LinkedAt(h, c) && LinkedAt(h, item);
    assert x != c ==> item !in h[x].contents;
  }

  lemma RelinkedIsLinked(h: Forest, g: Forest, c: Item, item: Item, joins: bool)
    requires Linked(h) && Relinked(h, g, c, item, joins) && c.isContainer
    ensures Linked(g)
  {
    forall x | x in g
      ensures LinkedAt(g, x)
    {
      RelinkedIsLinkedAt(h, g, c, item, joins, x);
    }
  }

  lemma AttachKeepsLinked(h: Forest, c: Item, item: Item, contents: seq<Item>, i: nat)
    requires Linked(h) && Acyclic(h) && c in h && c.isContainer && item in h && item != c && h[item].parent == null
    requires i < |contents| && contents[i] == item && Without(contents, i) == h[c].contents
    ensures Linked(Attached(h, c, item, contents))
  {
    assert LinkedAt(h, c) && item !in h[c].contents;
    InsertedMembers(contents, i);
    RelinkedIsLinked(h, Attached(h, c, item, contents), c, item, true);
  }

  lemma AttachLack(t: ItemTable, h: Forest, c: Item, item: Item, contents: seq<Item>, i: nat, y: Item)
    requires Linked(h) && Acyclic(h) && c in h && item in h && item != c && y in h
    requires i < |contents| && contents[i] == item && Without(contents, i) == h[c].contents
    requires Linked(Attached(h, c, item, contents))
    ensures Lack(t, Attached(h, c, item, contents), y) == Lack(t, h, y) + if y == c then Weight(t, h, item) else 0
  {
    var g := Attached(h, c, item, contents);
    assert LinkedAt(h, y) && LinkedAt(g, y) && LinkedAt(h, c);
    SumUnchanged(t, h, g, h[y].contents);
    if y == c {
      SumWithout(t, g, contents, i);
    }
  }

  lemma DetachKeepsShape(h: Forest, c: Item, item: Item, i: nat)
    requires Linked(h) && Acyclic(h) && c in h && c.isContainer && i < |h[c].contents| && item == h[c].contents[i]
    ensures item in h && item != c
    ensures Linked(Detached(h, c, item, Without(h[c].contents, i)))
    ensures Acyclic(Detached(h, c, item, Without(h[c].contents, i)))
  {
    assert LinkedAt(h, c) && item in h[c].contents;
    WithoutMembers(h[c].contents, i);
    RelinkedIsLinked(h, Detached(h, c, item, Without(h[c].contents, i)), c, item, false);
  }

  lemma DetachLack(t: ItemTable, h: Forest, c: Item, item: Item, i: nat, y: Item)
    requires Linked(h) && c in h && i < |h[c].contents| && item == h[c].contents[i] && item in h && item != c && y in h
    requires Linked(Detached(h, c, item, Without(h[c].contents, i)))
    ensures Lack(t, Detached(h, c, item, Without(h[c].contents, i)), y)
         == Lack(t, h, y) - if y == c then Weight(t, h, item) else 0
  {
    var g := Detached(h, c, item, Without(h[c].contents, i));
    assert LinkedAt(h, y) && LinkedAt(g, y);
    SumUnchanged(t, h, g, g[y].contents);
    if y == c {
      SumWithout(t, h, h[c].contents, i);
    }
  }

  // removeThing of a whole item: the total has been adjusted before the item leaves.
  ghost function Removed(t: ItemTable, h: Forest, c: Item, item: Item, i: nat): (h': Forest)
    requires c in h && item in h && item != c && Acyclic(h) && i < |h[c].contents|
    ensures h'.Keys == h.Keys
  {
    Detached(PushUp(h, c, -Weight(t, h, item)), c, item, Without(h[c].contents, i))
  }

  // The chain above c does not pass through what c holds.
  lemma PushUpSpares(h: Forest, c: Item, item: Item, diff: int)
    requires Linked(h) && Acyclic(h) && c in h && item in h && h[item].parent == c
    ensures PushUp(h, c, diff)[item] == h[item]
    ensures PushUp(h, c, diff)[c] == h[c].(total := h[c].total + diff)
  {
    PushUpEffect(h, c, diff, c);
    PushUpEffect(h, c, diff, item);
    if Contains(h, item, c) {
      ContainsIsDeeper(h, item, c);
    }
    if Contains(h, c, c) {
      ContainsIsDeeper(h, c, c);
    }
  }

  lemma RemoveKeepsShape(t: ItemTable, h: Forest, c: Item, item: Item, i: nat)
    requires Linked(h) && Acyclic(h) && c in h && c.isContainer && i < |h[c].contents| && item == h[c].contents[i]
    ensures item in h && item != c && h[item].parent == c
    ensures Linked(Removed(t, h, c, item, i)) && Acyclic(Removed(t, h, c, item, i))
  {
    assert LinkedAt(h, c) && item in h[c].contents;
    var g := PushUp(h, c, -Weight(t, h, item));
    PushUpKeepsShape(h, c, -Weight(t, h, item));
    PushUpSpares(h, c, item, -Weight(t, h, item));
    DetachKeepsShape(g, c, item, i);
  }

  lemma RemoveLack(t: ItemTable, h: Forest, c: Item, item: Item, i: nat, y: Item)
    requires Linked(h) && Acyclic(h) && c in h && c.isContainer && i < |h[c].contents| && item == h[c].contents[i]
             && y in h
    requires item in h && item != c && Linked(Removed(t, h, c, item, i))
    ensures Lack(t, Removed(t, h, c, item, i), y) == Lack(t, h, y)
  {
    assert LinkedAt(h, c) && item in h[c].contents;
    var w := Weight(t, h, item);
    var g := PushUp(h, c, -w);
    PushUpKeepsShape(h, c, -w);
    PushUpSpares(h, c, item, -w);
    PushUpLack(t, h, c, -w, y);
    DetachLack(t, g, c, item, i, y);
  }

  lemma RemoveKeepsValid(t: ItemTable, h: Forest, c: Item, item: Item, i: nat)
    requires Valid(t, h) && c in h && c.isContainer && i < |h[c].contents| && item == h[c].contents[i]
    ensures item in h && item != c && Valid(t, Removed(t, h, c, item, i))
  {
    RemoveKeepsShape(t, h, c, item, i);
    var f := Removed(t, h, c, item, i);
    forall y | y in f
      ensures BalancedAt(t, f, y)
    {
      RemoveLack(t, h, c, item, i, y);
      assert LinkedAt(h, y) && BalancedAt(t, h, y) && LinkedAt(f, y);
    }
  }

  // A new count or id.
  ghost function Changed(h: Forest, item: Item, id: int, count: nat): (h': Forest)
    requires item in h
    ensures h'.Keys == h.Keys
  {
    h[item := h[item].(id := id, count := count)]
  }

  lemma ChangeKeepsShape(h: Forest, item: Item, id: int, count: nat)
    requires Linked(h) && Acyclic(h) && item in h
    ensures Linked(Changed(h, item, id, count)) && Acyclic(Changed(h, item, id, count))
  {
    var g := Changed(h, item, id, count);
    forall y | y in g
      ensures LinkedAt(g, y)
    {
      assert LinkedAt(h, y);
    }
  }

  lemma UpdatePushesUp(t: ItemTable, h: Forest, c: Item, item: Item, id: int, count: nat, diff: int)
    requires c in h && item in h && Acyclic(h)
    requires diff == Weight(t, Changed(h, item, id, count), item) - Weight(t, h, item)
    ensures Acyclic(Changed(h, item, id, count))
    ensures Updated(t, h, c, item, id, count) == PushUp(Changed(h, item, id, count), c, diff)
  {
  }

  lemma ChangeLack(t: ItemTable, h: Forest, c: Item, item: Item, id: int, count: nat, y: Item)
    requires Linked(h) && c in h && item in h[c].contents && item in h && y in h
    requires Linked(Changed(h, item, id, count))
    ensures var g := Changed(h, item, id, count);
            Lack(t, g, y) == Lack(t, h, y) + if y == c then Weight(t, g, item) - Weight(t, h, item) else 0
  {
    var g := Changed(h, item, id, count);
    assert LinkedAt(h, y) && LinkedAt(g, y) && LinkedAt(h, c);
    if y == c {
      SumChanged(t, h, g, h[c].contents, item, Weight(t, g, item) - Weight(t, h, item));
    } else {
      assert h[item].parent == c;
      SumUnchanged(t, h, g, h[y].contents);
    }
  }

  // The total lacks exactly the difference of the weights.
  lemma ChangeUnbalances(t: ItemTable, h: Forest, c: Item, item: Item, id: int, count: nat, y: Item)
    requires Valid(t, h) && c in h && item in h[c].contents && item in h && y in h && y.isContainer
    requires Linked(Changed(h, item, id, count))
    ensures var g := Changed(h, item, id, count);
            LinkedAt(g, y) && Lack(t, g, y) == if c == y then Weight(t, g, item) - Weight(t, h, item) else 0
  {
    ChangeLack(t, h, c, item, id, count, y);
    assert LinkedAt(h, y) && BalancedAt(t, h, y) && LinkedAt(Changed(h, item, id, count), y);
  }

  // updateThing, and removeThing of a part of a stack.
  ghost function Updated(t: ItemTable, h: Forest, c: Item, item: Item, id: int, count: nat): (h': Forest)
    requires c in h && item in h && Acyclic(h)
    ensures h'.Keys == h.Keys
  {
    var g := Changed(h, item, id, count);
    PushUp(g, c, Weight(t, g, item) - Weight(t, h, item))
  }

  lemma UpdateKeepsValid(t: ItemTable, h: Forest, c: Item, item: Item, id: int, count: nat)
    requires Valid(t, h) && c in h && c.isContainer && item in h[c].contents && item in h
    ensures Valid(t, Updated(t, h, c, item, id, count))
  {
    var g := Changed(h, item, id, count);
    ChangeKeepsShape(h, item, id, count);
    forall y | y in g && y.isContainer
      ensures LinkedAt(g, y) && Lack(t, g, y) == if c == y then Weight(t, g, item) - Weight(t, h, item) else 0
    {
      ChangeUnbalances(t, h, c, item, id, count, y);
    }
    PushUpBalances(t, g, c, Weight(t, g, item) - Weight(t, h, item));
  }

  // addThing, addItemBack and internalAddThing: `item` enters the list at position i.
  ghost function Added(t: ItemTable, h: Forest, c: Item, item: Item, contents: seq<Item>): (h': Forest)
    requires Linked(h) && Acyclic(h) && c in h && item in h && Fits(h, c, item)
    ensures h'.Keys == h.Keys
  {
    AttachKeepsAcyclic(h, c, item, contents);
    PushUp(Attached(h, c, item, contents), c, Weight(t, h, item))
  }

  lemma AddKeepsValid(t: ItemTable, h: Forest, c: Item, item: Item, contents: seq<Item>, i: nat)
    requires Valid(t, h) && c in h && c.isContainer && item in h && h[item].parent == null && Fits(h, c, item)
    requires i < |contents| && contents[i] == item && Without(contents, i) == h[c].contents
    ensures Valid(t, Added(t, h, c, item, contents))
  {
    var g := Attached(h, c, item, contents);
    AttachKeepsAcyclic(h, c, item, contents);
    AttachKeepsLinked(h, c, item, contents, i);
    forall y | y in g && y.isContainer
      ensures LinkedAt(g, y) && Lack(t, g, y) == if c == y then Weight(t, h, item) else 0
    {
      AttachLack(t, h, c, item, contents, i, y);
      assert BalancedAt(t, h, y) && LinkedAt(g, y);
    }
    PushUpBalances(t, g, c, Weight(t, h, item));
  }

  // `item` takes the place of the i-th member, which becomes loose.
  ghost function Exchanged(h: Forest, c: Item, i: nat, item: Item): (h': Forest)
    requires Linked(h) && Acyclic(h) && c in h && c.isContainer && item in h && Fits(h, c, item)
    requires i < |h[c].contents|
    ensures h'.Keys == h.Keys && Acyclic(h')
  {
    var replaced := h[c].contents[i];
    DetachKeepsShape(h, c, replaced, i);
    var g := Detached(h, c, replaced, Without(h[c].contents, i));
    DetachKeepsFits(h, c, replaced, i, item);
    AttachKeepsAcyclic(g, c, item, h[c].contents[i := item]);
    Attached(g, c, item, h[c].contents[i := item])
  }

  // replaceThing
  ghost function Replaced(t: ItemTable, h: Forest, c: Item, i: nat, item: Item): (h': Forest)
    requires Linked(h) && Acyclic(h) && c in h && c.isContainer && item in h && Fits(h, c, item)
    requires i < |h[c].contents| && h[c].contents[i] in h
    ensures h'.Keys == h.Keys
  {
    PushUp(Exchanged(h, c, i, item), c, Weight(t, h, item) - Weight(t, h, h[c].contents[i]))
  }

  lemma DetachKeepsFits(h: Forest, c: Item, replaced: Item, i: nat, item: Item)
    requires Linked(h) && Acyclic(h) && c in h && c.isContainer && Fits(h, c, item)
    requires i < |h[c].contents| && replaced == h[c].contents[i] && replaced in h && replaced != c
    requires Acyclic(Detached(h, c, replaced, Without(h[c].contents, i)))
    ensures Fits(Detached(h, c, replaced, Without(h[c].contents, i)), c, item)
  {
    assert LinkedAt(h, c) && replaced in h[c].contents;
    ContainsSame(h, Detached(h, c, replaced, Without(h[c].contents, i)), item, c);
  }

  lemma ExchangeKeepsLinked(h: Forest, c: Item, i: nat, item: Item)
    requires Linked(h) && Acyclic(h) && c in h && c.isContainer && item in h && h[item].parent == null
             && Fits(h, c, item)
    requires i < |h[c].contents|
    ensures h[c].contents[i] in h && h[c].contents[i] != c
    ensures Linked(Exchanged(h, c, i, item))
  {
    var replaced := h[c].contents[i];
    DetachKeepsShape(h, c, replaced, i);
    var g := Detached(h, c, replaced, Without(h[c].contents, i));
    var contents := h[c].contents[i := item];
    assert Without(contents, i) == g[c].contents;
    AttachKeepsLinked(g, c, item, contents, i);
  }

  lemma ExchangeLack(t: ItemTable, h: Forest, c: Item, i: nat, item: Item, y: Item)
    requires Linked(h) && Acyclic(h) && c in h && c.isContainer && item in h && h[item].parent == null
             && Fits(h, c, item)
    requires i < |h[c].contents| && h[c].contents[i] in h && y in h && Linked(Exchanged(h, c, i, item))
    ensures Lack(t, Exchanged(h, c, i, item), y)
         == Lack(t, h, y) + if c == y then Weight(t, h, item) - Weight(t, h, h[c].contents[i]) else 0
  {
    var replaced := h[c].contents[i];
    DetachKeepsShape(h, c, replaced, i);
    var g := Detached(h, c, replaced, Without(h[c].contents, i));
    var contents := h[c].contents[i := item];
    assert Without(contents, i) == g[c].contents;
    DetachLack(t, h, c, replaced, i, y);
    AttachLack(t, g, c, item, contents, i, y);
  }

  lemma ReplaceKeepsValid(t: ItemTable, h: Forest, c: Item, i: nat, item: Item)
    requires Valid(t, h) && c in h && c.isContainer && item in h && h[item].parent == null && Fits(h, c, item)
    requires i < |h[c].contents| && h[c].contents[i] in h
    ensures Valid(t, Replaced(t, h, c, i, item))
  {
    ExchangeKeepsLinked(h, c, i, item);
    var f := Exchanged(h, c, i, item);
    var diff := Weight(t, h, item) - Weight(t, h, h[c].contents[i]);
    forall y | y in f && y.isContainer
      ensures LinkedAt(f, y) && Lack(t, f, y) == if c == y then diff else 0
    {
      ExchangeLack(t, h, c, i, item, y);
      assert BalancedAt(t, h, y) && LinkedAt(f, y);
    }
    PushUpBalances(t, f, c, diff);
  }

  // ----- Runs of operations --------------------------------------------------------------

  datatype Operation =
    | Add(c: Item, item: Item, back: bool)
    | Update(c: Item, item: Item, id: int, count: nat)
    | Replace(c: Item, i: nat, item: Item)
    | Remove(c: Item, item: Item, i: nat)

  // What the callers guarantee: the container's member, or a loose item that fits.
  ghost predicate Legal(t: ItemTable, h: Forest, op: Operation) {
    Linked(h) && Acyclic(h) && op.c in h && op.c.isContainer && op.item in h &&
    match op
    case Add(c, item, back) => h[item].parent == null && Fits(h, c, item)
    case Update(c, item, id, count) => item in h[c].contents
    case Replace(c, i, item) => i < |h[c].contents| && h[c].contents[i] in h && h[item].parent == null
        && Fits(h, c, item)
    case Remove(c, item, i) => i < |h[c].contents| && item == h[c].contents[i] && item != c
  }

  ghost function Apply(t: ItemTable, h: Forest, op: Operation): Forest
    requires Legal(t, h, op)
  {
    match op
    case Add(c, item, back) => Added(t, h, c, item, if back then h[c].contents + [item] else [item] + h[c].contents)
    case Update(c, item, id, count) => Updated(t, h, c, item, id, count)
    case Replace(c, i, item) => Replaced(t, h, c, i, item)
    case Remove(c, item, i) => Removed(t, h, c, item, i)
  }

  // removeThing
  ghost function Removal(t: ItemTable, h: Forest, c: Item, item: Item, i: nat, n: nat): Operation
    requires item in h
  {
    if t(h[item].id).stackable && n != h[item].count then Update(c, item, h[item].id, Left(h[item].count, n))
    else Remove(c, item, i)
  }

  // Another total apart, the fields are the same.
  predicate SameButTotal(a: Cell, b: Cell) {
    a == b.(total := a.total)
  }

  lemma PushUpKeepsFields(h: Forest, c: Item, diff: int, x: Item)
    requires c in h && Acyclic(h) && x in h
    ensures SameButTotal(PushUp(h, c, diff)[x], h[x])
  {
    PushUpEffect(h, c, diff, x);
  }

  /** What an added item, its container and everything else become: first in the list, or last. */
  lemma AddIs(t: ItemTable, h: Forest, c: Item, item: Item, back: bool, x: Item)
    requires Legal(t, h, Add(c, item, back)) && x in h
    ensures x in Apply(t, h, Add(c, item, back))
    ensures var (n, list) := (Apply(t, h, Add(c, item, back))[x], h[c].contents);
            && n.id == h[x].id && n.count == h[x].count && n.parent == (if x == item then c else h[x].parent)
            && n.contents == if x != c then h[x].contents else if back then list + [item] else [item] + list
  {
    var contents := if back then h[c].contents + [item] else [item] + h[c].contents;
    AttachKeepsAcyclic(h, c, item, contents);
    PushUpKeepsFields(Attached(h, c, item, contents), c, Weight(t, h, item), x);
  }

  /** A member gets its new id and count; nothing else changes. */
  lemma UpdateIs(t: ItemTable, h: Forest, c: Item, item: Item, id: int, count: nat, x: Item)
    requires Legal(t, h, Update(c, item, id, count)) && x in h
    ensures x in Apply(t, h, Update(c, item, id, count))
    ensures var n := Apply(t, h, Update(c, item, id, count))[x];
            && n.id == (if x == item then id else h[x].id) && n.count == (if x == item then count else h[x].count)
            && n.parent == h[x].parent && n.contents == h[x].contents
  {
    var g := Changed(h, item, id, count);
    PushUpKeepsFields(g, c, Weight(t, g, item) - Weight(t, h, item), x);
  }

  /** The new item stands in the place of the old one, which is loose then. */
  lemma ReplaceIs(t: ItemTable, h: Forest, c: Item, i: nat, item: Item, x: Item)
    requires Legal(t, h, Replace(c, i, item)) && x in h
    ensures x in Apply(t, h, Replace(c, i, item))
    ensures var (n, list) := (Apply(t, h, Replace(c, i, item))[x], h[c].contents);
            && n.id == h[x].id && n.count == h[x].count
            && n.parent == (if x == item then c else if x == list[i] then null else h[x].parent)
            && n.contents == if x == c then list[i := item] else h[x].contents
  {
    ExchangeIs(h, c, i, item, x);
    PushUpKeepsFields(Exchanged(h, c, i, item), c, Weight(t, h, item) - Weight(t, h, h[c].contents[i]), x);
  }

  lemma ExchangeIs(h: Forest, c: Item, i: nat, item: Item, x: Item)
    requires Linked(h) && Acyclic(h) && c in h && c.isContainer && item in h && h[item].parent == null
             && Fits(h, c, item)
    requires i < |h[c].contents| && h[c].contents[i] in h && x in h
    ensures var (n, list) := (Exchanged(h, c, i, item)[x], h[c].contents);
            && n.id == h[x].id && n.count == h[x].count
            && n.parent == (if x == item then c else if x == list[i] then null else h[x].parent)
            && n.contents == if x == c then list[i := item] else h[x].contents
  {
    assert LinkedAt(h, c) && h[c].contents[i] in h[c].contents;
  }

  /** A member is out of the list, and loose; the others keep their order. */
  lemma RemoveIs(t: ItemTable, h: Forest, c: Item, item: Item, i: nat, x: Item)
    requires Legal(t, h, Remove(c, item, i)) && x in h
    ensures x in Apply(t, h, Remove(c, item, i))
    ensures var (n, list) := (Apply(t, h, Remove(c, item, i))[x], h[c].contents);
            && n.id == h[x].id && n.count == h[x].count && n.parent == (if x == item then null else h[x].parent)
            && n.contents == if x == c then list[..i] + list[i + 1..] else h[x].contents
  {
    var diff := -Weight(t, h, item);
    PushUpKeepsFields(h, c, diff, x);
    PushUpKeepsFields(h, c, diff, c);
    PushUpKeepsFields(h, c, diff, item);
  }

  lemma OperationKeepsValid(t: ItemTable, h: Forest, op: Operation)
    requires Valid(t, h) && Legal(t, h, op)
    ensures Valid(t, Apply(t, h, op))
  {
    match op
    case Add(c, item, back) =>
      var contents := if back then h[c].contents + [item] else [item] + h[c].contents;
      var i := if back then |h[c].contents| else 0;
      assert Without(contents, i) == h[c].contents;
      AddKeepsValid(t, h, c, item, contents, i);
    case Update(c, item, id, count) => UpdateKeepsValid(t, h, c, item, id, count);
    case Replace(c, i, item) => ReplaceKeepsValid(t, h, c, i, item);
    case Remove(c, item, i) => RemoveKeepsValid(t, h, c, item, i);
  }

  ghost predicate LegalRun(t: ItemTable, h: Forest, ops: seq<Operation>)
    decreases |ops|
  {
    ops != [] ==> Legal(t, h, ops[0]) && LegalRun(t, Apply(t, h, ops[0]), ops[1..])
  }

  ghost function Run(t: ItemTable, h: Forest, ops: seq<Operation>): Forest
    requires LegalRun(t, h, ops)
    decreases |ops|
  {
    if ops == [] then h else Run(t, Apply(t, h, ops[0]), ops[1..])
  }

  // After any run every cached total is the true weight of everything inside, at every level.
  lemma {:induction false} RunKeepsWeightsTrue(t: ItemTable, h: Forest, ops: seq<Operation>)
    requires Valid(t, h) && LegalRun(t, h, ops)
    ensures var g := Run(t, h, ops);
            && Valid(t, g)
            && forall x :: x in g && x.isContainer ==>
                LinkedAt(g, x) && g[x].total == TrueContents(t, g, x, g[x].contents)
    decreases |ops|
  {
    if ops == [] {
      forall x | x in h && x.isContainer
        ensures LinkedAt(h, x) && h[x].total == TrueContents(t, h, x, h[x].contents)
      {
        BalancedIsTrue(t, h, x);
      }
    } else {
      OperationKeepsValid(t, h, ops[0]);
      RunKeepsWeightsTrue(t, Apply(t, h, ops[0]), ops[1..]);
    }
  }
}
