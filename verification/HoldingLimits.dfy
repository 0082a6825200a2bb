/** Which container the limits on items and containers are asked of (getTopParentContainer and
    queryAdd in engine/src/container.cpp), and what follows for the outermost one. */
module HoldingLimits {
  import opened Containers
  import opened ContainerIteration
  import opened ItemMoves

  // A container holds more than any of its members.
  lemma MemberHoldsLess(h: Forest, c: Item, x: Item)
    requires Shaped(h) && x in h && h[x].parent == c
    ensures c in h && Count(h, x, Any) + 1 <= Count(h, c, Any)
  {
    assert LinkedAt(h, x) && LinkedAt(h, c);
    MemberCounts(h, c, h[c].contents, x);
  }

  lemma {:induction false} MemberCounts(h: Forest, c: Item, ys: seq<Item>, x: Item)
    requires Shaped(h) && c in h && (forall y :: y in ys ==> y in h && h[y].parent == c) && x in ys
    ensures Count(h, x, Any) + 1 <= CountBelow(h, c, ys, Any)
    decreases |ys|
  {
    if ys[0] != x {
      MemberCounts(h, c, ys[1..], x);
    }
  }

  lemma OnlyContainersHold(h: Forest, x: Item)
    requires Shaped(h) && x in h
    ensures !x.isContainer ==> Count(h, x, Any) == 0
  {
    assert LinkedAt(h, x);
  }

  // The limits that just let the item in.
  ghost function JustEnough(h: Forest, top: Item, item: Item): Limits
    requires Shaped(h) && top in h && item in h
  {
    Limits(Count(h, top, Any) + 1 + Count(h, item, Any), Count(h, item, IsContainer) + 1 + Count(h, top, IsContainer),
           NOERROR)
  }

  /** An item that a container takes stays within the limits of the outermost container, whatever
      these are, exactly when the container lies in no other. */
  lemma LimitsKeptIff(t: ItemTable, h: Forest, c: Item, index: int, item: Item, flags: Flags, some: Limits)
    requires Shaped(h) && c in h && item in h && Takes(t, h, c, index, item, flags, some)
    ensures (forall limits :: Takes(t, h, c, index, item, flags, limits) ==>
            WithinLimits(h, Outermost(h, c), item, limits))
            <==> h[c].parent == null
  {
    TopParentIs(h, c);
    if h[c].parent != null {
      var top := TopParent(h, c);
      var limits := JustEnough(h, top, item);
      MemberHoldsLess(h, Outermost(h, c), top);
      assert Takes(t, h, c, index, item, flags, limits);
      OnlyContainersHold(h, item);
      assert !WithinLimits(h, Outermost(h, c), item, limits);
    }
  }

  // ----- A bag in a backpack ---------------------------------------------------------------

  const BAG := 1987
  const BACKPACK := 1988

  ghost function BagInBackpack(backpack: Item, bag: Item, item: Item, id: int): Forest {
    map[backpack := Cell(BACKPACK, 1, null, [bag], 0, 0), bag := Cell(BAG, 1, backpack, [], 0, 1),
        item := Cell(id, 1, null, [], 0, 0)]
  }

  /** A limit of one item, and a backpack that holds it already, an empty bag: the bag takes
      another. */
  lemma BagTakesTooMuch(t: ItemTable, backpack: Item, bag: Item, item: Item, id: int)
    returns (h: Forest, limits: Limits)
    requires backpack.isContainer && bag.isContainer && backpack != bag && !item.isContainer
    requires !backpack.isInbox && bag.unlocked && bag.maxSize == 8 && t(id).pickupable && !t(BAG).quiver
    ensures Shaped(h) && bag in h && item in h && h[bag].parent == backpack == Outermost(h, bag)
    ensures Takes(t, h, bag, WHEREEVER, item, NO_FLAGS, limits)
    ensures Count(h, Outermost(h, bag), Any) + 1 > limits.maxItem == 1
  {
    h := BagInBackpack(backpack, bag, item, id);
    limits := Limits(1, 1, NOERROR);
    assert forall x :: x in h ==> LinkedAt(h, x);
    assert Outermost(h, backpack) == backpack;
    MemberHoldsLess(h, backpack, bag);
    assert TopParent(h, bag) == bag && Count(h, bag, Any) == 0;
    LooseFits(h, bag, item);
  }
}
