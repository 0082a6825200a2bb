/** When a move loses part of what it takes out, and when an add that succeeds does not add
    everything (internalMoveItem and internalAddItem in engine/src/game.cpp, queryDestination and
    addThing in engine/src/container.cpp): addThing drops what comes in at an index behind the
    capacity, and an add may leave a remainder. */
module MoveLosses {
  import opened Common
  import opened Containers
  import opened ContainerIteration
  import opened ItemMoves

  /** A move loses something exactly when its index lies behind the capacity of its destination
      and not all of it joins the stack found there. */
  lemma LosesIff(t: ItemTable, h: Forest, q: Request)
    requires Good(t, h) && Asks(h, q) && Goes(t, h, q)
    ensures Arriving(t, h, q) <= Leaving(t, h, q)
    ensures var d := Way(t, h, q).target;
            Arriving(t, h, q) < Leaving(t, h, q) <==>
              && d.index >= d.dest.maxSize
              && if t(h[q.item].id).stackable then Joining(h, q.item, d.item, ToMove(t, h, q)) < ToMove(t, h, q)
                 else h[q.item].count > 0
  {
  }

  // Everything asked for moves in a success; what else moves is what there is room for.
  lemma SuccessMovesAll(t: ItemTable, h: Forest, q: Request)
    requires Good(t, h) && Asks(h, q) && Goes(t, h, q)
    ensures Leaving(t, h, q) <= h[q.item].count
    ensures t(h[q.item].id).stackable && q.count <= MaxToMove(t, h, q) ==>
              Leaving(t, h, q) == if q.count == 255 then h[q.item].count else q.count
    ensures t(h[q.item].id).stackable ==> 0 < Leaving(t, h, q) <= MaxToMove(t, h, q)
    ensures !t(h[q.item].id).stackable ==> Leaving(t, h, q) == h[q.item].count
  {
    assert LinkedAt(h, q.from) && StackOk(t, h, q.item);
  }

  /** On one page and within the limits nothing is lost, whatever the index. */
  lemma OnePageLosesNothing(t: ItemTable, h: Forest, q: Request)
    requires Good(t, h) && Asks(h, q) && Goes(t, h, q)
    requires !Way(t, h, q).target.dest.pagination && !q.flags.noLimit
    ensures Arriving(t, h, q) == Leaving(t, h, q)
  {
    assert LinkedAt(h, q.from) && StackOk(t, h, q.item);
  }

  // Without an index: the container itself, and never the item itself.
  lemma WhereeverWay(t: ItemTable, h: Forest, q: Request)
    requires Good(t, h) && Asks(h, q) && q.index == WHEREEVER
    ensures var r := Way(t, h, q); r.target.dest == q.to && r.flags == q.flags && r.target.item != q.item
  {
    WhereeverDestination(t, h, q.to, q.item, q.flags);
  }

  // The first stack that the moved item may join lies behind the capacity, and has too little room.
  ghost predicate JoinsTooFarBack(t: ItemTable, h: Forest, q: Request)
    requires Asks(h, q)
  {
    var contents := h[q.to].contents;
    var n := FirstStack(h, contents, q.item);
    && t(h[q.item].id).stackable && !q.flags.ignoreAutoStack && h[q.item].parent != q.to
    && q.to.maxSize <= n < |contents|
    && RoomAt(h, contents[n], q.item) < if q.count == 255 then h[q.item].count else q.count
  }

  /** A move without an index loses something exactly when the destination has further pages, or
      FLAG_NOLIMIT is given, and the first stack to join lies behind the capacity with too little
      room. */
  lemma WhereeverLosesIff(t: ItemTable, h: Forest, q: Request)
    requires Good(t, h) && Asks(h, q) && Goes(t, h, q) && q.index == WHEREEVER
    ensures Arriving(t, h, q) < Leaving(t, h, q) <==>
              (q.to.pagination || q.flags.noLimit) && JoinsTooFarBack(t, h, q)
  {
    WhereeverWay(t, h, q);
    assert LinkedAt(h, q.from) && StackOk(t, h, q.item);
    if !(q.to.pagination || q.flags.noLimit) {
      OnePageLosesNothing(t, h, q);
    } else {
      assert t(h[q.item].id).stackable ==> ToMove(t, h, q) == if q.count == 255 then h[q.item].count else q.count;
    }
  }

  // ----- What adding loses -------------------------------------------------------------------

  // The index that queryDestination takes as it is.
  ghost predicate IsPlace(h: Forest, c: Item, index: int)
    requires c in h
  {
    && 0 <= index && index != MOVE_UP && index != ADD_WHEREVER && (index < c.maxSize || c.pagination)
    && (index < |h[c].contents| ==> !h[c].contents[index].isContainer)
  }

  // The place lies on a later page, and the item joins no stack.
  ghost predicate LandsBehind(t: ItemTable, h: Forest, c: Item, index: int, item: Item, flags: Flags)
    requires c in h && item in h
  {
    var contents := h[c].contents;
    && IsPlace(h, c, index) && index >= c.maxSize && h[item].count > 0
    && (t(h[item].id).stackable ==>
          && (flags.ignoreAutoStack || FirstStack(h, contents, item) == |contents|)
          && RoomAtIndex(h, c, index, item) == 0)
  }

  // The stack at the place takes a part only, and the rest is to have a slot of its own where
  // none is free.
  ghost predicate Overflows(t: ItemTable, h: Forest, c: Item, index: int, item: Item, flags: Flags)
    requires c in h && item in h
  {
    && t(h[item].id).stackable && flags.ignoreAutoStack && NoSlotFree(h, c, flags)
    && IsPlace(h, c, index) && 0 < RoomAtIndex(h, c, index, item) < h[item].count
  }

  lemma DroppedIff(t: ItemTable, h: Forest, c: Item, index: int, item: Item, flags: Flags, limits: Limits)
    requires Good(t, h) && c in h && c.isContainer && item in h && h[item].parent == null && index >= WHEREEVER
    requires Adds(t, h, c, index, item, flags, limits)
    ensures var d := Destination(t, h, c, index, item, flags);
            Dropped(t, h, d, item) > 0 <==> LandsBehind(t, h, c, index, item, flags)
  {
    DestinationIsTarget(t, h, c, index, item, flags);
  }

  lemma RemainderIff(t: ItemTable, h: Forest, c: Item, index: int, item: Item, flags: Flags, limits: Limits)
    requires Good(t, h) && c in h && c.isContainer && item in h && h[item].parent == null && index >= WHEREEVER
    requires Adds(t, h, c, index, item, flags, limits)
    ensures var d := Destination(t, h, c, index, item, flags);
            Remainder(t, h, d, item, flags) > 0 <==> Overflows(t, h, c, index, item, flags)
  {
    DestinationIsTarget(t, h, c, index, item, flags);
    assert LinkedAt(h, c);
  }

  /** An add that succeeds adds exactly the count of the item unless its place lies behind the
      capacity and it joins no stack there, or the stack at its place overflows with auto-stack
      off and no slot free. */
  lemma AddsAllIff(t: ItemTable, h: Forest, c: Item, index: int, item: Item, flags: Flags, limits: Limits)
    requires Good(t, h) && c in h && c.isContainer && item in h && h[item].parent == null && index >= WHEREEVER
    requires Adds(t, h, c, index, item, flags, limits)
    ensures var d := Destination(t, h, c, index, item, flags);
            Gained(t, h, d, item, flags) == h[item].count <==>
              !LandsBehind(t, h, c, index, item, flags) && !Overflows(t, h, c, index, item, flags)
  {
    DroppedIff(t, h, c, index, item, flags, limits);
    RemainderIff(t, h, c, index, item, flags, limits);
  }

  /** Without an index everything is added and nothing is left over; with auto-stack on, a
      container that has been asked and has room for all succeeds. */
  lemma WhereeverAddsAll(t: ItemTable, h: Forest, c: Item, item: Item, flags: Flags, limits: Limits)
    requires Good(t, h) && c in h && c.isContainer && item in h && h[item].parent == null
    ensures var d := Destination(t, h, c, WHEREEVER, item, flags);
            d.dest == c && Gained(t, h, d, item, flags) == h[item].count && Remainder(t, h, d, item, flags) == 0
    ensures t(h[item].id).stackable && h[item].count >= 1 && CanTakeAll(t, h, c, item, flags, limits) ==>
              (Adds(t, h, c, WHEREEVER, item, flags, limits) <==> !(flags.ignoreAutoStack && NoSlotFree(h, c, flags)))
  {
    WhereeverAdds(t, h, c, item, flags, limits);
  }

  // ----- A gold pouch that loses coins -----------------------------------------------------

  const COIN := 2148
  const POUCH := 26377
  const BAG := 1987

  function Coinage(id: int): ItemType {
    ItemType(n => 0, id == COIN, true, true, true, false, false)
  }

  // A pouch with 25 slots to a page, a bag, and coins to fill them.
  ghost predicate IsPouchAndBag(pouch: Item, bag: Item, coins: seq<Item>) {
    && pouch.isContainer && pouch.unlocked && pouch.pagination && pouch.maxSize == 25
    && bag.isContainer && pouch != bag
    && |coins| == 27 && Distinct(coins)
    && forall x :: x in coins ==> !x.isContainer && x.attributes == 0
  }

  // Full stacks on the first page, a stack of 99 on the second, and 50 coins in the bag.
  ghost function PouchAndBag(pouch: Item, bag: Item, coins: seq<Item>): Forest
    requires IsPouchAndBag(pouch, bag, coins)
  {
    map x | x in [pouch, bag] + coins ::
      if x == pouch then Cell(POUCH, 1, null, coins[..26], 0, 0)
      else if x == bag then Cell(BAG, 1, null, [coins[26]], 0, 0)
      else if x == coins[26] then Cell(COIN, 50, bag, [], 0, 1)
      else Cell(COIN, if x == coins[25] then 99 else 100, pouch, [], 0, 1)
  }

  lemma {:induction false} CoinsWeighNothing(h: Forest, xs: seq<Item>)
    requires forall x :: x in xs ==> x in h && !x.isContainer
    ensures SumOfWeights(Coinage, h, xs) == 0
  {
    if xs != [] {
      CoinsWeighNothing(h, xs[1..]);
    }
  }

  lemma PouchAndBagIsLinked(pouch: Item, bag: Item, coins: seq<Item>)
    requires IsPouchAndBag(pouch, bag, coins)
    ensures Shaped(PouchAndBag(pouch, bag, coins))
  {
    var h := PouchAndBag(pouch, bag, coins);
    forall x | x in h
      ensures LinkedAt(h, x)
    {
      if x in coins {
        var k :| 0 <= k < |coins| && coins[k] == x;
        assert k < 26 ==> coins[..26][k] == x;
      }
    }
  }

  lemma PouchAndBagIsGood(pouch: Item, bag: Item, coins: seq<Item>)
    requires IsPouchAndBag(pouch, bag, coins)
    ensures Good(Coinage, PouchAndBag(pouch, bag, coins))
  {
    var h := PouchAndBag(pouch, bag, coins);
    PouchAndBagIsLinked(pouch, bag, coins);
    forall x | x in h
      ensures BalancedAt(Coinage, h, x) && StackOk(Coinage, h, x)
    {
      assert LinkedAt(h, x);
      CoinsWeighNothing(h, h[x].contents);
    }
  }

  /** 50 coins moved into the pouch: the move succeeds, one coin joins the stack of 99, and 49
      are gone. */
  lemma PouchLosesCoins(pouch: Item, bag: Item, coins: seq<Item>) returns (h: Forest, q: Request)
    requires IsPouchAndBag(pouch, bag, coins)
    ensures Good(Coinage, h) && Asks(h, q) && q.to == pouch && q.index == WHEREEVER && q.flags == NO_FLAGS
    ensures Goes(Coinage, h, q) && q.count <= MaxToMove(Coinage, h, q)
    ensures Leaving(Coinage, h, q) == 50 && Arriving(Coinage, h, q) == 1
  {
    h := PouchAndBag(pouch, bag, coins);
    PouchAndBagIsGood(pouch, bag, coins);
    var item := coins[26];
    q := Request(bag, pouch, WHEREEVER, item, 50, NO_FLAGS, Limits(Count(h, pouch, Any) + 1, 0, NOERROR), null);
    var n := FirstStack(h, h[pouch].contents, item);
    assert h[pouch].contents[25] == coins[25] && RoomAt(h, coins[25], item) == 1;
    assert n == 25;
    assert item in h[bag].contents;
  }

  // ----- Adds that succeed and add less ------------------------------------------------------

  // An empty pouch, and a stack of coins that is nowhere yet.
  ghost function EmptyPouch(pouch: Item, coin: Item, count: nat): Forest {
    map[pouch := Cell(POUCH, 1, null, [], 0, 0), coin := Cell(COIN, count, null, [], 0, 0)]
  }

  /** A stack of coins added to the first slot of the second page of an empty pouch: the add
      succeeds, and nothing is added. */
  lemma PouchDropsCoins(pouch: Item, coin: Item, count: nat) returns (h: Forest, limits: Limits)
    requires pouch.isContainer && pouch.unlocked && pouch.pagination && pouch.maxSize == 25
    requires !coin.isContainer && 1 <= count <= STACK
    ensures Good(Coinage, h) && pouch in h && coin in h && h[coin].parent == null && h[coin].count == count
    ensures Adds(Coinage, h, pouch, 25, coin, NO_FLAGS, limits)
    ensures Gained(Coinage, h, Destination(Coinage, h, pouch, 25, coin, NO_FLAGS), coin, NO_FLAGS) == 0
  {
    h := EmptyPouch(pouch, coin, count);
    assert forall x :: x in h ==> LinkedAt(h, x) && BalancedAt(Coinage, h, x) && StackOk(Coinage, h, x);
    limits := Limits(Count(h, pouch, Any) + 1, 0, NOERROR);
  }

  // A bag with as many stacks of coins as it has slots, 99 in the first, 60 in the second and 100
  // in each of the others; and 41 coins that are nowhere yet.
  ghost predicate IsFullBag(bag: Item, coins: seq<Item>) {
    && bag.isContainer && bag.unlocked && !bag.pagination && bag.maxSize == 8
    && |coins| == 9 && Distinct(coins) && forall x :: x in coins ==> !x.isContainer && x.attributes == 0
  }

  ghost function FullBag(bag: Item, coins: seq<Item>): Forest
    requires IsFullBag(bag, coins)
  {
    map x | x in [bag] + coins ::
      if x == bag then Cell(BAG, 1, null, coins[..8], 0, 0)
      else if x == coins[8] then Cell(COIN, 41, null, [], 0, 1)
      else Cell(COIN, if x == coins[0] then 99 else if x == coins[1] then 60 else 100, bag, [], 0, 1)
  }

  lemma FullBagIsGood(bag: Item, coins: seq<Item>)
    requires IsFullBag(bag, coins)
    ensures Good(Coinage, FullBag(bag, coins))
  {
    var h := FullBag(bag, coins);
    forall x | x in h
      ensures LinkedAt(h, x)
    {
      if x in coins {
        var k :| 0 <= k < |coins| && coins[k] == x;
        assert k < 8 ==> coins[..8][k] == x;
      }
    }
    forall x | x in h
      ensures BalancedAt(Coinage, h, x) && StackOk(Coinage, h, x)
    {
      assert LinkedAt(h, x);
      CoinsWeighNothing(h, h[x].contents);
    }
  }

  // The stacks of the bag have room for 41 coins.
  lemma FullBagHasRoom(bag: Item, coins: seq<Item>)
    requires IsFullBag(bag, coins)
    ensures RoomOn(FullBag(bag, coins), coins[..8], coins[8]) >= 41
  {
    var h, xs := FullBag(bag, coins), coins[..8];
    assert xs[0] == coins[0] && xs[1..][0] == coins[1];
    assert RoomOn(h, xs, coins[8]) == 1 + RoomOn(h, xs[1..], coins[8]);
    assert RoomOn(h, xs[1..], coins[8]) == 40 + RoomOn(h, xs[1..][1..], coins[8]);
  }

  /** 41 coins added to the first slot of a full bag with FLAG_IGNOREAUTOSTACK: its stacks have
      room for them all, so the add succeeds; one coin joins the first stack, and 40 are left
      over. */
  lemma BagOverflows(bag: Item, coins: seq<Item>) returns (h: Forest, flags: Flags, limits: Limits)
    requires IsFullBag(bag, coins)
    ensures Good(Coinage, h) && bag in h && coins[8] in h && h[coins[8]].parent == null && h[coins[8]].count == 41
    ensures Adds(Coinage, h, bag, 0, coins[8], flags, limits)
    ensures var d := Destination(Coinage, h, bag, 0, coins[8], flags);
            Gained(Coinage, h, d, coins[8], flags) == 1 && Remainder(Coinage, h, d, coins[8], flags) == 40
  {
    h := FullBag(bag, coins);
    FullBagIsGood(bag, coins);
    FullBagHasRoom(bag, coins);
    flags := NO_FLAGS.(ignoreAutoStack := true);
    limits := Limits(Count(h, bag, Any) + 1, 0, NOERROR);
    assert h[bag].contents[0] == coins[0];
  }
}
