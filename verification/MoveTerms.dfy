/** What the questions before a move or an add come to, said of the items, their lists and the
    numbers of the source alone (queryAdd, queryMaxCount, queryRemove and queryDestination in
    engine/src/container.cpp, internalMoveItem in engine/src/game.cpp). */
module MoveTerms {
  import opened Common
  import opened Containers
  import opened ContainerIteration
  import opened ItemMoves

  // ----- queryAdd ------------------------------------------------------------------------

  lemma {:induction false} InInboxIff(h: Forest, c: Item)
    requires c in h && Shaped(h)
    ensures InInbox(h, c) <==> exists a :: Contains(h, a, c) && a.isInbox
    decreases h[c].depth
  {
    var p := h[c].parent;
    if p != null {
      InInboxIff(h, p);
      if InInbox(h, c) {
        if p.isInbox {
          assert Contains(h, p, c);
        } else {
          var a :| Contains(h, a, p) && a.isInbox;
          assert Contains(h, a, c);
        }
      }
      if exists a :: Contains(h, a, c) && a.isInbox {
        var a :| Contains(h, a, c) && a.isInbox;
        assert a == p || Contains(h, a, p);
      }
    }
  }

  /** A container takes an item exactly when it is unlocked, the item can be picked up, is not the
      container and does not contain it; nothing above is an inbox and, without an index, there
      is a slot or another page, unless limits are ignored; the container asked for the limits
      has room under them; a quiver gets ammunition; and whoever holds it all agrees. */
  lemma TakesIff(t: ItemTable, h: Forest, c: Item, index: int, item: Item, flags: Flags, limits: Limits, top: Item)
    requires Shaped(h) && c in h && item in h && top in h
    requires if h[c].parent == null then top == c
             else h[top].parent == Outermost(h, c) && (top == c || Contains(h, top, c))
    ensures Takes(t, h, c, index, item, flags, limits) <==>
              && c.unlocked && t(h[item].id).pickupable && item != c && !Contains(h, item, c)
              && (!flags.noLimit ==>
                    && (forall a :: Contains(h, a, c) ==> !a.isInbox)
                    && (index == -1 ==> |h[c].contents| < c.maxSize || c.pagination))
              && Count(h, top, Any) + 1 <= limits.maxItem
              && (item.isContainer ==>
                    && Count(h, item, IsContainer) + 1 + Count(h, top, IsContainer) <= limits.maxContainer
                    && Count(h, item, Any) + 1 + Count(h, top, Any) <= limits.maxItem)
              && (t(h[c].id).quiver ==> t(h[item].id).ammo)
              && limits.carrier == NOERROR
  {
    InInboxIff(h, c);
    TopParentIs(h, c);
    TopIs(h, c, top);
  }

  // Only one container on the way up lies just inside the outermost one.
  lemma {:induction false} TopIs(h: Forest, c: Item, top: Item)
    requires Shaped(h) && c in h && top in h
    requires if h[c].parent == null then top == c
             else h[top].parent == Outermost(h, c) && (top == c || Contains(h, top, c))
    ensures top == TopParent(h, c)
    decreases h[c].depth
  {
    var p := h[c].parent;
    if p != null && h[p].parent != null {
      OutermostIsOutside(h, p);
      TopIs(h, p, top);
    }
  }

  lemma OutermostIsOutside(h: Forest, p: Item)
    requires Shaped(h) && p in h && h[p].parent != null
    ensures Outermost(h, p) != p
  {
  }

  // ----- queryMaxCount -----------------------------------------------------------------------

  // The other stacks of the same id and attributes, where not full.
  ghost function OpenStacks(h: Forest, xs: seq<Item>, item: Item): seq<Item>
    requires item in h
  {
    if xs == [] then []
    else (if MayJoin(h, xs[0], item) then [xs[0]] else []) + OpenStacks(h, xs[1..], item)
  }

  // What these lack of a hundred each.
  lemma {:induction false} RoomOnIs(h: Forest, xs: seq<Item>, item: Item)
    requires item in h
    ensures RoomOn(h, xs, item) + CountIn(h, OpenStacks(h, xs, item), h[item].id) == 100 * |OpenStacks(h, xs, item)|
  {
    if xs != [] {
      RoomOnIs(h, xs[1..], item);
      var rest := OpenStacks(h, xs[1..], item);
      if MayJoin(h, xs[0], item) {
        assert OpenStacks(h, xs, item) == [xs[0]] + rest && ([xs[0]] + rest)[1..] == rest;
        assert RoomOn(h, xs, item) == 100 - h[xs[0]].count + RoomOn(h, xs[1..], item);
        assert CountIn(h, [xs[0]] + rest, h[item].id) == h[xs[0]].count + CountIn(h, rest, h[item].id);
      } else {
        assert [] + rest == rest;
      }
    }
  }

  /** With limits off or pages to come the number is what was asked for, at least one; for single
      items it is the free slots; for stacks a hundred for each free slot and, where the item is
      taken, what the open stacks lack of a hundred each, or what the one at the index lacks. */
  lemma MaxCountIs(t: ItemTable, h: Forest, c: Item, index: int, item: Item, count: nat, flags: Flags, limits: Limits)
    requires Shaped(h) && c in h && item in h && index >= -1
    ensures var (n, slots, size) := (MaxCount(t, h, c, index, item, count, flags, limits),
                                     c.maxSize - |h[c].contents|, |h[c].contents|);
            var (free, open) := (if slots < 0 then 0 else slots, OpenStacks(h, h[c].contents, item));
            && (flags.noLimit || c.pagination ==> n == if count == 0 then 1 else count)
            && (!flags.noLimit && !c.pagination && !t(h[item].id).stackable ==> n == free)
            && (!flags.noLimit && !c.pagination && t(h[item].id).stackable ==>
                  && (index == -1 && Takes(t, h, c, 0, item, flags, limits) ==>
                        n + CountIn(h, open, h[item].id) == 100 * (free + |open|))
                  && (index == -1 && !Takes(t, h, c, 0, item, flags, limits) ==> n == 100 * free)
                  && (index >= 0 && (index >= size || !Takes(t, h, c, index, item, flags, limits)) ==> n == 100 * free)
                  && (0 <= index < size && Takes(t, h, c, index, item, flags, limits)
                      && h[c].contents[index] != item ==>
                        n == 100 * free + if MayJoin(h, h[c].contents[index], item) then
                            100 - h[h[c].contents[index]].count
                                          else 0))
  {
    RoomOnIs(h, h[c].contents, item);
  }

  // ----- The way and the answer of a move ------------------------------------------------------

  /** Where the first answer is another container, that one is asked, without index and flags, and
      the item goes to its first stack to join or to none. */
  lemma WayIs(t: ItemTable, h: Forest, q: Request)
    requires Good(t, h) && Asks(h, q)
    ensures var (r, first) := (Way(t, h, q), Destination(t, h, q.to, q.index, q.item, q.flags));
            && r.target.dest == first.dest
            && (first.dest == q.to ==> r == Route(first, q.flags))
            && (first.dest != q.to ==>
                  && r.flags == Flags(false, false, false, false)
                  && (r.target.item == null ==> r.target.index == -1)
                  && (r.target.item != null ==>
                        && r.target.dest.unlocked && t(h[q.item].id).stackable && h[q.item].parent != r.target.dest
                        && IsFirstToJoin(h, r.target.dest, q.item, r.target.index)
                        && r.target.item == h[r.target.dest].contents[r.target.index])
                  && (r.target.dest.unlocked && t(h[q.item].id).stackable && h[q.item].parent != r.target.dest ==>
                        forall k :: IsFirstToJoin(h, r.target.dest, q.item, k) ==>
                          r.target.index == k && r.target.item == h[r.target.dest].contents[k]))
  {
    RouteIsTarget(t, h, q.to, q.index, q.item, q.flags);
    DestinationIsTarget(t, h, q.to, q.index, q.item, q.flags);
    var first := Destination(t, h, q.to, q.index, q.item, q.flags);
    if first.dest != q.to {
      DestinationIs(t, h, first.dest, first.index, q.item, NO_FLAGS,
                    Destination(t, h, first.dest, first.index, q.item, NO_FLAGS));
    }
  }

  /** Something moves exactly when the item is not at its target already, the destination takes it,
      the source has it and as many of it as are to move, at least one, it is movable or that is
      ignored, and the destination is not, and does not lie in, what is being traded away. */
  lemma GoesIff(t: ItemTable, h: Forest, q: Request)
    requires Good(t, h) && Asks(h, q)
    ensures var r := Way(t, h, q);
            var (d, most, has) := (r.target, MaxToMove(t, h, q), h[q.item].count);
            var wanted := if q.count < most then q.count else most;
            var n := if !t(h[q.item].id).stackable then most else if wanted == 255 then has else wanted;
            Goes(t, h, q) <==>
              && d.item != q.item && Takes(t, h, d.dest, d.index, q.item, r.flags, q.limits)
              && q.item in h[q.from].contents && n > 0 && (t(h[q.item].id).stackable ==> n <= has)
              && (t(h[q.item].id).moveable || r.flags.ignoreNotMoveable)
              && (q.tradeItem == null || (d.dest != q.tradeItem && !Contains(h, q.tradeItem, d.dest)))
  {
  }
  /** An add succeeds exactly when the first answer, asked once, takes the item, and the container
      given, asked without an index, has room for the whole of a stack or for one other item. */
  lemma AddsIff(t: ItemTable, h: Forest, c: Item, index: int, item: Item, flags: Flags, limits: Limits)
    requires Good(t, h) && c in h && item in h && index >= -1
    ensures var d := Destination(t, h, c, index, item, flags);
            var (free, open) := (if c.maxSize < |h[c].contents| then 0 else c.maxSize - |h[c].contents|,
                                 OpenStacks(h, h[c].contents, item));
            Adds(t, h, c, index, item, flags, limits) <==>
              && Takes(t, h, d.dest, d.index, item, flags, limits)
              && if flags.noLimit || c.pagination then true
                 else if !t(h[item].id).stackable then free > 0
                 else if Takes(t, h, c, 0, item, flags, limits) then
                   h[item].count + CountIn(h, open, h[item].id) <= 100 * (free + |open|)
                 else h[item].count <= 100 * free
  {
    MaxCountIs(t, h, c, -1, item, h[item].count, flags, limits);
  }
}
