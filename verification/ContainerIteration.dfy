/** Walking through everything inside a container (ContainerIterator in
    engine/src/container.cpp), and what the holding counts count. */
module ContainerIteration {
  import opened Common
  import opened Containers

  // ----- Counting by recursion -----------------------------------------------------------

  ghost predicate Shaped(h: Forest) {
    Linked(h) && Acyclic(h)
  }

  // Everything strictly inside x that `f` counts.
  ghost function Count(h: Forest, x: Item, f: Item -> bool): nat
    requires x in h && Shaped(h)
    decreases Bound(h) - h[x].depth + 1, 0
  {
    assert LinkedAt(h, x);
    CountBelow(h, x, h[x].contents, f)
  }

  ghost function CountBelow(h: Forest, x: Item, ys: seq<Item>, f: Item -> bool): nat
    requires x in h && Shaped(h) && forall y :: y in ys ==> y in h && h[y].parent == x
    decreases Bound(h) - h[x].depth, |ys|
  {
    if ys == [] then 0 else (if f(ys[0]) then 1 else 0) + Count(h, ys[0], f) + CountBelow(h, x, ys[1..], f)
  }

  // The same over any list of items, each counted itself too.
  ghost function CountList(h: Forest, xs: seq<Item>, f: Item -> bool): nat
    requires Shaped(h)
  {
    if xs == [] then 0 else CountOne(h, xs[0], f) + CountList(h, xs[1..], f)
  }

  ghost function CountOne(h: Forest, x: Item, f: Item -> bool): nat
    requires Shaped(h)
  {
    if x in h then (if f(x) then 1 else 0) + Count(h, x, f) else 0
  }

  lemma {:induction false} CountBelowIsList(h: Forest, x: Item, ys: seq<Item>, f: Item -> bool)
    requires x in h && Shaped(h) && forall y :: y in ys ==> y in h && h[y].parent == x
    ensures CountBelow(h, x, ys, f) == CountList(h, ys, f)
    decreases |ys|
  {
    if ys != [] {
      CountBelowIsList(h, x, ys[1..], f);
    }
  }

  lemma {:induction false} CountListConcat(h: Forest, xs: seq<Item>, ys: seq<Item>, f: Item -> bool)
    requires Shaped(h)
    ensures CountList(h, xs + ys, f) == CountList(h, xs, f) + CountList(h, ys, f)
  {
    if xs == [] {
      assert xs + ys == ys;
    } else {
      assert (xs + ys)[1..] == xs[1..] + ys;
      CountListConcat(h, xs[1..], ys, f);
    }
  }

  predicate Any(x: Item) {
    true
  }

  predicate IsContainer(x: Item) {
    x.isContainer
  }

  // ----- The order of the walk -----------------------------------------------------------

  ghost function Members(h: Forest, x: Item): seq<Item> {
    if x in h then h[x].contents else []
  }

  lemma MembersCount(h: Forest, x: Item, f: Item -> bool)
    requires Shaped(h) && x in h
    ensures Count(h, x, f) == CountList(h, Members(h, x), f)
  {
    assert LinkedAt(h, x);
    CountBelowIsList(h, x, h[x].contents, f);
  }

  // The members worth looking into.
  ghost function Boxes(h: Forest, xs: seq<Item>): seq<Item> {
    if xs == [] then [] else (if Members(h, xs[0]) != [] then [xs[0]] else []) + Boxes(h, xs[1..])
  }

  lemma {:induction false} BoxesConcat(h: Forest, xs: seq<Item>, ys: seq<Item>)
    ensures Boxes(h, xs + ys) == Boxes(h, xs) + Boxes(h, ys)
  {
    if xs == [] {
      assert xs + ys == ys;
    } else {
      assert (xs + ys)[1..] == xs[1..] + ys;
      BoxesConcat(h, xs[1..], ys);
    }
  }

  lemma {:induction false} BoxesCount(h: Forest, xs: seq<Item>, f: Item -> bool)
    requires Shaped(h)
    ensures CountList(h, Boxes(h, xs), f) <= CountList(h, xs, f)
  {
    if xs != [] {
      BoxesCount(h, xs[1..], f);
      if Members(h, xs[0]) != [] {
        assert Boxes(h, xs)[1..] == Boxes(h, xs[1..]);
      } else {
        assert Boxes(h, xs) == Boxes(h, xs[1..]);
      }
    }
  }

  // One container after the other; the containers found in one are appended to the queue.
  ghost function Walk(h: Forest, queue: seq<Item>): seq<Item>
    requires Shaped(h)
    decreases CountList(h, queue, Any), |queue|
  {
    if queue == [] then []
    else
      var members := Members(h, queue[0]);
      WalkShrinks(h, queue);
      members + Walk(h, queue[1..] + Boxes(h, members))
  }

  lemma WalkShrinks(h: Forest, queue: seq<Item>)
    requires Shaped(h) && queue != []
    ensures var next := queue[1..] + Boxes(h, Members(h, queue[0]));
            CountList(h, next, Any) < CountList(h, queue, Any) || (next == queue[1..] && queue[0] !in h)
  {
    var members := Members(h, queue[0]);
    CountListConcat(h, queue[1..], Boxes(h, members), Any);
    BoxesCount(h, members, Any);
    if queue[0] in h {
      MembersCount(h, queue[0], Any);
    }
  }

  // ----- Breadth first -------------------------------------------------------------------

  ghost function MembersOf(h: Forest, level: seq<Item>): seq<Item> {
    if level == [] then [] else Members(h, level[0]) + MembersOf(h, level[1..])
  }

  lemma {:induction false} LevelShrinks(h: Forest, level: seq<Item>)
    requires Shaped(h)
    ensures CountList(h, MembersOf(h, level), Any) <= CountList(h, level, Any)
    ensures MembersOf(h, level) != [] ==> CountList(h, MembersOf(h, level), Any) < CountList(h, level, Any)
  {
    if level != [] {
      LevelShrinks(h, level[1..]);
      CountListConcat(h, Members(h, level[0]), MembersOf(h, level[1..]), Any);
      if level[0] in h {
        MembersCount(h, level[0], Any);
      }
    }
  }

  // Level by level: the members of a whole level, then those of the level below.
  ghost function Levels(h: Forest, level: seq<Item>): seq<Item>
    requires Shaped(h)
    decreases CountList(h, level, Any)
  {
    var members := MembersOf(h, level);
    if members == [] then []
    else
      LevelShrinks(h, level);
      BoxesCount(h, members, Any);
      members + Levels(h, Boxes(h, members))
  }

  lemma {:induction false} WalkThroughFront(h: Forest, front: seq<Item>, rest: seq<Item>)
    requires Shaped(h)
    ensures Walk(h, front + rest) == MembersOf(h, front) + Walk(h, rest + Boxes(h, MembersOf(h, front)))
    decreases |front|
  {
    if front == [] {
      assert front + rest == rest && rest + [] == rest;
    } else {
      var (first, tail) := (front[0], front[1..]);
      var boxes := Boxes(h, Members(h, first));
      assert (front + rest)[1..] == tail + rest;
      assert (tail + rest) + boxes == tail + (rest + boxes);
      WalkThroughFront(h, tail, rest + boxes);
      BoxesConcat(h, Members(h, first), MembersOf(h, tail));
      assert (rest + boxes) + Boxes(h, MembersOf(h, tail)) == rest + Boxes(h, MembersOf(h, front));
    }
  }

  // The walk visits the forest breadth first.
  lemma {:induction false} WalkIsLevels(h: Forest, level: seq<Item>)
    requires Shaped(h)
    ensures Walk(h, level) == Levels(h, level)
    decreases CountList(h, level, Any)
  {
    assert level + [] == level;
    WalkThroughFront(h, level, []);
    var members := MembersOf(h, level);
    assert [] + Boxes(h, members) == Boxes(h, members);
    if members != [] {
      LevelShrinks(h, level);
      BoxesCount(h, members, Any);
      WalkIsLevels(h, Boxes(h, members));
    }
  }

  // ----- Everything once -----------------------------------------------------------------

  function Tally(xs: seq<Item>, f: Item -> bool): nat {
    if xs == [] then 0 else (if f(xs[0]) then 1 else 0) + Tally(xs[1..], f)
  }

  lemma {:induction false} TallyConcat(xs: seq<Item>, ys: seq<Item>, f: Item -> bool)
    ensures Tally(xs + ys, f) == Tally(xs, f) + Tally(ys, f)
  {
    if xs == [] {
      assert xs + ys == ys;
    } else {
      assert (xs + ys)[1..] == xs[1..] + ys;
      TallyConcat(xs[1..], ys, f);
    }
  }

  lemma {:induction false} TallyAll(xs: seq<Item>)
    ensures Tally(xs, Any) == |xs|
  {
    if xs != [] {
      TallyAll(xs[1..]);
    }
  }

  // What has no members hides nothing.
  lemma {:induction false} BoxesHideAll(h: Forest, xs: seq<Item>, f: Item -> bool)
    requires Shaped(h) && forall x :: x in xs ==> x in h
    ensures CountList(h, xs, f) - Tally(xs, f) == CountList(h, Boxes(h, xs), f) - Tally(Boxes(h, xs), f)
    ensures forall b :: b in Boxes(h, xs) ==> b in xs
  {
    if xs != [] {
      BoxesHideAll(h, xs[1..], f);
      var boxes := Boxes(h, xs[1..]);
      if Members(h, xs[0]) != [] {
        assert Boxes(h, xs) == [xs[0]] + boxes && ([xs[0]] + boxes)[1..] == boxes;
      } else {
        MembersCount(h, xs[0], f);
        assert Boxes(h, xs) == boxes;
      }
    }
  }

  // Whatever is counted, the walk meets it as often as the recursion over the tree does.
  lemma {:induction false} WalkTally(h: Forest, queue: seq<Item>, f: Item -> bool)
    requires Shaped(h) && forall x :: x in queue ==> x in h
    ensures Tally(Walk(h, queue), f) + Tally(queue, f) == CountList(h, queue, f)
    decreases CountList(h, queue, Any), |queue|
  {
    if queue != [] {
      var (first, tail) := (queue[0], queue[1..]);
      var members := Members(h, first);
      var boxes := Boxes(h, members);
      assert LinkedAt(h, first);
      WalkShrinks(h, queue);
      BoxesHideAll(h, members, f);
      WalkTally(h, tail + boxes, f);
      TallyConcat(members, Walk(h, tail + boxes), f);
      TallyConcat(tail, boxes, f);
      CountListConcat(h, tail, boxes, f);
      MembersCount(h, first, f);
    }
  }

  // `x` lies somewhere below one of the queued containers.
  ghost predicate BelowSome(h: Forest, queue: seq<Item>, y: Item)
    requires Acyclic(h) && y in h
  {
    exists x :: x in queue && Contains(h, x, y)
  }

  // Going down: what a contains and does not hold itself, one of its members contains.
  lemma {:induction false} ContainsTopDown(h: Forest, a: Item, y: Item) returns (x: Item)
    requires Shaped(h) && a in h && y in h && Contains(h, a, y) && h[y].parent != a
    ensures x in h[a].contents && x in h && Contains(h, x, y)
    decreases h[y].depth
  {
    var p := h[y].parent;
    assert LinkedAt(h, p);
    if h[p].parent == a {
      x := p;
    } else {
      x := ContainsTopDown(h, a, p);
    }
  }

  lemma {:induction false} ContainsTransitive(h: Forest, a: Item, b: Item, y: Item)
    requires Acyclic(h) && b in h && y in h && Contains(h, b, y) && Contains(h, a, b)
    ensures Contains(h, a, y)
    decreases h[y].depth
  {
    if h[y].parent != b {
      ContainsTransitive(h, a, b, h[y].parent);
    }
  }

  // The walk meets exactly what lies below the queue.
  lemma {:induction false} WalkMeets(h: Forest, queue: seq<Item>, y: Item)
    requires Shaped(h) && y in h && forall x :: x in queue ==> x in h
    ensures y in Walk(h, queue) <==> BelowSome(h, queue, y)
    decreases CountList(h, queue, Any), |queue|
  {
    if queue != [] {
      var (first, tail) := (queue[0], queue[1..]);
      var members := Members(h, first);
      var boxes := Boxes(h, members);
      var next := tail + boxes;
      assert LinkedAt(h, first) && LinkedAt(h, y);
      WalkShrinks(h, queue);
      BoxesHideAll(h, members, Any);
      WalkMeets(h, next, y);
      if BelowSome(h, next, y) {
        var x :| x in next && Contains(h, x, y);
        if x in boxes {
          assert h[x].parent == first && Contains(h, first, x);
          ContainsTransitive(h, first, x, y);
          assert first in queue;
        } else {
          assert x in queue;
        }
      }
      if Contains(h, first, y) && h[y].parent != first {
        var x := ContainsTopDown(h, first, y);
        BoxesOfContaining(h, members, x, y);
        assert x in next;
      }
      if x :| x in tail && Contains(h, x, y) {
        assert x in next;
      }
      if y in members {
        assert first in queue && Contains(h, first, y);
      }
    }
  }

  // A member that contains something is looked into.
  lemma {:induction false} BoxesOfContaining(h: Forest, xs: seq<Item>, x: Item, y: Item)
    requires Shaped(h) && y in h && x in h && x in xs && Contains(h, x, y)
    ensures x in Boxes(h, xs)
  {
    if xs[0] == x {
      ContainsHasMembers(h, x, y);
    } else {
      BoxesOfContaining(h, xs[1..], x, y);
    }
  }

  lemma {:induction false} ContainsHasMembers(h: Forest, x: Item, y: Item)
    requires Shaped(h) && y in h && x in h && Contains(h, x, y)
    ensures Members(h, x) != []
    decreases h[y].depth
  {
    assert LinkedAt(h, y);
    if h[y].parent != x {
      ContainsHasMembers(h, x, h[y].parent);
    }
  }

  // No queued container lies inside another.
  ghost predicate Apart(h: Forest, queue: seq<Item>)
    requires Acyclic(h) && forall x :: x in queue ==> x in h
  {
    Distinct(queue) && forall x, y :: x in queue && y in queue ==> !Contains(h, x, y)
  }

  lemma {:induction false} BoxesDistinct(h: Forest, xs: seq<Item>)
    requires Distinct(xs)
    ensures Distinct(Boxes(h, xs)) && forall b :: b in Boxes(h, xs) ==> b in xs
  {
    if xs != [] {
      assert Distinct(xs[1..]) && xs[0] !in xs[1..];
      BoxesDistinct(h, xs[1..]);
    }
  }

  lemma DistinctConcat(xs: seq<Item>, ys: seq<Item>)
    requires Distinct(xs) && Distinct(ys) && forall x :: x in xs ==> x !in ys
    ensures Distinct(xs + ys)
  {
    var zs := xs + ys;
    forall i, j | 0 <= i < j < |zs|
      ensures zs[i] != zs[j]
    {
      if i < |xs| <= j {
        assert xs[i] in xs && ys[j - |xs|] in ys;
      } else if |xs| <= i {
        assert zs[i] == ys[i - |xs|] && zs[j] == ys[j - |xs|];
      }
    }
  }

  // Replacing the first container by its boxes keeps the queue apart.
  lemma StaysApart(h: Forest, queue: seq<Item>)
    requires Shaped(h) && queue != [] && (forall x :: x in queue ==> x in h) && Apart(h, queue)
    ensures var next := queue[1..] + Boxes(h, Members(h, queue[0]));
            (forall x :: x in next ==> x in h) && Apart(h, next)
  {
    var (first, tail) := (queue[0], queue[1..]);
    var members := Members(h, first);
    var boxes := Boxes(h, members);
    assert LinkedAt(h, first) && first in queue && first !in tail;
    BoxesDistinct(h, members);
    forall x | x in boxes
      ensures x in h && h[x].parent == first && x !in tail
    {
      assert Contains(h, first, x);
    }
    DistinctConcat(tail, boxes);
    forall x, y | x in tail + boxes && y in tail + boxes
      ensures !Contains(h, x, y)
    {
      if Contains(h, x, y) {
        if y in boxes {
          // x is `first` or contains it
          if x in boxes && Contains(h, x, first) {
            ContainsIsDeeper(h, x, first);
          }
        } else if x in boxes {
          ContainsTransitive(h, first, x, y);
        }
      }
    }
  }

  // Nothing is met twice.
  lemma {:induction false} WalkDistinct(h: Forest, queue: seq<Item>)
    requires Shaped(h) && (forall x :: x in queue ==> x in h) && Apart(h, queue)
    ensures Distinct(Walk(h, queue)) && forall y :: y in Walk(h, queue) ==> y in h
    decreases CountList(h, queue, Any), |queue|
  {
    if queue != [] {
      var (first, tail) := (queue[0], queue[1..]);
      var members := Members(h, first);
      var next := tail + Boxes(h, members);
      assert LinkedAt(h, first) && first in queue;
      WalkShrinks(h, queue);
      StaysApart(h, queue);
      WalkDistinct(h, next);
      forall y | y in members
        ensures y !in Walk(h, next)
      {
        WalkMeets(h, next, y);
        MemberIsNotBelow(h, queue, y);
      }
      DistinctConcat(members, Walk(h, next));
    }
  }

  lemma MemberIsNotBelow(h: Forest, queue: seq<Item>, y: Item)
    requires Shaped(h) && queue != [] && (forall x :: x in queue ==> x in h) && Apart(h, queue)
    requires y in Members(h, queue[0]) && y in h
    ensures !BelowSome(h, queue[1..] + Boxes(h, Members(h, queue[0])), y)
  {
    var first := queue[0];
    assert LinkedAt(h, first) && first in queue && first !in queue[1..];
    BoxesDistinct(h, Members(h, first));
    if x :| x in queue[1..] + Boxes(h, Members(h, first)) && Contains(h, x, y) {
      if x in queue[1..] {
        assert x in queue;
      } else {
        ContainsIsDeeper(h, x, y);
        if x != first {
          ContainsIsDeeper(h, x, first);
        }
      }
    }
  }

  // The walk from one container meets everything inside it, each item once, breadth first,
  // and counting along it is counting by recursion.
  lemma WalkFromOne(h: Forest, c: Item)
    requires Shaped(h) && c in h
    ensures forall y :: y in h ==> (y in Walk(h, [c]) <==> Contains(h, c, y))
    ensures forall y :: y in Walk(h, [c]) ==> y in h
    ensures Distinct(Walk(h, [c]))
    ensures Walk(h, [c]) == Levels(h, [c])
    ensures |Walk(h, [c])| == Count(h, c, Any)
    ensures Tally(Walk(h, [c]), IsContainer) == Count(h, c, IsContainer)
  {
    if Contains(h, c, c) {
      ContainsIsDeeper(h, c, c);
    }
    WalkDistinct(h, [c]);
    WalkIsLevels(h, [c]);
    WalkTally(h, [c], Any);
    TallyAll(Walk(h, [c]));
    WalkTally(h, [c], IsContainer);
    forall y | y in h
      ensures y in Walk(h, [c]) <==> Contains(h, c, y)
    {
      WalkMeets(h, [c], y);
      assert c in [c];
    }
  }

  // ----- The iterator --------------------------------------------------------------------

  // Still to visit: these members, then what is queued, then what is found in the members.
  ghost function RestIn(h: Forest, ahead: seq<Item>, queued: seq<Item>): seq<Item>
    requires Shaped(h)
  {
    ahead + Walk(h, queued + Boxes(h, ahead))
  }

  // What an iterator in this state has still to visit: the members of the first container
  // from `cur` on, then whatever is queued.
  ghost function Rest(h: Forest, over: seq<Item>, cur: nat): seq<Item>
    requires Shaped(h) && (over != [] ==> cur <= |Members(h, over[0])|)
  {
    if over == [] then [] else RestIn(h, Members(h, over[0])[cur..], over[1..])
  }

  lemma RestFromStart(h: Forest, over: seq<Item>)
    requires Shaped(h)
    ensures Rest(h, over, 0) == Walk(h, over)
  {
    if over != [] {
      assert Members(h, over[0])[0..] == Members(h, over[0]);
    }
  }

  // The queue after visiting `item`: it is appended if it holds anything.
  ghost function Queued(h: Forest, queue: seq<Item>, item: Item): seq<Item> {
    if Members(h, item) != [] then queue + [item] else queue
  }

  lemma RestInStep(h: Forest, item: Item, later: seq<Item>, queued: seq<Item>)
    requires Shaped(h)
    ensures RestIn(h, [item] + later, queued) == [item] + RestIn(h, later, Queued(h, queued, item))
  {
    assert ([item] + later)[1..] == later;
    assert queued + Boxes(h, [item] + later) == Queued(h, queued, item) + Boxes(h, later);
  }

  // `advance` visits one item: within a container, `cur` moves to the next member; behind the
  // last one, to the first member of the next container.
  lemma AdvanceVisitsOne(h: Forest, over: seq<Item>, cur: nat)
    requires Shaped(h) && over != [] && cur < |Members(h, over[0])|
    ensures var (members, item) := (Members(h, over[0]), Members(h, over[0])[cur]);
            Rest(h, over, cur) == [item] + if cur + 1 == |members| then Rest(h, Queued(h, over, item)[1..], 0)
                                           else Rest(h, Queued(h, over, item), cur + 1)
  {
    var members := Members(h, over[0]);
    var item := members[cur];
    assert members[cur..] == [item] + members[cur + 1..];
    RestInStep(h, item, members[cur + 1..], over[1..]);
    assert Queued(h, over, item)[1..] == Queued(h, over[1..], item);
    if cur + 1 == |members| {
      RestInNothing(h, Queued(h, over, item)[1..]);
      RestFromStart(h, Queued(h, over, item)[1..]);
    }
  }

  lemma RestInNothing(h: Forest, queued: seq<Item>)
    requires Shaped(h)
    ensures RestIn(h, [], queued) == Walk(h, queued)
  {
    assert queued + [] == queued;
  }

  // Every queued container has members, and `cur` is one of the first one's.
  ghost predicate Within(h: Forest, over: seq<Item>, cur: nat) {
    (forall x :: x in over ==> x in h && Members(h, x) != []) && (over != [] ==> cur < |Members(h, over[0])|)
  }

  lemma AdvanceStep(h: Forest, over: seq<Item>, cur: nat)
    requires Shaped(h) && Within(h, over, cur) && over != []
    ensures var queued := Queued(h, over, Members(h, over[0])[cur]);
            if cur + 1 == |Members(h, over[0])|
            then Within(h, queued[1..], 0) && Rest(h, queued[1..], 0) == Rest(h, over, cur)[1..]
            else Within(h, queued, cur + 1) && Rest(h, queued, cur + 1) == Rest(h, over, cur)[1..]
  {
    AdvanceVisitsOne(h, over, cur);
  }

  lemma MemberIsKnown(h: Forest, c: Item, k: nat)
    requires Mirrors(h) && Shaped(h) && c in h && k < |Members(h, c)|
    ensures c.itemlist == Members(h, c)
    ensures var x := c.itemlist[k]; x.itemlist == Members(h, x) && (x.itemlist != [] ==> x in h && x.isContainer)
  {
    assert LinkedAt(h, c) && h[c].contents[k] in h[c].contents;
    assert LinkedAt(h, h[c].contents[k]);
  }

  class ContainerIterator {
    var over: seq<Item>
    var cur: nat

    ghost predicate Valid(h: Forest)
      reads this
    {
      Within(h, over, cur)
    }

    constructor (c: Item, ghost h: Forest)
      requires c in h && Mirrors(h) && Shaped(h)
      ensures Valid(h) && Rest(h, over, cur) == Walk(h, [c])
    {
      over := if c.itemlist != [] then [c] else [];
      cur := 0;
      new;
      RestFromStart(h, over);
    }

    method HasNext() returns (b: bool)
      ensures b <==> over != []
    {
      return over != [];
    }

    method Current(ghost h: Forest) returns (item: Item)
      requires Valid(h) && Mirrors(h) && Shaped(h) && over != []
      ensures item == Rest(h, over, cur)[0]
    {
      AdvanceVisitsOne(h, over, cur);
      return over[0].itemlist[cur];
    }

    method Advance(ghost h: Forest)
      requires Valid(h) && Mirrors(h) && Shaped(h) && over != []
      modifies this
      ensures Valid(h) && Rest(h, over, cur) == old(Rest(h, over, cur))[1..]
    {
      AdvanceStep(h, over, cur);
      MemberIsKnown(h, over[0], cur);
      var item := over[0].itemlist[cur];
      ghost var queued := Queued(h, over, item);
      if item.isContainer {
        if item.itemlist != [] {
          over := over + [item];
        }
      }
      assert over == queued;
      cur := cur + 1;
      if cur == |over[0].itemlist| {
        over := over[1..];
        cur := 0;
      }
    }
  }

  // ----- Holding counts ------------------------------------------------------------------

  method GetItemHoldingCount(c: Item, ghost h: Forest) returns (counter: nat)
    requires c in h && Mirrors(h) && Shaped(h)
    ensures counter == Count(h, c, Any)
  {
    counter := 0;
    var it := new ContainerIterator(c, h);
    WalkFromOne(h, c);
    var more := it.HasNext();
    while more
      invariant it.Valid(h) && (more <==> it.over != [])
      invariant counter + |Rest(h, it.over, it.cur)| == |Walk(h, [c])|
      decreases |Rest(h, it.over, it.cur)|
    {
      counter := counter + 1;
      AdvanceVisitsOne(h, it.over, it.cur);
      it.Advance(h);
      more := it.HasNext();
    }
  }

  method GetContainerHoldingCount(c: Item, ghost h: Forest) returns (counter: nat)
    requires c in h && Mirrors(h) && Shaped(h)
    ensures counter == Count(h, c, IsContainer)
  {
    counter := 0;
    var it := new ContainerIterator(c, h);
    WalkFromOne(h, c);
    var more := it.HasNext();
    while more
      invariant it.Valid(h) && (more <==> it.over != [])
      invariant counter + Tally(Rest(h, it.over, it.cur), IsContainer) == Tally(Walk(h, [c]), IsContainer)
      decreases |Rest(h, it.over, it.cur)|
    {
      AdvanceVisitsOne(h, it.over, it.cur);
      var item := it.Current(h);
      if item.isContainer {
        counter := counter + 1;
      }
      it.Advance(h);
      more := it.HasNext();
    }
  }

  lemma InTail(xs: seq<Item>, x: Item)
    requires xs != [] && xs[0] != x
    ensures x in xs <==> x in xs[1..]
  {
  }

  method IsHoldingItem(c: Item, item: Item, ghost h: Forest) returns (held: bool)
    requires c in h && item in h && Mirrors(h) && Shaped(h)
    ensures held <==> Contains(h, c, item)
  {
    var it := new ContainerIterator(c, h);
    WalkFromOne(h, c);
    var more := it.HasNext();
    while more
      invariant it.Valid(h) && (more <==> it.over != [])
      invariant item in Walk(h, [c]) <==> item in Rest(h, it.over, it.cur)
      decreases |Rest(h, it.over, it.cur)|
    {
      AdvanceVisitsOne(h, it.over, it.cur);
      var current := it.Current(h);
      if current == item {
        return true;
      }
      InTail(Rest(h, it.over, it.cur), item);
      it.Advance(h);
      more := it.HasNext();
    }
    return false;
  }
}
