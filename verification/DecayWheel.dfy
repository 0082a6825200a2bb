/** The decay wheel (engine/src/game.cpp: startDecay, checkDecay, cleanup; engine/src/game.h).

    The interval and the number of buckets are symbolic.  Whether an item may still decay is
    asked at each visit and is an input; what an item becomes when it has decayed is not part
    of this model. */
module DecayWheel {
  import opened Common

  type Item = nat

  /** Where an item is: in the list of new items, in a bucket, decayed, or given up because it
      may no longer decay. */
  datatype Place = Pending | Bucket(k: nat) | Decayed | Released

  datatype Entry = Entry(place: Place, duration: nat)

  datatype Config = Config(interval: nat, buckets: nat) {
    predicate Valid() {
      interval > 0 && buckets > 0
    }

    // The time of one turn of the wheel.
    function Turn(): nat {
      interval * buckets
    }
  }

  datatype Wheel = Wheel(last: nat, entries: map<Item, Entry>)

  /** What a visit does to an item with this duration in bucket b. */
  function Visit(c: Config, b: nat, duration: nat): Entry
    requires c.Valid()
  {
    var left := duration - Min(c.Turn(), duration);
    if left == 0 then Entry(Decayed, left)
    else if left < c.Turn() then
      var newBucket := (b + (left + c.interval / 2) / 1000) % c.buckets;
      Entry(if newBucket == b then Decayed else Bucket(newBucket), left)
    else Entry(Bucket(b), left)
  }

  // The bucket that a new item is put into.
  function FirstBucket(c: Config, last: nat, duration: nat): nat
    requires c.Valid()
  {
    if duration >= c.Turn() then last else (last + 1 + duration / 1000) % c.buckets
  }

  function SweptEntry(c: Config, last: nat, e: Entry): Entry
    requires c.Valid()
  {
    if e.place == Pending then Entry(Bucket(FirstBucket(c, last, e.duration)), e.duration) else e
  }

  function VisitedEntry(c: Config, b: nat, may: bool, e: Entry): Entry
    requires c.Valid()
  {
    if e.place != Bucket(b) then e
    else if may then Visit(c, b, e.duration)
    else e.(place := Released)
  }

  // ----- The wheel as a map ------------------------------------------------------------------

  datatype Action =
    | Start(item: Item, duration: nat, may: bool)
    | Cleanup
    | Check(mayDecay: set<Item>)

  predicate IsDecaying(w: Wheel, x: Item) {
    x in w.entries && (w.entries[x].place.Pending? || w.entries[x].place.Bucket?)
  }

  function Swept(c: Config, w: Wheel): Wheel
    requires c.Valid()
  {
    w.(entries := map x | x in w.entries :: SweptEntry(c, w.last, w.entries[x]))
  }

  function Visited(c: Config, w: Wheel, b: nat, mayDecay: set<Item>): Wheel
    requires c.Valid()
  {
    Wheel(b, map x | x in w.entries :: VisitedEntry(c, b, x in mayDecay, w.entries[x]))
  }

  function Next(c: Config, w: Wheel, a: Action): Wheel
    requires c.Valid()
  {
    match a
    case Start(x, duration, may) =>
      if !may || IsDecaying(w, x) then w
      else w.(entries := w.entries[x := Entry(if duration > 0 then Pending else Decayed, duration)])
    case Cleanup => Swept(c, w)
    case Check(mayDecay) => Swept(c, Visited(c, w, (w.last + 1) % c.buckets, mayDecay))
  }

  function Run(c: Config, w: Wheel, run: seq<Action>): Wheel
    requires c.Valid()
  {
    if run == [] then w else Next(c, Run(c, w, run[..|run| - 1]), run[|run| - 1])
  }

  function Checks(run: seq<Action>): nat {
    if run == [] then 0 else Checks(run[..|run| - 1]) + if run[|run| - 1].Check? then 1 else 0
  }

  // ----- When an item decays -----------------------------------------------------------------

  // k places behind a on the wheel.
  function Ahead(a: nat, k: nat, n: nat): nat {
    if a + k < n then a + k else a + k - n
  }

  lemma AheadIsMod(a: nat, k: nat, n: nat)
    requires a < n && k <= n
    ensures Ahead(a, k, n) == (a + k) % n
  {
    DivModIs(a + k, n, if a + k < n then 0 else 1, Ahead(a, k, n));
  }

  lemma ModOfSum(a: nat, k: nat, n: nat)
    requires a < n
    ensures (a + k) % n == (a + k % n) % n
  {
    var q, r := k / n, k % n;
    assert k == q * n + r;
    AheadIsMod(a, r, n);
    if a + r < n {
      DivModIs(a + k, n, q, a + r);
    } else {
      assert a + k == (q + 1) * n + (a + r - n);
      DivModIs(a + k, n, q + 1, a + r - n);
    }
  }

  // By how many buckets the remainder moves an item on.
  function Shift(c: Config, left: nat): nat
    requires c.Valid()
  {
    ((left + c.interval / 2) / 1000) % c.buckets
  }

  /** The checks up to its decay, for an item that is visited at the k-th check from now. */
  function ChecksLeft(c: Config, duration: nat, k: nat): nat
    requires c.Valid()
    decreases duration
  {
    if duration <= c.Turn() then k
    else
      var left := duration - c.Turn();
      if left < c.Turn() then k + Shift(c, left)
      else
        assert c.Turn() > 0 by { Multiples(c.buckets, c.interval); }
        k + ChecksLeft(c, left, c.buckets)
  }

  // The item is in a bucket, and decays at the n-th check from now.
  ghost predicate DecaysIn(c: Config, w: Wheel, x: Item, n: nat)
    requires c.Valid()
  {
    && w.last < c.buckets && x in w.entries
    && exists k: nat :: VisitedIn(c, w, x, k) && n == ChecksLeft(c, w.entries[x].duration, k)
  }

  ghost predicate VisitedIn(c: Config, w: Wheel, x: Item, k: nat)
    requires c.Valid()
  {
    && 1 <= k <= c.buckets && w.last < c.buckets
    && x in w.entries && w.entries[x].place == Bucket(Ahead(w.last, k, c.buckets))
    && w.entries[x].duration > 0
  }

  // The visit itself: what is left of the checks after it.
  lemma VisitStep(c: Config, b: nat, duration: nat)
    requires c.Valid() && b < c.buckets && duration > 0
    ensures var e, n := Visit(c, b, duration), ChecksLeft(c, duration, 1);
            if n == 1 then e.place == Decayed
            else exists k: nat ::
                   && 1 <= k <= c.buckets && e.place == Bucket(Ahead(b, k, c.buckets)) && e.duration > 0
                   && n - 1 == ChecksLeft(c, e.duration, k)
  {
    if duration > c.Turn() {
      var left := duration - c.Turn();
      if left < c.Turn() {
        var shift := Shift(c, left);
        ModOfSum(b, (left + c.interval / 2) / 1000, c.buckets);
        AheadIsMod(b, shift, c.buckets);
        if shift > 0 {
          assert ChecksLeft(c, left, shift) == shift;
        }
      } else {
        assert Ahead(b, c.buckets, c.buckets) == b;
        ChecksPositive(c, left, c.buckets);
      }
    }
  }

  lemma {:induction false} ChecksPositive(c: Config, duration: nat, k: nat)
    requires c.Valid()
    ensures ChecksLeft(c, duration, k) >= k
  {
  }

  // Waiting one check more for the visit.
  lemma {:induction false} ChecksShift(c: Config, duration: nat, k: nat)
    requires c.Valid()
    ensures ChecksLeft(c, duration, k) == k + ChecksLeft(c, duration, 0)
  {
  }

  lemma CheckAway(c: Config, w: Wheel, x: Item, k: nat, mayDecay: set<Item>)
    requires c.Valid() && VisitedIn(c, w, x, k) && k > 1
    ensures VisitedIn(c, Next(c, w, Check(mayDecay)), x, k - 1)
    ensures Next(c, w, Check(mayDecay)).entries[x].duration == w.entries[x].duration
  {
    AheadIsMod(w.last, 1, c.buckets);
  }

  lemma CheckHere(c: Config, w: Wheel, x: Item, mayDecay: set<Item>)
    requires c.Valid() && VisitedIn(c, w, x, 1) && x in mayDecay
    ensures var r, b := Next(c, w, Check(mayDecay)), Ahead(w.last, 1, c.buckets);
            r.last == b && x in r.entries && r.entries[x] == Visit(c, b, w.entries[x].duration)
  {
    AheadIsMod(w.last, 1, c.buckets);
  }

  // One check brings the decay one check closer, and the last one is the decay.
  lemma CheckStep(c: Config, w: Wheel, x: Item, n: nat, mayDecay: set<Item>)
    requires c.Valid() && DecaysIn(c, w, x, n) && x in mayDecay
    ensures var r := Next(c, w, Check(mayDecay));
            if n == 1 then x in r.entries && r.entries[x].place == Decayed else n > 1 && DecaysIn(c, r, x, n - 1)
  {
    var k: nat :| VisitedIn(c, w, x, k) && n == ChecksLeft(c, w.entries[x].duration, k);
    var r, d := Next(c, w, Check(mayDecay)), w.entries[x].duration;
    ChecksPositive(c, d, k);
    if k == 1 {
      var b := Ahead(w.last, 1, c.buckets);
      CheckHere(c, w, x, mayDecay);
      VisitStep(c, b, d);
      if n > 1 {
        var e := Visit(c, b, d);
        var j: nat :| 1 <= j <= c.buckets && e.place == Bucket(Ahead(b, j, c.buckets)) && e.duration > 0
            && n - 1 == ChecksLeft(c, e.duration, j);
        assert VisitedIn(c, r, x, j);
      }
    } else {
      CheckAway(c, w, x, k, mayDecay);
      ChecksShift(c, d, k);
      ChecksShift(c, d, k - 1);
    }
  }

  lemma OtherStep(c: Config, w: Wheel, x: Item, n: nat, a: Action)
    requires c.Valid() && DecaysIn(c, w, x, n) && !a.Check? && !(a.Start? && a.item == x)
    ensures DecaysIn(c, Next(c, w, a), x, n)
  {
    var k: nat :| VisitedIn(c, w, x, k) && n == ChecksLeft(c, w.entries[x].duration, k);
    assert VisitedIn(c, Next(c, w, a), x, k);
  }

  // Nothing is done to the duration of x from outside, and it may decay at every check.
  predicate LeavesAlone(run: seq<Action>, x: Item) {
    forall i :: 0 <= i < |run| ==> !(run[i].Start? && run[i].item == x) && (run[i].Check? ==> x in run[i].mayDecay)
  }

  /** An item in the wheel decays at its check and no other, whatever happens to other items
      meanwhile: before it the item is in one bucket, after it the item has decayed. */
  lemma {:induction false} DecaysOnTime(c: Config, w: Wheel, x: Item, n: nat, run: seq<Action>)
    requires c.Valid() && DecaysIn(c, w, x, n) && LeavesAlone(run, x)
    ensures var r := Run(c, w, run);
            if Checks(run) < n then DecaysIn(c, r, x, n - Checks(run))
            else x in r.entries && r.entries[x].place == Decayed
  {
    if run != [] {
      var front, a := run[..|run| - 1], run[|run| - 1];
      DecaysOnTime(c, w, x, n, front);
      var r := Run(c, w, front);
      if Checks(front) < n {
        if a.Check? {
          CheckStep(c, r, x, n - Checks(front), a.mayDecay);
        } else {
          OtherStep(c, r, x, n - Checks(front), a);
        }
      }
    }
  }

  /** After how many checks an item decays that is put into the wheel with this duration. */
  function ChecksTaken(c: Config, duration: nat): nat
    requires c.Valid()
  {
    assert c.Turn() > 0 by { Multiples(c.buckets, c.interval); }
    if duration >= c.Turn() then
      c.buckets * (duration / c.Turn()) + if duration % c.Turn() == 0 then 0 else Shift(c, duration % c.Turn())
    else 1 + (duration / 1000) % c.buckets
  }

  lemma ChecksTakenNext(c: Config, left: nat)
    requires c.Valid() && left >= c.Turn()
    ensures ChecksTaken(c, left + c.Turn()) == c.buckets + ChecksTaken(c, left)
  {
    var turn := c.Turn();
    Multiples(c.buckets, c.interval);
    var q, r := left / turn, left % turn;
    assert left + turn == (q + 1) * turn + r;
    DivModIs(left + turn, turn, q + 1, r);
    assert c.buckets * (q + 1) == c.buckets * q + c.buckets;
  }

  // One full turn, and a remainder.
  lemma ChecksTakenOnce(c: Config, left: nat)
    requires c.Valid() && left < c.Turn()
    ensures ChecksTaken(c, c.Turn() + left) == c.buckets + if left == 0 then 0 else Shift(c, left)
  {
    DivModIs(c.Turn() + left, c.Turn(), 1, left);
  }

  lemma {:induction false} ChecksLeftIs(c: Config, duration: nat)
    requires c.Valid() && duration >= c.Turn()
    ensures ChecksLeft(c, duration, c.buckets) == ChecksTaken(c, duration)
    decreases duration
  {
    var left := duration - c.Turn();
    Multiples(c.buckets, c.interval);
    if left < c.Turn() {
      ChecksTakenOnce(c, left);
    } else {
      ChecksLeftIs(c, left);
      ChecksTakenNext(c, left);
    }
  }

  /** A new item decays after exactly that many checks from the cleanup that puts it into the
      wheel. */
  lemma NewItemDecaysIn(c: Config, w: Wheel, x: Item)
    requires c.Valid() && w.last < c.buckets && x in w.entries && w.entries[x].place == Pending
             && w.entries[x].duration > 0
    ensures DecaysIn(c, Swept(c, w), x, ChecksTaken(c, w.entries[x].duration))
  {
    var d, r := w.entries[x].duration, Swept(c, w);
    if d >= c.Turn() {
      ChecksLeftIs(c, d);
      assert VisitedIn(c, r, x, c.buckets);
    } else {
      var k := 1 + (d / 1000) % c.buckets;
      ModOfSum(w.last, 1 + d / 1000, c.buckets);
      AheadIsMod(w.last, k, c.buckets);
      FirstShift(w.last, d / 1000, c.buckets);
      assert VisitedIn(c, r, x, k);
    }
  }

  lemma FirstShift(a: nat, k: nat, n: nat)
    requires a < n
    ensures (a + 1 + k) % n == (a + (1 + k % n)) % n
  {
    AheadIsMod(a, 1, n);
    ModOfSum(a, 1 + k, n);
    ModOfSum(a, 1 + k % n, n);
    if n > 1 {
      ModOfSum(1, k, n);
    } else {
      DivModIs(a + 1 + k, n, a + 1 + k, 0);
      DivModIs(a + (1 + k % n), n, a + 1 + k % n, 0);
    }
  }

  lemma AtMost(i: nat, k: nat, n: nat)
    requires i > 0 && k < n
    ensures 0 <= i * k <= i * n - i
  {
    Multiples(n - k, i);
    assert (n - k) * i == i * n - i * k;
  }

  lemma LastRound(i: nat, b: nat, s: nat, left: nat)
    requires i > 0 && s < b && left < i * b
    ensures -((i * b) as int) < i * (b + s) - (i * b + left) < i * b
  {
    AtMost(i, s, b);
    Distribute(i, b, s);
  }

  lemma {:induction false} WithinRounds(c: Config, duration: nat)
    requires c.Valid() && duration >= c.Turn()
    ensures -(c.Turn() as int) < c.interval * ChecksLeft(c, duration, c.buckets) - duration < c.Turn()
    decreases duration
  {
    var left := duration - c.Turn();
    Multiples(c.buckets, c.interval);
    if left < c.Turn() {
      LastRound(c.interval, c.buckets, if left == 0 then 0 else Shift(c, left), left);
    } else {
      WithinRounds(c, left);
      Distribute(c.interval, c.buckets, ChecksLeft(c, left, c.buckets));
    }
  }

  lemma ShortWithin(i: nat, b: nat, k: nat, d: nat)
    requires i > 0 && k < b && 0 < d < i * b
    ensures -((i * b) as int) < i * (1 + k) - d < i * b
  {
    AtMost(i, k, b);
    assert i * (1 + k) == i + i * k;
  }

  /** The checks miss the duration by less than one turn of the wheel. */
  lemma WithinOneTurn(c: Config, duration: nat)
    requires c.Valid() && duration > 0
    ensures -(c.Turn() as int) < c.interval * ChecksTaken(c, duration) - duration < c.Turn()
  {
    if duration >= c.Turn() {
      ChecksLeftIs(c, duration);
      WithinRounds(c, duration);
    } else {
      ShortWithin(c.interval, c.buckets, (duration / 1000) % c.buckets, duration);
    }
  }

  /** With the intervals of the server, 250 milliseconds and 4 buckets: what is below a second
      decays at the first check, and what is above a whole number of seconds is cut off, but
      for one check more in the last eighth of a second. */
  lemma ServerIntervals(duration: nat)
    requires duration > 0
    ensures ChecksTaken(Config(250, 4), duration) ==
            if duration < 1000 then 1 else 4 * (duration / 1000) + if duration % 1000 >= 875 then 1 else 0
  {
  }

  /** An item is taken up exactly when it may decay and is not decaying already: it waits for the
      cleanup if it has time left, and decays at once if not. */
  lemma StartIs(c: Config, w: Wheel, x: Item, duration: nat, may: bool)
    requires c.Valid()
    ensures var n := Next(c, w, Start(x, duration, may));
            var decaying := x in w.entries && (w.entries[x].place == Pending || w.entries[x].place.Bucket?);
            && n.last == w.last && (!may || decaying ==> n == w)
            && (may && !decaying ==>
                  && x in n.entries && n.entries[x].duration == duration
                  && (duration > 0 ==> n.entries[x].place == Pending)
                  && (duration == 0 ==> n.entries[x].place == Decayed)
                  && forall y :: y in w.entries && y != x ==> y in n.entries && n.entries[y] == w.entries[y])
  {
  }

  /** A check visits the next bucket.  An item in it that may no longer decay is given up; one whose
      time is up within a turn of the wheel decays; one with a turn or more to come stays, less a
      turn; any other goes on by its seconds, half an interval rounded up, and decays when that
      brings it back.  Items in other buckets stay as they are. */
  lemma CheckIs(c: Config, w: Wheel, x: Item, mayDecay: set<Item>)
    requires c.Valid() && w.last < c.buckets && x in w.entries && w.entries[x].place.Bucket?
    ensures var (n, b, turn) := (Next(c, w, Check(mayDecay)), (w.last + 1) % c.buckets, c.interval * c.buckets);
            var (place, left) := (w.entries[x].place, w.entries[x].duration - turn);
            && n.last == b && x in n.entries
            && (place != Bucket(b) ==> n.entries[x] == w.entries[x])
            && (place == Bucket(b) && x !in mayDecay ==> n.entries[x].place == Released)
            && (place == Bucket(b) && x in mayDecay && left <= 0 ==> n.entries[x].place == Decayed)
            && (place == Bucket(b) && x in mayDecay && left >= turn ==> n.entries[x] == Entry(Bucket(b), left))
            && (place == Bucket(b) && x in mayDecay && 0 < left < turn ==>
                  var next := (b + (left + c.interval / 2) / 1000) % c.buckets;
                  n.entries[x] == Entry(if next == b then Decayed else Bucket(next), left))
  {
    assert c.Turn() > 0 by { Multiples(c.buckets, c.interval); }
  }

  // Nothing but starts of other items.
  predicate OnlyStartsOthers(run: seq<Action>, x: Item) {
    forall i :: 0 <= i < |run| ==> run[i].Start? && run[i].item != x
  }

  lemma {:induction false} StaysPending(c: Config, w: Wheel, x: Item, run: seq<Action>)
    requires c.Valid() && x in w.entries && w.entries[x].place == Pending && OnlyStartsOthers(run, x)
    ensures var r := Run(c, w, run);
            r.last == w.last && x in r.entries && r.entries[x] == w.entries[x]
  {
    if run != [] {
      StaysPending(c, w, x, run[..|run| - 1]);
      assert run[|run| - 1].Start? && run[|run| - 1].item != x;
    }
  }

  /** The whole life of an item that starts to decay with time left: it is new until the next
      cleanup, which the next check brings at the latest, then it is in one bucket, and it has
      decayed after exactly the stated number of checks from that cleanup, and not before. */
  lemma StartedItemDecays(c: Config, w: Wheel, x: Item, duration: nat, before: seq<Action>, a: Action,
                          after: seq<Action>)
    requires c.Valid() && w.last < c.buckets && duration > 0
    requires x !in w.entries || w.entries[x].place == Decayed || w.entries[x].place == Released
    requires OnlyStartsOthers(before, x) && (a.Cleanup? || a.Check?) && LeavesAlone(after, x)
    ensures var started := Next(c, w, Start(x, duration, true));
            var waited := Run(c, started, before);
            var r := Run(c, Next(c, waited, a), after);
            var turn := c.interval * c.buckets;
            && turn > 0 && x in waited.entries && waited.entries[x].place == Pending && x in r.entries
            && var checks := if duration >= turn then
                               c.buckets * (duration / turn)
                               + (if duration % turn == 0 then 0
                                  else (duration % turn + c.interval / 2) / 1000 % c.buckets)
                             else 1 + duration / 1000 % c.buckets;
               if Checks(after) < checks then r.entries[x].place.Bucket? else r.entries[x].place == Decayed
  {
    var started := Next(c, w, Start(x, duration, true));
    var waited := Run(c, started, before);
    assert c.Turn() > 0 by { Multiples(c.buckets, c.interval); }
    StaysPending(c, started, x, before);
    var placed := if a.Check? then Visited(c, waited, (waited.last + 1) % c.buckets, a.mayDecay) else waited;
    NewItemDecaysIn(c, placed, x);
    DecaysOnTime(c, Swept(c, placed), x, ChecksTaken(c, duration), after);
  }

  // ----- The wheel of lists ------------------------------------------------------------------

  lemma AddedOnce(xs: seq<Item>, x: Item)
    requires Distinct(xs) && x !in xs
    ensures Distinct(xs + [x]) && Distinct([x] + xs)
    ensures forall y {:trigger y in xs + [x]} :: y in xs + [x] <==> y in xs || y == x
    ensures forall y {:trigger y in [x] + xs} :: y in [x] + xs <==> y in xs || y == x
  {
  }

  lemma FirstOnce(x: Item, rest: seq<Item>)
    requires Distinct([x] + rest)
    ensures Distinct(rest) && x !in rest
    ensures forall y {:trigger y in rest} :: y in rest <==> y in [x] + rest && y != x
  {
    var xs := [x] + rest;
    assert forall i :: 0 <= i < |rest| ==> rest[i] == xs[i + 1];
    assert xs[0] == x;
  }

  class DecayLists {
    const c: Config
    const decayItems: array<seq<Item>>
    var toDecayItems: seq<Item>
    var lastBucket: nat
    var duration: map<Item, nat>
    var decaying: set<Item>
    ghost var entries: map<Item, Entry>

    ghost function View(): Wheel
      reads this
    {
      Wheel(lastBucket, entries)
    }

    // The lists hold the items where the entries say; these are the pending ones.
    ghost predicate Coupled(pending: seq<Item>)
      reads this, decayItems
    {
      && c.Valid() && decayItems.Length == c.buckets && lastBucket < c.buckets
      && (forall x {:trigger x in entries} :: x in entries <==> x in duration)
      && (forall x {:trigger entries[x]} :: x in entries ==> entries[x].duration == duration[x])
      && (forall x {:trigger x in decaying} :: x in decaying <==> IsDecaying(View(), x))
      && (forall x {:trigger x in pending} :: x in pending <==> x in entries && entries[x].place == Pending)
      && (forall k, x {:trigger x in decayItems[k]} ::
          0 <= k < c.buckets ==> (x in decayItems[k] <==> x in entries && entries[x].place == Bucket(k)))
      && Distinct(pending)
      && (forall k :: 0 <= k < c.buckets ==> Distinct(decayItems[k]))
      && (forall x {:trigger entries[x]} :: x in entries && entries[x].place.Bucket? ==> entries[x].place.k < c.buckets)
    }

    ghost predicate Valid()
      reads this, decayItems
    {
      Coupled(toDecayItems)
    }

    constructor (c: Config)
      requires c.Valid()
      ensures Valid() && fresh(decayItems) && View() == Wheel(0, map[]) && this.c == c
    {
      this.c := c;
      decayItems := new seq<Item>[c.buckets](k => []);
      toDecayItems, lastBucket, duration, decaying, entries := [], 0, map[], {}, map[];
    }

    method StartDecay(x: Item, time: nat, may: bool)
      requires Valid()
      modifies this
      ensures Valid() && View() == Next(c, old(View()), Start(x, time, may))
    {
      if !may || x in decaying {
        return;
      }
      duration := duration[x := time];
      if time > 0 {
        decaying := decaying + {x};
        AddedOnce(toDecayItems, x);
        toDecayItems := [x] + toDecayItems;
        entries := entries[x := Entry(Pending, time)];
      } else {
        entries := entries[x := Entry(Decayed, time)];
      }
    }

    // A new item goes into its first bucket.
    method PlaceNew(x: Item, ghost rest: seq<Item>)
      requires Coupled([x] + rest)
      modifies this`entries, decayItems
      ensures x in old(entries) && entries == old(entries)[x := SweptEntry(c, lastBucket, old(entries)[x])]
      ensures Coupled(rest)
    {
      FirstOnce(x, rest);
      assert x in [x] + rest;
      var k := if duration[x] >= c.interval * c.buckets then lastBucket
          else (lastBucket + 1 + duration[x] / 1000) % c.buckets;
      AddedOnce(decayItems[k], x);
      decayItems[k] := decayItems[k] + [x];
      entries := entries[x := Entry(Bucket(k), duration[x])];
    }

    /** The new items go into the wheel. */
    method Cleanup()
      requires Valid()
      modifies this, decayItems
      ensures Valid() && View() == Next(c, old(View()), Action.Cleanup)
    {
      ghost var start := entries;
      for j := 0 to |toDecayItems|
        invariant toDecayItems == old(toDecayItems) && lastBucket == old(lastBucket) && Coupled(toDecayItems[j..])
        invariant PartlySwept(c, lastBucket, start, entries, toDecayItems[..j])
      {
        assert toDecayItems[j..] == [toDecayItems[j]] + toDecayItems[j + 1..];
        assert toDecayItems[..j + 1] == toDecayItems[..j] + [toDecayItems[j]];
        PlaceNew(toDecayItems[j], toDecayItems[j + 1..]);
      }
      assert toDecayItems[..|toDecayItems|] == toDecayItems;
      assert entries == Swept(c, old(View())).entries;
      toDecayItems := [];
    }

    // The visit to the item at index i of bucket b; the index of the next one is returned.
    method VisitOne(b: nat, i: nat, may: bool) returns (next: nat)
      requires Valid() && b < c.buckets && i < |decayItems[b]|
      modifies this`entries, this`duration, this`decaying, decayItems
      ensures Valid()
      ensures old(decayItems[b][i]) in old(entries)
      ensures entries == old(entries)[old(decayItems[b][i]) :=
              VisitedEntry(c, b, may, old(entries)[old(decayItems[b][i])])]
      ensures next <= |decayItems[b]| && decayItems[b][next..] == old(decayItems[b])[i + 1..]
    {
      var x := decayItems[b][i];
      assert x in decayItems[b];
      if !may {
        Erase(b, i, Entry(Released, duration[x]));
        return i;
      }
      var time := duration[x];
      var decrease := if c.interval * c.buckets < time then c.interval * c.buckets else time;
      time := time - decrease;
      if time == 0 {
        Erase(b, i, Entry(Decayed, time));
        return i;
      } else if time < c.interval * c.buckets {
        var newBucket := (b + ((time + c.interval / 2) / 1000)) % c.buckets;
        if newBucket == b {
          Erase(b, i, Entry(Decayed, time));
        } else {
          Erase(b, i, Entry(Bucket(newBucket), time));
        }
        return i;
      }
      duration := duration[x := time];
      entries := entries[x := Entry(Bucket(b), time)];
      next := i + 1;
    }

    // The item leaves the bucket, for another one or for good.
    method Erase(b: nat, i: nat, e: Entry)
      requires Valid() && b < c.buckets && i < |decayItems[b]| && e.place != Bucket(b) && e.place != Pending
      requires e.place.Bucket? ==> e.place.k < c.buckets
      modifies this`entries, this`duration, this`decaying, decayItems
      ensures Valid() && entries == old(entries)[old(decayItems[b][i]) := e]
      ensures decayItems[b] == old(decayItems[b])[..i] + old(decayItems[b])[i + 1..]
    {
      var x := decayItems[b][i];
      assert x in decayItems[b];
      Without(decayItems[b], i);
      decayItems[b] := decayItems[b][..i] + decayItems[b][i + 1..];
      duration := duration[x := e.duration];
      if e.place.Bucket? {
        AddedOnce(decayItems[e.place.k], x);
        decayItems[e.place.k] := decayItems[e.place.k] + [x];
      } else {
        decaying := decaying - {x};
      }
      entries := entries[x := e];
    }

    /** One turn of the timer: the next bucket is visited, and the new items come in. */
    method CheckDecay(mayDecay: set<Item>)
      requires Valid()
      modifies this, decayItems
      ensures Valid() && View() == Next(c, old(View()), Check(mayDecay))
    {
      var bucket := (lastBucket + 1) % c.buckets;
      ghost var start := entries;
      var i := 0;
      while i < |decayItems[bucket]|
        invariant Valid() && toDecayItems == old(toDecayItems) && lastBucket == old(lastBucket)
        invariant 0 <= i <= |decayItems[bucket]|
        invariant PartlyVisited(c, bucket, mayDecay, start, entries, decayItems[bucket][i..])
        decreases |decayItems[bucket]| - i
      {
        ghost var todo := decayItems[bucket][i..];
        assert todo == [todo[0]] + todo[1..];
        i := VisitOne(bucket, i, decayItems[bucket][i] in mayDecay);
      }
      lastBucket := bucket;
      assert View() == Visited(c, old(View()), bucket, mayDecay);
      Cleanup();
    }
  }

  ghost predicate PartlySwept(c: Config, last: nat, start: map<Item, Entry>, now: map<Item, Entry>, done: seq<Item>)
    requires c.Valid()
  {
    && now.Keys == start.Keys
    && forall x {:trigger now[x]} :: x in now ==>
        now[x] == if x in done then SweptEntry(c, last, start[x]) else start[x]
  }

  // Of the items that were in the bucket, those still to do are as before, the others visited.
  ghost predicate PartlyVisited(c: Config, b: nat, mayDecay: set<Item>, start: map<Item, Entry>,
                                now: map<Item, Entry>, todo: seq<Item>)
    requires c.Valid()
  {
    && now.Keys == start.Keys
    && forall x {:trigger now[x]} :: x in now ==>
        now[x] == if x in todo then start[x] else VisitedEntry(c, b, x in mayDecay, start[x])
  }

  lemma Without(xs: seq<Item>, i: nat)
    requires Distinct(xs) && i < |xs|
    ensures var rest := xs[..i] + xs[i + 1..];
            Distinct(rest) && forall y {:trigger y in rest} :: y in rest <==> y in xs && y != xs[i]
  {
    var rest := xs[..i] + xs[i + 1..];
    assert forall k :: 0 <= k < |rest| ==> rest[k] == xs[if k < i then k else k + 1];
    forall y | y in xs && y != xs[i]
      ensures y in rest
    {
      var k :| 0 <= k < |xs| && xs[k] == y;
      assert rest[if k < i then k else k - 1] == y;
    }
  }
}
