/** What an acceptance in a trade refers to (playerAcceptTrade and internalStartTrade in
    engine/src/game.cpp): a player may accept before the other side has offered anything, and
    stands by it whatever is offered then. */
module TradeAcceptances {
  import opened Common
  import opened Trade

  /** The trades, and what each player had before them from the other side when accepting. */
  datatype Watched = Watched(trades: Trades, seen: map<Id, Option<Item>>)

  // The acceptance goes through.
  predicate Accepts(s: Trades, a: Action) {
    && a.AcceptTrade? && a.p in s.traders && (s.traders[a.p].state.Acknowledge? || s.traders[a.p].state.Initiated?)
    && s.traders[a.p].partner.Some? && s.traders[a.p].partner.value in s.traders && a.passes
  }

  ghost function NextWatched(w: Watched, a: Action): Watched {
    var s := w.trades;
    Watched(Next(s, a),
            if Accepts(s, a) then w.seen[a.p := s.traders[s.traders[a.p].partner.value].item] else w.seen)
  }

  ghost function WatchedRun(s: Trades, run: seq<Action>): Watched {
    if run == [] then Watched(s, map[]) else NextWatched(WatchedRun(s, run[..|run| - 1]), run[|run| - 1])
  }

  // The acceptance was given before the other side made the offer that stands now.
  predicate Blind(w: Watched, p: Id, q: Id)
    requires p in w.trades.traders && q in w.trades.traders
  {
    p in w.seen && w.seen[p].None? && w.trades.traders[q].item.Some?
  }

  // Whoever has accepted gets what was before them then, or had nothing before them; in a
  // transfer, a side that had nothing faces one that knew.
  predicate SeenAt(w: Watched, p: Id)
    requires p in w.trades.traders
  {
    var t := w.trades.traders[p];
    (t.state.Accept? || t.state.Transfer?) && t.partner.Some? && t.partner.value in w.trades.traders ==>
      var q := t.partner.value;
      && p in w.seen && (w.seen[p] == w.trades.traders[q].item || Blind(w, p, q))
      && (t.state.Transfer? && Blind(w, p, q) ==> q in w.seen && w.seen[q] == t.item)
  }

  ghost predicate SeenOk(w: Watched) {
    Inv(w.trades) && forall p {:trigger SeenAt(w, p)} :: p in w.trades.traders ==> SeenAt(w, p)
  }

  // The same side of the same player, in trades and in what was seen.
  predicate SameSide(w: Watched, n: Watched, i: Id) {
    && i in w.trades.traders && i in n.trades.traders && n.trades.traders[i] == w.trades.traders[i]
    && (i in w.seen <==> i in n.seen) && (i in w.seen ==> n.seen[i] == w.seen[i])
  }

  // Only the two sides of one trade change.
  lemma OthersSeeTheSame(w: Watched, n: Watched, p: Id, q: Option<Id>, r: Id)
    requires SeenOk(w) && n.trades.traders.Keys == w.trades.traders.Keys && p in w.trades.traders
    requires w.trades.traders[p].partner == q && r in w.trades.traders && r != p && q != Some(r)
    requires forall i {:trigger n.trades.traders[i]} :: i in w.trades.traders && i != p && q != Some(i) ==>
               n.trades.traders[i] == w.trades.traders[i]
    requires forall i {:trigger i in n.seen} :: i != p ==>
               (i in w.seen <==> i in n.seen) && (i in w.seen ==> n.seen[i] == w.seen[i])
    ensures SeenAt(n, r)
  {
    assert SeenAt(w, r) && TraderOk(w.trades, r) && TraderOk(w.trades, p) && SameSide(w, n, r);
    if w.trades.traders[r].partner.Some? {
      var other := w.trades.traders[r].partner.value;
      assert other != p && q != Some(other);
      assert SameSide(w, n, other);
    }
  }

  lemma RequestKeepsSeen(w: Watched, a: Action, r: Id)
    requires SeenOk(w) && a.Request? && r in w.trades.traders
    ensures r in Next(w.trades, a).traders && SeenAt(NextWatched(w, a), r)
  {
    var s := w.trades;
    assert SeenAt(w, r) && TraderOk(s, r);
    if Next(s, a) != s {
      assert TraderOk(s, a.p) && TraderOk(s, a.q);
    }
  }

  // Both sides have left the trade, or nothing has changed.
  lemma EndKeepsSeen(w: Watched, n: Watched, p: Id, r: Id)
    requires SeenOk(w) && p in w.trades.traders && r in w.trades.traders
    requires n.trades.traders.Keys == w.trades.traders.Keys
    requires forall i {:trigger i in n.seen} :: i != p ==>
               (i in w.seen <==> i in n.seen) && (i in w.seen ==> n.seen[i] == w.seen[i])
    requires forall i {:trigger n.trades.traders[i]} :: i in w.trades.traders ==>
               n.trades.traders[i]
               == if i == p || w.trades.traders[p].partner == Some(i) then NO_TRADE else w.trades.traders[i]
    ensures SeenAt(n, r)
  {
    if r != p && w.trades.traders[p].partner != Some(r) {
      OthersSeeTheSame(w, n, p, w.trades.traders[p].partner, r);
    }
  }

  lemma AcceptKeepsSeen(w: Watched, a: Action, r: Id)
    requires SeenOk(w) && Accepts(w.trades, a) && r in w.trades.traders
    ensures r in Next(w.trades, a).traders && SeenAt(NextWatched(w, a), r)
  {
    var s, n := w.trades, NextWatched(w, a);
    var p, q := a.p, s.traders[a.p].partner.value;
    var accepted := s.(traders := s.traders[p := s.traders[p].(state := Accept)]);
    assert TraderOk(s, p) && TraderOk(s, q) && TraderOk(s, r) && SeenAt(w, r) && SeenAt(w, q);
    if s.traders[q].state.Accept? && !a.mayTrade {
      RefusalKeepsSeen(w, a, q, r);
    } else {
      if s.traders[q].state.Accept? {
        TransferMarks(accepted, p, q);
      }
      if r != p && r != q {
        OthersSeeTheSame(w, n, p, Some(q), r);
      }
    }
  }

  // The event refuses the trade, which is closed.
  lemma RefusalKeepsSeen(w: Watched, a: Action, q: Id, r: Id)
    requires SeenOk(w) && Accepts(w.trades, a) && r in w.trades.traders && !a.mayTrade
    requires w.trades.traders[a.p].partner == Some(q) && w.trades.traders[q].state.Accept? && q != a.p
    ensures r in Next(w.trades, a).traders && SeenAt(NextWatched(w, a), r)
  {
    var s, n := w.trades, NextWatched(w, a);
    var accepted := s.(traders := s.traders[a.p := s.traders[a.p].(state := Accept)]);
    AcceptKeepsInv(s, a.p);
    forall i | i in s.traders
      ensures i in n.trades.traders
      ensures n.trades.traders[i] == if i == a.p || s.traders[a.p].partner == Some(i) then NO_TRADE else s.traders[i]
    {
      CloseEndsTrade(accepted, a.p, i);
    }
    CloseKeepsPlayers(accepted, a.p);
    EndKeepsSeen(w, n, a.p, r);
  }

  lemma CloseKeepsPlayers(s: Trades, p: Id)
    requires Inv(s) && p in s.traders
    ensures Closed(s, p).traders.Keys == s.traders.Keys
  {
    assert TraderOk(s, p);
  }

  lemma CloseKeepsSeen(w: Watched, a: Action, r: Id)
    requires SeenOk(w) && a.Close? && r in w.trades.traders
    ensures r in Next(w.trades, a).traders && SeenAt(NextWatched(w, a), r)
  {
    var s, n := w.trades, NextWatched(w, a);
    assert SeenAt(w, r);
    if a.p in s.traders && !s.traders[a.p].state.Transfer? {
      forall i | i in s.traders
        ensures i in n.trades.traders
        ensures n.trades.traders[i] == if i == a.p || s.traders[a.p].partner == Some(i) then NO_TRADE else s.traders[i]
      {
        CloseEndsTrade(s, a.p, i);
      }
      CloseKeepsPlayers(s, a.p);
      EndKeepsSeen(w, n, a.p, r);
    }
  }

  lemma FinishKeepsSeen(w: Watched, a: Action, r: Id)
    requires SeenOk(w) && a.FinishTransfer? && r in w.trades.traders
    ensures r in Next(w.trades, a).traders && SeenAt(NextWatched(w, a), r)
  {
    var s, n := w.trades, NextWatched(w, a);
    assert SeenAt(w, r);
    if n.trades != s {
      assert TraderOk(s, a.p);
      EndKeepsSeen(w, n, a.p, r);
    }
  }

  lemma StepKeepsSeen(w: Watched, a: Action)
    requires SeenOk(w)
    ensures SeenOk(NextWatched(w, a))
  {
    var n := NextWatched(w, a);
    StepKeepsInv(w.trades, a);
    StepKeepsPlayers(w.trades, a);
    forall r | r in n.trades.traders
      ensures SeenAt(n, r)
    {
      match a
      case Request(_, _, _, _, _) => RequestKeepsSeen(w, a, r);
      case AcceptTrade(_, _, _) => if Accepts(w.trades, a) { AcceptKeepsSeen(w, a, r); } else { assert SeenAt(w, r); }
      case FinishTransfer(_, _) => FinishKeepsSeen(w, a, r);
      case Close(_) => CloseKeepsSeen(w, a, r);
      case Carry(_, _) => assert SeenAt(w, r);
    }
  }

  lemma StepKeepsPlayers(s: Trades, a: Action)
    requires Inv(s)
    ensures Next(s, a).traders.Keys == s.traders.Keys
  {
    match a
    case Request(_, _, _, _, _) =>
    case AcceptTrade(p, _, mayTrade) =>
      if Accepts(s, a) {
        assert TraderOk(s, p);
        AcceptKeepsInv(s, p);
        AcceptKeepsPlayers(s, p, mayTrade);
      }
    case FinishTransfer(_, _) =>
    case Close(p) =>
      if p in s.traders {
        CloseKeepsPlayers(s, p);
      }
    case Carry(_, _) =>
  }

  lemma AcceptKeepsPlayers(s: Trades, p: Id, mayTrade: bool)
    requires p in s.traders && s.traders[p].partner.Some? && s.traders[p].partner.value in s.traders
    requires s.traders[p].partner.value != p && Inv(s.(traders := s.traders[p := s.traders[p].(state := Accept)]))
    ensures Accepted(s, p, mayTrade).traders.Keys == s.traders.Keys
  {
    var accepted := s.(traders := s.traders[p := s.traders[p].(state := Accept)]);
    CloseKeepsPlayers(accepted, p);
    TransferMarks(accepted, p, s.traders[p].partner.value);
  }

  lemma {:induction false} RunKeepsSeen(s: Trades, run: seq<Action>)
    requires IsStart(s)
    ensures SeenOk(WatchedRun(s, run)) && WatchedRun(s, run).trades == Run(s, run)
  {
    if run != [] {
      RunKeepsSeen(s, run[..|run| - 1]);
      StepKeepsSeen(WatchedRun(s, run[..|run| - 1]), run[|run| - 1]);
    } else {
      ReachableIsInv(s, run);
    }
  }

  /** When a transfer begins, each side has accepted the very offer it faces unless it had
      accepted before that offer was made; at most one of the two has. */
  lemma AcceptedAsOfferedIff(s: Trades, run: seq<Action>, p: Id)
    requires IsStart(s) && p in Run(s, run).traders && Run(s, run).traders[p].state.Transfer?
    ensures var w, t := WatchedRun(s, run), Run(s, run).traders[p];
            && w.trades == Run(s, run) && t.partner.Some? && t.partner.value in w.trades.traders
            && var q := t.partner.value;
               && p in w.seen && q in w.seen
               && (w.seen[p] == w.trades.traders[q].item <==> !Blind(w, p, q))
               && !(Blind(w, p, q) && Blind(w, q, p))
  {
    RunKeepsSeen(s, run);
    var w := WatchedRun(s, run);
    assert SeenAt(w, p) && TraderOk(w.trades, p);
    var q := w.trades.traders[p].partner.value;
    assert SeenAt(w, q) && TraderOk(w.trades, q);
  }

  // ----- Accepting before the counter-offer ------------------------------------------------------

  function BlindRun(p: Id, q: Id, x: Item, y: Item, holds: (Item, Item) -> bool): seq<Action> {
    [Request(p, q, x, true, holds), AcceptTrade(p, true, true), Request(q, p, y, true, holds),
        AcceptTrade(q, true, true)]
  }

  /** A player offers an item and accepts at once; whatever the partner offers then, the
      partner's acceptance begins the transfer. */
  lemma AcceptedBlind(s: Trades, p: Id, q: Id, x: Item, y: Item, holds: (Item, Item) -> bool)
    requires IsStart(s) && p in s.traders && q in s.traders && p != q && x != y && !holds(x, y) && !holds(y, x)
    ensures var w := WatchedRun(s, BlindRun(p, q, x, y, holds));
            && Pair(s, w.trades, p, q, Trader(Transfer, Some(q), Some(x)), Trader(Transfer, Some(p), Some(y)))
            && Blind(w, p, q)
  {
    var run := BlindRun(p, q, x, y, holds);
    FirstOffer(s, p, q, x, holds);
    var one := NextWatched(Watched(s, map[]), run[0]);
    OfferAccepted(one.trades, p, q, x);
    var two := NextWatched(one, run[1]);
    LateOffer(two.trades, p, q, x, y, holds);
    var three := NextWatched(two, run[2]);
    LateAccept(three.trades, p, q, x, y);
    FourWatchedSteps(s, run, one, two, three);
  }

  lemma OfferAccepted(s: Trades, p: Id, q: Id, x: Item)
    requires p in s.traders && q in s.traders && p != q
    requires s.traders[p] == Trader(Initiated, Some(q), Some(x)) && s.traders[q] == Trader(Acknowledge, Some(p), None)
    ensures var n := Next(s, AcceptTrade(p, true, true));
            Pair(s, n, p, q, Trader(Accept, Some(q), Some(x)), s.traders[q]) && n.tradeItems == s.tradeItems
  {
  }

  lemma LateOffer(s: Trades, p: Id, q: Id, x: Item, y: Item, holds: (Item, Item) -> bool)
    requires p in s.traders && q in s.traders && p != q && x != y && !holds(x, y) && !holds(y, x)
    requires s.tradeItems == map[x := p]
    requires s.traders[p] == Trader(Accept, Some(q), Some(x)) && s.traders[q] == Trader(Acknowledge, Some(p), None)
    ensures Pair(s, Next(s, Request(q, p, y, true, holds)), p, q, s.traders[p], Trader(Initiated, Some(p), Some(y)))
  {
  }

  lemma LateAccept(s: Trades, p: Id, q: Id, x: Item, y: Item)
    requires p in s.traders && q in s.traders && p != q
    requires s.traders[p] == Trader(Accept, Some(q), Some(x)) && s.traders[q] == Trader(Initiated, Some(p), Some(y))
    ensures Pair(s, Next(s, AcceptTrade(q, true, true)), p, q, Trader(Transfer, Some(q), Some(x)),
                 Trader(Transfer, Some(p), Some(y)))
  {
    var accepted := s.(traders := s.traders[q := s.traders[q].(state := Accept)]);
    assert Next(s, AcceptTrade(q, true, true)) == Transferring(accepted, q, p);
    TransferMarks(accepted, q, p);
  }

  lemma FourWatchedSteps(s: Trades, run: seq<Action>, one: Watched, two: Watched, three: Watched)
    requires |run| == 4 && one == NextWatched(Watched(s, map[]), run[0])
    requires two == NextWatched(one, run[1]) && three == NextWatched(two, run[2])
    ensures WatchedRun(s, run) == NextWatched(three, run[3])
  {
    assert run[..3][..2] == run[..2] && run[..2][..1] == run[..1] && run[..1][..0] == [];
    assert WatchedRun(s, run[..1]) == one;
    assert WatchedRun(s, run[..2]) == two;
    assert WatchedRun(s, run[..3]) == three;
  }
}
