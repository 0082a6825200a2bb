/** What requesting, accepting and closing come to for the two sides, the register and everyone
    else, said of these alone (playerRequestTrade, internalStartTrade, playerAcceptTrade and
    internalCloseTrade in engine/src/game.cpp). */
module TradeTerms {
  import opened Common
  import opened Trade

  // Apart from these two, all players are as they were.
  ghost predicate OthersSame(s: Trades, n: Trades, p: Id, q: Id) {
    && n.traders.Keys == s.traders.Keys
    && forall r {:trigger n.traders[r]} :: r in s.traders && r != p && r != q ==> n.traders[r] == s.traders[r]
  }

  /** A request starts a trade exactly when the other checks pass, no item on offer is this one,
      lies in it or holds it, the player is in no trade or was asked by this partner, and the
      partner is in no trade or in one with the player.  The player then has the item on offer,
      and a partner without a trade is asked. */
  lemma RequestIs(s: Trades, p: Id, q: Id, item: Item, passes: bool, holds: (Item, Item) -> bool)
    requires p in s.traders && q in s.traders && p != q
    ensures var (n, t, u) := (Next(s, Request(p, q, item, passes, holds)), s.traders[p], s.traders[q]);
            var starts := && passes
                          && (forall i :: i in s.tradeItems ==> i != item && !holds(item, i) && !holds(i, item))
                          && (t.state == Idle || (t.state == Acknowledge && t.partner == Some(q)))
                          && (u.state == Idle || u.partner == Some(p));
            && (!starts ==> n == s)
            && (starts ==>
                  && p in n.traders && n.traders[p] == Trader(Initiated, Some(q), Some(item))
                  && q in n.traders
                  && n.traders[q] == (if u.state == Idle then Trader(Acknowledge, Some(p), u.item) else u)
                  && OthersSame(s, n, p, q)
                  && n.tradeItems == s.tradeItems[item := p] && n.references == s.references + multiset{item}
                  && n.carried == s.carried)
  {
  }

  /** An acceptance counts only from a player with an offer or asked for one, and is noted as long
      as the partner has not accepted. */
  lemma AcceptIs(s: Trades, p: Id, q: Id, passes: bool, mayTrade: bool)
    requires Inv(s) && p in s.traders && s.traders[p].partner == Some(q)
    ensures q in s.traders && p != q
    ensures var (n, t) := (Next(s, AcceptTrade(p, passes, mayTrade)), s.traders[p]);
            var counts := passes && (t.state == Acknowledge || t.state == Initiated);
            && (!counts ==> n == s)
            && (counts && s.traders[q].state != Accept ==>
                  n == s.(traders := s.traders[p := Trader(Accept, Some(q), t.item)]))
  {
    assert TraderOk(s, p) && TraderOk(s, q);
  }

  /** When the partner has accepted before and the event agrees, both sides go into transfer with
      their items, which leave the register; when it does not, both are without a trade. */
  lemma SecondAcceptIs(s: Trades, p: Id, q: Id, mayTrade: bool)
    requires Inv(s) && p in s.traders && s.traders[p].partner == Some(q) && q in s.traders
    requires (s.traders[p].state == Acknowledge || s.traders[p].state == Initiated) && s.traders[q].state == Accept
    ensures var (n, t, u) := (Next(s, AcceptTrade(p, true, mayTrade)), s.traders[p], s.traders[q]);
            if mayTrade then
              BothBecome(s, n, p, q, Trader(Transfer, Some(q), t.item), Trader(Transfer, Some(p), u.item))
            else BothBecome(s, n, p, q, Trader(Idle, None, None), Trader(Idle, None, None))
  {
    assert TraderOk(s, p) && TraderOk(s, q);
    AcceptLeads(s, p, q, mayTrade);
    AcceptBecomes(s, p, q, mayTrade);
  }

  lemma AcceptLeads(s: Trades, p: Id, q: Id, mayTrade: bool)
    requires p in s.traders && s.traders[p].partner == Some(q) && q in s.traders && p != q
             && s.traders[q].state == Accept
    requires s.traders[p].state == Acknowledge || s.traders[p].state == Initiated
    ensures var accepted := s.(traders := s.traders[p := s.traders[p].(state := Accept)]);
            Next(s, AcceptTrade(p, true, mayTrade))
                == if mayTrade then Transferring(accepted, p, q) else Closed(accepted, p)
  {
  }

  lemma AcceptBecomes(s: Trades, p: Id, q: Id, mayTrade: bool)
    requires Inv(s) && p in s.traders && s.traders[p].partner == Some(q) && q in s.traders && p != q
    requires s.traders[p].state == Acknowledge || s.traders[p].state == Initiated
    ensures var accepted := s.(traders := s.traders[p := s.traders[p].(state := Accept)]);
            var (t, u) := (s.traders[p], s.traders[q]);
            if mayTrade then
              BothBecome(s, Transferring(accepted, p, q), p, q, t.(state := Transfer), u.(state := Transfer))
            else BothBecome(s, Closed(accepted, p), p, q, Trader(Idle, None, None), Trader(Idle, None, None))
  {
    var accepted := s.(traders := s.traders[p := s.traders[p].(state := Accept)]);
    if mayTrade {
      TransferIs(accepted, p, q);
      BothBecomeStill(s, accepted, Transferring(accepted, p, q), p, q, s.traders[p].(state := Transfer),
          s.traders[q].(state := Transfer));
    } else {
      AcceptKeepsInv(s, p);
      CloseIs(accepted, p, q);
      BothBecomeStill(s, accepted, Closed(accepted, p), p, q, NO_TRADE, NO_TRADE);
    }
  }

  // The two sides become this, their items and no others leave the register, and nothing else
  // changes.
  ghost predicate BothBecome(s: Trades, n: Trades, p: Id, q: Id, t: Trader, u: Trader) {
    && p in s.traders && q in s.traders && OthersSame(s, n, p, q) && n.carried == s.carried
    && n.traders[p] == t && n.traders[q] == u
    && forall i :: i in n.tradeItems <==>
                     i in s.tradeItems && s.traders[p].item != Some(i) && s.traders[q].item != Some(i)
  }

  lemma BothBecomeStill(s: Trades, m: Trades, n: Trades, p: Id, q: Id, t: Trader, u: Trader)
    requires BothBecome(m, n, p, q, t, u) && p in s.traders && q in s.traders && p != q
    requires m == s.(traders := s.traders[p := s.traders[p].(state := Accept)])
    ensures BothBecome(s, n, p, q, t, u)
  {
  }

  lemma TransferIs(s: Trades, p: Id, q: Id)
    requires p in s.traders && q in s.traders && p != q
    ensures BothBecome(s, Transferring(s, p, q), p, q, s.traders[p].(state := Transfer),
            s.traders[q].(state := Transfer))
  {
    TransferMarks(s, p, q);
    TransferClears(s, p, q);
  }

  lemma ReleaseIs(s: Trades, item: Option<Item>)
    ensures var n := Released(s, item);
            n.traders == s.traders && n.carried == s.carried
            && forall i :: i in n.tradeItems <==> i in s.tradeItems && item != Some(i)
  {
  }

  lemma TransferClears(s: Trades, p: Id, q: Id)
    requires p in s.traders && q in s.traders
    ensures forall i :: i in Transferring(s, p, q).tradeItems <==>
                          i in s.tradeItems && s.traders[p].item != Some(i) && s.traders[q].item != Some(i)
  {
    var started := s.(traders := s.traders[p := s.traders[p].(state := Transfer)]
                                          [q := s.traders[q].(state := Transfer)]);
    ReleaseIs(started, s.traders[p].item);
    ReleaseIs(Released(started, s.traders[p].item), s.traders[q].item);
  }

  /** Closing, outside a transfer, leaves both sides without a trade and takes their items, and no
      others, out of the register. */
  lemma CloseIs(s: Trades, p: Id, q: Id)
    requires Inv(s) && p in s.traders && s.traders[p].partner == Some(q) && q in s.traders && p != q
    requires s.traders[p].state != Transfer
    ensures BothBecome(s, Next(s, Close(p)), p, q, Trader(Idle, None, None), Trader(Idle, None, None))
  {
    assert TraderOk(s, p) && TraderOk(s, q);
    var one := Released(s, s.traders[p].item).(traders := s.traders[p := NO_TRADE]);
    var two := Released(one, s.traders[q].item).(traders := one.traders[q := NO_TRADE]);
    assert Next(s, Close(p)) == two;
    ReleasesBoth(s, one, two, p, q);
  }

  lemma ReleasesBoth(s: Trades, one: Trades, two: Trades, p: Id, q: Id)
    requires p in s.traders && q in s.traders && p != q
    requires one == Released(s, s.traders[p].item).(traders := s.traders[p := NO_TRADE])
    requires two == Released(one, s.traders[q].item).(traders := one.traders[q := NO_TRADE])
    ensures BothBecome(s, two, p, q, NO_TRADE, NO_TRADE)
  {
    ReleaseIs(s, s.traders[p].item);
    ReleaseIs(one, s.traders[q].item);
  }
}
