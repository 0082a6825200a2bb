/** Trading between players (engine/src/game.cpp: playerRequestTrade, internalStartTrade,
    playerAcceptTrade, internalCloseTrade).

    Distances, sight, the other checks on a request and the script events are inputs; whether
    an item can be moved to a player is asked of an input too, with who carries what at that
    moment.  A transfer is two steps, so that whatever the moving of items sets off, closing
    trades among it, comes in between. */
module Trade {
  import opened Common

  type Id = nat
  type Item = nat

  datatype TradeState = Idle | Initiated | Accept | Acknowledge | Transfer

  datatype Trader = Trader(state: TradeState, partner: Option<Id>, item: Option<Item>)

  const NO_TRADE := Trader(Idle, None, None)

  // Who carries an item.
  type Carried = map<Item, Id>

  /** The players, the register of offered items with their owners, the references held to items
      for it, and who carries what. */
  datatype Trades = Trades(traders: map<Id, Trader>, tradeItems: map<Item, Id>, references: multiset<Item>,
      carried: Carried)

  // What is answered about items and players: whether there is room for an item, whether it may
  // leave its place, and whether the move to the player succeeds.
  datatype Answers = Answers(fits: (Carried, Item, Id) -> bool, removable: Item -> bool,
      moves: (Carried, Item, Id) -> bool)

  // ----- The steps -------------------------------------------------------------------------

  /** Nothing offered is this item, lies in it, or holds it. */
  ghost predicate Free(s: Trades, item: Item, holds: (Item, Item) -> bool) {
    forall i :: i in s.tradeItems ==> i != item && !holds(item, i) && !holds(i, item)
  }

  predicate MayStart(s: Trades, p: Id, q: Id)
    requires p in s.traders && q in s.traders
  {
    && (s.traders[p].state.Idle? || (s.traders[p].state.Acknowledge? && s.traders[p].partner == Some(q)))
    && (s.traders[q].state.Idle? || s.traders[q].partner == Some(p))
  }

  function Started(s: Trades, p: Id, q: Id, item: Item): Trades
    requires p in s.traders && q in s.traders
  {
    var offered := s.traders[p := Trader(Initiated, Some(q), Some(item))];
    var asked := s.traders[q].(state := Acknowledge, partner := Some(p));
    Trades(if s.traders[q].state.Idle? then offered[q := asked] else offered,
           s.tradeItems[item := p], s.references + multiset{item}, s.carried)
  }

  // An item leaves the register, and the reference held to it is given back.
  function Released(s: Trades, item: Option<Item>): Trades {
    if item.Some? && item.value in s.tradeItems then
      s.(tradeItems := s.tradeItems - {item.value}, references := s.references - multiset{item.value})
    else s
  }

  function Closed(s: Trades, p: Id): Trades
    requires p in s.traders
  {
    var t := s.traders[p];
    if t.state.Transfer? || (t.partner.Some? && t.partner.value in s.traders
        && s.traders[t.partner.value].state.Transfer?) then s
    else
      var one := Released(s, t.item).(traders := s.traders[p := NO_TRADE]);
      if t.partner.Some? && t.partner.value in s.traders then
        Released(one, s.traders[t.partner.value].item).(traders := one.traders[t.partner.value := NO_TRADE])
      else one
  }

  function Transferring(s: Trades, p: Id, q: Id): Trades
    requires p in s.traders && q in s.traders
  {
    var started := s.(traders := s.traders[p := s.traders[p].(state := Transfer)]
                                    [q := s.traders[q].(state := Transfer)]);
    Released(Released(started, s.traders[p].item), s.traders[q].item)
  }

  function Accepted(s: Trades, p: Id, mayTrade: bool): Trades
    requires p in s.traders && s.traders[p].partner.Some? && s.traders[p].partner.value in s.traders
  {
    var q := s.traders[p].partner.value;
    var accepted := s.(traders := s.traders[p := s.traders[p].(state := Accept)]);
    if !accepted.traders[q].state.Accept? then accepted
    else if !mayTrade then Closed(accepted, p)
    else Transferring(accepted, p, q)
  }

  // All tests pass, and the first of the two moves succeeds.
  predicate Succeeds(s: Trades, p: Id, a: Answers)
    requires p in s.traders && s.traders[p].partner.Some? && s.traders[p].partner.value in s.traders
  {
    var q := s.traders[p].partner.value;
    var (x, y) := (s.traders[p].item, s.traders[q].item);
    && x.Some? && y.Some? && a.fits(s.carried, x.value, q) && a.fits(s.carried, y.value, p)
    && a.removable(x.value) && a.removable(y.value) && a.moves(s.carried, x.value, q)
  }

  // An item goes to a player if it can be moved there.
  function Handed(carried: Carried, item: Item, to: Id, a: Answers): Carried {
    if a.moves(carried, item, to) then carried[item := to] else carried
  }

  // Nobody asks how the second move went.
  function Exchanged(s: Trades, p: Id, a: Answers): Carried
    requires p in s.traders && s.traders[p].partner.Some? && s.traders[p].partner.value in s.traders
  {
    if !Succeeds(s, p, a) then s.carried
    else
      var q := s.traders[p].partner.value;
      Handed(Handed(s.carried, s.traders[p].item.value, q, a), s.traders[q].item.value, p, a)
  }

  datatype Action =
    | Request(p: Id, q: Id, item: Item, passes: bool, holds: (Item, Item) -> bool)
    | AcceptTrade(p: Id, passes: bool, mayTrade: bool)
    | FinishTransfer(p: Id, answers: Answers)
    | Close(p: Id)
    | Carry(item: Item, to: Id)

  ghost function Next(s: Trades, a: Action): Trades {
    match a
    case Request(p, q, item, passes, holds) =>
      if passes && p in s.traders && q in s.traders && p != q && Free(s, item, holds) && MayStart(s, p, q) then
          Started(s, p, q, item)
      else s
    case AcceptTrade(p, passes, mayTrade) =>
      if p in s.traders && (s.traders[p].state.Acknowledge? || s.traders[p].state.Initiated?)
         && s.traders[p].partner.Some? && s.traders[p].partner.value in s.traders && passes then
             Accepted(s, p, mayTrade)
      else s
    case FinishTransfer(p, answers) =>
      if p in s.traders && s.traders[p].state.Transfer? && s.traders[p].partner.Some?
          && s.traders[p].partner.value in s.traders then
        s.(traders := s.traders[p := NO_TRADE][s.traders[p].partner.value := NO_TRADE],
            carried := Exchanged(s, p, answers))
      else s
    case Close(p) => if p in s.traders then Closed(s, p) else s
    // Everything else that gives an item to a player.
    case Carry(item, to) => s.(carried := s.carried[item := to])
  }

  // ----- What every state keeps --------------------------------------------------------------

  predicate TraderOk(s: Trades, p: Id)
    requires p in s.traders
  {
    var t := s.traders[p];
    && (t.state.Idle? <==> t.partner.None?)
    && (t.state.Idle? || t.state.Acknowledge? ==> t.item.None?)
    && (t.state.Initiated? ==> t.item.Some?)
    && (t.partner.Some? ==>
          var q := t.partner.value;
          && q != p && q in s.traders && s.traders[q].partner == Some(p)
          && (t.state.Transfer? <==> s.traders[q].state.Transfer?)
          && (t.item.Some? || s.traders[q].item.Some?)
          && (t.item.Some? ==> t.item != s.traders[q].item))
  }

  /** Partners are symmetric; without a partner means without a trade; an initiated trade has
      an offer, an acknowledged one none, and each pair has at least one and never the same one
      twice; the two sides are in transfer together. */
  ghost predicate PartnersOk(s: Trades) {
    forall p {:trigger TraderOk(s, p)} :: p in s.traders ==> TraderOk(s, p)
  }

  // The register is right for all players but these, and has nothing of theirs.
  ghost predicate RegisterFor(s: Trades, out: set<Id>) {
    && (forall p {:trigger s.traders[p]} ::
          p in s.traders && p !in out && s.traders[p].item.Some? && !s.traders[p].state.Transfer? ==>
          s.traders[p].item.value in s.tradeItems && s.tradeItems[s.traders[p].item.value] == p)
    && (forall i {:trigger s.tradeItems[i]} :: i in s.tradeItems ==>
          s.tradeItems[i] in s.traders && s.tradeItems[i] !in out
          && s.traders[s.tradeItems[i]].item == Some(i) && !s.traders[s.tradeItems[i]].state.Transfer?)
    && (forall i {:trigger s.references[i]} :: s.references[i] == if i in s.tradeItems then 1 else 0)
  }

  /** The register maps exactly the items on offer to the players who offer them, so no item is
      offered twice, and holds one reference to each. */
  ghost predicate RegisterOk(s: Trades) {
    RegisterFor(s, {})
  }

  ghost predicate Inv(s: Trades) {
    PartnersOk(s) && RegisterOk(s)
  }

  lemma RequestKeepsPartners(s: Trades, p: Id, q: Id, item: Item)
    requires Inv(s) && p in s.traders && q in s.traders && p != q && item !in s.tradeItems && MayStart(s, p, q)
    ensures PartnersOk(Started(s, p, q, item))
  {
    var n := Started(s, p, q, item);
    assert TraderOk(s, p) && TraderOk(s, q);
    forall r | r in n.traders
      ensures TraderOk(n, r)
    {
      assert TraderOk(s, r);
    }
  }

  lemma RequestKeepsRegister(s: Trades, p: Id, q: Id, item: Item)
    requires Inv(s) && p in s.traders && q in s.traders && p != q && item !in s.tradeItems && MayStart(s, p, q)
    ensures RegisterOk(Started(s, p, q, item))
  {
    assert TraderOk(s, p) && TraderOk(s, q);
  }

  // A player's item leaves the register.
  lemma ReleaseOne(s: Trades, out: set<Id>, p: Id)
    requires RegisterFor(s, out) && p in s.traders && p !in out && !s.traders[p].state.Transfer?
    ensures RegisterFor(Released(s, s.traders[p].item), out + {p})
    ensures Released(s, s.traders[p].item).traders == s.traders
  {
  }

  // Players whose items have left may be set to no offer or to transfer.
  lemma OthersSame(s: Trades, out: set<Id>, n: Trades)
    requires RegisterFor(s, out) && n.tradeItems == s.tradeItems && n.references == s.references
             && n.traders.Keys == s.traders.Keys
    requires forall p {:trigger n.traders[p]} :: p in n.traders ==>
               if p in out then n.traders[p].item.None? || n.traders[p].state.Transfer?
               else n.traders[p] == s.traders[p]
    ensures RegisterOk(n)
  {
  }

  lemma CloseKeepsPartners(s: Trades, p: Id)
    requires PartnersOk(s) && p in s.traders
    ensures PartnersOk(Closed(s, p))
  {
    var n := Closed(s, p);
    assert TraderOk(s, p);
    forall r | r in n.traders
      ensures TraderOk(n, r)
    {
      assert TraderOk(s, r);
    }
  }

  lemma CloseKeepsInv(s: Trades, p: Id)
    requires Inv(s) && p in s.traders
    ensures Inv(Closed(s, p))
  {
    CloseKeepsPartners(s, p);
    assert TraderOk(s, p);
    CloseKeepsRegister(s, p);
  }

  lemma CloseKeepsRegister(s: Trades, p: Id)
    requires RegisterOk(s) && p in s.traders && TraderOk(s, p)
    ensures RegisterOk(Closed(s, p))
  {
    var n, t := Closed(s, p), s.traders[p];
    if !t.state.Transfer? {
      ReleaseOne(s, {}, p);
      var one := Released(s, t.item);
      if t.partner.Some? {
        var q := t.partner.value;
        var item := s.traders[q].item;
        ReleaseOne(one, {p}, q);
        ReleaseOther(one, one.(traders := s.traders[p := NO_TRADE]), item);
        OthersSame(Released(one, item), {p, q}, n);
      } else {
        OthersSame(one, {p}, n);
      }
    }
  }

  lemma TransferKeepsInv(s: Trades, p: Id, q: Id)
    requires Inv(s) && p in s.traders && q in s.traders && s.traders[p].partner == Some(q)
             && !s.traders[p].state.Transfer?
    ensures Inv(Transferring(s, p, q))
  {
    TransferKeepsPartners(s, p, q);
    assert TraderOk(s, p);
    TransferKeepsRegister(s, p, q);
  }

  lemma TransferKeepsPartners(s: Trades, p: Id, q: Id)
    requires PartnersOk(s) && p in s.traders && s.traders[p].partner == Some(q) && q in s.traders
    ensures PartnersOk(Transferring(s, p, q))
  {
    var n := s.(traders := s.traders[p := s.traders[p].(state := Transfer)][q := s.traders[q].(state := Transfer)]);
    MarkKeepsPartners(s, p, q);
    ReleaseOther(n, n, s.traders[p].item);
    ReleaseOther(Released(n, s.traders[p].item), Released(n, s.traders[p].item), s.traders[q].item);
    PartnersSame(n, Transferring(s, p, q));
  }

  lemma MarkKeepsPartners(s: Trades, p: Id, q: Id)
    requires PartnersOk(s) && p in s.traders && s.traders[p].partner == Some(q) && q in s.traders
    ensures PartnersOk(s.(traders := s.traders[p := s.traders[p].(state := Transfer)]
            [q := s.traders[q].(state := Transfer)]))
  {
    var n := s.(traders := s.traders[p := s.traders[p].(state := Transfer)][q := s.traders[q].(state := Transfer)]);
    assert TraderOk(s, p) && TraderOk(s, q);
    forall r | r in n.traders
      ensures TraderOk(n, r)
    {
      assert TraderOk(s, r);
    }
  }

  lemma PartnersSame(s: Trades, n: Trades)
    requires PartnersOk(s) && n.traders == s.traders
    ensures PartnersOk(n)
  {
    forall r | r in n.traders
      ensures TraderOk(n, r)
    {
      assert TraderOk(s, r);
    }
  }

  lemma TransferKeepsRegister(s: Trades, p: Id, q: Id)
    requires RegisterOk(s) && p in s.traders && s.traders[p].partner == Some(q) && !s.traders[p].state.Transfer?
             && TraderOk(s, p)
    ensures RegisterOk(Transferring(s, p, q))
  {
    var x, y := s.traders[p].item, s.traders[q].item;
    ReleaseOne(s, {}, p);
    ReleaseOne(Released(s, x), {p}, q);
    var started := s.(traders := s.traders[p := s.traders[p].(state := Transfer)]
                                    [q := s.traders[q].(state := Transfer)]);
    ReleaseOther(s, started, x);
    ReleaseOther(Released(s, x), Released(started, x), y);
    OthersSame(Released(Released(s, x), y), {p, q}, Transferring(s, p, q));
  }

  // Releasing looks at the register only.
  lemma ReleaseOther(s: Trades, n: Trades, item: Option<Item>)
    requires s.tradeItems == n.tradeItems && s.references == n.references
    ensures Released(s, item).tradeItems == Released(n, item).tradeItems
    ensures Released(s, item).references == Released(n, item).references
    ensures Released(n, item).traders == n.traders && Released(s, item).traders == s.traders
  {
  }

  lemma AcceptKeepsInv(s: Trades, p: Id)
    requires Inv(s) && p in s.traders && (s.traders[p].state.Acknowledge? || s.traders[p].state.Initiated?)
    ensures Inv(s.(traders := s.traders[p := s.traders[p].(state := Accept)]))
  {
    var n := s.(traders := s.traders[p := s.traders[p].(state := Accept)]);
    assert TraderOk(s, p);
    forall r | r in n.traders
      ensures TraderOk(n, r)
    {
      assert TraderOk(s, r);
    }
  }

  lemma StepKeepsInv(s: Trades, a: Action)
    requires Inv(s)
    ensures Inv(Next(s, a))
  {
    match a
    case Request(p, q, item, passes, holds) =>
      if Next(s, a) != s {
        RequestKeepsPartners(s, p, q, item);
        RequestKeepsRegister(s, p, q, item);
      }
    case AcceptTrade(p, passes, mayTrade) =>
      if Next(s, a) != s {
        AcceptKeepsInv(s, p);
        var accepted := s.(traders := s.traders[p := s.traders[p].(state := Accept)]);
        CloseKeepsInv(accepted, p);
        TransferKeepsInv(accepted, p, s.traders[p].partner.value);
      }
    case FinishTransfer(p, answers) =>
      FinishKeepsInv(s, a);
    case Close(p) =>
      if p in s.traders {
        CloseKeepsInv(s, p);
      }
    case Carry(item, to) =>
      PartnersSame(s, Next(s, a));
  }

  lemma FinishKeepsInv(s: Trades, a: Action)
    requires Inv(s) && a.FinishTransfer?
    ensures Inv(Next(s, a))
  {
    var n := Next(s, a);
    if n != s {
      assert TraderOk(s, a.p) && TraderOk(s, s.traders[a.p].partner.value);
    }
    forall r | r in n.traders
      ensures TraderOk(n, r)
    {
      assert TraderOk(s, r);
    }
  }

  ghost function Run(s: Trades, run: seq<Action>): Trades {
    if run == [] then s else Next(Run(s, run[..|run| - 1]), run[|run| - 1])
  }

  /** Players in no trade, and nothing registered. */
  ghost predicate IsStart(s: Trades) {
    s.tradeItems == map[] && s.references == multiset{} && forall p {:trigger s.traders[p]} ::
        p in s.traders ==> s.traders[p] == NO_TRADE
  }

  /** Every reachable state keeps the invariant, in whatever order players request, accept and
      close, and whatever comes in between the two steps of a transfer. */
  lemma {:induction false} ReachableIsInv(s: Trades, run: seq<Action>)
    requires IsStart(s)
    ensures Inv(Run(s, run))
  {
    if run != [] {
      ReachableIsInv(s, run[..|run| - 1]);
      StepKeepsInv(Run(s, run[..|run| - 1]), run[|run| - 1]);
    }
  }

  /** No item has two owners in the register and no player two items. */
  lemma RegisterIsInjective(s: Trades, i: Item, j: Item)
    requires Inv(s) && i in s.tradeItems && j in s.tradeItems && s.tradeItems[i] == s.tradeItems[j]
    ensures i == j
  {
  }

  // Offered items lie apart.
  ghost predicate Apart(s: Trades, holds: (Item, Item) -> bool) {
    forall i, j {:trigger holds(i, j)} :: i in s.tradeItems && j in s.tradeItems && i != j ==> !holds(i, j)
  }

  lemma ReleaseShrinks(s: Trades, item: Option<Item>)
    ensures var n := Released(s, item);
            n.tradeItems.Keys <= s.tradeItems.Keys && n.traders == s.traders && n.carried == s.carried
  {
  }

  lemma CloseShrinks(s: Trades, p: Id)
    requires p in s.traders
    ensures Closed(s, p).tradeItems.Keys <= s.tradeItems.Keys && Closed(s, p).carried == s.carried
  {
    var t := s.traders[p];
    ReleaseShrinks(s, t.item);
    if t.partner.Some? && t.partner.value in s.traders {
      ReleaseShrinks(Released(s, t.item).(traders := s.traders[p := NO_TRADE]), s.traders[t.partner.value].item);
    }
  }

  lemma TransferShrinks(s: Trades, p: Id, q: Id)
    requires p in s.traders && q in s.traders
    ensures Transferring(s, p, q).tradeItems.Keys <= s.tradeItems.Keys && Transferring(s, p, q).carried == s.carried
  {
    var started := s.(traders := s.traders[p := s.traders[p].(state := Transfer)]
                                    [q := s.traders[q].(state := Transfer)]);
    ReleaseShrinks(started, s.traders[p].item);
    ReleaseShrinks(Released(started, s.traders[p].item), s.traders[q].item);
  }

  lemma StepKeepsApart(s: Trades, a: Action, holds: (Item, Item) -> bool)
    requires Apart(s, holds) && (a.Request? ==> a.holds == holds)
    ensures Apart(Next(s, a), holds)
  {
    match a
    case Request(p, q, item, passes, _) =>
    case AcceptTrade(p, passes, mayTrade) =>
      if Next(s, a) != s {
        var q := s.traders[p].partner.value;
        CloseShrinks(s.(traders := s.traders[p := s.traders[p].(state := Accept)]), p);
        TransferShrinks(s.(traders := s.traders[p := s.traders[p].(state := Accept)]), p, q);
      }
    case FinishTransfer(p, answers) =>
    case Close(p) =>
      if p in s.traders {
        CloseShrinks(s, p);
      }
    case Carry(item, to) =>
  }

  /** While no items are moved, no item on offer ever holds another one on offer. */
  lemma {:induction false} OffersStayApart(s: Trades, run: seq<Action>, holds: (Item, Item) -> bool)
    requires IsStart(s) && forall k :: 0 <= k < |run| && run[k].Request? ==> run[k].holds == holds
    ensures Apart(Run(s, run), holds)
  {
    if run != [] {
      OffersStayApart(s, run[..|run| - 1], holds);
      StepKeepsApart(Run(s, run[..|run| - 1]), run[|run| - 1], holds);
    }
  }

  /** During a transfer, closing changes nothing, whichever of the two sides it comes from. */
  lemma CloseInTransfer(s: Trades, p: Id)
    requires Inv(s) && p in s.traders && (s.traders[p].state.Transfer?
             || (s.traders[p].partner.Some? && s.traders[p].partner.value in s.traders
             && s.traders[s.traders[p].partner.value].state.Transfer?))
    ensures Next(s, Close(p)) == s
  {
    assert TraderOk(s, p);
  }

  /** Closing a trade leaves its two sides without one and everyone else as they were. */
  lemma CloseEndsTrade(s: Trades, p: Id, r: Id)
    requires Inv(s) && p in s.traders && !s.traders[p].state.Transfer? && r in s.traders
    ensures var n := Next(s, Close(p));
            && r in n.traders
            && n.traders[r] == if r == p || s.traders[p].partner == Some(r) then NO_TRADE else s.traders[r]
  {
    assert TraderOk(s, p);
  }

  /** A player who was asked may accept without an offer; when both have accepted, the transfer
      begins with one item missing. */
  lemma AcceptedWithoutOffer(s: Trades, p: Id, q: Id, item: Item, holds: (Item, Item) -> bool)
    requires IsStart(s) && p in s.traders && q in s.traders && p != q
    ensures var n := Next(Next(Next(s, Request(p, q, item, true, holds)), AcceptTrade(q, true, true)),
            AcceptTrade(p, true, true));
            p in n.traders && q in n.traders && n.traders[p] == Trader(Transfer, Some(q), Some(item))
                && n.traders[q] == Trader(Transfer, Some(p), None)
  {
    assert s.traders[p] == NO_TRADE && s.traders[q] == NO_TRADE;
    var one := Next(s, Request(p, q, item, true, holds));
    assert one.traders[p] == Trader(Initiated, Some(q), Some(item))
        && one.traders[q] == Trader(Acknowledge, Some(p), None);
    var two := Next(one, AcceptTrade(q, true, true));
    assert two.traders[q] == Trader(Accept, Some(p), None) && two.traders[p] == one.traders[p];
  }

  /** At the end of a transfer the first item changes hands exactly when both sides have offered,
      each item fits where it is to go, both may leave their places, and the move of the first
      succeeds; the second does exactly when its move succeeds as well, tried with the first one
      gone.  Nothing else changes hands, and both sides end without a trade. */
  lemma ExchangeIff(s: Trades, p: Id, q: Id, x: Item, y: Item, a: Answers)
    requires Inv(s) && p in s.traders && s.traders[p].state.Transfer? && s.traders[p].partner == Some(q)
             && q in s.traders
    requires x in s.carried && s.carried[x] == p && y in s.carried && s.carried[y] == q
    requires (s.traders[p].item.Some? ==> s.traders[p].item.value == x)
             && (s.traders[q].item.Some? ==> s.traders[q].item.value == y)
    ensures var n := Next(s, FinishTransfer(p, a));
            && n.carried.Keys == s.carried.Keys
            && (forall i :: i in n.carried && i != x && i != y ==> n.carried[i] == s.carried[i])
            && (n.carried[x] == q || n.carried[x] == p) && (n.carried[y] == p || n.carried[y] == q)
            && (n.carried[x] == q <==>
                  && s.traders[p].item.Some? && s.traders[q].item.Some?
                  && a.fits(s.carried, x, q) && a.fits(s.carried, y, p) && a.removable(x) && a.removable(y)
                  && a.moves(s.carried, x, q))
            && (n.carried[y] == p <==>
                  && s.traders[p].item.Some? && s.traders[q].item.Some?
                  && a.fits(s.carried, x, q) && a.fits(s.carried, y, p) && a.removable(x) && a.removable(y)
                  && a.moves(s.carried, x, q) && a.moves(s.carried[x := q], y, p))
            && n.traders == s.traders[p := Trader(Idle, None, None)][q := Trader(Idle, None, None)]
            && n.tradeItems == s.tradeItems && n.references == s.references
  {
    assert TraderOk(s, p) && TraderOk(s, q);
  }

  /** An item changes hands only by being moved outside trades, or from one side of a transfer
      to the other when that side had offered it. */
  lemma HandsChangeOnlyInTransfer(s: Trades, a: Action, i: Item)
    requires Inv(s) && i in s.carried && !a.Carry?
    ensures var n := Next(s, a);
            && i in n.carried
            && (n.carried[i] != s.carried[i] ==>
                  && a.FinishTransfer? && a.p in s.traders && s.traders[a.p].state.Transfer?
                  && s.traders[a.p].partner.Some? && s.traders[a.p].partner.value in s.traders
                  && Succeeds(s, a.p, a.answers)
                  && var q := s.traders[a.p].partner.value;
                     || (s.traders[a.p].item == Some(i) && n.carried[i] == q)
                     || (s.traders[q].item == Some(i) && n.carried[i] == a.p))
  {
    if a.FinishTransfer? {
      if Next(s, a) != s {
        TransferHands(s, a.p, a.answers, i);
      }
    } else {
      TradingMovesNothing(s, a);
    }
  }

  lemma TransferHands(s: Trades, p: Id, a: Answers, i: Item)
    requires p in s.traders && s.traders[p].partner.Some? && s.traders[p].partner.value in s.traders && i in s.carried
    ensures i in Exchanged(s, p, a)
    ensures Exchanged(s, p, a)[i] != s.carried[i] ==>
              && Succeeds(s, p, a)
              && var q := s.traders[p].partner.value;
                 || (s.traders[p].item == Some(i) && Exchanged(s, p, a)[i] == q)
                 || (s.traders[q].item == Some(i) && Exchanged(s, p, a)[i] == p)
  {
  }

  lemma TradingMovesNothing(s: Trades, a: Action)
    requires !a.Carry? && !a.FinishTransfer?
    ensures Next(s, a).carried == s.carried
  {
    match a
    case Request(p, q, item, passes, _) =>
    case AcceptTrade(p, passes, mayTrade) =>
      if Next(s, a) != s {
        var accepted := s.(traders := s.traders[p := s.traders[p].(state := Accept)]);
        CloseShrinks(accepted, p);
        TransferShrinks(accepted, p, s.traders[p].partner.value);
      }
    case Close(p) =>
      if p in s.traders {
        CloseShrinks(s, p);
      }
  }

  // The players of a trade, up to its transfer.
  function TradeRun(p: Id, q: Id, x: Item, y: Item, holds: (Item, Item) -> bool): seq<Action> {
    [Request(p, q, x, true, holds), Request(q, p, y, true, holds), AcceptTrade(q, true, true),
        AcceptTrade(p, true, true)]
  }

  lemma RunSteps(s: Trades, run: seq<Action>, a: Action)
    ensures Run(s, run + [a]) == Next(Run(s, run), a)
  {
    assert (run + [a])[..|run|] == run;
  }

  // Two players' sides, and all others as they were.
  ghost predicate Pair(s: Trades, n: Trades, p: Id, q: Id, t: Trader, u: Trader) {
    && n.traders.Keys == s.traders.Keys && p in n.traders && n.traders[p] == t && q in n.traders && n.traders[q] == u
    && (forall r {:trigger n.traders[r]} :: r in s.traders && r != p && r != q ==> n.traders[r] == s.traders[r])
    && n.carried == s.carried
  }

  lemma FirstOffer(s: Trades, p: Id, q: Id, x: Item, holds: (Item, Item) -> bool)
    requires IsStart(s) && p in s.traders && q in s.traders && p != q
    ensures var n := Next(s, Request(p, q, x, true, holds));
            Pair(s, n, p, q, Trader(Initiated, Some(q), Some(x)), Trader(Acknowledge, Some(p), None))
                && n.tradeItems == map[x := p]
  {
    assert s.traders[p] == NO_TRADE && s.traders[q] == NO_TRADE;
  }

  lemma SecondOffer(s: Trades, p: Id, q: Id, x: Item, y: Item, holds: (Item, Item) -> bool)
    requires p in s.traders && q in s.traders && p != q && x != y && !holds(x, y) && !holds(y, x)
             && s.tradeItems == map[x := p]
    requires s.traders[p] == Trader(Initiated, Some(q), Some(x)) && s.traders[q] == Trader(Acknowledge, Some(p), None)
    ensures var n := Next(s, Request(q, p, y, true, holds));
            Pair(s, n, p, q, Trader(Initiated, Some(q), Some(x)), Trader(Initiated, Some(p), Some(y)))
  {
  }

  lemma FirstAccepts(s: Trades, p: Id, q: Id, x: Item, y: Item)
    requires p in s.traders && q in s.traders && p != q
    requires s.traders[p] == Trader(Initiated, Some(q), Some(x)) && s.traders[q] == Trader(Initiated, Some(p), Some(y))
    ensures Pair(s, Next(s, AcceptTrade(q, true, true)), p, q, s.traders[p], Trader(Accept, Some(p), Some(y)))
  {
  }

  lemma SecondAccepts(s: Trades, p: Id, q: Id, x: Item, y: Item)
    requires p in s.traders && q in s.traders && p != q
    requires s.traders[p] == Trader(Initiated, Some(q), Some(x)) && s.traders[q] == Trader(Accept, Some(p), Some(y))
    ensures Pair(s, Next(s, AcceptTrade(p, true, true)), p, q, Trader(Transfer, Some(q), Some(x)),
            Trader(Transfer, Some(p), Some(y)))
  {
    var accepted := s.(traders := s.traders[p := s.traders[p].(state := Accept)]);
    assert Next(s, AcceptTrade(p, true, true)) == Transferring(accepted, p, q);
    TransferMarks(accepted, p, q);
  }

  lemma TransferMarks(s: Trades, p: Id, q: Id)
    requires p in s.traders && q in s.traders && p != q
    ensures Pair(s, Transferring(s, p, q), p, q, s.traders[p].(state := Transfer), s.traders[q].(state := Transfer))
  {
    var started := s.(traders := s.traders[p := s.traders[p].(state := Transfer)]
                                    [q := s.traders[q].(state := Transfer)]);
    ReleaseShrinks(started, s.traders[p].item);
    ReleaseShrinks(Released(started, s.traders[p].item), s.traders[q].item);
  }

  lemma TradeRunTransfers(s: Trades, p: Id, q: Id, x: Item, y: Item, holds: (Item, Item) -> bool)
    requires IsStart(s) && p in s.traders && q in s.traders && p != q && x != y && !holds(x, y) && !holds(y, x)
    ensures Pair(s, Run(s, TradeRun(p, q, x, y, holds)), p, q, Trader(Transfer, Some(q), Some(x)),
            Trader(Transfer, Some(p), Some(y)))
  {
    var run := TradeRun(p, q, x, y, holds);
    FirstOffer(s, p, q, x, holds);
    var one := Next(s, run[0]);
    SecondOffer(one, p, q, x, y, holds);
    var two := Next(one, run[1]);
    FirstAccepts(two, p, q, x, y);
    var three := Next(two, run[2]);
    SecondAccepts(three, p, q, x, y);
    FourSteps(s, run, one, two, three);
  }

  lemma FourSteps(s: Trades, run: seq<Action>, one: Trades, two: Trades, three: Trades)
    requires |run| == 4 && one == Next(s, run[0]) && two == Next(one, run[1]) && three == Next(two, run[2])
    ensures Run(s, run) == Next(three, run[3])
  {
    RunSteps(s, [], run[0]);
    RunSteps(s, run[..1], run[1]);
    RunSteps(s, run[..2], run[2]);
    RunSteps(s, run[..3], run[3]);
    assert [] + [run[0]] == run[..1] && run[..1] + [run[1]] == run[..2] && run[..2] + [run[2]] == run[..3]
        && run[..3] + [run[3]] == run;
  }

  // A player has room only in one backpack, and the other player has all the room needed.
  function RoomInBackpack(backpack: Item, owner: Id): Answers {
    var room := (carried: Carried, i: Item, to: Id) =>
      to != owner || (backpack in carried && carried[backpack] == owner);
    Answers(room, i => true, room)
  }

  /** Whoever trades away the very backpack that was to hold the item received gets nothing for
      it: the trade is a success, and the other side has both items. */
  lemma BackpackTradedAway(s: Trades, p: Id, q: Id, backpack: Item, y: Item, holds: (Item, Item) -> bool)
    requires IsStart(s) && p in s.traders && q in s.traders && p != q && backpack != y
    requires !holds(backpack, y) && !holds(y, backpack)
    requires backpack in s.carried && s.carried[backpack] == p && y in s.carried && s.carried[y] == q
    ensures var n, a := Run(s, TradeRun(p, q, backpack, y, holds)), RoomInBackpack(backpack, p);
            && p in n.traders && n.traders[p].partner == Some(q) && q in n.traders && Succeeds(n, p, a)
            && Next(n, FinishTransfer(p, a)).carried == s.carried[backpack := q]
  {
    TradeRunTransfers(s, p, q, backpack, y, holds);
    var n, a := Run(s, TradeRun(p, q, backpack, y, holds)), RoomInBackpack(backpack, p);
    TransferKeepsBackpack(n, p, q, backpack, y, a);
  }

  lemma TransferKeepsBackpack(s: Trades, p: Id, q: Id, backpack: Item, y: Item, a: Answers)
    requires a == RoomInBackpack(backpack, p) && p != q && p in s.traders && q in s.traders
    requires s.traders[p] == Trader(Transfer, Some(q), Some(backpack))
             && s.traders[q] == Trader(Transfer, Some(p), Some(y))
    requires backpack in s.carried && s.carried[backpack] == p
    ensures Succeeds(s, p, a) && Next(s, FinishTransfer(p, a)).carried == s.carried[backpack := q]
  {
  }

  // ----- The players and the game --------------------------------------------------------------

  class Player {
    const id: Id
    var tradeState: TradeState
    var tradePartner: Player?
    var tradeItem: Option<Item>

    constructor (id: Id)
      ensures this.id == id && tradeState == Idle && tradePartner == null && tradeItem == None
    {
      this.id := id;
      tradeState, tradePartner, tradeItem := Idle, null, None;
    }
  }

  class Game {
    const players: map<Id, Player>
    var tradeItems: map<Item, Id>
    var references: multiset<Item>
    var carried: Carried

    // The objects show this state.
    ghost predicate Shows(s: Trades)
      reads this, players.Values
    {
      && tradeItems == s.tradeItems && references == s.references && carried == s.carried
          && players.Keys == s.traders.Keys
      && forall id {:trigger players[id]} {:trigger s.traders[id]} ::
          id in players ==> PlayerShows(players[id], id, s.traders[id])
    }

    ghost predicate PlayerShows(p: Player, id: Id, t: Trader)
      reads p
    {
      && p.id == id && p.tradeState == t.state && p.tradeItem == t.item
      && (p.tradePartner == null <==> t.partner.None?)
      && (p.tradePartner != null ==> t.partner == Some(p.tradePartner.id) && IsPlayer(p.tradePartner))
    }

    predicate IsPlayer(p: Player) {
      p.id in players && players[p.id] == p
    }

    method Release(item: Option<Item>, ghost s: Trades)
      requires Shows(s)
      modifies this
      ensures Shows(Released(s, item))
    {
      if item.Some? && item.value in tradeItems {
        tradeItems := tradeItems - {item.value};
        references := references - multiset{item.value};
      }
    }

    // One player's side of a trade.
    method SetTrade(player: Player, state: TradeState, partner: Player?, item: Option<Item>, ghost s: Trades)
      requires Shows(s) && IsPlayer(player) && (partner != null ==> IsPlayer(partner))
      modifies player
      ensures player.tradeState == state && player.tradePartner == partner && player.tradeItem == item
      ensures Shows(s.(traders := s.traders[player.id :=
              Trader(state, if partner == null then None else Some(partner.id), item)]))
    {
      player.tradeState := state;
      player.tradePartner := partner;
      player.tradeItem := item;
    }

    // A player's item is taken back, and the player is in no trade.
    method Withdraw(player: Player, ghost s: Trades)
      requires Shows(s) && IsPlayer(player)
      modifies this, player
      ensures Shows(Released(s, s.traders[player.id].item).(traders := s.traders[player.id := NO_TRADE]))
    {
      assert players[player.id] == player;
      Release(player.tradeItem, s);
      SetTrade(player, Idle, null, None, Released(s, player.tradeItem));
    }

    method InternalCloseTrade(player: Player, ghost s: Trades)
      requires Shows(s) && Inv(s) && IsPlayer(player)
      modifies this, players.Values
      ensures Shows(Closed(s, player.id))
    {
      var partner := player.tradePartner;
      assert TraderOk(s, player.id);
      if (partner != null && partner.tradeState.Transfer?) || player.tradeState.Transfer? {
        return;
      }
      Withdraw(player, s);
      if partner != null {
        Withdraw(partner, Released(s, s.traders[player.id].item).(traders := s.traders[player.id := NO_TRADE]));
      }
    }

    // Whether nothing on offer is this item, lies in it or holds it.
    method IsFree(item: Item, holds: (Item, Item) -> bool, ghost s: Trades) returns (free: bool)
      requires Shows(s)
      ensures free <==> Free(s, item, holds)
    {
      var todo := tradeItems.Keys;
      while todo != {}
        invariant todo <= tradeItems.Keys
        invariant forall i :: i in tradeItems && i !in todo ==> i != item && !holds(item, i) && !holds(i, item)
        decreases todo
      {
        var i :| i in todo;
        if i == item || holds(item, i) || holds(i, item) {
          return false;
        }
        todo := todo - {i};
      }
      free := true;
    }

    /** passes stands for all the checks that do not concern trades. */
    method RequestTrade(playerId: Id, partnerId: Id, item: Item, passes: bool, holds: (Item, Item) -> bool,
                        ghost s: Trades)
      requires Shows(s) && Inv(s)
      modifies this, players.Values
      ensures Shows(Next(s, Request(playerId, partnerId, item, passes, holds)))
    {
      if playerId !in players || partnerId !in players || playerId == partnerId || !passes {
        return;
      }
      var free := IsFree(item, holds, s);
      if free {
        InternalStartTrade(players[playerId], players[partnerId], item, s);
      }
    }

    method InternalStartTrade(player: Player, partner: Player, item: Item, ghost s: Trades)
      requires Shows(s) && Inv(s) && IsPlayer(player) && IsPlayer(partner) && player.id != partner.id
      modifies this, players.Values
      ensures Shows(if MayStart(s, player.id, partner.id) then Started(s, player.id, partner.id, item) else s)
    {
      assert players[player.id] == player && players[partner.id] == partner;
      if !player.tradeState.Idle? && !(player.tradeState.Acknowledge? && player.tradePartner == partner) {
        return;
      } else if !partner.tradeState.Idle? && partner.tradePartner != player {
        return;
      }
      Offer(player, partner, item, s);
    }

    method Offer(player: Player, partner: Player, item: Item, ghost s: Trades)
      requires Shows(s) && IsPlayer(player) && IsPlayer(partner) && player != partner
      modifies this, player, partner
      ensures player.id != partner.id && Shows(Started(s, player.id, partner.id, item))
    {
      assert players[player.id] == player && players[partner.id] == partner;
      SetTrade(player, Initiated, partner, Some(item), s);
      ghost var one := s.(traders := s.traders[player.id := Trader(Initiated, Some(partner.id), Some(item))]);
      if partner.tradeState.Idle? {
        SetTrade(partner, Acknowledge, player, partner.tradeItem, one);
      }
      references := references + multiset{item};
      tradeItems := tradeItems[item := player.id];
    }

    /** playerAcceptTrade up to the moving of the items; the result says whether they are to be
        moved. */
    method AcceptTrade(playerId: Id, passes: bool, mayTrade: bool, ghost s: Trades) returns (transfer: bool)
      requires Shows(s) && Inv(s)
      modifies this, players.Values
      ensures Shows(Next(s, Action.AcceptTrade(playerId, passes, mayTrade)))
      ensures transfer ==> playerId in players && players[playerId].tradeState.Transfer?
    {
      if playerId !in players || !passes {
        return false;
      }
      var player := players[playerId];
      assert TraderOk(s, playerId);
      if !player.tradeState.Acknowledge? && !player.tradeState.Initiated? {
        return false;
      }
      var partner := player.tradePartner;
      if partner == null {
        return false;
      }
      AcceptKeepsInv(s, playerId);
      transfer := AcceptWith(player, partner, mayTrade, s);
    }

    // Both sides have accepted once the partner had before.
    method AcceptWith(player: Player, partner: Player, mayTrade: bool, ghost s: Trades) returns (transfer: bool)
      requires Shows(s) && IsPlayer(player) && IsPlayer(partner) && s.traders[player.id].partner == Some(partner.id)
      requires player != partner && Inv(s.(traders := s.traders[player.id := s.traders[player.id].(state := Accept)]))
      modifies this, players.Values
      ensures Shows(Accepted(s, player.id, mayTrade))
      ensures transfer ==> player.tradeState.Transfer?
    {
      assert players[player.id] == player && players[partner.id] == partner;
      ghost var accepted := s.(traders := s.traders[player.id := s.traders[player.id].(state := Accept)]);
      SetTrade(player, Accept, player.tradePartner, player.tradeItem, s);
      transfer := false;
      if partner.tradeState.Accept? {
        if !mayTrade {
          InternalCloseTrade(player, accepted);
        } else {
          StartTransfer(player, partner, accepted);
          transfer := true;
        }
      }
    }

    method StartTransfer(player: Player, partner: Player, ghost s: Trades)
      requires Shows(s) && Inv(s) && IsPlayer(player) && IsPlayer(partner)
               && s.traders[player.id].partner == Some(partner.id)
      modifies this, players.Values
      ensures Shows(Transferring(s, player.id, partner.id)) && player.tradeState.Transfer?
    {
      assert TraderOk(s, player.id);
      ghost var started := MarkTransfer(player, partner, s);
      Release(player.tradeItem, started);
      Release(partner.tradeItem, Released(started, s.traders[player.id].item));
    }

    method MarkTransfer(player: Player, partner: Player, ghost s: Trades) returns (ghost started: Trades)
      requires Shows(s) && IsPlayer(player) && IsPlayer(partner) && player != partner
      modifies player, partner
      ensures started == s.(traders := s.traders[player.id := s.traders[player.id].(state := Transfer)]
                                                [partner.id := s.traders[partner.id].(state := Transfer)])
      ensures Shows(started) && player.tradeState.Transfer?
      ensures player.tradeItem == s.traders[player.id].item && partner.tradeItem == s.traders[partner.id].item
    {
      assert players[player.id] == player && players[partner.id] == partner;
      SetTrade(player, Transfer, player.tradePartner, player.tradeItem, s);
      ghost var one := s.(traders := s.traders[player.id := s.traders[player.id].(state := Transfer)]);
      SetTrade(partner, Transfer, partner.tradePartner, partner.tradeItem, one);
      started := one.(traders := one.traders[partner.id := one.traders[partner.id].(state := Transfer)]);
    }

    // internalMoveItem to a player.
    method MoveTo(item: Item, to: Id, a: Answers, ghost s: Trades) returns (moved: bool)
      requires Shows(s)
      modifies this`carried
      ensures moved == a.moves(s.carried, item, to) && Shows(s.(carried := Handed(s.carried, item, to, a)))
    {
      moved := a.moves(carried, item, to);
      if moved {
        carried := carried[item := to];
      }
    }

    /** The moving of the items, and the end of the trade.  An item that was never offered cannot
        be added.  A success means that the first item has moved; the answer to the second move
        is not looked at. */
    method EndTransfer(player: Player, a: Answers, ghost s: Trades) returns (success: bool)
      requires Shows(s) && Inv(s) && IsPlayer(player) && player.tradeState.Transfer?
      modifies this, players.Values
      ensures Shows(Next(s, FinishTransfer(player.id, a)))
      ensures s.traders[player.id].partner.Some? && s.traders[player.id].partner.value in s.traders
      ensures var (p, q) := (player.id, s.traders[player.id].partner.value);
              var (x, y) := (s.traders[p].item, s.traders[q].item);
              && (success <==>
                    && x.Some? && y.Some? && a.fits(old(carried), x.value, q) && a.fits(old(carried), y.value, p)
                    && a.removable(x.value) && a.removable(y.value) && a.moves(old(carried), x.value, q))
              && (!success ==> carried == old(carried))
              && (success ==>
                    var first := old(carried)[x.value := q];
                    carried == if a.moves(first, y.value, p) then first[y.value := p] else first)
    {
      assert TraderOk(s, player.id);
      var partner := player.tradePartner;
      success := Exchange(player, partner, a, s);
      ghost var one := s.(carried := Exchanged(s, player.id, a));
      SetTrade(player, Idle, null, None, one);
      SetTrade(partner, Idle, null, None, one.(traders := s.traders[player.id := NO_TRADE]));
    }

    method Exchange(player: Player, partner: Player, a: Answers, ghost s: Trades) returns (success: bool)
      requires Shows(s) && IsPlayer(player) && IsPlayer(partner) && player.tradePartner == partner
      modifies this`carried
      ensures players[player.id] == player && players[partner.id] == partner
              && s.traders[player.id].partner == Some(partner.id)
      ensures success <==> Succeeds(s, player.id, a)
      ensures Shows(s.(carried := Exchanged(s, player.id, a)))
    {
      assert players[player.id] == player && players[partner.id] == partner;
      success := false;
      var tradeItem1, tradeItem2 := player.tradeItem, partner.tradeItem;
      if tradeItem1.None? || tradeItem2.None? {
        return;
      }
      if a.fits(carried, tradeItem1.value, partner.id) && a.fits(carried, tradeItem2.value, player.id) {
        if a.removable(tradeItem1.value) && a.removable(tradeItem2.value) {
          success := MoveTo(tradeItem1.value, partner.id, a, s);
          if success {
            var unused := MoveTo(tradeItem2.value, player.id, a,
                s.(carried := Handed(s.carried, tradeItem1.value, partner.id, a)));
          }
        }
      }
    }
  }
}
