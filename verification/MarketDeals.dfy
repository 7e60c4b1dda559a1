/** What a call to the market makes of each offer, each player and each account. */
module MarketDeals {
  import opened Basics
  import opened Sequences
  import opened MarketRules
  import opened MarketLaws

  // ----- Paying -----------------------------------------------------------------------------

  /** The first purse is emptied before the second is touched. */
  predicate PaidFrom(first: nat, second: nat, first': nat, second': nat, money: nat) {
    && first' + second' + money == first + second
    && first' <= first && second' <= second && (first' == 0 || second' == second)
  }

  /** The market's fee and a new offer are paid with carried money first, an accepted offer from the bank first. */
  lemma PaidInOrder(p: Player, money: nat)
    requires money <= p.cash + p.bank
    ensures var q := Pay(p, money); PaidFrom(p.cash, p.bank, q.cash, q.bank, money)
    ensures var q := PayFromBank(p, money); PaidFrom(p.bank, p.cash, q.bank, q.cash, money)
  {
  }

  // ----- Creating an offer ------------------------------------------------------------------

  /** The tier under which an item is offered: none for a sale while some of the item is in the stash. */
  function OfferedTier(s: State, e: Event): nat
    requires e.Creating? && e.p < |s.players|
  {
    var stash := s.players[e.p].stash;
    if e.action == Sell && e.item != STORE_COIN && e.item in stash && stash[e.item] > 0 then 0 else e.tier
  }

  function Cost(e: Event): nat
    requires e.Creating?
  {
    Fee(e.price * e.amount) + if e.action == Buy then e.price * e.amount else 0
  }

  /** Price and amount are within the bounds, the item is traded, the money is there, and so are the goods. */
  predicate Opens(types: seq<ItemType>, s: State, e: Event)
    requires Ok(s) && e.Creating? && e.p < |s.players|
  {
    var me := s.players[e.p];
    && e.allowed && 0 < e.price <= 999999999999 && e.item < |types| && types[e.item].listed
    && 0 < e.amount <= (if types[e.item].stackable then 64000 else 2000)
    && Cost(e) <= me.cash + me.bank
    && (e.action == Sell ==>
          if e.item == STORE_COIN then e.amount <= s.coins[me.account]
          else Taken(me, e.item, e.amount, OfferedTier(s, e), e.granted) == e.amount)
  }

  /** A creation opens exactly the offer that was asked for, behind the others, if and only if it is within the
      bounds and paid; it touches nobody else. */
  lemma CreationOpensIff(types: seq<ItemType>, s: State, e: Event)
    requires Ok(s) && e.Creating? && e.p < |s.players|
    ensures var t := Step(types, s, e); var me, me' := s.players[e.p], t.players[e.p]; var n := |s.offers|;
            && t.players == s.players[e.p := me'] && me'.account == me.account
            && (Opens(types, s, e) ==>
                  && |t.offers| == n + 1 && t.offers[..n] == s.offers
                  && t.offers[n].owner == e.p && t.offers[n].action == e.action && t.offers[n].item == e.item
                  && t.offers[n].amount == e.amount && t.offers[n].price == e.price
                  && t.offers[n].tier == OfferedTier(s, e)
                  && PaidFrom(me.cash, me.bank, me'.cash, me'.bank, Cost(e))
                  && t.coins == if e.action == Sell && e.item == 22118
                                then s.coins[me.account := s.coins[me.account] - e.amount] else s.coins)
            && (!Opens(types, s, e) ==>
                  t.offers == s.offers && t.coins == s.coins && me'.cash == me.cash && me'.bank == me.bank)
  {
    hide Fee, RemoveItems, Taken, Pay, PaidFrom;
    var me := s.players[e.p];
    var sold := SellTier(me, e.item, e.tier);
    RemovalIsExact(me, e.item, e.amount, sold, e.granted, Ware(e.item, sold));
    if Cost(e) <= me.cash + me.bank {
      PaidInOrder(me, Cost(e));
      PayEffect(me, Cost(e));
      var r := RemoveItems(me, e.item, e.amount, sold, e.granted).player;
      PaidInOrder(r, Cost(e));
      PayEffect(r, Cost(e));
    }
    assert s.players[e.p := me] == s.players;
  }

  /** Of a seller's goods exactly those leave that the offer holds, or those that were taken before a failure. */
  lemma CreationTakes(types: seq<ItemType>, s: State, e: Event, w: Ware)
    requires Ok(s) && e.Creating? && e.p < |s.players|
    ensures var t := Step(types, s, e); var sold := OfferedTier(s, e);
            var leaves := if Starts(types, s, e) && e.action == Sell && e.item != STORE_COIN
                          then Taken(s.players[e.p], e.item, e.amount, sold, e.granted) else 0;
            Holding(t.players[e.p], w) == Holding(s.players[e.p], w) - if w == Ware(e.item, sold) then leaves else 0
  {
    hide Fee, RemoveItems, Taken, Units;
    var me := s.players[e.p];
    var sold := SellTier(me, e.item, e.tier);
    RemovalIsExact(me, e.item, e.amount, sold, e.granted, w);
    assert forall q: Player, m: nat :: InLocker(Pay(q, m), w) == InLocker(q, w)
                                       && InStash(Pay(q, m), w.item) == InStash(q, w.item);
  }

  // ----- Cancelling an offer ----------------------------------------------------------------

  /** An offer is closed if and only if its owner cancels it.  The money that it holds goes to the owner's bank,
      or the goods to the owner's inbox, as far as there is room, or the coins to the owner's account; nobody else
      gains or loses anything. */
  lemma CancellingReturnsIff(types: seq<ItemType>, s: State, e: Event, r: Pid, w: Ware)
    requires Ok(s) && e.Cancelling? && e.p < |s.players| && r < |s.players|
    ensures var t := Step(types, s, e);
            var closes := e.allowed && e.k < |s.offers| && s.offers[e.k].owner == e.p
                          && (s.offers[e.k].action == Sell ==> s.offers[e.k].item < |types|);
            && (!closes ==> t == s)
            && (closes ==>
                  var o := s.offers[e.k]; var mine := o.action == Sell && r == e.p;
                  && t.offers == s.offers[..e.k] + s.offers[e.k + 1..]
                  && |t.players| == |s.players| && t.players[r].account == s.players[r].account
                  && t.players[r].cash == s.players[r].cash
                  && t.players[r].bank ==
                     s.players[r].bank + (if o.action == Buy && r == e.p then o.price * o.amount else 0)
                  && Holding(t.players[r], w) == Holding(s.players[r], w)
                       + (if mine && o.item != STORE_COIN && w == Ware(o.item, o.tier)
                          then Reaches(types, o.item, o.amount, e.room) else 0)
                  && t.coins == if o.action == Sell && o.item == STORE_COIN
                                then s.coins[s.players[e.p].account := s.coins[s.players[e.p].account] + o.amount]
                                else s.coins)
  {
    hide Pieces, Units, Deliver, PiecesNeeded;
    if e.k < |s.offers| {
      var o := s.offers[e.k];
      if o.action == Buy {
        var q := s.players[e.p].(bank := s.players[e.p].bank + o.price * o.amount);
        assert Holding(q, w) == Holding(s.players[e.p], w);
      } else if o.item < |types| && o.item != STORE_COIN {
        DeliveryIsExact(s.players[e.p], Ware(o.item, o.tier), Arriving(types, o.item, o.amount, e.room), w);
      }
    }
  }

  /** An offer that is opened and cancelled at once costs the fee and nothing else, if the inbox has room. */
  lemma CancelledAtOnce(types: seq<ItemType>, s: State, e: Event, room: nat, r: Pid, w: Ware)
    requires Ok(s) && e.Creating? && e.p < |s.players| && r < |s.players| && Opens(types, s, e)
    requires e.action == Sell ==> Arrives(types, e.item, e.amount, room)
    ensures var t := Step(types, s, e);
            Ok(t) && |t.players| == |s.players| &&
            var u := Step(types, t, Cancelling(e.p, |s.offers|, true, room));
            && u.offers == s.offers && u.coins == s.coins && |u.players| == |s.players|
            && PlayerGold(u.players[r]) + (if r == e.p then Fee(e.price * e.amount) else 0) == PlayerGold(s.players[r])
            && Holding(u.players[r], w) == Holding(s.players[r], w)
  {
    hide Fee, Step, Taken, Holding, Reaches, Arrives, Opens;
    var t := Step(types, s, e);
    StepIsOk(types, s, e);
    CreationOpensIff(types, s, e);
    CreationTakes(types, s, e, w);
    OpensParts(types, s, e);
    CancellingReturnsIff(types, t, Cancelling(e.p, |s.offers|, true, room), r, w);
    if e.action == Sell {
      ArrivesAll(types, e.item, e.amount, room);
    }
    var u := Step(types, t, Cancelling(e.p, |s.offers|, true, room));
    assert t.offers[..|s.offers|] + t.offers[|s.offers| + 1..] == s.offers;
    var account := s.players[e.p].account;
    assert u.coins == s.coins;
  }

  lemma ArrivesAll(types: seq<ItemType>, item: nat, amount: nat, room: nat)
    requires item < |types| && Arrives(types, item, amount, room)
    ensures Reaches(types, item, amount, room) == amount
  {
    PiecesAreAllIff(amount, PieceSize(types[item]), room);
  }

  lemma OpensParts(types: seq<ItemType>, s: State, e: Event)
    requires Ok(s) && e.Creating? && e.p < |s.players| && Opens(types, s, e)
    ensures Starts(types, s, e) && e.item < |types|
    ensures e.action == Sell && e.item != STORE_COIN ==>
              Taken(s.players[e.p], e.item, e.amount, OfferedTier(s, e), e.granted) == e.amount
    ensures e.action == Sell && e.item == STORE_COIN ==> e.amount <= s.coins[s.players[e.p].account]
  {
    hide Fee, Taken;
  }

  // ----- Accepting an offer -----------------------------------------------------------------

  /** The amount is within the bounds and the offer, which is somebody else's; the buyer has the price, or the
      seller the goods. */
  predicate Deals(types: seq<ItemType>, s: State, e: Event)
    requires Ok(s) && e.Accepting? && e.p < |s.players|
  {
    && e.allowed && e.k < |s.offers|
    && var o, me := s.offers[e.k], s.players[e.p];
    && o.item < |types| && 0 < e.amount <= (if types[o.item].stackable then 64000 else 2000)
    && e.amount <= o.amount && e.p != o.owner
    && if o.action == Sell then o.price * e.amount <= me.bank + me.cash
       else if o.item == STORE_COIN then e.amount <= s.coins[me.account]
       else Taken(me, o.item, e.amount, o.tier, e.granted) == e.amount
  }

  lemma DealsIff(types: seq<ItemType>, s: State, e: Event)
    requires Ok(s) && e.Accepting? && e.p < |s.players|
    ensures Deals(types, s, e) <==> Starts(types, s, e) && Supplied(types, s, e)
  {
    hide Taken;
  }

  /** The offer is shortened by the accepted amount, or deleted when nothing is left, if and only if the deal is
      made and the goods find room; no other offer changes. */
  lemma AcceptingShortensIff(types: seq<ItemType>, s: State, e: Event)
    requires Ok(s) && e.Accepting? && e.p < |s.players|
    ensures var t := Step(types, s, e);
            if Deals(types, s, e) && Arrives(types, s.offers[e.k].item, e.amount, e.room) then
              var o := s.offers[e.k];
              if o.amount == e.amount then t.offers == s.offers[..e.k] + s.offers[e.k + 1..]
              else t.offers == s.offers[e.k := o.(amount := o.amount - e.amount)]
            else t.offers == s.offers
  {
    hide Taken, RemoveItems, Pieces, PiecesNeeded, Deliver;
    if e.k < |s.offers| {
      var o := s.offers[e.k];
      RemovalIsExact(s.players[e.p], o.item, e.amount, o.tier, e.granted, Ware(o.item, o.tier));
    }
  }

  /** By how much an accepted offer changes the bank of a player: the seller is paid, whoever it is. */
  function BankGains(s: State, e: Event, r: Pid): nat
    requires e.Accepting? && e.k < |s.offers|
  {
    var o := s.offers[e.k];
    if r == (if o.action == Buy then e.p else o.owner) then o.price * e.amount else 0
  }

  /** In a deal the price goes to the seller's bank; for an offer to sell it comes from the buyer, the bank first,
      and for an offer to buy it was paid before.  Nobody else's money changes, and without a deal nobody's does. */
  lemma DealPays(types: seq<ItemType>, s: State, e: Event, r: Pid)
    requires Ok(s) && e.Accepting? && e.p < |s.players| && r < |s.players|
    ensures var t := Step(types, s, e);
            && |t.players| == |s.players|
            && var me, me' := s.players[r], t.players[r];
            && me'.account == me.account
            && (!Deals(types, s, e) ==> me'.cash == me.cash && me'.bank == me.bank)
            && (Deals(types, s, e) && s.offers[e.k].action == Sell && r == e.p ==>
                  PaidFrom(me.bank, me.cash, me'.bank, me'.cash, s.offers[e.k].price * e.amount))
            && (Deals(types, s, e) && !(s.offers[e.k].action == Sell && r == e.p) ==>
                  me'.cash == me.cash && me'.bank == me.bank + BankGains(s, e, r))
  {
    hide Taken, Collect, Hand, Filled, Arrives, PayFromBank, PaidFrom;
    if e.allowed && CanAccept(types, s, e.p, e.k, e.amount) {
      if s.offers[e.k].action == Buy {
        SalePays(types, s, e, r);
      } else {
        PurchasePays(types, s, e, r);
      }
    }
  }

  lemma SalePays(types: seq<ItemType>, s: State, e: Event, r: Pid)
    requires Ok(s) && e.Accepting? && e.p < |s.players| && r < |s.players| && e.allowed
    requires CanAccept(types, s, e.p, e.k, e.amount) && s.offers[e.k].action == Buy
    ensures var t := Step(types, s, e);
            && |t.players| == |s.players|
            && var me, me' := s.players[r], t.players[r];
            && me'.account == me.account && me'.cash == me.cash
            && me'.bank == me.bank + if Deals(types, s, e) then BankGains(s, e, r) else 0
  {
    hide Taken, Hand, Filled, Arrives, RemoveItems;
    var o := s.offers[e.k];
    RemovalIsExact(s.players[e.p], o.item, e.amount, o.tier, e.granted, Ware(o.item, o.tier));
    var c := Collect(s, e.p, o.item, e.amount, o.tier, e.granted);
    if c.Gone? {
      var paid := Credited(c.state, e.p, o.price * e.amount);
      HandKeepsMoney(types, paid, o.owner, Ware(o.item, o.tier), e.amount, e.room, r);
      FilledIsOk(Hand(types, paid, o.owner, Ware(o.item, o.tier), e.amount, e.room), e.k, e.amount);
    }
  }

  lemma PurchasePays(types: seq<ItemType>, s: State, e: Event, r: Pid)
    requires Ok(s) && e.Accepting? && e.p < |s.players| && r < |s.players| && e.allowed
    requires CanAccept(types, s, e.p, e.k, e.amount) && s.offers[e.k].action == Sell
    ensures var t := Step(types, s, e);
            && |t.players| == |s.players|
            && var me, me' := s.players[r], t.players[r];
            && me'.account == me.account
            && (!Deals(types, s, e) ==> me'.cash == me.cash && me'.bank == me.bank)
            && (Deals(types, s, e) && r == e.p ==>
                  PaidFrom(me.bank, me.cash, me'.bank, me'.cash, s.offers[e.k].price * e.amount))
            && (Deals(types, s, e) && r != e.p ==>
                  me'.cash == me.cash && me'.bank == me.bank + BankGains(s, e, r))
  {
    hide Taken, Hand, Filled, Arrives, PayFromBank, PaidFrom;
    var o, total := s.offers[e.k], s.offers[e.k].price * e.amount;
    if total <= s.players[e.p].bank + s.players[e.p].cash {
      PaidInOrder(s.players[e.p], total);
      PayEffect(s.players[e.p], total);
      var paid := With(s, e.p, PayFromBank(s.players[e.p], total));
      HandKeepsMoney(types, paid, e.p, Ware(o.item, o.tier), e.amount, e.room, r);
      HandKeepsMoney(types, paid, e.p, Ware(o.item, o.tier), e.amount, e.room, o.owner);
      var u := Credited(Hand(types, paid, e.p, Ware(o.item, o.tier), e.amount, e.room), o.owner, total);
      FilledIsOk(u, e.k, e.amount);
    }
  }

  lemma HandKeepsMoney(types: seq<ItemType>, s: State, p: Pid, w: Ware, amount: nat, room: nat, r: Pid)
    requires Ok(s) && p < |s.players| && r < |s.players| && w.item < |types|
    ensures var t := Hand(types, s, p, w, amount, room);
            && Like(s, t) && Ok(t)
            && t.players[r] == s.players[r].(locker := t.players[r].locker)
  {
    hide Pieces;
  }

  function BuyerOf(s: State, e: Event): Pid
    requires e.Accepting? && e.k < |s.offers|
  {
    if s.offers[e.k].action == Buy then s.offers[e.k].owner else e.p
  }

  /** In a deal the buyer gets what finds room of the goods, and the one who sells to an offer loses the amount;
      without a deal such a seller loses what was taken before the failure.  Nobody else's goods change. */
  lemma DealDelivers(types: seq<ItemType>, s: State, e: Event, r: Pid, w: Ware)
    requires Ok(s) && e.Accepting? && e.p < |s.players| && r < |s.players|
    ensures |Step(types, s, e).players| == |s.players|
    ensures var had, has := Holding(s.players[r], w), Holding(Step(types, s, e).players[r], w);
            if !Starts(types, s, e) || s.offers[e.k].item == STORE_COIN
               || w != Ware(s.offers[e.k].item, s.offers[e.k].tier) then has == had
            else
              var o := s.offers[e.k];
              has == had + (if Deals(types, s, e) && r == BuyerOf(s, e)
                            then Reaches(types, o.item, e.amount, e.room) else 0)
                         - (if o.action == Buy && r == e.p
                            then Taken(s.players[e.p], o.item, e.amount, o.tier, e.granted) else 0)
  {
    hide Taken, Collect, Hand, Filled, Arrives, Fee, PayFromBank, Reaches, Holding, Deals;
    DealsIff(types, s, e);
    if Starts(types, s, e) {
      if s.offers[e.k].action == Buy {
        SaleDelivers(types, s, e, r, w);
      } else {
        PurchaseDelivers(types, s, e, r, w);
      }
    }
  }

  lemma SaleDelivers(types: seq<ItemType>, s: State, e: Event, r: Pid, w: Ware)
    requires Ok(s) && e.Accepting? && e.p < |s.players| && r < |s.players|
    requires Starts(types, s, e) && s.offers[e.k].action == Buy
    ensures var o := s.offers[e.k]; var t := Step(types, s, e);
            && |t.players| == |s.players|
            && Holding(t.players[r], w) == Holding(s.players[r], w)
                 + (if Supplied(types, s, e) && r == o.owner then Moves(types, o, w, e.amount, e.room) else 0)
                 - (if o.item != STORE_COIN && w == Ware(o.item, o.tier) && r == e.p
                    then Taken(s.players[e.p], o.item, e.amount, o.tier, e.granted) else 0)
  {
    hide Taken, Hand, Filled, Arrives, RemoveItems, Holding, Moves, Fee;
    var o := s.offers[e.k];
    RemovalIsExact(s.players[e.p], o.item, e.amount, o.tier, e.granted, w);
    var c := Collect(s, e.p, o.item, e.amount, o.tier, e.granted);
    if c.Gone? {
      var paid := Credited(c.state, e.p, o.price * e.amount);
      SameGoods(c.state.players[e.p], paid.players[e.p], w);
      HandGives(types, paid, o, o.owner, w, e.amount, e.room, r);
      FilledIsOk(Hand(types, paid, o.owner, Ware(o.item, o.tier), e.amount, e.room), e.k, e.amount);
    }
  }

  lemma PurchaseDelivers(types: seq<ItemType>, s: State, e: Event, r: Pid, w: Ware)
    requires Ok(s) && e.Accepting? && e.p < |s.players| && r < |s.players|
    requires Starts(types, s, e) && s.offers[e.k].action == Sell
    ensures var t := Step(types, s, e);
            && |t.players| == |s.players|
            && Holding(t.players[r], w) == Holding(s.players[r], w)
                 + if r == e.p then Moves(types, s.offers[e.k], w, e.amount, e.room) else 0
  {
    hide Hand, Filled, Arrives, PayFromBank, Holding, Moves, Fee;
    var o, total := s.offers[e.k], s.offers[e.k].price * e.amount;
    PayEffect(s.players[e.p], total);
    var paid := With(s, e.p, PayFromBank(s.players[e.p], total));
    SameGoods(s.players[e.p], paid.players[e.p], w);
    HandGives(types, paid, o, e.p, w, e.amount, e.room, r);
    HandGives(types, paid, o, e.p, w, e.amount, e.room, o.owner);
    var t := Hand(types, paid, e.p, Ware(o.item, o.tier), e.amount, e.room);
    var u := Credited(t, o.owner, total);
    SameGoods(t.players[o.owner], u.players[o.owner], w);
    FilledIsOk(u, e.k, e.amount);
  }

  /** The units of a ware that a delivery from an offer brings. */
  function Moves(types: seq<ItemType>, o: Offer, w: Ware, amount: nat, room: nat): nat
    requires o.item < |types|
  {
    if o.item != STORE_COIN && w == Ware(o.item, o.tier) then Reaches(types, o.item, amount, room) else 0
  }

  lemma SameGoods(p: Player, q: Player, w: Ware)
    requires q.stash == p.stash && q.locker == p.locker
    ensures Holding(q, w) == Holding(p, w)
  {
  }

  lemma HandGives(types: seq<ItemType>, s: State, o: Offer, p: Pid, w: Ware, amount: nat, room: nat, r: Pid)
    requires Ok(s) && p < |s.players| && r < |s.players| && o.item < |types|
    ensures var t := Hand(types, s, p, Ware(o.item, o.tier), amount, room);
            && Like(s, t) && Ok(t)
            && Holding(t.players[r], w) ==
               Holding(s.players[r], w) + if r == p then Moves(types, o, w, amount, room) else 0
  {
    hide Pieces, Units;
    DeliveryIsExact(s.players[p], Ware(o.item, o.tier), Arriving(types, o.item, amount, room), w);
  }

  /** Store coins go from the seller's account, or from the offer, to the buyer's account; other deals, and what
      is no deal, leave all accounts as they are. */
  lemma DealMovesCoins(types: seq<ItemType>, s: State, e: Event, account: nat)
    requires Ok(s) && e.Accepting? && e.p < |s.players| && account < |s.coins|
    ensures |Step(types, s, e).coins| == |s.coins|
    ensures var coins := Step(types, s, e).coins;
            if !Deals(types, s, e) || s.offers[e.k].item != STORE_COIN then coins == s.coins
            else
              coins[account] == s.coins[account]
                + (if account == s.players[BuyerOf(s, e)].account then e.amount else 0)
                - (if s.offers[e.k].action == Buy && account == s.players[e.p].account then e.amount else 0)
  {
    hide Taken, Deliver, Pieces, PiecesNeeded, RemoveItems, Fee, PayFromBank;
    if e.k < |s.offers| {
      var o := s.offers[e.k];
      RemovalIsExact(s.players[e.p], o.item, e.amount, o.tier, e.granted, Ware(o.item, o.tier));
      if o.action == Sell && o.price * e.amount <= s.players[e.p].bank + s.players[e.p].cash {
        PayEffect(s.players[e.p], o.price * e.amount);
      }
    }
  }

  /** When everything finds room, the buyer has exactly the amount more and the one who sells to an offer exactly
      the amount less. */
  lemma TradeDelivers(types: seq<ItemType>, s: State, e: Event, r: Pid, w: Ware)
    requires Ok(s) && e.Accepting? && e.p < |s.players| && r < |s.players| && Deals(types, s, e)
    requires s.offers[e.k].item != STORE_COIN && Arrives(types, s.offers[e.k].item, e.amount, e.room)
    ensures var o := s.offers[e.k]; var t := Step(types, s, e); var moves := w == Ware(o.item, o.tier);
            && |t.players| == |s.players|
            && Holding(t.players[r], w) == Holding(s.players[r], w)
                 + (if r == BuyerOf(s, e) && moves then e.amount else 0)
                 - (if o.action == Buy && r == e.p && moves then e.amount else 0)
            && t.offers == if o.amount == e.amount then Without(s.offers, e.k)
                           else s.offers[e.k := o.(amount := o.amount - e.amount)]
  {
    DealsIff(types, s, e);
    ArrivesAll(types, s.offers[e.k].item, e.amount, e.room);
    DealDelivers(types, s, e, r, w);
    AcceptingShortensIff(types, s, e);
    hide Step, Holding, Arrives, Reaches;
  }

  // ----- Where offers come from -------------------------------------------------------------

  /** What is left of an offer: all but the amount is as it was. */
  predicate LeftOf(o: Offer, was: Offer) {
    o.amount <= was.amount && o == was.(amount := o.amount)
  }

  /** What is left of an offer that the call asks for. */
  predicate AskedFor(o: Offer, e: Event) {
    && e.Creating? && o.owner == e.p && o.action == e.action && o.item == e.item && o.price == e.price
    && o.amount <= e.amount && (o.tier == e.tier || (o.tier == 0 && o.action == Sell))
  }

  lemma StepOffers(types: seq<ItemType>, s: State, e: Event, o: Offer)
    requires Ok(s) && e.p < |s.players| && o in Step(types, s, e).offers
    ensures AskedFor(o, e) || exists was :: was in s.offers && LeftOf(o, was)
  {
    hide Step, AskedFor, LeftOf, Opens, Taken, Arrives, Reaches, Holding, Ok;
    match e
    case Creating(_, _, _, _, _, _, _, _) => OpenedOffers(types, s, e, o);
    case Cancelling(_, _, _, _) =>
      CancellingReturnsIff(types, s, e, e.p, Ware(0, 0));
      if Step(types, s, e).offers == s.offers {
        IsLeft(s.offers, o);
      } else {
        OthersAreLeft(s.offers, e.k, o);
      }
    case Accepting(_, _, _, _, _, _) =>
      AcceptingShortensIff(types, s, e);
      if Step(types, s, e).offers == s.offers {
        IsLeft(s.offers, o);
      } else if s.offers[e.k].amount == e.amount {
        OthersAreLeft(s.offers, e.k, o);
      } else {
        ShortenedIsLeft(s.offers, e.k, Step(types, s, e).offers[e.k], o);
      }
  }

  lemma IsLeft(offers: seq<Offer>, o: Offer)
    requires o in offers
    ensures exists was :: was in offers && LeftOf(o, was)
  {
    assert LeftOf(o, o);
  }

  lemma OthersAreLeft(offers: seq<Offer>, k: nat, o: Offer)
    requires k < |offers| && o in offers[..k] + offers[k + 1..]
    ensures exists was :: was in offers && LeftOf(o, was)
  {
    assert o in offers;
    IsLeft(offers, o);
  }

  lemma ShortenedIsLeft(offers: seq<Offer>, k: nat, x: Offer, o: Offer)
    requires k < |offers| && o in offers[k := x] && x.amount <= offers[k].amount && x == offers[k].(amount := x.amount)
    ensures exists was :: was in offers && LeftOf(o, was)
  {
    if o == x {
      assert LeftOf(x, offers[k]);
    } else {
      assert o in offers;
      IsLeft(offers, o);
    }
  }

  lemma OpenedOffers(types: seq<ItemType>, s: State, e: Event, o: Offer)
    requires Ok(s) && e.Creating? && e.p < |s.players| && o in Step(types, s, e).offers
    ensures AskedFor(o, e) || exists was :: was in s.offers && LeftOf(o, was)
  {
    CreationOpensIff(types, s, e);
    hide Step, Opens, LeftOf, Fee, Cost, PaidFrom, Ok;
    var t, n := Step(types, s, e), |s.offers|;
    if o in s.offers {
      IsLeft(s.offers, o);
    } else {
      assert t.offers == t.offers[..n] + t.offers[n..];
      assert o == t.offers[n];
    }
  }

  /** Over any run, every open offer is what is left of one that was open before, or of one that a call in the
      run has asked for: with that call's owner, item and price, and never more than its amount. */
  lemma {:induction false} OffersAreAskedFor(types: seq<ItemType>, s: State, es: seq<Event>, o: Offer)
    requires Ok(s) && Known(s, es) && o in Run(types, s, es).offers
    ensures (exists i :: 0 <= i < |es| && AskedFor(o, es[i])) || exists was :: was in s.offers && LeftOf(o, was)
    decreases |es|
  {
    if es == [] {
      assert LeftOf(o, o);
    } else {
      hide Step, AskedFor;
      StepIsOk(types, s, es[0]);
      var t := Step(types, s, es[0]);
      OffersAreAskedFor(types, t, es[1..], o);
      if was :| was in t.offers && LeftOf(o, was) {
        StepOffers(types, s, es[0], was);
        if AskedFor(was, es[0]) {
          StillAskedFor(o, was, es[0]);
        }
      } else {
        var i :| 0 <= i < |es[1..]| && AskedFor(o, es[1..][i]);
        assert es[i + 1] == es[1..][i];
      }
    }
  }

  lemma StillAskedFor(o: Offer, was: Offer, e: Event)
    requires LeftOf(o, was) && AskedFor(was, e)
    ensures AskedFor(o, e)
  {
  }

  /** A hundred pieces for two gold each, of a player with a thousand gold in the bank. */
  lemma ABuyOffer()
    ensures var s := State([Player(1000, 0, map[], map[], 0)], [0], []);
            var t := Create([ItemType(true, true, 100)], s, 0, Buy, 0, 100, 2, 0, true, 0);
            Ok(s) && t.offers == [Offer(0, Buy, 0, 0, 100, 2)] && t.players[0].bank == 780
  {
  }
}
