/** What the market keeps over every run: gold, goods and coins. */
module MarketLaws {
  import opened MarketRules
  import opened Sequences

  // ----- What is counted --------------------------------------------------------------------

  function PlayerGold(p: Player): nat {
    p.bank + p.cash
  }

  /** An open offer to buy holds its whole price. */
  function OfferGold(o: Offer): nat {
    if o.action == Buy then o.price * o.amount else 0
  }

  ghost function GoldFor(p: Pid): Offer -> nat {
    (o: Offer) => if o.owner == p then OfferGold(o) else 0
  }

  /** All gold: in the banks, carried, and in open offers to buy. */
  ghost function Gold(s: State): nat {
    Total(s.players, PlayerGold) + Total(s.offers, OfferGold)
  }

  /** One player's gold, that in the player's own open offers included. */
  ghost function Wealth(s: State, p: Pid): nat
    requires p < |s.players|
  {
    PlayerGold(s.players[p]) + Total(s.offers, GoldFor(p))
  }

  datatype Good = Coin | Goods(ware: Ware)

  function GoodOf(o: Offer): Good {
    if o.item == STORE_COIN then Coin else Goods(Ware(o.item, o.tier))
  }

  ghost function HoldingOf(w: Ware): Player -> nat {
    (p: Player) => Holding(p, w)
  }

  ghost function OnOffer(g: Good): Offer -> nat {
    (o: Offer) => if o.action == Sell && GoodOf(o) == g then o.amount else 0
  }

  ghost function Owned(s: State, g: Good): nat {
    if g.Coin? then Total(s.coins, Itself) else Total(s.players, HoldingOf(g.ware))
  }

  /** All units of a good: in stashes, lockers, inboxes or accounts, and in open offers to sell. */
  ghost function Supply(s: State, g: Good): nat {
    Owned(s, g) + Total(s.offers, OnOffer(g))
  }

  // ----- The effect of each part of a step --------------------------------------------------

  lemma WithEffect(s: State, p: Pid, q: Player, r: Pid, g: Good)
    requires p < |s.players| && r < |s.players|
    ensures var t := With(s, p, q);
            && Gold(t) + PlayerGold(s.players[p]) == Gold(s) + PlayerGold(q)
            && Wealth(t, r) == Wealth(s, r) + (if r == p then PlayerGold(q) - PlayerGold(s.players[p]) else 0)
            && (g.Coin? ==> Supply(t, g) == Supply(s, g))
            && (g.Goods? ==> Supply(t, g) + Holding(s.players[p], g.ware) == Supply(s, g) + Holding(q, g.ware))
  {
    TotalUpdate(s.players, p, q, PlayerGold);
    if g.Goods? {
      TotalUpdate(s.players, p, q, HoldingOf(g.ware));
    }
  }

  lemma CoinsEffect(s: State, account: nat, n: nat, r: Pid, g: Good)
    requires account < |s.coins| && r < |s.players|
    ensures var t := s.(coins := s.coins[account := n]);
            && Gold(t) == Gold(s) && Wealth(t, r) == Wealth(s, r)
            && (g.Goods? ==> Supply(t, g) == Supply(s, g))
            && (g.Coin? ==> Supply(t, g) + s.coins[account] == Supply(s, g) + n)
  {
    TotalUpdate(s.coins, account, n, Itself);
  }

  lemma OpenEffect(s: State, o: Offer, r: Pid, g: Good)
    requires r < |s.players|
    ensures var t := Open(s, o);
            && Gold(t) == Gold(s) + OfferGold(o)
            && Wealth(t, r) == Wealth(s, r) + GoldFor(r)(o)
            && Supply(t, g) == Supply(s, g) + OnOffer(g)(o)
  {
    TotalAppend(s.offers, o, OfferGold);
    TotalAppend(s.offers, o, GoldFor(r));
    TotalAppend(s.offers, o, OnOffer(g));
  }

  lemma ClosedEffect(s: State, k: nat, r: Pid, g: Good)
    requires k < |s.offers| && r < |s.players|
    ensures var t := Closed(s, k); var o := s.offers[k];
            && Gold(t) + OfferGold(o) == Gold(s)
            && Wealth(t, r) + GoldFor(r)(o) == Wealth(s, r)
            && Supply(t, g) + OnOffer(g)(o) == Supply(s, g)
  {
    TotalRemove(s.offers, k, OfferGold);
    TotalRemove(s.offers, k, GoldFor(r));
    TotalRemove(s.offers, k, OnOffer(g));
  }

  lemma FilledEffect(s: State, k: nat, amount: nat, r: Pid, g: Good)
    requires k < |s.offers| && amount <= s.offers[k].amount && r < |s.players|
    ensures var t := Filled(s, k, amount); var o := s.offers[k].(amount := amount);
            && Gold(t) + OfferGold(o) == Gold(s)
            && Wealth(t, r) + GoldFor(r)(o) == Wealth(s, r)
            && Supply(t, g) + OnOffer(g)(o) == Supply(s, g)
  {
    var o := s.offers[k];
    if o.amount == amount {
      assert o.(amount := amount) == o;
      ClosedEffect(s, k, r, g);
    } else {
      var left := o.(amount := o.amount - amount);
      assert o.price * left.amount + o.price * amount == o.price * o.amount;
      TotalUpdate(s.offers, k, left, OfferGold);
      TotalUpdate(s.offers, k, left, GoldFor(r));
      TotalUpdate(s.offers, k, left, OnOffer(g));
    }
  }

  /** Units of a good that a quantity of a ware stands for. */
  function Of(w: Ware, amount: nat, g: Good): nat {
    if w.item == STORE_COIN then if g == Coin then amount else 0
    else if g == Goods(w) then amount else 0
  }

  /** What leaves the seller: all, or on a refusal nothing, or on a failure what had been taken. */
  function Leaves(s: State, p: Pid, item: nat, amount: nat, tier: nat, granted: nat): nat
    requires Ok(s) && p < |s.players|
  {
    if item == STORE_COIN then if amount > s.coins[s.players[p].account] then 0 else amount
    else Taken(s.players[p], item, amount, tier, granted)
  }

  /** The same players, accounts and offers. */
  ghost predicate Like(s: State, t: State) {
    && |t.players| == |s.players| && |t.coins| == |s.coins| && t.offers == s.offers
    && forall i :: 0 <= i < |s.players| ==> t.players[i].account == s.players[i].account
  }

  lemma CollectEffect(s: State, p: Pid, item: nat, amount: nat, tier: nat, granted: nat, r: Pid, g: Good)
    requires Ok(s) && p < |s.players| && r < |s.players|
    ensures var c := Collect(s, p, item, amount, tier, granted);
            var leaves := Leaves(s, p, item, amount, tier, granted);
            && leaves <= amount
            && (c.Gone? ==> leaves == amount)
            && (!c.Gone? ==> leaves < amount)
            && (c.Refused? ==> leaves == 0)
            && (!c.Refused? ==>
                  && Like(s, c.state) && Ok(c.state)
                  && PlayerGold(c.state.players[p]) == PlayerGold(s.players[p])
                  && Gold(c.state) == Gold(s) && Wealth(c.state, r) == Wealth(s, r)
                  && Supply(c.state, g) + Of(Ware(item, tier), leaves, g) == Supply(s, g))
  {
    hide RemoveItems, Taken, Supply, Gold, Wealth, Holding;
    var me := s.players[p];
    if item == STORE_COIN {
      if amount <= s.coins[me.account] {
        CoinsEffect(s, me.account, s.coins[me.account] - amount, r, g);
      }
    } else {
      var q := RemoveItems(me, item, amount, tier, granted).player;
      RemovalIsExact(me, item, amount, tier, granted, if g.Goods? then g.ware else Ware(item, tier));
      WithEffect(s, p, q, r, g);
    }
  }

  /** What reaches the buyer. */
  function Reaches(types: seq<ItemType>, item: nat, amount: nat, room: nat): nat
    requires item < |types|
  {
    if item == STORE_COIN then amount else Units(Arriving(types, item, amount, room))
  }

  lemma HandEffect(types: seq<ItemType>, s: State, p: Pid, w: Ware, amount: nat, room: nat, r: Pid, g: Good)
    requires Ok(s) && p < |s.players| && r < |s.players| && w.item < |types|
    ensures var t := Hand(types, s, p, w, amount, room); var reaches := Reaches(types, w.item, amount, room);
            && reaches <= amount
            && (reaches == amount <==> Arrives(types, w.item, amount, room))
            && (reaches == 0 <==> amount == 0 || (w.item != STORE_COIN && room == 0))
            && Like(s, t) && Ok(t)
            && (forall i :: 0 <= i < |s.players| ==> PlayerGold(t.players[i]) == PlayerGold(s.players[i]))
            && Gold(t) == Gold(s) && Wealth(t, r) == Wealth(s, r)
            && Supply(t, g) == Supply(s, g) + Of(w, reaches, g)
  {
    hide Supply, Gold, Wealth, Holding, Deliver, Pieces, Units, PiecesNeeded;
    if w.item == STORE_COIN {
      CoinsEffect(s, s.players[p].account, s.coins[s.players[p].account] + amount, r, g);
    } else {
      var pieces := Arriving(types, w.item, amount, room);
      PiecesAreAllIff(amount, PieceSize(types[w.item]), room);
      DeliveryIsExact(s.players[p], w, pieces, if g.Goods? then g.ware else w);
      WithEffect(s, p, Deliver(s.players[p], w, pieces), r, g);
    }
  }

  lemma PayEffect(p: Player, money: nat)
    requires money <= PlayerGold(p)
    ensures PlayerGold(Pay(p, money)) + money == PlayerGold(p)
    ensures PlayerGold(PayFromBank(p, money)) + money == PlayerGold(p)
    ensures Pay(p, money).account == p.account == PayFromBank(p, money).account
    ensures Pay(p, money).(bank := p.bank, cash := p.cash) == p
    ensures PayFromBank(p, money).(bank := p.bank, cash := p.cash) == p
  {
  }

  /** A change to one player's money alone. */
  lemma MoneyEffect(s: State, p: Pid, q: Player, r: Pid, g: Good)
    requires Ok(s) && p < |s.players| && r < |s.players|
    requires q.(bank := s.players[p].bank, cash := s.players[p].cash) == s.players[p]
    ensures var t := With(s, p, q);
            && Like(s, t) && Ok(t)
            && Gold(t) + PlayerGold(s.players[p]) == Gold(s) + PlayerGold(q)
            && Wealth(t, r) == Wealth(s, r) + (if r == p then PlayerGold(q) - PlayerGold(s.players[p]) else 0)
            && Supply(t, g) == Supply(s, g)
  {
    hide Supply, Gold, Wealth;
    WithEffect(s, p, q, r, g);
    if g.Goods? {
      assert Holding(q, g.ware) == Holding(s.players[p], g.ware);
    }
  }

  // ----- The steps --------------------------------------------------------------------------

  /** A call by the player `p`; the other fields are the arguments and what the surroundings allow. */
  datatype Event =
    | Creating(p: Pid, action: Action, item: nat, amount: nat, price: nat, tier: nat, allowed: bool, granted: nat)
    | Cancelling(p: Pid, k: nat, allowed: bool, room: nat)
    | Accepting(p: Pid, k: nat, amount: nat, allowed: bool, granted: nat, room: nat)

  function Step(types: seq<ItemType>, s: State, e: Event): State
    requires Ok(s) && e.p < |s.players|
  {
    match e
    case Creating(p, action, item, amount, price, tier, allowed, granted) =>
      Create(types, s, p, action, item, amount, price, tier, allowed, granted)
    case Cancelling(p, k, allowed, room) => Cancel(types, s, p, k, allowed, room)
    case Accepting(p, k, amount, allowed, granted, room) => Accept(types, s, p, k, amount, allowed, granted, room)
  }

  /** The call passes the checks that come before anything is taken from the player. */
  predicate Starts(types: seq<ItemType>, s: State, e: Event)
    requires Ok(s) && e.p < |s.players|
  {
    match e
    case Creating(p, action, item, amount, price, _, allowed, _) =>
      && allowed && CanCreate(types, item, amount, price)
      && PlayerGold(s.players[p]) >= Fee(price * amount) + if action == Buy then price * amount else 0
    case Cancelling(p, k, allowed, _) =>
      && allowed && k < |s.offers| && s.offers[k].owner == p
      && (s.offers[k].action == Sell ==> s.offers[k].item < |types|)
    case Accepting(p, k, amount, allowed, _, _) =>
      && allowed && CanAccept(types, s, p, k, amount)
      && (s.offers[k].action == Sell ==> PlayerGold(s.players[p]) >= s.offers[k].price * amount)
  }

  /** The call takes goods from the player: the ware and the amount. */
  predicate Sells(s: State, e: Event) {
    match e
    case Creating(_, action, _, _, _, _, _, _) => action == Sell
    case Cancelling(_, _, _, _) => false
    case Accepting(_, k, _, _, _, _) => k < |s.offers| && s.offers[k].action == Buy
  }

  function WareOf(s: State, e: Event): Ware
    requires e.p < |s.players| && (!e.Creating? ==> e.k < |s.offers|)
  {
    if e.Creating? then Ware(e.item, SellTier(s.players[e.p], e.item, e.tier))
    else Ware(s.offers[e.k].item, s.offers[e.k].tier)
  }

  function AmountOf(s: State, e: Event): nat
    requires !e.Creating? ==> e.k < |s.offers|
  {
    if e.Cancelling? then s.offers[e.k].amount else e.amount
  }

  /** The goods that the player gives up are all there to be removed. */
  predicate Supplied(types: seq<ItemType>, s: State, e: Event)
    requires Ok(s) && e.p < |s.players| && Starts(types, s, e)
  {
    Sells(s, e) ==>
      var w := WareOf(s, e);
      Leaves(s, e.p, w.item, e.amount, w.tier, e.granted) == e.amount
  }

  /** The goods that the call hands out find room. */
  predicate Roomy(types: seq<ItemType>, s: State, e: Event)
    requires Ok(s) && e.p < |s.players| && Starts(types, s, e)
  {
    e.Creating? || (e.Cancelling? && s.offers[e.k].action == Buy)
    || Arrives(types, s.offers[e.k].item, AmountOf(s, e), e.room)
  }

  // ----- The effect of each step ------------------------------------------------------------

  function FeeOf(types: seq<ItemType>, s: State, e: Event): nat
    requires Ok(s) && e.p < |s.players|
  {
    if e.Creating? && Starts(types, s, e) && Supplied(types, s, e) then Fee(e.price * e.amount) else 0
  }

  /** The price that the step moves from the buyer, or from the buyer's offer, to the seller. */
  function Price(types: seq<ItemType>, s: State, e: Event): nat
    requires Ok(s) && e.p < |s.players|
  {
    if e.Accepting? && Starts(types, s, e) && Supplied(types, s, e) then s.offers[e.k].price * e.amount else 0
  }

  /** Gold made of nothing: the seller is paid for an offer that keeps holding the price. */
  function Minted(types: seq<ItemType>, s: State, e: Event): nat
    requires Ok(s) && e.p < |s.players|
  {
    if Price(types, s, e) > 0 && s.offers[e.k].action == Buy && !Roomy(types, s, e) then Price(types, s, e) else 0
  }

  /** By how much the step raises the supply of the ware it deals in. */
  function Gain(types: seq<ItemType>, s: State, e: Event): int
    requires Ok(s) && e.p < |s.players|
  {
    if !Starts(types, s, e) then 0
    else if !Supplied(types, s, e) then
      var w := WareOf(s, e);
      -(Leaves(s, e.p, w.item, e.amount, w.tier, e.granted) as int)
    else if Roomy(types, s, e) then 0
    else
      var o := s.offers[e.k];
      var reaches := Reaches(types, o.item, AmountOf(s, e), e.room);
      if e.Accepting? && o.action == Sell then reaches else reaches - AmountOf(s, e)
  }

  function Raises(types: seq<ItemType>, s: State, e: Event, g: Good): int
    requires Ok(s) && e.p < |s.players|
  {
    if !Starts(types, s, e) then 0
    else
      var w := WareOf(s, e);
      if g == (if w.item == STORE_COIN then Coin else Goods(w)) then Gain(types, s, e) else 0
  }

  /** What a step does to one player's gold: the fee is paid by the creator, the price goes from buyer
      to seller, and the buyer of a failed delivery to an offer pays nothing. */
  function Earns(types: seq<ItemType>, s: State, e: Event, r: Pid): int
    requires Ok(s) && e.p < |s.players|
  {
    var price := Price(types, s, e);
    if price == 0 then if r == e.p then -(FeeOf(types, s, e) as int) else 0
    else if s.offers[e.k].action == Buy then
      if r == e.p then price
      else if r == s.offers[e.k].owner then Minted(types, s, e) - price else 0
    else if r == e.p then -(price as int) else if r == s.offers[e.k].owner then price else 0
  }

  ghost predicate Effect(types: seq<ItemType>, s: State, e: Event, t: State, r: Pid, g: Good)
    requires Ok(s) && e.p < |s.players| && r < |s.players|
  {
    && Ok(t) && |t.players| == |s.players|
    && Gold(t) == Gold(s) - FeeOf(types, s, e) + Minted(types, s, e)
    && Wealth(t, r) == Wealth(s, r) + Earns(types, s, e, r)
    && Supply(t, g) == Supply(s, g) + Raises(types, s, e, g)
  }

  lemma CreateEffect(types: seq<ItemType>, s: State, e: Event, r: Pid, g: Good)
    requires Ok(s) && e.Creating? && e.p < |s.players| && r < |s.players|
    ensures Effect(types, s, e, Step(types, s, e), r, g)
  {
    hide Supply, Gold, Wealth, Collect, Leaves, Fee, Total;
    if Starts(types, s, e) {
      var me := s.players[e.p];
      var fee := Fee(e.price * e.amount);
      if e.action == Buy {
        var due := e.price * e.amount + fee;
        PayEffect(me, due);
        MoneyEffect(s, e.p, Pay(me, due), r, g);
        OpenEffect(With(s, e.p, Pay(me, due)), Offer(e.p, Buy, e.item, e.tier, e.amount, e.price), r, g);
      } else {
        var sold := SellTier(me, e.item, e.tier);
        CollectEffect(s, e.p, e.item, e.amount, sold, e.granted, r, g);
        var c := Collect(s, e.p, e.item, e.amount, sold, e.granted);
        if c.Gone? {
          PayEffect(c.state.players[e.p], fee);
          var paid := With(c.state, e.p, Pay(c.state.players[e.p], fee));
          MoneyEffect(c.state, e.p, Pay(c.state.players[e.p], fee), r, g);
          OpenEffect(paid, Offer(e.p, Sell, e.item, sold, e.amount, e.price), r, g);
        }
      }
    }
  }

  lemma CancelEffect(types: seq<ItemType>, s: State, e: Event, r: Pid, g: Good)
    requires Ok(s) && e.Cancelling? && e.p < |s.players| && r < |s.players|
    ensures Effect(types, s, e, Step(types, s, e), r, g)
  {
    hide Supply, Gold, Wealth, Leaves, Fee, Total, Reaches, Arrives, Hand;
    if Starts(types, s, e) {
      var o := s.offers[e.k];
      if o.action == Buy {
        var q := s.players[e.p].(bank := s.players[e.p].bank + o.price * o.amount);
        MoneyEffect(s, e.p, q, r, g);
        ClosedEffect(With(s, e.p, q), e.k, r, g);
      } else {
        HandEffect(types, s, e.p, Ware(o.item, o.tier), o.amount, e.room, r, g);
        ClosedEffect(Hand(types, s, e.p, Ware(o.item, o.tier), o.amount, e.room), e.k, r, g);
      }
    }
  }

  lemma FilledIsOk(s: State, k: nat, amount: nat)
    requires Ok(s) && k < |s.offers| && amount <= s.offers[k].amount
    ensures Ok(Filled(s, k, amount)) && Filled(s, k, amount).players == s.players
  {
  }

  lemma SellEffect(types: seq<ItemType>, s: State, e: Event, r: Pid, g: Good)
    requires Ok(s) && e.Accepting? && e.p < |s.players| && r < |s.players|
    requires Starts(types, s, e) && s.offers[e.k].action == Buy
    ensures Effect(types, s, e, SellTo(types, s, e.p, e.k, e.amount, e.granted, e.room), r, g)
  {
    hide Supply, Gold, Wealth, Leaves, Fee, Total, Reaches, Arrives, Hand, Collect, Filled;
    var o := s.offers[e.k];
    CollectEffect(s, e.p, o.item, e.amount, o.tier, e.granted, r, g);
    var c := Collect(s, e.p, o.item, e.amount, o.tier, e.granted);
    if c.Gone? {
      var paid := Credited(c.state, e.p, o.price * e.amount);
      MoneyEffect(c.state, e.p, paid.players[e.p], r, g);
      HandEffect(types, paid, o.owner, Ware(o.item, o.tier), e.amount, e.room, r, g);
      var u := Hand(types, paid, o.owner, Ware(o.item, o.tier), e.amount, e.room);
      FilledEffect(u, e.k, e.amount, r, g);
      FilledIsOk(u, e.k, e.amount);
    }
  }

  lemma BuyEffect(types: seq<ItemType>, s: State, e: Event, r: Pid, g: Good)
    requires Ok(s) && e.Accepting? && e.p < |s.players| && r < |s.players|
    requires Starts(types, s, e) && s.offers[e.k].action == Sell
    ensures Effect(types, s, e, BuyFrom(types, s, e.p, e.k, e.amount, e.room), r, g)
  {
    hide Supply, Gold, Wealth, Leaves, Fee, Total, Reaches, Arrives, Hand, Collect, Filled;
    var o := s.offers[e.k];
    var total := o.price * e.amount;
    PayEffect(s.players[e.p], total);
    var paid := With(s, e.p, PayFromBank(s.players[e.p], total));
    MoneyEffect(s, e.p, paid.players[e.p], r, g);
    HandEffect(types, paid, e.p, Ware(o.item, o.tier), e.amount, e.room, r, g);
    var t := Hand(types, paid, e.p, Ware(o.item, o.tier), e.amount, e.room);
    var u := Credited(t, o.owner, total);
    MoneyEffect(t, o.owner, u.players[o.owner], r, g);
    FilledEffect(u, e.k, e.amount, r, g);
    FilledIsOk(u, e.k, e.amount);
  }

  lemma StepEffect(types: seq<ItemType>, s: State, e: Event, r: Pid, g: Good)
    requires Ok(s) && e.p < |s.players| && r < |s.players|
    ensures Effect(types, s, e, Step(types, s, e), r, g)
  {
    hide Supply, Gold, Wealth, Effect;
    match e
    case Creating(_, _, _, _, _, _, _, _) => CreateEffect(types, s, e, r, g);
    case Cancelling(_, _, _, _) => CancelEffect(types, s, e, r, g);
    case Accepting(_, _, _, _, _, _) =>
      if Starts(types, s, e) {
        if s.offers[e.k].action == Buy {
          SellEffect(types, s, e, r, g);
        } else {
          BuyEffect(types, s, e, r, g);
        }
      } else {
        NothingStarts(types, s, e, r, g);
      }
  }

  lemma NothingStarts(types: seq<ItemType>, s: State, e: Event, r: Pid, g: Good)
    requires Ok(s) && e.p < |s.players| && r < |s.players| && !Starts(types, s, e)
    ensures Step(types, s, e) == s && Effect(types, s, e, s, r, g)
  {
  }

  // ----- The laws ---------------------------------------------------------------------------

  /** A step takes only its fee out of the gold, if and only if it is no sale to an offer whose goods
      do not all fit the owner's inbox. */
  lemma StepKeepsGoldIff(types: seq<ItemType>, s: State, e: Event)
    requires Ok(s) && e.p < |s.players|
    ensures Gold(Step(types, s, e)) + FeeOf(types, s, e) == Gold(s)
            <==> !(e.Accepting? && Starts(types, s, e) && s.offers[e.k].action == Buy && Supplied(types, s, e)
                   && !Roomy(types, s, e))
    ensures Gold(Step(types, s, e)) + FeeOf(types, s, e) >= Gold(s)
  {
    hide Supply, Gold, Wealth, Step, Roomy, Supplied, Fee;
    StepEffect(types, s, e, e.p, Coin);
    if e.Accepting? && Starts(types, s, e) {
      PriceIsPositive(s.offers[e.k].price, e.amount);
    }
  }

  lemma PriceIsPositive(price: nat, amount: nat)
    requires price > 0 && amount > 0
    ensures price * amount > 0
  {
  }

  /** The removal, if it fails, takes nothing, and the delivery, if it fails, is of goods bought from an
      offer and brings nothing. */
  predicate LosesNothing(types: seq<ItemType>, s: State, e: Event)
    requires Ok(s) && e.p < |s.players| && Starts(types, s, e)
  {
    if !Supplied(types, s, e) then
      var w := WareOf(s, e);
      Leaves(s, e.p, w.item, e.amount, w.tier, e.granted) == 0
    else
      Roomy(types, s, e) || (e.Accepting? && s.offers[e.k].action == Sell && e.room == 0)
  }

  lemma StepKeepsSupplyIff(types: seq<ItemType>, s: State, e: Event)
    requires Ok(s) && e.p < |s.players|
    ensures (forall g :: Supply(Step(types, s, e), g) == Supply(s, g))
            <==> (Starts(types, s, e) ==> LosesNothing(types, s, e))
  {
    hide Supply, Gold, Wealth, Step, Raises;
    forall g
      ensures Supply(Step(types, s, e), g) == Supply(s, g) + Raises(types, s, e, g)
    {
      StepEffect(types, s, e, e.p, g);
    }
    if Starts(types, s, e) {
      GainIsNoneIff(types, s, e);
      var w := WareOf(s, e);
      RaisesIs(types, s, e, if w.item == STORE_COIN then Coin else Goods(w));
    }
    forall g
      ensures Gain(types, s, e) == 0 ==> Raises(types, s, e, g) == 0
    {
      RaisesIs(types, s, e, g);
    }
  }

  lemma RaisesIs(types: seq<ItemType>, s: State, e: Event, g: Good)
    requires Ok(s) && e.p < |s.players|
    ensures Raises(types, s, e, g) == Gain(types, s, e) || Raises(types, s, e, g) == 0
    ensures !Starts(types, s, e) ==> Gain(types, s, e) == 0
    ensures Starts(types, s, e) && g == (if WareOf(s, e).item == STORE_COIN then Coin else Goods(WareOf(s, e))) ==>
              Raises(types, s, e, g) == Gain(types, s, e)
  {
  }

  lemma GainIsNoneIff(types: seq<ItemType>, s: State, e: Event)
    requires Ok(s) && e.p < |s.players| && Starts(types, s, e)
    ensures Gain(types, s, e) == 0 <==> LosesNothing(types, s, e)
  {
    if Supplied(types, s, e) && !Roomy(types, s, e) {
      var o := s.offers[e.k];
      PiecesAreAllIff(AmountOf(s, e), PieceSize(types[o.item]), e.room);
    }
  }

  // ----- Runs -------------------------------------------------------------------------------

  /** The calls are made by known players. */
  predicate Known(s: State, es: seq<Event>) {
    forall i :: 0 <= i < |es| ==> es[i].p < |s.players|
  }

  lemma StepIsOk(types: seq<ItemType>, s: State, e: Event)
    requires Ok(s) && e.p < |s.players|
    ensures Ok(Step(types, s, e)) && |Step(types, s, e).players| == |s.players|
  {
    hide Step, Ok;
    StepEffect(types, s, e, e.p, Coin);
  }

  ghost function Run(types: seq<ItemType>, s: State, es: seq<Event>): State
    requires Ok(s) && Known(s, es)
    decreases |es|
  {
    if es == [] then s
    else
      StepIsOk(types, s, es[0]);
      Run(types, Step(types, s, es[0]), es[1..])
  }

  ghost function Fees(types: seq<ItemType>, s: State, es: seq<Event>): nat
    requires Ok(s) && Known(s, es)
    decreases |es|
  {
    if es == [] then 0
    else
      StepIsOk(types, s, es[0]);
      FeeOf(types, s, es[0]) + Fees(types, Step(types, s, es[0]), es[1..])
  }

  /** On every step the goods are all there or not at all, and what is handed out finds room. */
  ghost predicate Smooth(types: seq<ItemType>, s: State, es: seq<Event>)
    requires Ok(s) && Known(s, es)
    decreases |es|
  {
    es == [] ||
    (StepIsOk(types, s, es[0]);
     && SmoothStep(types, s, es[0])
     && Smooth(types, Step(types, s, es[0]), es[1..]))
  }

  predicate SmoothStep(types: seq<ItemType>, s: State, e: Event)
    requires Ok(s) && e.p < |s.players|
  {
    Starts(types, s, e) ==> LosesNothing(types, s, e) && (Supplied(types, s, e) ==> Roomy(types, s, e))
  }

  /** Over a smooth run the gold falls by the fees alone and the supply of every good stays the same. */
  lemma {:induction false} RunKeepsGoldAndGoods(types: seq<ItemType>, s: State, es: seq<Event>, g: Good)
    requires Ok(s) && Known(s, es) && Smooth(types, s, es)
    ensures Gold(Run(types, s, es)) + Fees(types, s, es) == Gold(s)
    ensures Supply(Run(types, s, es), g) == Supply(s, g)
    decreases |es|
  {
    hide Gold, Supply, Step, FeeOf, LosesNothing, Starts, Supplied, Roomy, Ok;
    if es != [] {
      StepIsOk(types, s, es[0]);
      StepKeepsGoldIff(types, s, es[0]);
      StepKeepsSupplyIff(types, s, es[0]);
      RunKeepsGoldAndGoods(types, Step(types, s, es[0]), es[1..], g);
    }
  }

  // ----- A sale to an offer without room ----------------------------------------------------

  /** Player 0 offers to buy two swords for ten gold each; player 1 has two in the locker. */
  function SwordMarket(): State {
    State([Player(0, 0, map[], map[], 0), Player(0, 0, map[], map[Ware(1, 0) := [1, 1]], 1)], [0, 0],
          [Offer(0, Buy, 1, 0, 2, 10)])
  }

  const SWORDS := [ItemType(false, false, 1), ItemType(true, false, 1)]

  function SwordSale(): Event {
    Accepting(1, 0, 2, true, 2, 0)
  }

  /** The inbox of player 0 is full: player 1 is paid twenty gold, the two swords are gone, and the offer still
      holds its twenty gold. */
  lemma ASaleWithoutRoom()
    ensures Ok(SwordMarket()) && Starts(SWORDS, SwordMarket(), SwordSale())
    ensures var s := SwordMarket(); var t := Step(SWORDS, s, SwordSale());
            && Gold(s) == 20 && Gold(t) == 40 && FeeOf(SWORDS, s, SwordSale()) == 0
            && Supply(t, Goods(Ware(1, 0))) == Supply(s, Goods(Ware(1, 0))) - 2
  {
    hide Gold, Supply, Step, Supplied, Roomy, Starts, Ok, Minted, FeeOf, Raises, SwordMarket, SwordSale;
    SwordsStart();
    SwordsAreTaken();
    SwordGold();
    SwordSaleGains();
    SwordsEffect();
  }

  lemma SwordsEffect()
    requires Ok(SwordMarket()) && Starts(SWORDS, SwordMarket(), SwordSale())
    ensures var s, e, g := SwordMarket(), SwordSale(), Goods(Ware(1, 0));
            && Gold(Step(SWORDS, s, e)) == Gold(s) - FeeOf(SWORDS, s, e) + Minted(SWORDS, s, e)
            && Supply(Step(SWORDS, s, e), g) == Supply(s, g) + Raises(SWORDS, s, e, g)
  {
    hide Gold, Supply, Step, FeeOf, Minted, Raises, Earns, Wealth, Starts, Ok;
    assert SwordSale().p < |SwordMarket().players|;
    StepEffect(SWORDS, SwordMarket(), SwordSale(), 1, Goods(Ware(1, 0)));
  }

  lemma SwordsStart()
    ensures Ok(SwordMarket()) && Starts(SWORDS, SwordMarket(), SwordSale())
    ensures WareOf(SwordMarket(), SwordSale()) == Ware(1, 0)
  {
  }

  lemma SwordsAreTaken()
    requires Ok(SwordMarket()) && Starts(SWORDS, SwordMarket(), SwordSale())
    ensures Supplied(SWORDS, SwordMarket(), SwordSale()) && !Roomy(SWORDS, SwordMarket(), SwordSale())
  {
    var me := SwordMarket().players[1];
    assert InLocker(me, Ware(1, 0))[1..] == [1] && InLocker(me, Ware(1, 0))[1..][1..] == [];
    assert InLocker(me, Ware(1, 0)) == [1, 1] && Units([1, 1]) == 2;
    hide Taken, RemoveItems;
    RemovalSucceedsIfHeld(me, 1, 2, 0, 2);
  }

  lemma SwordSaleGains()
    requires Ok(SwordMarket()) && Starts(SWORDS, SwordMarket(), SwordSale())
    requires Supplied(SWORDS, SwordMarket(), SwordSale()) && !Roomy(SWORDS, SwordMarket(), SwordSale())
    ensures var s, e := SwordMarket(), SwordSale();
            && Minted(SWORDS, s, e) == 20 && FeeOf(SWORDS, s, e) == 0
            && Raises(SWORDS, s, e, Goods(Ware(1, 0))) == -2
  {
    hide Supplied, Roomy, Starts;
    assert Reaches(SWORDS, 1, 2, 0) == 0;
  }

  lemma SwordGold()
    ensures Gold(SwordMarket()) == 20
  {
    hide Gold;
    GoldOfOneOffer(SwordMarket());
  }

  lemma GoldOfOneOffer(s: State)
    requires |s.offers| == 1 && forall i :: 0 <= i < |s.players| ==> PlayerGold(s.players[i]) == 0
    ensures Gold(s) == OfferGold(s.offers[0])
  {
    NoGold(s.players);
    OneOffer(s.offers);
  }

  lemma OneOffer(offers: seq<Offer>)
    requires |offers| == 1
    ensures Total(offers, OfferGold) == OfferGold(offers[0])
  {
    assert offers[1..] == [];
  }

  lemma {:induction false} NoGold(players: seq<Player>)
    requires forall i :: 0 <= i < |players| ==> PlayerGold(players[i]) == 0
    ensures Total(players, PlayerGold) == 0
  {
    if players != [] {
      NoGold(players[1..]);
    }
  }
}
