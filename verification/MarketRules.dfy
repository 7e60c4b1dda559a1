/** The market: each step on the players' money and goods and on the open offers, and what no step
    makes or loses. */
module MarketRules {
  import opened Basics
  import opened Sequences

  type Pid = nat
  const STORE_COIN: nat := 22118
  const MAX_PRICE := 999999999999
  /** `listed`: the type exists and has a ware to trade it under. */
  datatype ItemType = ItemType(listed: bool, stackable: bool, stackSize: Count)

  datatype Ware = Ware(item: nat, tier: nat)

  /** `cash` is what the player carries; `locker` has the stacks in depot and inbox. */
  datatype Player = Player(bank: nat, cash: nat, stash: map<nat, nat>, locker: map<Ware, seq<Count>>, account: nat)

  datatype Action = Buy | Sell

  datatype Offer = Offer(owner: Pid, action: Action, item: nat, tier: nat, amount: nat, price: nat)

  datatype State = State(players: seq<Player>, coins: seq<nat>, offers: seq<Offer>)

  // ----- Goods in stash and locker ----------------------------------------------------------

  function InStash(p: Player, item: nat): nat {
    if item in p.stash then p.stash[item] else 0
  }

  function InLocker(p: Player, w: Ware): seq<Count> {
    if w in p.locker then p.locker[w] else []
  }

  function Units(stacks: seq<Count>): nat {
    if stacks == [] then 0 else stacks[0] + Units(stacks[1..])
  }

  /** Everything that a player has of a ware; what is in the stash has no tier. */
  function Holding(p: Player, w: Ware): nat {
    (if w.tier == 0 then InStash(p, w.item) else 0) + Units(InLocker(p, w))
  }

  function Withdrawn(p: Player, item: nat, amount: nat): Player
    requires amount <= InStash(p, item)
  {
    if amount == 0 then p
    else if p.stash[item] == amount then p.(stash := p.stash - {item})
    else p.(stash := p.stash[item := p.stash[item] - amount])
  }

  datatype Taking = Taking(left: seq<Count>, taken: nat)

  /** Takes from stack after stack; only the first `granted` removals succeed. */
  function Take(stacks: seq<Count>, amount: nat, granted: nat): Taking {
    if amount == 0 || stacks == [] || granted == 0 then Taking(stacks, 0)
    else
      var n := Min(amount, stacks[0]);
      if n < stacks[0] then Taking([stacks[0] - n] + stacks[1..], n)
      else var t := Take(stacks[1..], amount - n, granted - 1); Taking(t.left, n + t.taken)
  }

  datatype Removal = Removal(player: Player, ok: bool)

  function FromStash(p: Player, item: nat, amount: nat, tier: nat): nat {
    if tier == 0 then Min(InStash(p, item), amount) else 0
  }

  /** The number of stacks is kept in 16 bits: a locker with 65536 of them counts as empty. */
  function FromLocker(p: Player, item: nat, amount: nat, tier: nat, granted: nat): Taking {
    var stacks := InLocker(p, Ware(item, tier));
    if |stacks| % U16 == 0 then Taking(stacks, 0)
    else Take(stacks, amount - FromStash(p, item, amount, tier), granted)
  }

  /** The goods for an offer: the stash first, then the locker. What was taken before a failure is gone. */
  function RemoveItems(p: Player, item: nat, amount: nat, tier: nat, granted: nat): Removal {
    var n := FromStash(p, item, amount, tier);
    var q := Withdrawn(p, item, n);
    if n == amount then Removal(q, true)
    else if |InLocker(p, Ware(item, tier))| % U16 == 0 then Removal(q, false)
    else
      var t := FromLocker(p, item, amount, tier, granted);
      Removal(q.(locker := q.locker[Ware(item, tier) := t.left]), t.taken == amount - n)
  }

  function Taken(p: Player, item: nat, amount: nat, tier: nat, granted: nat): nat {
    var n := FromStash(p, item, amount, tier);
    if n == amount then n else n + FromLocker(p, item, amount, tier, granted).taken
  }

  lemma {:induction false} TakeIsExact(stacks: seq<Count>, amount: nat, granted: nat)
    ensures var t := Take(stacks, amount, granted);
            && t.taken <= amount
            && Units(t.left) + t.taken == Units(stacks)
            && (granted >= |stacks| ==> t.taken == Min(amount, Units(stacks)))
  {
    if amount == 0 || stacks == [] || granted == 0 {
    } else {
      var n := Min(amount, stacks[0]);
      if n < stacks[0] {
        assert ([stacks[0] - n] + stacks[1..])[1..] == stacks[1..];
      } else {
        TakeIsExact(stacks[1..], amount - n, granted - 1);
      }
    }
  }

  lemma WithdrawnIs(p: Player, item: nat, amount: nat, w: Ware)
    requires amount <= InStash(p, item)
    ensures var q := Withdrawn(p, item, amount);
            && InStash(q, w.item) == InStash(p, w.item) - (if w.item == item then amount else 0)
            && InLocker(q, w) == InLocker(p, w)
            && q.bank == p.bank && q.cash == p.cash && q.account == p.account
  {
  }

  /** Exactly `Taken` units of the one ware go, and the removal succeeds when those are all. */
  lemma RemovalIsExact(p: Player, item: nat, amount: nat, tier: nat, granted: nat, w: Ware)
    ensures var r := RemoveItems(p, item, amount, tier, granted);
            var taken := Taken(p, item, amount, tier, granted);
            && taken <= amount
            && (r.ok <==> taken == amount)
            && Holding(r.player, w) == Holding(p, w) - (if w == Ware(item, tier) then taken else 0)
            && r.player.bank == p.bank && r.player.cash == p.cash && r.player.account == p.account
  {
    var n := FromStash(p, item, amount, tier);
    WithdrawnIs(p, item, n, w);
    TakeIsExact(InLocker(p, Ware(item, tier)), amount - n, granted);
  }

  /** Goods without a tier come from the stash first.  The locker's stacks go one after the other from the front;
      of the stacks that had been there at most the first one left is smaller than it was. */
  lemma RemovalOrder(p: Player, item: nat, amount: nat, tier: nat, granted: nat)
    ensures var r := RemoveItems(p, item, amount, tier, granted).player; var w := Ware(item, tier);
            var left, stacks := InLocker(r, w), InLocker(p, w);
            && (tier == 0 ==> InStash(r, item) == if amount <= InStash(p, item) then InStash(p, item) - amount else 0)
            && (tier != 0 ==> InStash(r, item) == InStash(p, item))
            && (tier == 0 && amount <= InStash(p, item) ==> left == stacks)
            && |left| <= |stacks|
            && (left != [] ==> left[1..] == stacks[|stacks| - |left| + 1..] && left[0] <= stacks[|stacks| - |left|])
  {
    var n := FromStash(p, item, amount, tier);
    WithdrawnIs(p, item, n, Ware(item, tier));
    TakeOrder(InLocker(p, Ware(item, tier)), amount - n, granted);
  }

  lemma {:induction false} TakeOrder(stacks: seq<Count>, amount: nat, granted: nat)
    ensures var left := Take(stacks, amount, granted).left;
            && |left| <= |stacks|
            && (left != [] ==> left[1..] == stacks[|stacks| - |left| + 1..] && left[0] <= stacks[|stacks| - |left|])
  {
    if amount == 0 || stacks == [] || granted == 0 {
    } else {
      var n := Min(amount, stacks[0]);
      if n < stacks[0] {
        assert ([stacks[0] - n] + stacks[1..])[1..] == stacks[1..];
      } else {
        TakeOrder(stacks[1..], amount - n, granted - 1);
        var left := Take(stacks[1..], amount - n, granted - 1).left;
        if left != [] {
          assert stacks[1..][|stacks| - 1 - |left| + 1..] == stacks[|stacks| - |left| + 1..];
        }
      }
    }
  }

  /** With every single removal granted and fewer than 65536 stacks, removal succeeds exactly when the
      player has enough, and otherwise takes everything the player has. */
  lemma RemovalSucceedsIfHeld(p: Player, item: nat, amount: nat, tier: nat, granted: nat)
    requires |InLocker(p, Ware(item, tier))| < U16 && granted >= |InLocker(p, Ware(item, tier))|
    ensures Taken(p, item, amount, tier, granted) == Min(amount, Holding(p, Ware(item, tier)))
    ensures RemoveItems(p, item, amount, tier, granted).ok <==> amount <= Holding(p, Ware(item, tier))
  {
    TakeIsExact(InLocker(p, Ware(item, tier)), amount - FromStash(p, item, amount, tier), granted);
    RemovalIsExact(p, item, amount, tier, granted, Ware(item, tier));
  }

  // ----- Deliveries -------------------------------------------------------------------------

  function PieceSize(t: ItemType): Count {
    if t.stackable then t.stackSize else 1
  }

  /** The stacks that reach the inbox, the last one first; it accepts the first `room` of them. */
  function Pieces(amount: nat, size: Count, room: nat): seq<Count> {
    if amount == 0 || room == 0 then []
    else Pieces(amount - Min(size, amount), size, room - 1) + [Min(size, amount)]
  }

  function PiecesNeeded(amount: nat, size: Count): nat {
    if amount == 0 then 0 else 1 + PiecesNeeded(amount - Min(size, amount), size)
  }

  function Deliver(p: Player, w: Ware, pieces: seq<Count>): Player {
    if pieces == [] then p else p.(locker := p.locker[w := pieces + InLocker(p, w)])
  }

  lemma {:induction false} UnitsConcat(a: seq<Count>, b: seq<Count>)
    ensures Units(a + b) == Units(a) + Units(b)
  {
    if a == [] {
      assert a + b == b;
    } else {
      UnitsConcat(a[1..], b);
      assert (a + b)[1..] == a[1..] + b;
    }
  }

  /** All of it arrives if and only if the inbox has room for all the stacks. */
  lemma {:induction false} PiecesAreAllIff(amount: nat, size: Count, room: nat)
    ensures Units(Pieces(amount, size, room)) <= amount
    ensures Units(Pieces(amount, size, room)) == amount <==> PiecesNeeded(amount, size) <= room
    ensures Units(Pieces(amount, size, room)) == 0 <==> amount == 0 || room == 0
    ensures forall n :: n in Pieces(amount, size, room) ==> n <= size
  {
    if amount == 0 || room == 0 {
    } else {
      var n := Min(size, amount);
      PiecesAreAllIff(amount - n, size, room - 1);
      UnitsConcat(Pieces(amount - n, size, room - 1), [n]);
    }
  }

  lemma {:induction false} PiecesNeededIsCeiling(amount: nat, size: Count)
    ensures PiecesNeeded(amount, size) * size >= amount
    ensures amount > 0 ==> (PiecesNeeded(amount, size) - 1) * size < amount
  {
    if amount > 0 {
      var n := Min(size, amount);
      PiecesNeededIsCeiling(amount - n, size);
      assert PiecesNeeded(amount, size) * size == PiecesNeeded(amount - n, size) * size + size;
    }
  }

  lemma DeliveryIsExact(p: Player, w: Ware, pieces: seq<Count>, v: Ware)
    ensures var q := Deliver(p, w, pieces);
            && Holding(q, v) == Holding(p, v) + (if v == w then Units(pieces) else 0)
            && q.bank == p.bank && q.cash == p.cash && q.account == p.account
  {
    UnitsConcat(pieces, InLocker(p, w));
  }

  // ----- Money ------------------------------------------------------------------------------

  /** Two in a hundred, and never less than 20 or more than a million. Below 1000 gold the upper bound
      of the clamp is less than the lower one, and the lower one wins. */
  function Fee(total: nat): nat {
    var fee := total / 50;
    var most := Min(1000000, fee);
    if fee < 20 then 20 else if most < fee then most else fee
  }

  lemma FeeIsBounded(total: nat, more: nat)
    requires total <= more
    ensures 20 <= Fee(total) <= Fee(more) <= 1000000
    ensures 1000 <= total <= 50000000 ==> Fee(total) * 50 <= total < (Fee(total) + 1) * 50
    ensures total < 1000 ==> Fee(total) == 20
    ensures total > 50000000 ==> Fee(total) == 1000000
  {
  }

  /** Carried money first, then the bank; nothing happens when both are too little. */
  function Pay(p: Player, money: nat): Player {
    if money > p.cash + p.bank then p
    else if money <= p.cash then p.(cash := p.cash - money)
    else p.(cash := 0, bank := p.bank - (money - p.cash))
  }

  /** The bank first, then carried money. */
  function PayFromBank(p: Player, money: nat): Player
    requires money <= p.bank + p.cash
  {
    if money <= p.bank then p.(bank := p.bank - money)
    else p.(bank := 0, cash := p.cash - (money - p.bank))
  }

  // ----- The steps --------------------------------------------------------------------------

  predicate AmountOk(t: ItemType, amount: nat) {
    0 < amount <= if t.stackable then 64000 else 2000
  }

  predicate CanCreate(types: seq<ItemType>, item: nat, amount: nat, price: nat) {
    0 < price <= MAX_PRICE && item < |types| && types[item].listed && AmountOk(types[item], amount)
  }

  function With(s: State, p: Pid, player: Player): State
    requires p < |s.players|
  {
    s.(players := s.players[p := player])
  }

  function AddCoins(s: State, account: nat, amount: nat): State
    requires account < |s.coins|
  {
    s.(coins := s.coins[account := s.coins[account] + amount])
  }

  function RemoveCoins(s: State, account: nat, amount: nat): State
    requires account < |s.coins| && amount <= s.coins[account]
  {
    s.(coins := s.coins[account := s.coins[account] - amount])
  }

  /** The goods leave the seller. None when there are too few coins, which changes nothing. */
  datatype Leaving = Refused | Lost(state: State) | Gone(state: State)

  function Collect(s: State, p: Pid, item: nat, amount: nat, tier: nat, granted: nat): Leaving
    requires Ok(s) && p < |s.players|
  {
    if item == STORE_COIN then
      var account := s.players[p].account;
      if amount > s.coins[account] then Refused else Gone(RemoveCoins(s, account, amount))
    else
      var r := RemoveItems(s.players[p], item, amount, tier, granted);
      if r.ok then Gone(With(s, p, r.player)) else Lost(With(s, p, r.player))
  }

  function Arriving(types: seq<ItemType>, item: nat, amount: nat, room: nat): seq<Count>
    requires item < |types|
  {
    Pieces(amount, PieceSize(types[item]), room)
  }

  /** The goods reach the buyer's account or inbox, as far as the inbox has room. */
  function Hand(types: seq<ItemType>, s: State, p: Pid, w: Ware, amount: nat, room: nat): State
    requires Ok(s) && p < |s.players| && w.item < |types|
  {
    if w.item == STORE_COIN then AddCoins(s, s.players[p].account, amount)
    else With(s, p, Deliver(s.players[p], w, Arriving(types, w.item, amount, room)))
  }

  predicate Arrives(types: seq<ItemType>, item: nat, amount: nat, room: nat)
    requires item < |types|
  {
    item == STORE_COIN || PiecesNeeded(amount, PieceSize(types[item])) <= room
  }

  /** `allowed`: the player is in the market, not exhausted, premium where needed and below the limit of offers. */
  function Create(types: seq<ItemType>, s: State, p: Pid, action: Action, item: nat, amount: nat, price: nat,
                  tier: nat, allowed: bool, granted: nat): State
    requires Ok(s) && p < |s.players|
  {
    if !allowed || !CanCreate(types, item, amount, price) then s
    else
      var fee := Fee(price * amount);
      var me := s.players[p];
      if action == Buy then
        if price * amount + fee > me.cash + me.bank then s
        else Open(With(s, p, Pay(me, price * amount + fee)), Offer(p, Buy, item, tier, amount, price))
      else if fee > me.cash + me.bank then s
      else
        var sold := SellTier(me, item, tier);
        match Collect(s, p, item, amount, sold, granted)
        case Refused => s
        case Lost(t) => t
        case Gone(t) => Open(With(t, p, Pay(t.players[p], fee)), Offer(p, Sell, item, sold, amount, price))
  }

  /** An item of which some is in the stash is sold without a tier. */
  function SellTier(p: Player, item: nat, tier: nat): nat {
    if item != STORE_COIN && InStash(p, item) > 0 then 0 else tier
  }

  function Open(s: State, o: Offer): State {
    s.(offers := s.offers + [o])
  }

  function Closed(s: State, k: nat): State
    requires k < |s.offers|
  {
    s.(offers := Without(s.offers, k))
  }

  /** The offer is `k`; a number past the end stands for an offer that is not found. */
  function Cancel(types: seq<ItemType>, s: State, p: Pid, k: nat, allowed: bool, room: nat): State
    requires Ok(s) && p < |s.players|
  {
    if !allowed || k >= |s.offers| || s.offers[k].owner != p then s
    else
      var o := s.offers[k];
      if o.action == Buy then
        Closed(With(s, p, s.players[p].(bank := s.players[p].bank + o.price * o.amount)), k)
      else if o.item >= |types| then s
      else Closed(Hand(types, s, p, Ware(o.item, o.tier), o.amount, room), k)
  }

  /** What is left of an offer. */
  function Filled(s: State, k: nat, amount: nat): State
    requires k < |s.offers| && amount <= s.offers[k].amount
  {
    var o := s.offers[k];
    if o.amount == amount then Closed(s, k) else s.(offers := s.offers[k := o.(amount := o.amount - amount)])
  }

  predicate CanAccept(types: seq<ItemType>, s: State, p: Pid, k: nat, amount: nat)
    requires Ok(s) && p < |s.players|
  {
    && k < |s.offers|
    && s.offers[k].item < |types|
    && AmountOk(types[s.offers[k].item], amount)
    && amount <= s.offers[k].amount
    && p != s.offers[k].owner
  }

  function Credited(s: State, p: Pid, money: nat): State
    requires p < |s.players|
  {
    With(s, p, s.players[p].(bank := s.players[p].bank + money))
  }

  /** `p` sells to the owner of the offer `k`, whose money the offer holds. */
  function SellTo(types: seq<ItemType>, s: State, p: Pid, k: nat, amount: nat, granted: nat, room: nat): State
    requires Ok(s) && p < |s.players| && CanAccept(types, s, p, k, amount)
  {
    var o := s.offers[k];
    match Collect(s, p, o.item, amount, o.tier, granted)
    case Refused => s
    case Lost(t) => t
    case Gone(t) =>
      var paid := Credited(t, p, o.price * amount);
      var u := Hand(types, paid, o.owner, Ware(o.item, o.tier), amount, room);
      if Arrives(types, o.item, amount, room) then Filled(u, k, amount) else u
  }

  /** `p` buys from the owner of the offer `k`, which holds the goods. */
  function BuyFrom(types: seq<ItemType>, s: State, p: Pid, k: nat, amount: nat, room: nat): State
    requires Ok(s) && p < |s.players| && CanAccept(types, s, p, k, amount)
  {
    var o := s.offers[k];
    var total := o.price * amount;
    if total > s.players[p].bank + s.players[p].cash then s
    else
      var paid := With(s, p, PayFromBank(s.players[p], total));
      var t := Hand(types, paid, p, Ware(o.item, o.tier), amount, room);
      var u := Credited(t, o.owner, total);
      if Arrives(types, o.item, amount, room) then Filled(u, k, amount) else u
  }

  /** `allowed`: the player is in the market and not exhausted, and the owner of the offer can be loaded. */
  function Accept(types: seq<ItemType>, s: State, p: Pid, k: nat, amount: nat, allowed: bool,
                  granted: nat, room: nat): State
    requires Ok(s) && p < |s.players|
  {
    if !allowed || !CanAccept(types, s, p, k, amount) then s
    else if s.offers[k].action == Buy then SellTo(types, s, p, k, amount, granted, room)
    else BuyFrom(types, s, p, k, amount, room)
  }

  // ----- What every state keeps -------------------------------------------------------------

  predicate OfferOk(o: Offer, players: nat) {
    o.owner < players && o.amount > 0 && o.price > 0
  }

  predicate Ok(s: State) {
    && (forall p :: 0 <= p < |s.players| ==> s.players[p].account < |s.coins|)
    && (forall k :: 0 <= k < |s.offers| ==> OfferOk(s.offers[k], |s.players|))
  }
}
