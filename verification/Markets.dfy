/** The market's own bookkeeping: offers, players and coin accounts are changed in place. */
module Markets {
  import opened Basics
  import opened MarketRules
  import opened Sequences

  class Market {
    const types: seq<ItemType>
    var players: seq<Player>
    var coins: seq<nat>
    var offers: seq<Offer>

    ghost function Now(): State
      reads this
    {
      State(players, coins, offers)
    }

    constructor (types: seq<ItemType>, players: seq<Player>, coins: seq<nat>)
      ensures this.types == types && Now() == State(players, coins, [])
    {
      this.types, this.players, this.coins, this.offers := types, players, coins, [];
    }

    method WithdrawItem(p: Pid, item: nat, amount: nat) returns (ok: bool)
      requires p < |players|
      modifies this`players
      ensures ok <==> item in old(players)[p].stash && old(players)[p].stash[item] >= amount
      ensures !ok ==> players == old(players)
      ensures ok && amount > 0 ==> players == old(players)[p := Withdrawn(old(players)[p], item, amount)]
    {
      var me := players[p];
      if item in me.stash {
        if me.stash[item] > amount {
          players := players[p := me.(stash := me.stash[item := me.stash[item] - amount])];
          return true;
        }
        if me.stash[item] == amount {
          players := players[p := me.(stash := me.stash - {item})];
          return true;
        }
      }
      return false;
    }

    method RemoveFromStash(p: Pid, item: nat, amount: nat, tier: nat) returns (removeAmount: nat, ok: bool)
      requires p < |players| && amount > 0
      modifies this`players
      ensures ok && removeAmount == amount - FromStash(old(players)[p], item, amount, tier)
      ensures players == old(players)[p := Withdrawn(old(players)[p], item, amount - removeAmount)]
    {
      removeAmount := amount;
      if tier == 0 {
        var stashItemCount := InStash(players[p], item);
        if stashItemCount > 0 {
          ok := false;
          if removeAmount > stashItemCount {
            ok := WithdrawItem(p, item, stashItemCount);
          }
          if ok {
            removeAmount := removeAmount - stashItemCount;
          } else {
            ok := WithdrawItem(p, item, removeAmount);
            if ok {
              removeAmount := 0;
            } else {
              return removeAmount, false;
            }
          }
          return removeAmount, true;
        }
      }
      return removeAmount, true;
    }

    /** The goods for an offer leave the player's stash and locker, up to the first failure. */
    method RemoveOfferItems(p: Pid, item: nat, amount: nat, tier: nat, granted: nat) returns (ok: bool)
      requires p < |players| && amount > 0
      modifies this`players
      ensures var r := RemoveItems(old(players)[p], item, amount, tier, granted);
              players == old(players)[p := r.player] && ok == r.ok
    {
      var removeAmount;
      LockerIsUsed(players[p], item, amount, tier, granted);
      hide Take, TakenUpTo, Rest, RemoveItems, FromStash, Withdrawn, InLocker;
      removeAmount, ok := RemoveFromStash(p, item, amount, tier);
      var w := Ware(item, tier);
      var itemVector := InLocker(players[p], w);
      var totalCount := |itemVector| % U16;
      if removeAmount == 0 {
        return true;
      }
      if totalCount == 0 {
        return false;
      }
      ghost var me := players[p];
      TakenFrom(itemVector, removeAmount, granted);
      var removedCount, left := 0, itemVector;
      SetToItself(me, w);
      var i := 0;
      while i < |itemVector| && removedCount < removeAmount
        invariant i <= |itemVector| && removedCount <= removeAmount && i <= granted
        invariant players == old(players)[p := me.(locker := me.locker[w := left])]
        invariant TakenUpTo(itemVector, removeAmount, granted, i, removedCount)
        invariant left == if removedCount == removeAmount then Take(itemVector, removeAmount, granted).left
                          else itemVector[i..]
      {
        if i >= granted {
          TakenNone(itemVector, removeAmount, granted, i, removedCount);
          return false;
        }
        var thisRemove := Min(removeAmount - removedCount, itemVector[i]);
        TakeNext(itemVector, removeAmount, granted, i, removedCount);
        SetTwice(me.locker, w, left, Rest(itemVector, i, thisRemove));
        left := Rest(itemVector, i, thisRemove);
        players := players[p := players[p].(locker := players[p].locker[w := left])];
        removedCount := removedCount + thisRemove;
        i := i + 1;
      }
      if removedCount < removeAmount {
        TakenNone(itemVector, removeAmount, granted, i, removedCount);
      } else {
        TakenAll(itemVector, removeAmount, granted, i);
      }
      return removedCount >= removeAmount;
    }

    method RemoveMoney(p: Pid, money: nat) returns (ok: bool)
      requires p < |players|
      modifies this`players
      ensures ok <==> money <= old(players)[p].cash + old(players)[p].bank
      ensures players == old(players)[p := Pay(old(players)[p], money)]
    {
      var me := players[p];
      if money > me.cash + me.bank {
        return false;
      }
      var paid := Min(me.cash, money);
      players := players[p := me.(cash := me.cash - paid, bank := me.bank - (money - paid))];
      return true;
    }

    /** Puts new items into the player's inbox until one does not fit. */
    method AddToInbox(p: Pid, w: Ware, amount: nat, room: nat) returns (ok: bool)
      requires p < |players| && w.item < |types|
      modifies this`players
      ensures players == old(players)[p := Deliver(old(players)[p], w, Arriving(types, w.item, amount, room))]
      ensures ok <==> PiecesNeeded(amount, PieceSize(types[w.item])) <= room
    {
      var t := types[w.item];
      var size := PieceSize(t);
      ghost var me := players[p];
      ghost var done: seq<Count> := [];
      var placed := 0;
      if t.stackable {
        var tmpAmount := amount;
        while tmpAmount > 0
          invariant p < |players| && placed <= room && players == old(players)[p := Deliver(me, w, done)]
          invariant Pieces(amount, size, room) == Pieces(tmpAmount, size, room - placed) + done
          invariant PiecesNeeded(amount, size) == placed + PiecesNeeded(tmpAmount, size)
        {
          if placed == room {
            assert Pieces(tmpAmount, size, 0) + done == done;
            return false;
          }
          var stackCount := Min(t.stackSize, tmpAmount);
          Append(Pieces(tmpAmount - stackCount, size, room - placed - 1), stackCount, done);
          players := players[p := Deliver(players[p], w, [stackCount])];
          placed := placed + 1;
          Onto(me, w, stackCount, done);
          done := [stackCount] + done;
          tmpAmount := tmpAmount - stackCount;
        }
      } else {
        for i := 0 to amount
          invariant p < |players| && placed == i <= room && players == old(players)[p := Deliver(me, w, done)]
          invariant Pieces(amount, size, room) == Pieces(amount - i, size, room - placed) + done
          invariant PiecesNeeded(amount, size) == placed + PiecesNeeded(amount - i, size)
        {
          if placed == room {
            assert Pieces(amount - i, size, 0) + done == done;
            return false;
          }
          Append(Pieces(amount - i - 1, size, room - placed - 1), 1, done);
          players := players[p := Deliver(players[p], w, [1])];
          placed := placed + 1;
          Onto(me, w, 1, done);
          done := [1] + done;
        }
      }
      assert [] + done == done;
      return true;
    }

    method PlayerCreateMarketOffer(p: Pid, action: Action, item: nat, amount: nat, price: nat, tier: nat,
                                   allowed: bool, granted: nat)
      requires Ok(Now()) && p < |players|
      modifies this
      ensures Now() == Create(types, old(Now()), p, action, item, amount, price, tier, allowed, granted)
    {
      if !allowed || !CanCreate(types, item, amount, price) {
        return;
      }
      var totalPrice := price * amount;
      var fee := Fee(totalPrice);
      var me := players[p];
      var sold := tier;
      var ok;
      if action == Sell {
        if fee > me.cash + me.bank {
          return;
        }
        if item == STORE_COIN {
          if amount > coins[me.account] {
            return;
          }
          coins := coins[me.account := coins[me.account] - amount];
        } else {
          if InStash(me, item) > 0 {
            sold := 0;
          }
          ok := RemoveOfferItems(p, item, amount, sold, granted);
          if !ok {
            return;
          }
        }
        ok := RemoveMoney(p, fee);
      } else {
        if totalPrice + fee > me.cash + me.bank {
          return;
        }
        ok := RemoveMoney(p, totalPrice + fee);
      }
      offers := offers + [Offer(p, action, item, sold, amount, price)];
    }

    method PlayerCancelMarketOffer(p: Pid, k: nat, allowed: bool, room: nat)
      requires Ok(Now()) && p < |players|
      modifies this
      ensures Now() == Cancel(types, old(Now()), p, k, allowed, room)
    {
      if !allowed {
        return;
      }
      if k >= |offers| || offers[k].owner != p {
        return;
      }
      var offer := offers[k];
      var me := players[p];
      if offer.action == Buy {
        players := players[p := me.(bank := me.bank + offer.price * offer.amount)];
      } else {
        if offer.item >= |types| {
          return;
        }
        if offer.item == STORE_COIN {
          coins := coins[me.account := coins[me.account] + offer.amount];
        } else {
          var ok := AddToInbox(p, Ware(offer.item, offer.tier), offer.amount, room);
        }
      }
      offers := Without(offers, k);
    }

    method GiveGoods(p: Pid, w: Ware, amount: nat, room: nat) returns (ok: bool)
      requires Ok(Now()) && p < |players| && w.item < |types|
      modifies this`players, this`coins
      ensures Now() == Hand(types, old(Now()), p, w, amount, room)
      ensures ok <==> Arrives(types, w.item, amount, room)
    {
      if w.item == STORE_COIN {
        var account := players[p].account;
        coins := coins[account := coins[account] + amount];
        return true;
      }
      ok := AddToInbox(p, w, amount, room);
    }

    method SellToOffer(p: Pid, k: nat, amount: nat, granted: nat, room: nat) returns (ok: bool)
      requires Ok(Now()) && p < |players| && CanAccept(types, Now(), p, k, amount)
      modifies this`players, this`coins
      ensures var t := SellTo(types, old(Now()), p, k, amount, granted, room);
              Now() == t.(offers := offers) && t == if ok then Filled(Now(), k, amount) else Now()
    {
      var offer := offers[k];
      var account := players[p].account;
      if offer.item == STORE_COIN {
        if amount > coins[account] {
          return false;
        }
        coins := coins[account := coins[account] - amount];
      } else {
        ok := RemoveOfferItems(p, offer.item, amount, offer.tier, granted);
        if !ok {
          return;
        }
      }
      var totalPrice := offer.price * amount;
      players := players[p := players[p].(bank := players[p].bank + totalPrice)];
      ok := GiveGoods(offer.owner, Ware(offer.item, offer.tier), amount, room);
    }

    method BuyFromOffer(p: Pid, k: nat, amount: nat, room: nat) returns (ok: bool)
      requires Ok(Now()) && p < |players| && CanAccept(types, Now(), p, k, amount)
      modifies this`players, this`coins
      ensures var t := BuyFrom(types, old(Now()), p, k, amount, room);
              Now() == t.(offers := offers) && t == if ok then Filled(Now(), k, amount) else Now()
    {
      var offer := offers[k];
      var me := players[p];
      var totalPrice := offer.price * amount;
      if totalPrice > me.bank + me.cash {
        return false;
      }
      if totalPrice <= me.bank {
        players := players[p := me.(bank := me.bank - totalPrice)];
      } else {
        var remainsPrice := totalPrice - me.bank;
        players := players[p := me.(bank := 0, cash := me.cash - remainsPrice)];
      }
      ok := GiveGoods(p, Ware(offer.item, offer.tier), amount, room);
      var seller := players[offer.owner];
      players := players[offer.owner := seller.(bank := seller.bank + totalPrice)];
    }

    method PlayerAcceptMarketOffer(p: Pid, k: nat, amount: nat, allowed: bool, granted: nat, room: nat)
      requires Ok(Now()) && p < |players|
      modifies this
      ensures Now() == Accept(types, old(Now()), p, k, amount, allowed, granted, room)
    {
      if !allowed || !CanAccept(types, State(players, coins, offers), p, k, amount) {
        return;
      }
      var offer := offers[k];
      var ok;
      if offer.action == Buy {
        ok := SellToOffer(p, k, amount, granted, room);
      } else {
        ok := BuyFromOffer(p, k, amount, room);
      }
      if !ok {
        return;
      }
      if offer.amount == amount {
        offers := Without(offers, k);
      } else {
        offers := offers[k := offer.(amount := offer.amount - amount)];
      }
    }
  }

  /** What is taken from the locker, told from the player whose stash has been used. */
  lemma LockerIsUsed(p: Player, item: nat, amount: nat, tier: nat, granted: nat)
    ensures var n := FromStash(p, item, amount, tier); var q := Withdrawn(p, item, n);
            var stacks := InLocker(q, Ware(item, tier)); var t := Take(stacks, amount - n, granted);
            && n <= amount
            && RemoveItems(p, item, amount, tier, granted)
               == if n == amount || |stacks| % U16 == 0 then Removal(q, n == amount)
                  else Removal(q.(locker := q.locker[Ware(item, tier) := t.left]), t.taken == amount - n)
  {
    hide Take;
  }

  lemma SetToItself(p: Player, w: Ware)
    requires InLocker(p, w) != []
    ensures p.locker[w := InLocker(p, w)] == p.locker
  {
  }

  lemma SetTwice(locker: map<Ware, seq<Count>>, w: Ware, a: seq<Count>, b: seq<Count>)
    ensures locker[w := a][w := b] == locker[w := b]
  {
  }

  lemma Append(a: seq<Count>, n: Count, b: seq<Count>)
    ensures a + [n] + b == a + ([n] + b)
  {
  }

  lemma Onto(p: Player, w: Ware, n: Count, done: seq<Count>)
    ensures Deliver(Deliver(p, w, done), w, [n]) == Deliver(p, w, [n] + done)
  {
    assert [n] + (done + InLocker(p, w)) == ([n] + done) + InLocker(p, w);
    assert [n] + done != [];
    if done == [] {
      assert [n] + done == [n];
    }
  }

  /** Where a removal stands after `i` stacks: the rest of the work is on the stacks from `i` on. */
  ghost predicate TakenUpTo(stacks: seq<Count>, amount: nat, granted: nat, i: nat, removed: nat)
    requires i <= |stacks| && i <= granted && removed <= amount
  {
    var whole := Take(stacks, amount, granted);
    if removed == amount then whole.taken == amount
    else var rest := Take(stacks[i..], amount - removed, granted - i);
         whole == Taking(rest.left, removed + rest.taken)
  }

  lemma TakeNext(stacks: seq<Count>, amount: nat, granted: nat, i: nat, removed: nat)
    requires i < |stacks| && i < granted && removed < amount && TakenUpTo(stacks, amount, granted, i, removed)
    ensures var n := Min(amount - removed, stacks[i]); var whole := Take(stacks, amount, granted);
            && TakenUpTo(stacks, amount, granted, i + 1, removed + n)
            && (removed + n == amount ==> whole.left == Rest(stacks, i, n))
            && (removed + n < amount ==> Rest(stacks, i, n) == stacks[i + 1..])
  {
    var n := Min(amount - removed, stacks[i]);
    assert stacks[i..][0] == stacks[i] && stacks[i..][1..] == stacks[i + 1..];
    if n == stacks[i] {
      var t := Take(stacks[i + 1..], amount - removed - n, granted - i - 1);
      assert Take(stacks[i..], amount - removed, granted - i) == Taking(t.left, n + t.taken);
    }
  }

  function Rest(stacks: seq<Count>, i: nat, n: nat): seq<Count>
    requires i < |stacks| && n <= stacks[i]
  {
    if n < stacks[i] then [stacks[i] - n] + stacks[i + 1..] else stacks[i + 1..]
  }

  lemma TakenFrom(stacks: seq<Count>, amount: nat, granted: nat)
    requires amount > 0
    ensures TakenUpTo(stacks, amount, granted, 0, 0)
  {
    assert stacks[0..] == stacks;
  }

  lemma TakenNone(stacks: seq<Count>, amount: nat, granted: nat, i: nat, removed: nat)
    requires i <= |stacks| && i <= granted && removed < amount && TakenUpTo(stacks, amount, granted, i, removed)
    requires i == granted || i == |stacks|
    ensures Take(stacks, amount, granted) == Taking(stacks[i..], removed)
  {
  }

  lemma TakenAll(stacks: seq<Count>, amount: nat, granted: nat, i: nat)
    requires i <= |stacks| && i <= granted && TakenUpTo(stacks, amount, granted, i, amount)
    ensures Take(stacks, amount, granted).taken == amount
  {
  }
}
