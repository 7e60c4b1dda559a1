/** The trades of a game: the players' trade fields and the side index, changed in place. */
module Trades {
  import opened Basics
  import StackRules
  import StackLaws
  import opened Exchanges
  import opened TradeProtocol

  class Trades {
    var players: map<Pid, Trader>
    var tradeItems: map<ItemId, Pid>
    var goods: Goods
    /** The two players whose items are being moved. */
    ghost var transfer: Option<(Pid, Pid)>

    ghost function Now(): State
      reads this
    {
      State(players, tradeItems, goods, transfer)
    }

    constructor (goods: Goods, pids: set<Pid>)
      requires Ok(goods)
      ensures Inv(Now()) && transfer == None && this.goods == goods
    {
      players := map p | p in pids :: FREE;
      tradeItems, this.goods, transfer := map[], goods, None;
    }

    /** Whether the item, something in it, or something that contains it is on offer already. */
    method IsTraded(x: ItemId) returns (traded: bool)
      ensures traded <==> exists y :: y in tradeItems && Overlap(goods, x, y)
    {
      var todo := tradeItems.Keys;
      while todo != {}
        invariant todo <= tradeItems.Keys
        invariant forall y :: y in tradeItems && y !in todo ==> !Overlap(goods, x, y)
        decreases todo
      {
        var item :| item in todo;
        if x == item || Inside(goods, x, item) || Inside(goods, item, x) {
          assert Overlap(goods, x, item);
          return true;
        }
        todo := todo - {item};
      }
      return false;
    }

    method PlayerRequestTrade(p: Pid, q: Pid, x: ItemId, allowed: bool)
      modifies this`players, this`tradeItems
      ensures Now() == Request(old(Now()), p, q, x, allowed)
    {
      if p !in players || q !in players || p == q {
        return;
      }
      if !allowed || !Offers(goods, p, x) {
        return;
      }
      var traded := IsTraded(x);
      if traded {
        return;
      }
      var started := InternalStartTrade(p, q, x);
    }

    method InternalStartTrade(p: Pid, q: Pid, x: ItemId) returns (ok: bool)
      requires p in players && q in players && p != q && Offers(goods, p, x) && !AlreadyTraded(Now(), x)
      modifies this`players, this`tradeItems
      ensures Now() == Request(old(Now()), p, q, x, true)
    {
      if players[p].phase != NoTrade && !(players[p].phase == Acknowledge && players[p].partner == Some(q)) {
        return false;
      } else if players[q].phase != NoTrade && players[q].partner != Some(p) {
        return false;
      }
      players := players[p := Trader(Initiated, Some(q), Some(x))];
      tradeItems := tradeItems[x := p];
      if players[q].phase == NoTrade {
        players := players[q := players[q].(phase := Acknowledge, partner := Some(p))];
      }
      assert players == Request(old(Now()), p, q, x, true).players;
      return true;
    }

    /** Takes an item off the side index. */
    method Withdraw(x: Option<ItemId>)
      modifies this`tradeItems
      ensures tradeItems == Drop(old(tradeItems), x)
    {
      if x.Some? {
        tradeItems := tradeItems - {x.value};
      }
    }

    method InternalCloseTrade(p: Pid)
      requires Inv(Now()) && p in players
      modifies this`players, this`tradeItems
      ensures Now() == Close(old(Now()), p)
    {
      var partner := players[p].partner;
      assert TraderOk(Now(), p);
      if (partner.Some? && players[partner.value].phase == Transferring) || players[p].phase == Transferring {
        return;
      }
      Withdraw(players[p].item);
      var item := if partner.Some? then players[partner.value].item else None;
      players := players[p := FREE];
      if partner.Some? {
        Withdraw(item);
        players := players[partner.value := FREE];
      }
    }

    /** The player's search for a free slot. */
    method FindSlot(p: Pid, own: ItemId, x: ItemId) returns (b: nat)
      requires Ok(goods)
      ensures b == FreeBag(goods, p, own, x, 0)
    {
      b := 0;
      while b < |goods.bags| && !Takes(goods, b, p, own, x)
        invariant b <= |goods.bags| && FreeBag(goods, p, own, x, b) == FreeBag(goods, p, own, x, 0)
      {
        b := b + 1;
      }
    }

    /** The test of adding an item to a player, which may share a stack. */
    method TestAdd(p: Pid, own: ItemId, x: ItemId) returns (ok: bool)
      requires Ok(goods) && own in goods.at && x in goods.at
      ensures ok <==> Tested(goods, p, own, x)
    {
      var b := 0;
      while b < |goods.bags| && !MayTake(goods, b, p, own, x)
        invariant b <= |goods.bags| && FirstToTake(goods, p, own, x, b) == FirstToTake(goods, p, own, x, 0)
      {
        b := b + 1;
      }
      return b < |goods.bags| && |goods.bags[b].things| + 1 <= goods.bags[b].most;
    }

    /** Moves `c` of an item to a player; if `checked`, not into the player's own item. */
    method MoveTo(x: ItemId, c: nat, to: Pid, own: ItemId, checked: bool) returns (ok: bool)
      requires Ok(goods) && x in goods.at && 0 < c <= ThingOf(goods, x).count
      requires goods.carrier[goods.at[x].bag] != Some(to)
      modifies this`goods
      ensures goods == Send(old(goods), x, c, to, own, checked).goods
      ensures ok == Send(old(goods), x, c, to, own, checked).done
    {
      var b := FindSlot(to, own, x);
      if b == |goods.bags| {
        return false;
      }
      if checked && own in goods.within[b] {
        return false;
      }
      FreeGoes(goods, x, c, to, own);
      hide StackRules.Move, StackLaws.Goes, Settled, Ok;
      var f := goods.at[x];
      var moved := StackRules.Move(goods.bags, f.bag, f.pos, b, Some(|goods.bags[b].things|), c, false, true, true);
      goods := Settled(goods, x, b, c, moved.bags);
      return moved.answer == StackRules.NoError;
    }

    /** The two moves; that the second one is made is not looked at. */
    method ExchangeItems(p: Pid, q: Pid, x: ItemId, y: ItemId, allowed: bool)
      requires Exchangeable(goods, p, q, x, y)
      modifies this`goods
      ensures goods == Exchange(old(goods), p, q, x, y, allowed).goods
    {
      hide Tested, Send;
      ghost var before := goods;
      var ret1 := TestAdd(q, y, x);
      var ret2 := TestAdd(p, x, y);
      if !allowed || !ret1 || !ret2 {
        return;
      }
      var count1, count2 := ThingOf(goods, x).count, ThingOf(goods, y).count;
      SendFollows(before, x, count1, q, y, true);
      SendLeavesOther(before, x, count1, q, y, true, y);
      ret1 := MoveTo(x, count1, q, y, true);
      if ret1 {
        ret2 := MoveTo(y, count2, p, x, false);
      }
    }

    /** The transfer: `callbacks` are the players whose trades are closed from inside the moves. */
    method Transfer(p: Pid, q: Pid, callbacks: seq<Pid>, allowed: bool) returns (ghost es: seq<Event>)
      requires Inv(Now()) && transfer == Some((p, q))
      modifies this
      ensures Inv(Now()) && transfer == None
      ensures Runs(old(Now()), es) && Now() == Run(old(Now()), es)
      ensures es == Closings(callbacks) + [DoFinish(allowed)]
    {
      es := [];
      ghost var start := Now();
      NoClosings(callbacks, start);
      hide Closings, Run, Runs, Finish;
      var i := 0;
      while i < |callbacks|
        invariant 0 <= i <= |callbacks|
        invariant Inv(Now()) && transfer == Some((p, q)) && goods == old(goods)
        invariant Runs(start, es) && Now() == Run(start, es) && es == Closings(callbacks[..i])
      {
        ghost var before := Now();
        ClosingsNext(callbacks, i);
        if callbacks[i] in players {
          CloseKeepsInv(before, callbacks[i]);
          CloseLeavesTransfer(before, callbacks[i]);
          InternalCloseTrade(callbacks[i]);
        }
        RunSnoc(start, es, DoClose(callbacks[i]));
        es := es + [DoClose(callbacks[i])];
        i := i + 1;
      }
      assert callbacks[..i] == callbacks;
      FinishKeepsInv(Now(), allowed);
      RunSnoc(start, es, DoFinish(allowed));
      es := es + [DoFinish(allowed)];
      FinishTransfer(p, q, allowed);
    }

    /** The items are exchanged and both players are free. */
    method FinishTransfer(p: Pid, q: Pid, allowed: bool)
      requires Inv(Now()) && transfer == Some((p, q))
      modifies this
      ensures Swappable(old(Now())) && Now() == Finish(old(Now()), allowed)
      ensures transfer == None
    {
      ghost var before := Now();
      InvIsSwappable(before);
      assert TraderOk(before, p) && TraderOk(before, q);
      hide Exchange, Exchangeable, Inv, Ok;
      var x, y := players[p].item, players[q].item;
      if x.Some? && y.Some? {
        ExchangeItems(p, q, x.value, y.value, allowed);
      }
      players := players[p := FREE];
      players := players[q := FREE];
      transfer := None;
    }

    method PlayerAcceptTrade(p: Pid, reachable: bool, allowed: bool,
                             callbacks: seq<Pid>, movable: bool)
      returns (ghost es: seq<Event>)
      requires Inv(Now()) && transfer == None
      modifies this
      ensures Inv(Now()) && transfer == None
      ensures Runs(old(Now()), es) && Now() == Run(old(Now()), es)
      ensures es == [DoAccept(p, reachable, allowed)] +
                    if Accept(old(Now()), p, reachable, allowed).transfer.Some?
                    then Closings(callbacks) + [DoFinish(movable)] else []
    {
      ghost var start := Now();
      AcceptKeepsInv(start, p, reachable, allowed);
      es := [DoAccept(p, reachable, allowed)];
      RunOne(start, DoAccept(p, reachable, allowed));
      assert es + [] == es;
      hide Run, Runs, Closings, Exchange, Swappable, Overlap;
      if p !in players {
        return;
      }
      assert TraderOk(start, p);
      if !(players[p].phase == Acknowledge || players[p].phase == Initiated) {
        return;
      }
      if players[p].partner.None? || !reachable {
        return;
      }
      var q := players[p].partner.value;
      AgreeKeepsInv(start, p);
      players := players[p := players[p].(phase := Accepted)];
      if players[q].phase == Accepted {
        if !allowed {
          InternalCloseTrade(p);
          return;
        }
        Withdraw(players[p].item);
        Withdraw(players[q].item);
        players := players[p := players[p].(phase := Transferring)];
        players := players[q := players[q].(phase := Transferring)];
        transfer := Some((p, q));
        ghost var rest := Transfer(p, q, callbacks, movable);
        RunConcat(start, es, rest);
        es := es + rest;
      }
    }
  }

  /** The trades of these players are closed, one after the other. */
  ghost function Closings(callbacks: seq<Pid>): seq<Event> {
    if callbacks == [] then []
    else var n := |callbacks| - 1; Closings(callbacks[..n]) + [DoClose(callbacks[n])]
  }

  lemma NoClosings(callbacks: seq<Pid>, s: State)
    ensures Closings(callbacks[..0]) == [] && Runs(s, []) && Run(s, []) == s
  {
  }

  lemma ClosingsNext(callbacks: seq<Pid>, i: nat)
    requires i < |callbacks|
    ensures Closings(callbacks[..i + 1]) == Closings(callbacks[..i]) + [DoClose(callbacks[i])]
  {
    assert callbacks[..i + 1][..i] == callbacks[..i];
  }

  /** The trade of two players whose items are being moved is left alone. */
  lemma CloseLeavesTransfer(s: State, p: Pid)
    requires Inv(s) && s.transfer.Some?
    ensures var (a, b) := s.transfer.value; var t := Close(s, p);
            && a in t.players && t.players[a] == s.players[a]
            && b in t.players && t.players[b] == s.players[b]
            && t.transfer == s.transfer && t.goods == s.goods
  {
    var (a, b) := s.transfer.value;
    assert TraderOk(s, a) && TraderOk(s, b);
    if p in s.players { assert TraderOk(s, p); }
  }
}
