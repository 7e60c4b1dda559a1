/** What the steps of a trade do to the players, the side index and the goods, and when a transfer begins. */
module TradeLaws {
  import opened Basics
  import opened Sequences
  import StackRules
  import StackLaws
  import opened Exchanges
  import opened TradeProtocol

  // ----- Asking and answering ---------------------------------------------------------------

  /** A request is heard: both players are known, nothing in, around or at the item is on offer, the one who asks
      is free or answers, and the one who is asked is free or waits for the answer. */
  ghost predicate Heard(s: State, p: Pid, q: Pid, x: ItemId) {
    && p in s.players && q in s.players && p != q && Offers(s.goods, p, x)
    && (forall y :: y in s.tradeItems ==> !Overlap(s.goods, x, y))
    && (s.players[p].phase == NoTrade || (s.players[p].phase == Acknowledge && s.players[p].partner == Some(q)))
    && (s.players[q].phase == NoTrade || s.players[q].partner == Some(p))
  }

  /** A request changes something if and only if it is heard and allowed: then the one who asks offers the item, to
      a partner who has been free or had asked before. */
  lemma RequestStartsIff(s: State, p: Pid, q: Pid, x: ItemId, allowed: bool)
    requires Inv(s) && s.transfer.None?
    ensures var t := Request(s, p, q, x, allowed);
            && (t != s <==> allowed && Heard(s, p, q, x))
            && (t != s ==>
                  && t.players[p].phase == Initiated && t.players[p].partner == Some(q) && t.players[p].item == Some(x)
                  && (s.players[q].phase == NoTrade ==>
                        t.players[q].phase == Acknowledge && t.players[q].partner == Some(p)
                        && t.players[q].item == None)
                  && (s.players[q].phase != NoTrade ==> t.players[q] == s.players[q])
                  && (forall r :: r in s.players && r != p && r != q ==> t.players[r] == s.players[r])
                  && t.players.Keys == s.players.Keys && t.tradeItems == s.tradeItems[x := p]
                  && t.goods == s.goods && t.transfer == s.transfer)
  {
    if p in s.players && q in s.players {
      assert TraderOk(s, p) && TraderOk(s, q);
    }
    hide Inv, Ok, TradersOk, Offers, Overlap;
    if allowed && Heard(s, p, q, x) {
      assert !AlreadyTraded(s, x);
      assert Request(s, p, q, x, allowed).players[p].item == Some(x) && s.players[p].item == None;
    }
  }

  /** Two players without a trade, each with an item, can always come to offer them to each other: the answer to a
      request is heard, unless the two items overlap or something else on offer does. */
  lemma AnAnswerIsHeard(s: State, p: Pid, q: Pid, x: ItemId, y: ItemId)
    requires Inv(s) && s.transfer.None? && Heard(s, p, q, x)
    requires s.players[q].phase == NoTrade && Offers(s.goods, q, y) && !Overlap(s.goods, y, x)
    requires forall z :: z in s.tradeItems ==> !Overlap(s.goods, y, z)
    ensures var t := Request(s, p, q, x, true); var u := Request(t, q, p, y, true);
            && p in u.players && u.players[p] == Trader(Initiated, Some(q), Some(x))
            && q in u.players && u.players[q] == Trader(Initiated, Some(p), Some(y))
            && u.tradeItems == s.tradeItems[x := p][y := q] && u.goods == s.goods && u.transfer == None
  {
    hide Overlap, Offers, Request;
    RequestStartsIff(s, p, q, x, true);
    var t := Request(s, p, q, x, true);
    RequestKeepsInv(s, p, q, x, true);
    hide Inv;
    assert Heard(t, q, p, y);
    RequestStartsIff(t, q, p, y, true);
  }

  // ----- Accepting --------------------------------------------------------------------------

  /** The player has been asked or has asked, and the partner is within reach. */
  predicate MayAccept(s: State, p: Pid, reachable: bool) {
    && p in s.players && (s.players[p].phase == Acknowledge || s.players[p].phase == Initiated)
    && s.players[p].partner.Some? && reachable
  }

  predicate PartnerAgreed(s: State, p: Pid) {
    && p in s.players && s.players[p].partner.Some? && s.players[p].partner.value in s.players
    && s.players[s.players[p].partner.value].phase == Accepted
  }

  /** A transfer begins if and only if the player may accept, the scripts allow it and the partner had accepted
      before.  While the partner has not, the player's phase is all that changes; when the scripts refuse, both
      players are free and nothing of theirs is on offer; and an acceptance out of turn does nothing. */
  lemma TransferBeginsIff(s: State, p: Pid, reachable: bool, allowed: bool)
    requires Inv(s) && s.transfer.None?
    ensures var t := Accept(s, p, reachable, allowed);
            && (t.transfer.Some? <==> MayAccept(s, p, reachable) && PartnerAgreed(s, p) && allowed)
            && (t.transfer.Some? ==>
                  var q := s.players[p].partner.value;
                  && t.transfer == Some((p, q)) && t.goods == s.goods
                  && t.players == s.players[p := s.players[p].(phase := Transferring)]
                                           [q := s.players[q].(phase := Transferring)]
                  && NoneOnOffer(s, t, p, q))
            && (MayAccept(s, p, reachable) && !PartnerAgreed(s, p) ==>
                  t == s.(players := s.players[p := s.players[p].(phase := Accepted)]))
            && (MayAccept(s, p, reachable) && PartnerAgreed(s, p) && !allowed ==>
                  Freed(s, t, p, s.players[p].partner.value))
            && (!MayAccept(s, p, reachable) ==> t == s)
  {
    if MayAccept(s, p, reachable) {
      var q := s.players[p].partner.value;
      assert TraderOk(s, p) && TraderOk(s, q);
      if PartnerAgreed(s, p) {
        TakenOff(s, p, q);
      }
    }
  }

  lemma TakenOff(s: State, p: Pid, q: Pid)
    requires IndexOk(s) && p in s.players && q in s.players
    requires s.players[p].phase != Transferring && s.players[q].phase != Transferring
    ensures forall t: State | t.tradeItems == Drop(Drop(s.tradeItems, s.players[p].item), s.players[q].item) ::
              NoneOnOffer(s, t, p, q)
  {
    forall x | x in s.tradeItems {
      DroppedIndex(s, p, q, x, s.tradeItems[x]);
    }
  }

  /** The items of the two players are off the side index, and all others are on it as before. */
  ghost predicate NoneOnOffer(s: State, t: State, p: Pid, q: Pid) {
    && (forall x :: x in t.tradeItems <==> x in s.tradeItems && s.tradeItems[x] != p && s.tradeItems[x] != q)
    && forall x :: x in t.tradeItems ==> t.tradeItems[x] == s.tradeItems[x]
  }

  /** The two players are free, and nothing else has changed. */
  ghost predicate Freed(s: State, t: State, p: Pid, q: Pid) {
    && t.players == s.players[p := Trader(NoTrade, None, None)][q := Trader(NoTrade, None, None)]
    && NoneOnOffer(s, t, p, q) && t.goods == s.goods && t.transfer == s.transfer
  }

  // ----- Closing ----------------------------------------------------------------------------

  /** Closing frees the player and the partner if and only if there is one and the items are not being moved;
      otherwise it does nothing. */
  lemma ClosingFreesIff(s: State, p: Pid)
    requires Inv(s)
    ensures var t := Close(s, p);
            if p in s.players && s.players[p].partner.Some? && s.players[p].phase != Transferring
            then Freed(s, t, p, s.players[p].partner.value)
            else t == s
  {
    if p in s.players {
      assert TraderOk(s, p);
      if s.players[p].partner.Some? {
        var q := s.players[p].partner.value;
        assert TraderOk(s, q);
        if s.transfer.Some? {
          assert TraderOk(s, s.transfer.value.0);
        }
        if s.players[p].phase != Transferring {
          TakenOff(s, p, q);
        }
      } else {
        assert s.players[p := FREE] == s.players;
      }
    }
  }

  // ----- The end of a transfer --------------------------------------------------------------

  /** Both items are tested, and the first free slot that the partner finds is not in the partner's own item. */
  ghost predicate FirstMoves(g: Goods, p: Pid, q: Pid, x: ItemId, y: ItemId, allowed: bool)
    requires Exchangeable(g, p, q, x, y)
  {
    && allowed && BothTested(g, p, q, x, y)
    && exists b :: 0 <= b < |g.bags| && TakesFirst(g, b, q, y, x) && y !in g.within[b]
  }

  /** The player has room once `x` has left. */
  ghost predicate SecondMoves(g: Goods, p: Pid, q: Pid, x: ItemId, y: ItemId)
    requires Exchangeable(g, p, q, x, y)
  {
    exists b :: 0 <= b < |g.bags| && MakesRoom(g, p, x, y, b)
  }

  /** In the container `i` the units of a kind have changed by those of `x`, which have gone to the container `d`,
      and if both moves are made by those of `y`, which have gone to the container `b`. */
  ghost predicate Exchanged(g: Goods, h: Goods, p: Pid, q: Pid, x: ItemId, y: ItemId, d: nat, b: nat, i: nat,
                            kind: StackRules.Kind)
    requires Exchangeable(g, p, q, x, y) && i < |g.bags| == |h.bags|
  {
    StackLaws.Units(h.bags[i], kind) == StackLaws.Units(g.bags[i], kind)
      + Gain(true, i, g.at[x].bag, d, ThingOf(g, x).count, ThingOf(g, x).kind, kind)
      + Gain(SecondMoves(g, p, q, x, y), i, g.at[y].bag, b, ThingOf(g, y).count, ThingOf(g, y).kind, kind)
  }

  /** At the end of a transfer both players are free, and everyone else's trade is as it was. */
  lemma TransferFrees(s: State, allowed: bool)
    requires Inv(s) && s.transfer.Some?
    ensures Swappable(s)
    ensures var t := Finish(s, allowed); var (p, q) := s.transfer.value;
            && p in s.players && q in s.players && p != q && t.transfer == None && t.tradeItems == s.tradeItems
            && t.players == s.players[p := Trader(NoTrade, None, None)][q := Trader(NoTrade, None, None)]
            && var x, y := s.players[p].item, s.players[q].item;
               if x.None? || y.None? then t.goods == s.goods
               else && Exchangeable(s.goods, p, q, x.value, y.value)
                    && t.goods == Exchange(s.goods, p, q, x.value, y.value, allowed).goods
  {
    InvIsSwappable(s);
    var (p, q) := s.transfer.value;
    assert TraderOk(s, p) && TraderOk(s, q);
    hide Exchange, Exchangeable, Ok;
  }

  /** If the first move is possible, the units of the one item go to a container `d` of the partner, and then, if
      there is room, those of the other item to a container `b` of the player; nothing else moves. */
  ghost predicate Moves(g: Goods, h: Goods, p: Pid, q: Pid, x: ItemId, y: ItemId, allowed: bool, d: nat, b: nat)
    requires Exchangeable(g, p, q, x, y)
  {
    && |h.bags| == |g.bags|
    && (!FirstMoves(g, p, q, x, y, allowed) ==> h == g)
    && (FirstMoves(g, p, q, x, y, allowed) ==>
          && d < |g.bags| && g.carrier[d] == Some(q)
          && (SecondMoves(g, p, q, x, y) ==> b < |g.bags| && g.carrier[b] == Some(p))
          && forall i, kind :: 0 <= i < |g.bags| ==> Exchanged(g, h, p, q, x, y, d, b, i, kind))
  }

  lemma TransferExchanges(s: State, allowed: bool, x: ItemId, y: ItemId) returns (d: nat, b: nat)
    requires Inv(s) && s.transfer.Some? && s.transfer.value.0 in s.players && s.transfer.value.1 in s.players
    requires s.players[s.transfer.value.0].item == Some(x) && s.players[s.transfer.value.1].item == Some(y)
    ensures var (p, q) := s.transfer.value;
            && Exchangeable(s.goods, p, q, x, y) && Swappable(s)
            && Moves(s.goods, Finish(s, allowed).goods, p, q, x, y, allowed, d, b)
  {
    TransferFrees(s, allowed);
    hide Moves, Exchange, Finish, Inv, Swappable;
    d, b := ExchangeMoves(s.goods, s.transfer.value.0, s.transfer.value.1, x, y, allowed);
  }

  lemma ExchangeMoves(g: Goods, p: Pid, q: Pid, x: ItemId, y: ItemId, allowed: bool) returns (d: nat, b: nat)
    requires Exchangeable(g, p, q, x, y)
    ensures Moves(g, Exchange(g, p, q, x, y, allowed).goods, p, q, x, y, allowed, d, b)
  {
    d, b := FirstTarget(g, q, x, y), SecondTarget(g, p, q, x, y);
    ExchangeMovesIff(g, p, q, x, y, allowed);
    hide Exchange, BothTested, TakesFirst, MakesRoom, StackLaws.Units, FirstTarget, SecondTarget, Exchanged;
    ExchangeUnits(g, p, q, x, y, allowed, g.at[x].bag, ThingOf(g, x).kind);
    forall i, kind | 0 <= i < |g.bags| && FirstMoves(g, p, q, x, y, allowed)
      ensures Exchanged(g, Exchange(g, p, q, x, y, allowed).goods, p, q, x, y, d, b, i, kind)
    {
      UnitsExchanged(g, p, q, x, y, allowed, i, kind);
    }
  }

  lemma UnitsExchanged(g: Goods, p: Pid, q: Pid, x: ItemId, y: ItemId, allowed: bool, i: nat, kind: StackRules.Kind)
    requires Exchangeable(g, p, q, x, y) && i < |g.bags| && FirstMoves(g, p, q, x, y, allowed)
    ensures |Exchange(g, p, q, x, y, allowed).goods.bags| == |g.bags|
    ensures Exchanged(g, Exchange(g, p, q, x, y, allowed).goods, p, q, x, y, FirstTarget(g, q, x, y),
                      SecondTarget(g, p, q, x, y), i, kind)
  {
    ExchangeMovesIff(g, p, q, x, y, allowed);
    ExchangeUnits(g, p, q, x, y, allowed, i, kind);
    hide Exchange, BothTested, TakesFirst, MakesRoom, StackLaws.Units, FirstTarget, SecondTarget, Gain;
  }

  // ----- Every transfer has been agreed to --------------------------------------------------

  /** The state after the first `n` steps. */
  ghost function After(s: State, es: seq<Event>, n: nat): State
    requires Runs(s, es) && n <= |es|
    decreases |es|
  {
    if n == 0 then s else After(Step(s, es[0]), es[1..], n - 1)
  }

  lemma {:induction false} AfterNext(s: State, es: seq<Event>, n: nat)
    requires Runs(s, es) && n < |es|
    ensures Enabled(After(s, es, n), es[n]) && After(s, es, n + 1) == Step(After(s, es, n), es[n])
    decreases |es|
  {
    if n > 0 {
      AfterNext(Step(s, es[0]), es[1..], n - 1);
    }
  }

  lemma {:induction false} AfterKeepsInv(s: State, es: seq<Event>, n: nat)
    requires Inv(s) && Runs(s, es) && n <= |es|
    ensures Inv(After(s, es, n))
    decreases |es|
  {
    hide Inv, Enabled, Step;
    if n > 0 {
      StepKeeps(s, es[0], StackRules.Kind(0, false, 1));
      AfterKeepsInv(Step(s, es[0]), es[1..], n - 1);
    }
  }

  ghost predicate Agreed(s: State, p: Pid) {
    p in s.players && (s.players[p].phase == Accepted || s.players[p].phase == Transferring)
  }

  ghost predicate Partners(s: State, p: Pid, q: Pid) {
    p in s.players && s.players[p].partner == Some(q)
  }

  /** Who has agreed has just accepted, within reach of the partner, or had agreed before; the partner is the same. */
  ghost predicate AgreesBy(s: State, e: Event, t: State, p: Pid, q: Pid) {
    Agreed(t, p) && Partners(t, p, q) ==>
      Partners(s, p, q) && (Agreed(s, p) || (e.DoAccept? && e.p == p && e.reachable))
  }

  lemma AgreedByRequest(s: State, a: Pid, b: Pid, x: ItemId, allowed: bool, p: Pid, q: Pid)
    requires Inv(s) && s.transfer.None?
    ensures AgreesBy(s, DoRequest(a, b, x, allowed), Request(s, a, b, x, allowed), p, q)
  {
    RequestStartsIff(s, a, b, x, allowed);
    hide Inv, Request, Heard;
  }

  lemma AgreedByAcceptance(s: State, a: Pid, reachable: bool, allowed: bool, p: Pid, q: Pid)
    requires Inv(s) && s.transfer.None?
    ensures AgreesBy(s, DoAccept(a, reachable, allowed), Accept(s, a, reachable, allowed), p, q)
  {
    TransferBeginsIff(s, a, reachable, allowed);
    hide Inv, Accept, NoneOnOffer;
  }

  lemma AgreedByAccepting(s: State, e: Event, p: Pid, q: Pid)
    requires Inv(s) && Enabled(s, e)
    ensures AgreesBy(s, e, Step(s, e), p, q)
  {
    match e
    case DoRequest(a, b, x, allowed) => AgreedByRequest(s, a, b, x, allowed, p, q);
    case DoAccept(a, reachable, allowed) => AgreedByAcceptance(s, a, reachable, allowed, p, q);
    case DoClose(a) =>
      ClosingFreesIff(s, a);
      hide Inv, Close, NoneOnOffer;
    case DoFinish(allowed) =>
      hide Exchange, Exchangeable, Ok;
      if s.transfer.Some? { TransferFrees(s, allowed); }
  }

  /** The player `p` has accepted in the first `n` steps, as a partner of `q`, and has been it ever since. */
  ghost predicate HasAccepted(s: State, es: seq<Event>, n: nat, p: Pid, q: Pid)
    requires Runs(s, es) && n <= |es|
  {
    exists i :: 0 <= i < n && es[i].DoAccept? && es[i].p == p && es[i].reachable
                && forall j :: i <= j <= n ==> Partners(After(s, es, j), p, q)
  }

  lemma {:induction false} AgreedHasAccepted(s: State, es: seq<Event>, n: nat, p: Pid, q: Pid)
    requires Inv(s) && Runs(s, es) && n <= |es| && !Agreed(s, p)
    requires Agreed(After(s, es, n), p) && Partners(After(s, es, n), p, q)
    ensures HasAccepted(s, es, n, p, q)
  {
    hide Inv, Enabled, Step, Agreed, Partners, After;
    AtFirst(s, es);
    if n > 0 {
      AfterKeepsInv(s, es, n - 1);
      AfterNext(s, es, n - 1);
      AgreedByAccepting(After(s, es, n - 1), es[n - 1], p, q);
      if Agreed(After(s, es, n - 1), p) {
        AgreedHasAccepted(s, es, n - 1, p, q);
      }
    }
  }

  lemma AtFirst(s: State, es: seq<Event>)
    requires Runs(s, es)
    ensures After(s, es, 0) == s
  {
  }

  /** Over any run, with closings called back in the middle of transfers: whenever two players' items are being
      moved, each of the two has accepted before, as the other's partner, and they have been partners ever since. */
  lemma TransferIsAgreed(s: State, es: seq<Event>, n: nat)
    requires Inv(s) && Runs(s, es) && n <= |es| && After(s, es, n).transfer.Some?
    requires forall p :: p in s.players ==> s.players[p].phase != Accepted && s.players[p].phase != Transferring
    ensures var (p, q) := After(s, es, n).transfer.value;
            HasAccepted(s, es, n, p, q) && HasAccepted(s, es, n, q, p)
  {
    AfterKeepsInv(s, es, n);
    var t := After(s, es, n);
    var (p, q) := t.transfer.value;
    assert TraderOk(t, p) && TraderOk(t, q);
    AgreedHasAccepted(s, es, n, p, q);
    AgreedHasAccepted(s, es, n, q, p);
  }
}
