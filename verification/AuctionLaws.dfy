/** What the steps of an auction make of a house: who leads and at what price, over any run of bids, and
    that an offer of the house to a new owner leaves nothing behind when it comes to nothing. */
module AuctionLaws {
  import opened Basics
  import opened AuctionRules

  // ----- One bid ----------------------------------------------------------------------------

  /** The bidder may bid, leads nowhere, and either the bid is no higher than the leader's limit or it is paid. */
  predicate Noticed(s: State, p: Pid, k: nat, bid: nat, withinLimit: bool)
    requires p < |s.bank| && k < |s.houses|
  {
    var h := s.houses[k];
    && withinLimit && (forall i :: 0 <= i < |s.houses| ==> s.houses[i].bidder != Some(p))
    && ((h.bidder.Some? && bid <= h.internalBid) || (bid > 0 && s.bank[p] >= h.rent + bid))
  }

  /** A bid that is noticed and higher than the leader's limit takes the lead, at a price of one more than that
      limit, or of nothing when it is the first; bid and rent are paid, and the former leader has his back.  Any
      other bid that is noticed becomes the price, and only that.  Nothing else ever changes. */
  lemma BidTakesLeadIff(s: State, p: Pid, k: nat, bid: nat, withinLimit: bool)
    requires p < |s.bank| && k < |s.houses| && Payable(s.houses[k], bid)
    ensures var t := Bid(s, p, k, bid, withinLimit); var h, h' := s.houses[k], t.houses[k];
            var leads := Noticed(s, p, k, bid, withinLimit) && (h.bidder.None? || h.internalBid < bid);
            && (h'.bidder == Some(p) && h.bidder != Some(p) <==> leads)
            && (leads ==>
                  && h'.highestBid == (if h.bidder.None? then 0 else h.internalBid + 1)
                  && h'.internalBid == bid == h'.bidHolderLimit
                  && |t.bank| == |s.bank| && t.bank[p] == s.bank[p] - h.rent - bid
                  && forall q :: 0 <= q < |s.bank| && q != p ==>
                       t.bank[q] == s.bank[q] + if h.bidder == Some(q) then h.bidHolderLimit + h.rent else 0)
            && (!leads ==>
                  && h'.highestBid == (if Noticed(s, p, k, bid, withinLimit) then bid else h.highestBid)
                  && h'.bidder == h.bidder && h'.internalBid == h.internalBid && h'.bidHolderLimit == h.bidHolderLimit
                  && t.bank == s.bank)
            && h'.state == h.state && h'.owner == h.owner && h'.rent == h.rent && h'.transferStatus == h.transferStatus
            && t.houses == s.houses[k := h']
  {
    if Noticed(s, p, k, bid, withinLimit) || s.houses[k].bidder == Some(p) {
      assert s.houses[k].bidder == Some(p) ==> BidsSomewhere(s.houses, p);
    }
    assert s.houses[k := s.houses[k]] == s.houses;
  }

  // ----- Every run of bids ------------------------------------------------------------------

  datatype Offer = Offer(p: Pid, bid: nat)

  /** The bids on the house that are noticed in a run, in order. */
  function Offers(s: State, actions: seq<Action>, k: nat): seq<Offer>
    requires Runs(s, actions)
    decreases |actions|
  {
    if actions == [] then []
    else
      var a := actions[0];
      (if a.DoBid? && a.k == k && Noticed(s, a.p, k, a.bid, a.ok) then [Offer(a.p, a.bid)] else [])
      + Offers(Step(s, a), actions[1..], k)
  }

  /** The first of the highest bids. */
  predicate Wins(bids: seq<Offer>, i: nat) {
    && i < |bids|
    && (forall j :: 0 <= j < i ==> bids[j].bid < bids[i].bid)
    && (forall j :: i < j < |bids| ==> bids[j].bid <= bids[i].bid)
  }

  /** The second highest of the bids up to the winning one `i`. */
  predicate IsSecond(bids: seq<Offer>, i: nat, second: nat)
    requires i < |bids|
  {
    && (forall j :: 0 <= j < i ==> bids[j].bid <= second)
    && exists j :: 0 <= j < i && bids[j].bid == second
  }

  /** The price of the winning bid `i`: the last bid behind it, or when there is none one more than the second
      highest, or nothing when it is the only one. */
  predicate IsPrice(bids: seq<Offer>, i: nat, price: nat)
    requires i < |bids|
  {
    if i < |bids| - 1 then price == bids[|bids| - 1].bid
    else if i == 0 then price == 0
    else price > 0 && IsSecond(bids, i, price - 1)
  }

  /** What bids make of a house that had no bidder: the winner leads with his bid, at its price. */
  predicate LedBy(h: House, bids: seq<Offer>, i: nat) {
    && Wins(bids, i)
    && h.bidder == Some(bids[i].p) && h.internalBid == bids[i].bid == h.bidHolderLimit
    && IsPrice(bids, i, h.highestBid)
  }

  lemma OneMoreBid(s: State, k: nat, a: Action, bids: seq<Offer>, i: nat) returns (w: nat)
    requires Enabled(s, a) && a.DoBid? && a.k == k && Noticed(s, a.p, k, a.bid, a.ok)
    requires if bids == [] then s.houses[k].bidder.None? else LedBy(s.houses[k], bids, i)
    ensures LedBy(Step(s, a).houses[k], bids + [Offer(a.p, a.bid)], w)
  {
    BidTakesLeadIff(s, a.p, k, a.bid, a.ok);
    hide Bid, Noticed;
    var more := bids + [Offer(a.p, a.bid)];
    if bids == [] || bids[i].bid < a.bid {
      w := |bids|;
      assert forall j :: 0 <= j < |bids| ==> more[j] == bids[j];
      if bids != [] {
        assert more[i].bid == bids[i].bid;
      }
    } else {
      w := i;
    }
  }

  /** Nothing but bids and moving out happens to the house. */
  predicate OnlyBids(actions: seq<Action>, k: nat) {
    forall j :: 0 <= j < |actions| && actions[j].k == k ==>
      actions[j].DoBid? || actions[j].DoStartMoveOut? || actions[j].DoCancelMoveOut?
  }

  /** What is not a bid that is noticed leaves leader and price alone. */
  lemma OtherActions(s: State, k: nat, a: Action)
    requires Enabled(s, a) && k < |s.houses|
    requires a.k == k ==> a.DoBid? || a.DoStartMoveOut? || a.DoCancelMoveOut?
    requires !(a.DoBid? && a.k == k && Noticed(s, a.p, k, a.bid, a.ok))
    ensures var t := Step(s, a);
            |t.houses| == |s.houses| && t.houses[k] == s.houses[k].(state := t.houses[k].state)
  {
    if a.DoBid? {
      BidTakesLeadIff(s, a.p, a.k, a.bid, a.ok);
      hide Bid, Noticed;
    }
  }

  lemma {:induction false} RunOfBids(s: State, actions: seq<Action>, k: nat, before: seq<Offer>, i: nat)
    returns (w: nat)
    requires Runs(s, actions) && k < |s.houses| && OnlyBids(actions, k)
    requires if before == [] then s.houses[k].bidder.None? else LedBy(s.houses[k], before, i)
    ensures |Run(s, actions).houses| == |s.houses|
    ensures var bids := before + Offers(s, actions, k); var h := Run(s, actions).houses[k];
            if bids == [] then h.bidder.None? else LedBy(h, bids, w)
    decreases |actions|
  {
    hide Noticed, LedBy, Step;
    w := i;
    if actions == [] {
      assert before + Offers(s, actions, k) == before;
    } else {
      var a, t := actions[0], Step(s, actions[0]);
      assert OnlyBids(actions[1..], k);
      if a.DoBid? && a.k == k && Noticed(s, a.p, k, a.bid, a.ok) {
        var first := [Offer(a.p, a.bid)];
        w := OneMoreBid(s, k, a, before, i);
        KeepsHouses(s, a);
        w := RunOfBids(t, actions[1..], k, before + first, w);
        assert before + first + Offers(t, actions[1..], k) == before + (first + Offers(t, actions[1..], k));
      } else {
        OtherActions(s, k, a);
        StaysLed(s.houses[k], t.houses[k], before, i);
        w := RunOfBids(t, actions[1..], k, before, i);
        assert [] + Offers(t, actions[1..], k) == Offers(t, actions[1..], k);
      }
    }
  }

  lemma KeepsHouses(s: State, a: Action)
    requires Enabled(s, a)
    ensures |Step(s, a).houses| == |s.houses|
  {
  }

  lemma StaysLed(h: House, h': House, bids: seq<Offer>, i: nat)
    requires h' == h.(state := h'.state)
    ensures LedBy(h, bids, i) ==> LedBy(h', bids, i)
  {
  }

  // ----- What the winner pays ---------------------------------------------------------------

  /** What the winner of an auction is given back when it ends. */
  function Refund(h: House): nat {
    if h.highestBid < h.internalBid then h.internalBid - h.highestBid else 0
  }

  lemma LeaderGetsBack(h: House, bids: seq<Offer>, w: nat)
    requires LedBy(h, bids, w)
    ensures Wins(bids, w) && h.bidder == Some(bids[w].p)
    ensures Refund(h) <= bids[w].bid && IsPrice(bids, w, bids[w].bid - Refund(h))
  {
    assert h.highestBid <= h.internalBid;
  }

  /** Over any run of bids on a house without a bidder, the first of the highest bids wins; what the winner gets
      back is the bid less the last bid behind it, or when there is none less one more than the second highest,
      or all of it when nobody else has bid. */
  lemma WinnerGetsBack(s: State, actions: seq<Action>, k: nat) returns (w: nat)
    requires Runs(s, actions) && k < |s.houses| && OnlyBids(actions, k) && s.houses[k].bidder.None?
    ensures |Run(s, actions).houses| == |s.houses|
    ensures var bids := Offers(s, actions, k); var h := Run(s, actions).houses[k];
            && (bids == [] ==> h.bidder == None)
            && (bids != [] ==>
                  && Wins(bids, w) && h.bidder == Some(bids[w].p)
                  && Refund(h) <= bids[w].bid && IsPrice(bids, w, bids[w].bid - Refund(h)))
  {
    hide Run, Offers, Wins, LedBy, IsPrice, Runs, OnlyBids, Refund;
    w := RunOfBids(s, actions, k, [], 0);
    var bids, h := Offers(s, actions, k), Run(s, actions).houses[k];
    assert [] + bids == bids;
    if bids != [] {
      LeaderGetsBack(h, bids, w);
    }
  }

  /** So the winner pays at least what everyone else has bid exactly if nobody bids after the winner, or the
      last to do so bids as much as anyone else. */
  lemma WinnerPaysTheOthersIff(s: State, actions: seq<Action>, k: nat) returns (w: nat)
    requires Runs(s, actions) && k < |s.houses| && OnlyBids(actions, k) && s.houses[k].bidder.None?
    requires Offers(s, actions, k) != []
    ensures |Run(s, actions).houses| == |s.houses|
    ensures var bids := Offers(s, actions, k); var last := |bids| - 1;
            var back := Refund(Run(s, actions).houses[k]);
            && Wins(bids, w) && back <= bids[w].bid
            && ((forall j :: 0 <= j < |bids| && j != w ==> bids[j].bid <= bids[w].bid - back)
                <==> w == last || forall j :: 0 <= j < |bids| && j != w ==> bids[j].bid <= bids[last].bid)
  {
    hide Run, Offers, Runs, OnlyBids, Refund;
    w := WinnerGetsBack(s, actions, k);
  }

  /** A house that is up for auction; three players with a thousand gold each. */
  function AuctionHouse(): State {
    State([1000, 1000, 1000], [House(Available, None, 10, None, 0, 0, 0, false)])
  }

  /** Bids of 100, 500 and 50: the second bidder leads at 101, and the third pulls the price down to 50. */
  lemma APulledDownPrice()
    ensures var s := AuctionHouse();
            var t := Bid(Bid(s, 0, 0, 100, true), 1, 0, 500, true); var u := Bid(t, 2, 0, 50, true);
            && t.houses == [House(Available, None, 10, Some(1), 101, 500, 500, false)] && t.bank == [1000, 490, 1000]
            && Refund(t.houses[0]) == 399
            && u.houses == [House(Available, None, 10, Some(1), 50, 500, 500, false)] && u.bank == t.bank
            && Refund(u.houses[0]) == 450
  {
  }

  // ----- Handing a house over ---------------------------------------------------------------

  /** The owner of a let house, and nobody else, can offer it to another player at a price; nothing else changes. */
  lemma OfferIff(s: State, p: Pid, k: nat, newOwner: Pid, bid: nat, allowed: bool)
    requires k < |s.houses|
    ensures var t := StartTransfer(s, p, k, newOwner, bid, allowed); var h := s.houses[k];
            t == if h.state == Rented && h.owner == Some(p) && p != newOwner && allowed
                 then s.(houses := s.houses[k := House(Transfer, Some(p), h.rent, Some(newOwner), h.highestBid, bid,
                                                       h.bidHolderLimit, h.transferStatus)])
                 else s
  {
  }

  /** The buyer, and nobody else, accepts, once, by paying price and rent; nobody is credited. */
  lemma AcceptanceIff(s: State, p: Pid, k: nat, allowed: bool)
    requires p < |s.bank| && k < |s.houses| && Payable(s.houses[k], s.houses[k].internalBid)
    ensures var t := AcceptTransfer(s, p, k, allowed); var h := s.houses[k];
            && (t != s <==> && h.state == Transfer && h.bidder == Some(p) && !h.transferStatus && allowed
                            && h.internalBid > 0 && h.rent + h.internalBid <= s.bank[p])
            && (t != s ==> && t.houses == s.houses[k := h.(transferStatus := true)]
                           && t.bank == s.bank[p := s.bank[p] - h.rent - h.internalBid])
  {
    var t := AcceptTransfer(s, p, k, allowed);
    assert t == s || (t.houses[k].transferStatus && !s.houses[k].transferStatus);
  }

  /** The owner, or the buyer, can end the handover, and nobody else. */
  lemma EndsIff(s: State, p: Pid, k: nat)
    requires k < |s.houses| && s.houses[k].state == Transfer
    ensures CancelTransfer(s, p, k) != s <==> s.houses[k].owner == Some(p)
    ensures RejectTransfer(s, p, k) != s <==> s.houses[k].bidder == Some(p)
  {
    assert EndTransfer(s, k).houses[k].state == Rented;
  }

  /** A house without a bidder is offered, perhaps accepted, and then the owner withdraws or the buyer declines:
      all accounts are as they were, and so is the house, let to its owner, but for the price, which is none. */
  lemma HandoverUndone(s: State, p: Pid, k: nat, newOwner: Pid, bid: nat, accepts: bool, withdraws: bool)
    requires k < |s.houses| && newOwner < |s.bank| && Offered(s, p, k, newOwner, true)
    requires s.houses[k].bidder.None? && !s.houses[k].transferStatus && s.houses[k].rent + bid < U64 && bid < U64
    ensures var h := s.houses[k]; var t := StartTransfer(s, p, k, newOwner, bid, true);
            var u := if accepts then AcceptTransfer(t, newOwner, k, true) else t;
            var v := if withdraws then CancelTransfer(u, p, k) else RejectTransfer(u, newOwner, k);
            v.bank == s.bank && v.houses == s.houses[k := h.(internalBid := 0)]
  {
    var t := StartTransfer(s, p, k, newOwner, bid, true);
    AcceptanceIff(t, newOwner, k, true);
    var u := if accepts then AcceptTransfer(t, newOwner, k, true) else t;
    var h := s.houses[k];
    assert u.houses[k] == h.(state := Transfer, bidder := Some(newOwner), internalBid := bid,
                             transferStatus := u.houses[k].transferStatus);
    hide AcceptTransfer;
    assert u.houses == s.houses[k := u.houses[k]];
    var v := EndTransfer(u, k);
    assert v.houses[k] == h.(internalBid := 0);
    assert v.bank == s.bank;
  }

  /** The owner can begin to move out of a let house, and take that back; nothing else changes. */
  lemma MoveOutIff(s: State, p: Pid, k: nat)
    requires k < |s.houses|
    ensures var t := StartMoveOut(s, p, k);
            && t.bank == s.bank && t.houses == s.houses[k := s.houses[k].(state := t.houses[k].state)]
            && (t.houses[k].state == MoveOut && s.houses[k].state != MoveOut
                <==> s.houses[k].state == Rented && s.houses[k].owner == Some(p))
            && (t.houses[k].state != MoveOut ==> t.houses[k].state == s.houses[k].state)
    ensures var t := CancelMoveOut(s, p, k);
            && t.bank == s.bank && t.houses == s.houses[k := s.houses[k].(state := t.houses[k].state)]
            && (t.houses[k].state == Rented && s.houses[k].state != Rented
                <==> s.houses[k].state == MoveOut && s.houses[k].owner == Some(p))
            && (t.houses[k].state != Rented ==> t.houses[k].state == s.houses[k].state)
    ensures s.houses[k].state == Rented ==> CancelMoveOut(StartMoveOut(s, p, k), p, k) == s
  {
    assert s.houses[k := s.houses[k]] == s.houses;
  }
}
