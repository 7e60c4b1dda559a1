/** The auction's own bookkeeping: bids and transfers change the accounts and the houses in place. */
module Auctions {
  import opened Basics
  import opened AuctionRules

  class Auctions {
    var bank: seq<nat>
    var houses: seq<House>

    ghost function Now(): State
      reads this
    {
      State(bank, houses)
    }

    constructor (bank: seq<nat>, houses: seq<House>)
      ensures Now() == State(bank, houses)
    {
      this.bank, this.houses := bank, houses;
    }

    method CountBids(p: Pid) returns (count: nat)
      ensures count >= 1 <==> BidsSomewhere(houses, p)
    {
      count := 0;
      var i := 0;
      while i < |houses|
        invariant 0 <= i <= |houses|
        invariant count >= 1 <==> exists j :: 0 <= j < i && houses[j].bidder == Some(p)
      {
        if houses[i].bidder == Some(p) {
          count := count + 1;
        }
        i := i + 1;
      }
    }

    method ProcessBankAuction(p: Pid, k: nat, bid: nat, replace: bool) returns (ok: bool)
      requires p < |bank| && k < |houses| && Payable(houses[k], bid)
      modifies this`bank
      ensures var r := ProcessBank(old(bank), p, houses[k], bid, replace);
              if r.Some? then ok && bank == r.value else !ok && bank == old(bank)
    {
      var h := houses[k];
      if bid <= 0 {
        return false;
      }
      var balance := bank[p];
      if !replace && balance < h.rent + bid {
        return false;
      }
      if balance < bid {
        return false;
      }
      if replace {
        bank := bank[p := Minus64(bank[p], Minus64(bid, h.internalBid))];
      } else {
        bank := bank[p := Minus64(bank[p], h.rent + bid)];
      }
      if h.bidder != Some(p) && h.bidder.Some? && h.bidder.value < |bank| {
        var other := h.bidder.value;
        bank := bank[other := bank[other] + (h.bidHolderLimit + h.rent)];
      }
      return true;
    }

    /** The part of a bid behind the checks. */
    method TakeBid(p: Pid, k: nat, bid: nat) returns (ok: bool)
      requires p < |bank| && k < |houses| && Payable(houses[k], bid)
      modifies this
      ensures Now() == PlaceBid(old(Now()), p, k, bid)
    {
      var h := houses[k];
      if h.bidder.None? {
        ok := ProcessBankAuction(p, k, bid, false);
        if !ok {
          return;
        }
        houses := houses[k := h.(highestBid := 0, internalBid := bid, bidHolderLimit := bid, bidder := Some(p))];
      } else if h.bidder == Some(p) {
        ok := ProcessBankAuction(p, k, bid, true);
        if !ok {
          return;
        }
        houses := houses[k := h.(internalBid := bid, bidHolderLimit := bid)];
      } else if bid <= h.internalBid {
        houses := houses[k := h.(highestBid := bid)];
        ok := true;
      } else {
        ok := ProcessBankAuction(p, k, bid, false);
        if !ok {
          return;
        }
        houses := houses[k := h.(highestBid := h.internalBid + 1, internalBid := bid, bidHolderLimit := bid,
                                 bidder := Some(p))];
      }
    }

    method HouseBid(p: Pid, k: nat, bid: nat, withinLimit: bool)
      requires p < |bank| && k < |houses| && Payable(houses[k], bid)
      modifies this
      ensures Now() == Bid(old(Now()), p, k, bid, withinLimit)
    {
      if !withinLimit {
        return;
      }
      var bids := CountBids(p);
      if bids >= 1 {
        return;
      }
      var ok := TakeBid(p, k, bid);
    }

    method HouseTransfer(p: Pid, k: nat, newOwner: Pid, bid: nat, allowed: bool)
      requires k < |houses|
      modifies this`houses
      ensures Now() == StartTransfer(old(Now()), p, k, newOwner, bid, allowed)
    {
      var h := houses[k];
      if h.state != Rented || !allowed || h.owner != Some(p) || p == newOwner {
        return;
      }
      houses := houses[k := h.(bidder := Some(newOwner), internalBid := bid, state := Transfer)];
    }

    /** The money comes back to the bidder if it was paid, and the house stays with its owner. */
    method CloseTransfer(k: nat)
      requires k < |houses|
      modifies this
      ensures Now() == EndTransfer(old(Now()), k)
    {
      var h := houses[k];
      if h.transferStatus && h.bidder.Some? && h.bidder.value < |bank| {
        var newOwner := h.bidder.value;
        bank := bank[newOwner := bank[newOwner] + (h.internalBid + h.rent)];
      }
      houses := houses[k := h.(bidder := None, internalBid := 0, state := Rented, transferStatus := false)];
    }

    method HouseCancelTransfer(p: Pid, k: nat)
      requires k < |houses|
      modifies this
      ensures Now() == CancelTransfer(old(Now()), p, k)
    {
      if houses[k].state != Transfer || houses[k].owner != Some(p) {
        return;
      }
      CloseTransfer(k);
    }

    method HouseRejectTransfer(p: Pid, k: nat)
      requires k < |houses|
      modifies this
      ensures Now() == RejectTransfer(old(Now()), p, k)
    {
      if houses[k].bidder != Some(p) || houses[k].state != Transfer {
        return;
      }
      CloseTransfer(k);
    }

    method HouseAcceptTransfer(p: Pid, k: nat, allowed: bool)
      requires p < |bank| && k < |houses| && Payable(houses[k], houses[k].internalBid)
      modifies this
      ensures Now() == AcceptTransfer(old(Now()), p, k, allowed)
    {
      var h := houses[k];
      if h.state != Transfer || !allowed || h.bidder != Some(p) {
        return;
      }
      if bank[p] < h.rent + h.internalBid || h.transferStatus {
        return;
      }
      var ok := ProcessBankAuction(p, k, h.internalBid, false);
      if !ok {
        return;
      }
      houses := houses[k := h.(transferStatus := true)];
    }

    method HouseMoveOut(p: Pid, k: nat)
      requires k < |houses|
      modifies this`houses
      ensures Now() == StartMoveOut(old(Now()), p, k)
    {
      if houses[k].state == Rented && houses[k].owner == Some(p) {
        houses := houses[k := houses[k].(state := MoveOut)];
      }
    }

    method HouseCancelMoveOut(p: Pid, k: nat)
      requires k < |houses|
      modifies this`houses
      ensures Now() == CancelMoveOut(old(Now()), p, k)
    {
      if houses[k].state == MoveOut && houses[k].owner == Some(p) {
        houses := houses[k := houses[k].(state := Rented)];
      }
    }
  }
}
