/** House auctions and house transfers: each step on the bank accounts and the houses, and that
    no step makes or loses anyone's money. */
module AuctionRules {
  import opened Basics
  import opened Sequences

  type Pid = nat

  const U64 := 0x1_0000_0000_0000_0000

  datatype HouseState = Available | Rented | Transfer | MoveOut

  /** The bidder is known by name; None stands for the empty name. */
  datatype House = House(
    state: HouseState, owner: Option<Pid>, rent: nat, bidder: Option<Pid>,
    highestBid: nat, internalBid: nat, bidHolderLimit: nat, transferStatus: bool)

  datatype State = State(bank: seq<nat>, houses: seq<House>)

  // ----- Money ------------------------------------------------------------------------------

  /** Unsigned 64-bit subtraction. */
  function Minus64(a: nat, b: nat): nat
    requires b < U64
  {
    if b <= a then a - b else a + U64 - b
  }

  /** The money that a house holds for its bidder: what the bidder gets back when someone bids more or,
      from the new owner of a house that changes hands, when that comes to nothing. */
  function Escrow(h: House): nat {
    if h.bidder.None? then 0
    else if h.state != Transfer then h.bidHolderLimit + h.rent
    else if h.transferStatus then h.internalBid + h.rent
    else 0
  }

  function EscrowFor(h: House, p: Pid): nat {
    if h.bidder == Some(p) then Escrow(h) else 0
  }

  ghost function EscrowOf(p: Pid): House -> nat {
    (h: House) => EscrowFor(h, p)
  }

  ghost function HeldFor(houses: seq<House>, p: Pid): nat {
    Total(houses, EscrowOf(p))
  }

  function Account(bank: seq<nat>, p: Pid): nat {
    if p < |bank| then bank[p] else 0
  }

  /** What a player has in the bank and in all houses together. */
  ghost function Wealth(s: State, p: Pid): nat {
    Account(s.bank, p) + HeldFor(s.houses, p)
  }

  lemma HeldForUpdate(houses: seq<House>, k: nat, h: House, p: Pid)
    requires k < |houses|
    ensures HeldFor(houses[k := h], p) + EscrowFor(houses[k], p) == HeldFor(houses, p) + EscrowFor(h, p)
    ensures HeldFor(houses, p) >= EscrowFor(houses[k], p)
  {
    TotalUpdate(houses, k, h, EscrowOf(p));
    TotalUpdate(houses, k, House(MoveOut, None, 0, None, 0, 0, 0, false), EscrowOf(p));
  }

  // ----- The steps --------------------------------------------------------------------------

  /** Credits the named player; the empty name gets nothing. */
  function Credit(bank: seq<nat>, name: Option<Pid>, amount: nat): seq<nat> {
    if name.Some? && name.value < |bank| then bank[name.value := bank[name.value] + amount] else bank
  }

  /** Takes the money for a bid and gives the former bidder's back; None when there is too little. */
  function ProcessBank(bank: seq<nat>, p: Pid, h: House, bid: nat, replace: bool): Option<seq<nat>>
    requires p < |bank| && bid < U64 && h.internalBid < U64 && h.rent + bid < U64
  {
    if bid == 0 then None
    else if !replace && bank[p] < h.rent + bid then None
    else if bank[p] < bid then None
    else
      var charged := bank[p := if replace then Minus64(bank[p], Minus64(bid, h.internalBid))
                               else Minus64(bank[p], h.rent + bid)];
      Some(if h.bidder != Some(p) then Credit(charged, h.bidder, h.bidHolderLimit + h.rent) else charged)
  }

  /** The house takes a bid that leads. */
  function Lead(h: House, p: Pid, bid: nat, highestBid: nat): House {
    h.(highestBid := highestBid, internalBid := bid, bidHolderLimit := bid, bidder := Some(p))
  }

  /** A bid, once the bidder's other bids have been checked. */
  function PlaceBid(s: State, p: Pid, k: nat, bid: nat): State
    requires p < |s.bank| && k < |s.houses| && Payable(s.houses[k], bid)
  {
    var h := s.houses[k];
    if h.bidder.None? then
      match ProcessBank(s.bank, p, h, bid, false)
      case None => s
      case Some(bank) => State(bank, s.houses[k := Lead(h, p, bid, 0)])
    else if h.bidder == Some(p) then
      match ProcessBank(s.bank, p, h, bid, true)
      case None => s
      case Some(bank) => State(bank, s.houses[k := h.(internalBid := bid, bidHolderLimit := bid)])
    else if bid <= h.internalBid then
      s.(houses := s.houses[k := h.(highestBid := bid)])
    else
      match ProcessBank(s.bank, p, h, bid, false)
      case None => s
      case Some(bank) => State(bank, s.houses[k := Lead(h, p, bid, h.internalBid + 1)])
  }

  /** 64-bit sums of the house's rent and the bid do not wrap around. */
  predicate Payable(h: House, bid: nat) {
    h.rent + bid < U64 && h.internalBid < U64
  }

  predicate BidsSomewhere(houses: seq<House>, p: Pid) {
    exists i :: 0 <= i < |houses| && houses[i].bidder == Some(p)
  }

  /** `withinLimit`: the player's account may still own or bid on another house. */
  function Bid(s: State, p: Pid, k: nat, bid: nat, withinLimit: bool): State
    requires p < |s.bank| && k < |s.houses| && Payable(s.houses[k], bid)
  {
    if !withinLimit || BidsSomewhere(s.houses, p) then s else PlaceBid(s, p, k, bid)
  }

  /** `allowed`: the checks on vocation, premium time and limits that the accounts make. */
  function StartTransfer(s: State, p: Pid, k: nat, newOwner: Pid, bid: nat, allowed: bool): State
    requires k < |s.houses|
  {
    var h := s.houses[k];
    if h.state != Rented || !allowed || h.owner != Some(p) || p == newOwner then s
    else s.(houses := s.houses[k := h.(bidder := Some(newOwner), internalBid := bid, state := Transfer)])
  }

  function EndTransfer(s: State, k: nat): State
    requires k < |s.houses|
  {
    var h := s.houses[k];
    var bank := if h.transferStatus then Credit(s.bank, h.bidder, h.internalBid + h.rent) else s.bank;
    State(bank, s.houses[k := h.(bidder := None, internalBid := 0, state := Rented, transferStatus := false)])
  }

  function CancelTransfer(s: State, p: Pid, k: nat): State
    requires k < |s.houses|
  {
    if s.houses[k].state != Transfer || s.houses[k].owner != Some(p) then s else EndTransfer(s, k)
  }

  function RejectTransfer(s: State, p: Pid, k: nat): State
    requires k < |s.houses|
  {
    if s.houses[k].state != Transfer || s.houses[k].bidder != Some(p) then s else EndTransfer(s, k)
  }

  function AcceptTransfer(s: State, p: Pid, k: nat, allowed: bool): State
    requires p < |s.bank| && k < |s.houses| && Payable(s.houses[k], s.houses[k].internalBid)
  {
    var h := s.houses[k];
    if h.state != Transfer || !allowed || h.bidder != Some(p) || s.bank[p] < h.rent + h.internalBid
       || h.transferStatus
    then s
    else match ProcessBank(s.bank, p, h, h.internalBid, false)
      case None => s
      case Some(bank) => State(bank, s.houses[k := h.(transferStatus := true)])
  }

  function StartMoveOut(s: State, p: Pid, k: nat): State
    requires k < |s.houses|
  {
    if s.houses[k].state != Rented || s.houses[k].owner != Some(p) then s
    else s.(houses := s.houses[k := s.houses[k].(state := MoveOut)])
  }

  function CancelMoveOut(s: State, p: Pid, k: nat): State
    requires k < |s.houses|
  {
    if s.houses[k].state != MoveOut || s.houses[k].owner != Some(p) then s
    else s.(houses := s.houses[k := s.houses[k].(state := Rented)])
  }

  // ----- What every house keeps -------------------------------------------------------------

  ghost predicate HouseOk(h: House, players: nat) {
    && (h.bidder.Some? ==> h.bidder.value < players)
    && (h.state == Transfer ==> h.bidder.Some?)
    && (h.transferStatus ==> h.state == Transfer)
    && (h.state != Transfer && h.bidder.Some? ==>
          0 < h.internalBid == h.bidHolderLimit && h.highestBid <= h.internalBid)
    && h.internalBid < U64
  }

  /** Every house is in order and nobody's money exceeds 64 bits. */
  ghost predicate Inv(s: State) {
    && (forall k :: 0 <= k < |s.houses| ==> HouseOk(s.houses[k], |s.bank|))
    && forall p :: Wealth(s, p) < U64
  }

  /** Nobody's wealth differs. */
  ghost predicate SameWealth(s: State, t: State) {
    forall p :: Wealth(s, p) == Wealth(t, p)
  }

  /** One house and the accounts differ: wealth is the same if each account changes by what the
      house holds less for that player. */
  lemma SameWealthBy(s: State, k: nat, h: House, bank: seq<nat>)
    requires k < |s.houses|
    requires forall p :: Account(bank, p) + EscrowFor(h, p) == Account(s.bank, p) + EscrowFor(s.houses[k], p)
    ensures SameWealth(s, State(bank, s.houses[k := h]))
  {
    forall p ensures Wealth(s, p) == Wealth(State(bank, s.houses[k := h]), p) {
      HeldForUpdate(s.houses, k, h, p);
    }
  }

  /** What a player has in one house and in the bank fits 64 bits. */
  lemma HouseFits(s: State, k: nat, p: Pid)
    requires Inv(s) && k < |s.houses|
    ensures Account(s.bank, p) + EscrowFor(s.houses[k], p) < U64
  {
    HeldForUpdate(s.houses, k, s.houses[k], p);
    assert Wealth(s, p) < U64;
  }

  /** A bid that is charged, from a new bidder: the bidder pays bid and rent, the former bidder gets his back. */
  lemma ChargeMovesMoney(s: State, p: Pid, k: nat, bid: nat, q: Pid)
    requires Inv(s) && p < |s.bank| && k < |s.houses| && Payable(s.houses[k], bid)
    requires s.houses[k].bidder != Some(p)
    requires ProcessBank(s.bank, p, s.houses[k], bid, false).Some?
    ensures var h := s.houses[k]; var bank := ProcessBank(s.bank, p, h, bid, false).value;
            && |bank| == |s.bank| && bid > 0
            && Account(bank, q) + (if q == p then h.rent + bid else 0)
               == Account(s.bank, q) + if h.bidder == Some(q) then h.bidHolderLimit + h.rent else 0
  {
    assert HouseOk(s.houses[k], |s.bank|);
    HouseFits(s, k, p);
  }

  /** A bidder who raises or lowers his own bid pays or gets back exactly the difference. */
  lemma ReplaceMovesMoney(s: State, p: Pid, k: nat, bid: nat, q: Pid)
    requires Inv(s) && p < |s.bank| && k < |s.houses| && Payable(s.houses[k], bid)
    requires s.houses[k].bidder == Some(p) && s.houses[k].state != Transfer
    requires ProcessBank(s.bank, p, s.houses[k], bid, true).Some?
    ensures var h := s.houses[k]; var bank := ProcessBank(s.bank, p, h, bid, true).value;
            && |bank| == |s.bank| && bid > 0
            && Account(bank, q) + (if q == p then bid else 0)
               == Account(s.bank, q) + if q == p then h.internalBid else 0
  {
    assert HouseOk(s.houses[k], |s.bank|);
    HouseFits(s, k, p);
  }

  /** Unless the house is changing hands no bid makes or loses anyone's money, whatever branch it takes. */
  lemma PlaceBidKeepsWealth(s: State, p: Pid, k: nat, bid: nat)
    requires Inv(s) && p < |s.bank| && k < |s.houses| && Payable(s.houses[k], bid)
    requires s.houses[k].state != Transfer
    ensures SameWealth(s, PlaceBid(s, p, k, bid))
  {
    var h := s.houses[k];
    assert HouseOk(h, |s.bank|);
    if h.bidder == Some(p) {
      if ProcessBank(s.bank, p, h, bid, true).Some? {
        forall q { ReplaceMovesMoney(s, p, k, bid, q); }
        SameWealthBy(s, k, h.(internalBid := bid, bidHolderLimit := bid), ProcessBank(s.bank, p, h, bid, true).value);
      }
    } else if h.bidder.Some? && bid <= h.internalBid {
      SameWealthBy(s, k, h.(highestBid := bid), s.bank);
    } else if ProcessBank(s.bank, p, h, bid, false).Some? {
      forall q { ChargeMovesMoney(s, p, k, bid, q); }
      var highest := if h.bidder.None? then 0 else h.internalBid + 1;
      SameWealthBy(s, k, Lead(h, p, bid, highest), ProcessBank(s.bank, p, h, bid, false).value);
    }
  }

  /** The bid is accepted and paid. */
  predicate Charged(s: State, p: Pid, k: nat, bid: nat)
    requires p < |s.bank| && k < |s.houses|
  {
    var h := s.houses[k];
    (h.bidder.None? || bid > h.internalBid) && bid > 0 && s.bank[p] >= h.rent + bid
  }

  /** The program does not ask whether the house is up for auction.  A bid by anyone but the leader
      leaves all money where it belongs exactly if the house is not changing hands, or nothing is charged,
      or the new owner has paid and the price equals a bid limit left from before. */
  lemma BidKeepsWealthIff(s: State, p: Pid, k: nat, bid: nat)
    requires Inv(s) && p < |s.bank| && k < |s.houses| && Payable(s.houses[k], bid)
    requires s.houses[k].bidder != Some(p)
    ensures SameWealth(s, PlaceBid(s, p, k, bid)) <==> FairBid(s, p, k, bid)
  {
    var h, t := s.houses[k], PlaceBid(s, p, k, bid);
    assert HouseOk(h, |s.bank|);
    if h.state != Transfer {
      PlaceBidKeepsWealth(s, p, k, bid);
    } else if !Charged(s, p, k, bid) {
      SameWealthBy(s, k, t.houses[k], s.bank);
    } else {
      ChargeMovesMoney(s, p, k, bid, p);
      HeldForUpdate(s.houses, k, t.houses[k], p);
      if h.transferStatus {
        var former := h.bidder.value;
        ChargeMovesMoney(s, p, k, bid, former);
        HeldForUpdate(s.houses, k, t.houses[k], former);
        if h.bidHolderLimit == h.internalBid {
          forall q { ChargeMovesMoney(s, p, k, bid, q); }
          SameWealthBy(s, k, t.houses[k], t.bank);
        } else {
          assert Wealth(s, former) != Wealth(t, former);
        }
      } else {
        assert Wealth(s, p) != Wealth(t, p);
      }
    }
  }

  predicate FairBid(s: State, p: Pid, k: nat, bid: nat)
    requires p < |s.bank| && k < |s.houses|
  {
    var h := s.houses[k];
    h.state != Transfer || !Charged(s, p, k, bid) || (h.transferStatus && h.bidHolderLimit == h.internalBid)
  }

  /** The offer to hand the house over is made. */
  predicate Offered(s: State, p: Pid, k: nat, newOwner: Pid, allowed: bool)
    requires k < |s.houses|
  {
    s.houses[k].state == Rented && allowed && s.houses[k].owner == Some(p) && p != newOwner
  }

  /** Offering a house to a new owner puts the name over that of the bidder, without giving the bidder's
      money back: nobody loses any exactly if there is no bid on the house. */
  lemma StartTransferKeepsWealthIff(s: State, p: Pid, k: nat, newOwner: Pid, bid: nat, allowed: bool)
    requires Inv(s) && k < |s.houses|
    ensures SameWealth(s, StartTransfer(s, p, k, newOwner, bid, allowed))
            <==> !Offered(s, p, k, newOwner, allowed) || s.houses[k].bidder.None?
  {
    var h, t := s.houses[k], StartTransfer(s, p, k, newOwner, bid, allowed);
    assert HouseOk(h, |s.bank|);
    if !Offered(s, p, k, newOwner, allowed) {
    } else if h.bidder.None? {
      SameWealthBy(s, k, t.houses[k], s.bank);
    } else {
      HeldForUpdate(s.houses, k, t.houses[k], h.bidder.value);
      assert Wealth(s, h.bidder.value) != Wealth(t, h.bidder.value);
    }
  }

  /** That money does not come back: when the offer is withdrawn no account has changed and the house holds
      nothing, also where the bidder was to be the new owner. */
  lemma OverwrittenBidIsGone(s: State, p: Pid, k: nat, newOwner: Pid, bid: nat)
    requires Inv(s) && k < |s.houses| && Offered(s, p, k, newOwner, true) && s.houses[k].bidder.Some?
    ensures var t := CancelTransfer(StartTransfer(s, p, k, newOwner, bid, true), p, k);
            var h, b := s.houses[k], s.houses[k].bidder.value;
            && t.bank == s.bank && t.houses[k].bidder == None
            && Wealth(t, b) + h.bidHolderLimit + h.rent == Wealth(s, b)
            && forall q :: q != b ==> Wealth(t, q) == Wealth(s, q)
  {
    var t := CancelTransfer(StartTransfer(s, p, k, newOwner, bid, true), p, k);
    assert HouseOk(s.houses[k], |s.bank|);
    assert t.houses == s.houses[k := t.houses[k]];
    HeldForUpdate(s.houses, k, t.houses[k], s.houses[k].bidder.value);
    forall q | q != s.houses[k].bidder.value ensures Wealth(t, q) == Wealth(s, q) {
      HeldForUpdate(s.houses, k, t.houses[k], q);
    }
  }

  /** A bid keeps every house in order, unless the leader lowers his own bid under the highest bid shown. */
  lemma PlaceBidKeepsOrderIff(s: State, p: Pid, k: nat, bid: nat)
    requires Inv(s) && p < |s.bank| && k < |s.houses| && Payable(s.houses[k], bid) && bid < U64
    ensures HouseOk(PlaceBid(s, p, k, bid).houses[k], |s.bank|) <==>
              !(s.houses[k].state != Transfer && s.houses[k].bidder == Some(p)
                && 0 < bid < s.houses[k].highestBid && bid <= s.bank[p])
    ensures |PlaceBid(s, p, k, bid).bank| == |s.bank| && |PlaceBid(s, p, k, bid).houses| == |s.houses|
    ensures forall j :: 0 <= j < |s.houses| && j != k ==> PlaceBid(s, p, k, bid).houses[j] == s.houses[j]
  {
    assert HouseOk(s.houses[k], |s.bank|);
  }

  /** The check for other bids comes first and counts this house too: nobody bids on a house he leads on. */
  lemma LeaderCannotBid(s: State, p: Pid, k: nat, bid: nat, withinLimit: bool)
    requires p < |s.bank| && k < |s.houses| && Payable(s.houses[k], bid)
    requires s.houses[k].bidder == Some(p)
    ensures Bid(s, p, k, bid, withinLimit) == s
  {
    assert BidsSomewhere(s.houses, p);
  }

  /** Whoever leads after a bid and did not before has bid more than the leader before. */
  lemma LeadIsBought(s: State, p: Pid, k: nat, bid: nat, withinLimit: bool)
    requires Inv(s) && p < |s.bank| && k < |s.houses| && Payable(s.houses[k], bid)
    ensures var h, h' := s.houses[k], Bid(s, p, k, bid, withinLimit).houses[k];
            h'.bidder != h.bidder ==>
              h'.bidder == Some(p) && h'.internalBid == bid && (h.bidder.Some? ==> h.internalBid < bid)
  {
  }

  // ----- Runs -------------------------------------------------------------------------------

  datatype Action =
    | DoBid(p: Pid, k: nat, bid: nat, ok: bool)
    | DoStartTransfer(p: Pid, k: nat, newOwner: Pid, bid: nat, ok: bool)
    | DoCancelTransfer(p: Pid, k: nat)
    | DoAcceptTransfer(p: Pid, k: nat, ok: bool)
    | DoRejectTransfer(p: Pid, k: nat)
    | DoStartMoveOut(p: Pid, k: nat)
    | DoCancelMoveOut(p: Pid, k: nat)

  /** Players and houses exist, and 64-bit sums do not wrap. */
  predicate Enabled(s: State, a: Action) {
    a.p < |s.bank| && a.k < |s.houses| &&
    match a
    case DoBid(p, k, bid, ok) => Payable(s.houses[k], bid)
    case DoStartTransfer(p, k, newOwner, bid, ok) => newOwner < |s.bank| && bid < U64
    case DoAcceptTransfer(p, k, ok) => Payable(s.houses[k], s.houses[k].internalBid)
    case _ => true
  }

  function Step(s: State, a: Action): State
    requires Enabled(s, a)
  {
    match a
    case DoBid(p, k, bid, ok) => Bid(s, p, k, bid, ok)
    case DoStartTransfer(p, k, newOwner, bid, ok) => StartTransfer(s, p, k, newOwner, bid, ok)
    case DoCancelTransfer(p, k) => CancelTransfer(s, p, k)
    case DoAcceptTransfer(p, k, ok) => AcceptTransfer(s, p, k, ok)
    case DoRejectTransfer(p, k) => RejectTransfer(s, p, k)
    case DoStartMoveOut(p, k) => StartMoveOut(s, p, k)
    case DoCancelMoveOut(p, k) => CancelMoveOut(s, p, k)
  }

  lemma EndTransferKeeps(s: State, k: nat)
    requires Inv(s) && k < |s.houses| && s.houses[k].state == Transfer
    ensures SameWealth(s, EndTransfer(s, k))
  {
    var h := s.houses[k];
    assert HouseOk(h, |s.bank|);
    SameWealthBy(s, k, EndTransfer(s, k).houses[k], EndTransfer(s, k).bank);
  }

  lemma AcceptTransferKeeps(s: State, p: Pid, k: nat, ok: bool)
    requires Inv(s) && Enabled(s, DoAcceptTransfer(p, k, ok))
    ensures SameWealth(s, AcceptTransfer(s, p, k, ok))
  {
    var h := s.houses[k];
    assert HouseOk(h, |s.bank|);
    HouseFits(s, k, p);
    if AcceptTransfer(s, p, k, ok) != s {
      SameWealthBy(s, k, h.(transferStatus := true), AcceptTransfer(s, p, k, ok).bank);
    }
  }

  /** The two steps that may make or lose money do not: a bid on a house that changes hands, and an offer
      of a house that someone has bid on. */
  predicate Fair(s: State, a: Action)
    requires Enabled(s, a)
  {
    match a
    case DoBid(p, k, bid, ok) => !ok || BidsSomewhere(s.houses, p) || FairBid(s, p, k, bid)
    case DoStartTransfer(p, k, newOwner, bid, ok) => !Offered(s, p, k, newOwner, ok) || s.houses[k].bidder.None?
    case _ => true
  }

  /** Every step keeps everyone's money if and only if it is fair. */
  lemma StepKeepsWealthIff(s: State, a: Action)
    requires Inv(s) && Enabled(s, a)
    ensures SameWealth(s, Step(s, a)) <==> Fair(s, a)
  {
    var h := s.houses[a.k];
    assert HouseOk(h, |s.bank|);
    match a
    case DoBid(p, k, bid, ok) =>
      if h.bidder == Some(p) {
        LeaderCannotBid(s, p, k, bid, ok);
        assert BidsSomewhere(s.houses, p);
      } else if ok && !BidsSomewhere(s.houses, p) {
        BidKeepsWealthIff(s, p, k, bid);
      }
    case DoStartTransfer(p, k, newOwner, bid, ok) => StartTransferKeepsWealthIff(s, p, k, newOwner, bid, ok);
    case DoCancelTransfer(p, k) => if Step(s, a) != s { EndTransferKeeps(s, k); }
    case DoAcceptTransfer(p, k, ok) => AcceptTransferKeeps(s, p, k, ok);
    case DoRejectTransfer(p, k) => if Step(s, a) != s { EndTransferKeeps(s, k); }
    case DoStartMoveOut(p, k) =>
      SameWealthBy(s, k, Step(s, a).houses[k], s.bank);
      assert s.houses[k := h] == s.houses;
    case DoCancelMoveOut(p, k) =>
      SameWealthBy(s, k, Step(s, a).houses[k], s.bank);
      assert s.houses[k := h] == s.houses;
  }

  lemma StepKeepsInv(s: State, a: Action)
    requires Inv(s) && Enabled(s, a) && Fair(s, a)
    ensures Inv(Step(s, a)) && |Step(s, a).bank| == |s.bank|
  {
    StepKeepsWealthIff(s, a);
    var t := Step(s, a);
    forall p ensures Wealth(t, p) < U64 {
      assert Wealth(s, p) < U64 && Wealth(s, p) == Wealth(t, p);
    }
    assert HouseOk(s.houses[a.k], |s.bank|);
    if a.DoBid? && t != s {
      PlaceBidKeepsOrderIff(s, a.p, a.k, a.bid);
      assert s.houses[a.k].bidder != Some(a.p);
    }
    forall j | 0 <= j < |t.houses| ensures HouseOk(t.houses[j], |t.bank|) {
      if j != a.k { assert HouseOk(s.houses[j], |s.bank|); }
    }
  }

  function Run(s: State, actions: seq<Action>): (t: State)
    requires Runs(s, actions)
    decreases |actions|
  {
    if actions == [] then s else Run(Step(s, actions[0]), actions[1..])
  }

  predicate Runs(s: State, actions: seq<Action>)
    decreases |actions|
  {
    actions == [] || (Enabled(s, actions[0]) && Runs(Step(s, actions[0]), actions[1..]))
  }

  predicate AllFair(s: State, actions: seq<Action>)
    requires Runs(s, actions)
    decreases |actions|
  {
    actions == [] || (Fair(s, actions[0]) && AllFair(Step(s, actions[0]), actions[1..]))
  }

  /** Over any run of fair steps, everyone's money, in the bank and in houses, stays the same, and every house
      stays in order. */
  lemma {:induction false} RunKeepsWealth(s: State, actions: seq<Action>)
    requires Inv(s) && Runs(s, actions) && AllFair(s, actions)
    ensures Inv(Run(s, actions)) && SameWealth(s, Run(s, actions))
    decreases |actions|
  {
    if actions != [] {
      StepKeepsWealthIff(s, actions[0]);
      StepKeepsInv(s, actions[0]);
      RunKeepsWealth(Step(s, actions[0]), actions[1..]);
    }
  }

  /** A house that is let, and nobody has bid on. */
  function LetHouse(): State {
    State([1000, 1000, 0], [House(Rented, Some(0), 100, None, 0, 0, 0, false)])
  }

  /** Player 1 bids fifty on it and pays rent and bid; then the owner offers it to player 2, and the money is gone. */
  lemma ABidIsLost()
    ensures var s := LetHouse(); var bid, offer := DoBid(1, 0, 50, true), DoStartTransfer(0, 0, 2, 10, true);
            && Inv(s) && Runs(s, [bid, offer]) && Fair(s, bid) && !Fair(Step(s, bid), offer)
            && Wealth(s, 1) == 1000 && Wealth(Step(s, bid), 1) == 1000
            && Wealth(Step(Step(s, bid), offer), 1) == 850
  {
    var s := LetHouse();
    var bid, offer := DoBid(1, 0, 50, true), DoStartTransfer(0, 0, 2, 10, true);
    var t := Step(s, bid);
    var u := Step(t, offer);
    assert t.houses[0].bidder == Some(1) && t.bank == [1000, 850, 0];
    assert [bid, offer][1..] == [offer] && [offer][1..] == [];
    forall p ensures Wealth(s, p) == Account(s.bank, p) {
      HeldForOne(s.houses, p);
    }
    HeldForOne(t.houses, 1);
    HeldForOne(u.houses, 1);
  }

  lemma HeldForOne(houses: seq<House>, p: Pid)
    requires |houses| == 1
    ensures HeldFor(houses, p) == EscrowFor(houses[0], p)
  {
    assert houses[1..] == [];
    assert HeldFor(houses, p) == EscrowOf(p)(houses[0]) + Total([], EscrowOf(p));
  }

  /** Player 0 hands the house over to player 1 for ten gold; player 1 has not paid. */
  function HandedOver(): State {
    State([0, 0, 1000], [House(Transfer, Some(0), 100, Some(1), 0, 10, 0, false)])
  }

  /** Player 2 bids fifty on it: player 1 is given the rent without having paid it, and player 2 has paid
      for nothing. */
  lemma ABidOnAHandover()
    ensures var s := HandedOver(); var t := Step(s, DoBid(2, 0, 50, true));
            && Inv(s) && Enabled(s, DoBid(2, 0, 50, true)) && !Fair(s, DoBid(2, 0, 50, true))
            && t.bank == [0, 100, 850]
            && Wealth(t, 1) == Wealth(s, 1) + 100 && Wealth(t, 2) == Wealth(s, 2) - 150
  {
    var s := HandedOver();
    forall p ensures Wealth(s, p) == Account(s.bank, p) + EscrowFor(s.houses[0], p) {
      HeldForOne(s.houses, p);
    }
    var t := Step(s, DoBid(2, 0, 50, true));
    HeldForOne(t.houses, 1);
    HeldForOne(t.houses, 2);
  }
}
