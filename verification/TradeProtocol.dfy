/** Trading between two players as a state machine: requests, acceptance, the transfer itself, and
    closing, which may be called back at any time. */
module TradeProtocol {
  import opened Basics
  import opened Sequences
  import StackRules
  import StackLaws
  import opened Exchanges

  datatype Phase = NoTrade | Initiated | Accepted | Acknowledge | Transferring

  datatype Trader = Trader(phase: Phase, partner: Option<Pid>, item: Option<ItemId>)

  /** `transfer` names the two players while their items are being moved. */
  datatype State = State(
    players: map<Pid, Trader>, tradeItems: map<ItemId, Pid>, goods: Goods, transfer: Option<(Pid, Pid)>)

  const FREE := Trader(NoTrade, None, None)

  // ----- The steps --------------------------------------------------------------------------

  predicate AlreadyTraded(s: State, x: ItemId) {
    exists y :: y in s.tradeItems && Overlap(s.goods, x, y)
  }

  /** The players are free for this trade: `p` is, or answers `q`; and `q` is, or waits for `p`. */
  predicate MayStart(p: Pid, q: Pid, a: Trader, b: Trader) {
    && (a.phase == NoTrade || (a.phase == Acknowledge && a.partner == Some(q)))
    && (b.phase == NoTrade || b.partner == Some(p))
  }

  /** `allowed`: distance, line of sight, the item's own properties and the scripts say yes. */
  function Request(s: State, p: Pid, q: Pid, x: ItemId, allowed: bool): State {
    if p !in s.players || q !in s.players || p == q || !allowed || !Offers(s.goods, p, x) || AlreadyTraded(s, x) then s
    else
      var a, b := s.players[p], s.players[q];
      if !MayStart(p, q, a, b) then s
      else
        var a' := Trader(Initiated, Some(q), Some(x));
        var b' := if b.phase == NoTrade then Trader(Acknowledge, Some(p), b.item) else b;
        s.(players := s.players[p := a'][q := b'], tradeItems := s.tradeItems[x := p])
  }

  function Drop(items: map<ItemId, Pid>, x: Option<ItemId>): map<ItemId, Pid> {
    if x.Some? then items - {x.value} else items
  }

  function Close(s: State, p: Pid): State {
    if p !in s.players then s
    else
      var a := s.players[p];
      if a.partner.Some? && a.partner.value in s.players then
        var q := a.partner.value;
        if a.phase == Transferring || s.players[q].phase == Transferring then s
        else s.(players := s.players[p := FREE][q := FREE],
                tradeItems := Drop(Drop(s.tradeItems, a.item), s.players[q].item))
      else if a.phase == Transferring then s
      else s.(players := s.players[p := FREE], tradeItems := Drop(s.tradeItems, a.item))
  }

  /** `p` accepts.  If the partner already has, the scripts decide, and the transfer begins. */
  function Accept(s: State, p: Pid, reachable: bool, allowed: bool): State {
    if p !in s.players then s
    else
      var a := s.players[p];
      if (a.phase != Acknowledge && a.phase != Initiated) || a.partner.None? || a.partner.value !in s.players
         || !reachable
      then s
      else
        var q := a.partner.value;
        var t := s.(players := s.players[p := a.(phase := Accepted)]);
        if t.players[q].phase != Accepted then t
        else if !allowed then Close(t, p)
        else
          t.(players := t.players[p := t.players[p].(phase := Transferring)]
                                 [q := t.players[q].(phase := Transferring)],
             tradeItems := Drop(Drop(t.tradeItems, a.item), t.players[q].item),
             transfer := Some((p, q)))
  }

  /** The transfer ends: the items are exchanged, as far as there is room, and both players are free. */
  ghost function Finish(s: State, allowed: bool): State
    requires Swappable(s)
  {
    if s.transfer.None? then s
    else
      var (p, q) := s.transfer.value;
      if p !in s.players || q !in s.players then s
      else
        var x, y := s.players[p].item, s.players[q].item;
        s.(goods := if x.Some? && y.Some? then Exchange(s.goods, p, q, x.value, y.value, allowed).goods else s.goods,
           players := s.players[p := FREE][q := FREE],
           transfer := None)
  }

  /** The items under transfer are apart, each with its owner or with nobody. */
  ghost predicate Swappable(s: State) {
    s.transfer.Some? ==>
      var (p, q) := s.transfer.value;
      p in s.players && q in s.players && s.players[p].item.Some? && s.players[q].item.Some? ==>
        Exchangeable(s.goods, p, q, s.players[p].item.value, s.players[q].item.value)
  }

  // ----- What every state keeps -------------------------------------------------------------

  ghost predicate TraderOk(s: State, p: Pid)
    requires p in s.players
  {
    var a := s.players[p];
    && (a.phase == NoTrade <==> a.partner.None?)
    && (a.partner.Some? ==>
          a.partner.value != p && a.partner.value in s.players && s.players[a.partner.value].partner == Some(p))
    && (a.phase == NoTrade || a.phase == Acknowledge ==> a.item.None?)
    && (a.phase == Initiated ==> a.item.Some?)
    && (a.phase == Transferring <==> s.transfer.Some? && (p == s.transfer.value.0 || p == s.transfer.value.1))
    && (a.item.Some? ==> Offers(s.goods, p, a.item.value))
  }

  ghost predicate IndexAt(s: State, x: ItemId, p: Pid) {
    x in s.tradeItems && s.tradeItems[x] == p
    <==> p in s.players && s.players[p].item == Some(x) && s.players[p].phase != Transferring
  }

  /** The side index holds exactly the items on offer, each with the player who offers it. */
  ghost predicate IndexOk(s: State) {
    forall x, p :: IndexAt(s, x, p)
  }

  ghost predicate TradersOk(s: State) {
    forall p :: p in s.players ==> TraderOk(s, p)
  }

  /** No two players offer items that overlap. */
  ghost predicate NoOverlap(s: State) {
    forall p, q :: p in s.players && q in s.players && p != q
                   && s.players[p].item.Some? && s.players[q].item.Some? ==>
                     !Overlap(s.goods, s.players[p].item.value, s.players[q].item.value)
  }

  ghost predicate TransferOk(s: State) {
    s.transfer.Some? ==>
      s.transfer.value.0 in s.players && s.players[s.transfer.value.0].partner == Some(s.transfer.value.1)
  }

  ghost predicate Inv(s: State) {
    && TradersOk(s) && Ok(s.goods)
    && IndexOk(s) && NoOverlap(s) && TransferOk(s)
  }

  // ----- Every step keeps the trades in order -----------------------------------------------

  lemma RequestKeepsInv(s: State, p: Pid, q: Pid, x: ItemId, allowed: bool)
    requires Inv(s) && s.transfer.None?
    ensures Inv(Request(s, p, q, x, allowed))
  {
    if Request(s, p, q, x, allowed) != s {
      hide Inv, TradersOk, TraderOk, IndexOk, NoOverlap, TransferOk, Overlap;
      InvParts(s);
      RequestTraders(s, p, q, x, allowed);
      RequestIndex(s, p, q, x, allowed);
      RequestOverlap(s, p, q, x, allowed);
      InvWhole(Request(s, p, q, x, allowed));
    }
  }

  lemma InvParts(s: State)
    ensures Inv(s) ==> Ok(s.goods) && TradersOk(s) && IndexOk(s) && NoOverlap(s) && TransferOk(s)
  {
  }

  lemma InvWhole(s: State)
    requires Ok(s.goods) && TradersOk(s) && IndexOk(s) && NoOverlap(s) && TransferOk(s)
    ensures Inv(s)
  {
  }

  lemma RequestTraders(s: State, p: Pid, q: Pid, x: ItemId, allowed: bool)
    requires TradersOk(s) && s.transfer.None? && Request(s, p, q, x, allowed) != s
    ensures TradersOk(Request(s, p, q, x, allowed)) && TransferOk(Request(s, p, q, x, allowed))
    ensures p in s.players && q in s.players && s.players[p].item.None?
  {
    var t := Request(s, p, q, x, allowed);
    assert TraderOk(s, p) && TraderOk(s, q);
    forall r | r in t.players ensures TraderOk(t, r) {
      assert TraderOk(s, r);
    }
  }

  lemma RequestIndex(s: State, p: Pid, q: Pid, x: ItemId, allowed: bool)
    requires TradersOk(s) && IndexOk(s) && s.transfer.None? && Request(s, p, q, x, allowed) != s
    ensures IndexOk(Request(s, p, q, x, allowed))
  {
    var t := Request(s, p, q, x, allowed);
    assert TraderOk(s, p) && TraderOk(s, q) && x !in s.tradeItems by {
      if x in s.tradeItems { assert Overlap(s.goods, x, x); }
    }
    forall y, r ensures IndexAt(t, y, r) {
      assert IndexAt(s, y, r);
      if r in s.players { assert TraderOk(s, r); }
    }
  }

  lemma RequestOverlap(s: State, p: Pid, q: Pid, x: ItemId, allowed: bool)
    requires TradersOk(s) && IndexOk(s) && NoOverlap(s)
    requires s.transfer.None? && Request(s, p, q, x, allowed) != s
    ensures NoOverlap(Request(s, p, q, x, allowed))
  {
    forall r | r in s.players && s.players[r].item.Some?
      ensures !Overlap(s.goods, x, s.players[r].item.value) && !Overlap(s.goods, s.players[r].item.value, x)
    {
      assert TraderOk(s, r) && IndexAt(s, s.players[r].item.value, r);
    }
  }

  /** A trader and his partner let go of each other. */
  ghost function Release(s: State, p: Pid, q: Pid): State
    requires p in s.players && q in s.players
  {
    s.(players := s.players[p := FREE][q := FREE],
       tradeItems := Drop(Drop(s.tradeItems, s.players[p].item), s.players[q].item))
  }

  lemma ReleaseKeepsInv(s: State, p: Pid, q: Pid)
    requires Inv(s) && p in s.players && q in s.players && s.players[p].partner == Some(q)
    requires s.players[p].phase != Transferring
    ensures Inv(Release(s, p, q))
  {
    hide Inv, TradersOk, TraderOk, IndexOk, TransferOk, Overlap, Drop;
    InvParts(s);
    ReleaseTraders(s, p, q);
    ReleaseIndex(s, p, q);
    InvWhole(Release(s, p, q));
  }

  lemma ReleaseTraders(s: State, p: Pid, q: Pid)
    requires TradersOk(s) && TransferOk(s) && p in s.players && q in s.players && s.players[p].partner == Some(q)
    requires s.players[p].phase != Transferring
    ensures TradersOk(Release(s, p, q)) && TransferOk(Release(s, p, q))
  {
    var t := Release(s, p, q);
    assert TraderOk(s, p) && TraderOk(s, q);
    forall r | r in t.players ensures TraderOk(t, r) {
      assert TraderOk(s, r);
    }
  }

  /** Two traders' items leave the index; the index is right again once the two offer nothing. */
  lemma DroppedIndex(s: State, p: Pid, q: Pid, y: ItemId, r: Pid)
    requires IndexOk(s) && p in s.players && q in s.players
    requires s.players[p].phase != Transferring && s.players[q].phase != Transferring
    ensures var items := Drop(Drop(s.tradeItems, s.players[p].item), s.players[q].item);
            y in items && items[y] == r <==> y in s.tradeItems && s.tradeItems[y] == r && r != p && r != q
  {
    assert IndexAt(s, y, p) && IndexAt(s, y, q) && IndexAt(s, y, r);
  }

  lemma ReleaseIndex(s: State, p: Pid, q: Pid)
    requires TradersOk(s) && TransferOk(s) && IndexOk(s)
    requires p in s.players && q in s.players && s.players[p].partner == Some(q)
    requires s.players[p].phase != Transferring
    ensures IndexOk(Release(s, p, q))
  {
    assert TraderOk(s, p) && TraderOk(s, q);
    if s.transfer.Some? { assert TraderOk(s, s.transfer.value.0); }
    forall y, r ensures IndexAt(Release(s, p, q), y, r) {
      assert IndexAt(s, y, r);
      DroppedIndex(s, p, q, y, r);
    }
  }

  lemma CloseKeepsInv(s: State, p: Pid)
    requires Inv(s)
    ensures Inv(Close(s, p))
  {
    if p in s.players {
      assert TraderOk(s, p);
      if s.players[p].partner.Some? {
        var q := s.players[p].partner.value;
        assert TraderOk(s, q);
        if Close(s, p) != s {
          ReleaseKeepsInv(s, p, q);
        }
      } else {
        assert s.players[p] == FREE;
        assert s.players[p := FREE] == s.players;
      }
    }
  }

  /** Accepting alone changes only the phase. */
  ghost function Agree(s: State, p: Pid): State
    requires p in s.players
  {
    s.(players := s.players[p := s.players[p].(phase := Accepted)])
  }

  lemma AgreeKeepsInv(s: State, p: Pid)
    requires Inv(s) && p in s.players && s.players[p].partner.Some? && s.players[p].phase != Transferring
    ensures Inv(Agree(s, p))
  {
    var t := Agree(s, p);
    assert TraderOk(s, p);
    forall r | r in t.players ensures TraderOk(t, r) {
      assert TraderOk(s, r);
    }
    forall y, r ensures IndexAt(t, y, r) {
      assert IndexAt(s, y, r);
    }
  }

  /** The transfer begins: both items leave the side index. */
  ghost function BeginTransfer(s: State, p: Pid, q: Pid): State
    requires p in s.players && q in s.players
  {
    s.(players := s.players[p := s.players[p].(phase := Transferring)][q := s.players[q].(phase := Transferring)],
       tradeItems := Drop(Drop(s.tradeItems, s.players[p].item), s.players[q].item),
       transfer := Some((p, q)))
  }

  lemma BeginTransferKeepsInv(s: State, p: Pid, q: Pid)
    requires Inv(s) && s.transfer.None? && p in s.players && q in s.players && s.players[p].partner == Some(q)
    ensures Inv(BeginTransfer(s, p, q))
  {
    hide Inv, TradersOk, TraderOk, IndexOk, TransferOk, Overlap, Drop;
    InvParts(s);
    BeginTransferTraders(s, p, q);
    BeginTransferIndex(s, p, q);
    InvWhole(BeginTransfer(s, p, q));
  }

  lemma BeginTransferTraders(s: State, p: Pid, q: Pid)
    requires TradersOk(s) && s.transfer.None? && p in s.players && q in s.players && s.players[p].partner == Some(q)
    ensures TradersOk(BeginTransfer(s, p, q)) && TransferOk(BeginTransfer(s, p, q))
  {
    var t := BeginTransfer(s, p, q);
    assert TraderOk(s, p) && TraderOk(s, q);
    forall r | r in t.players ensures TraderOk(t, r) {
      assert TraderOk(s, r);
    }
  }

  lemma BeginTransferIndex(s: State, p: Pid, q: Pid)
    requires TradersOk(s) && IndexOk(s) && s.transfer.None?
    requires p in s.players && q in s.players && s.players[p].partner == Some(q)
    ensures IndexOk(BeginTransfer(s, p, q))
  {
    assert TraderOk(s, p) && TraderOk(s, q);
    forall y, r ensures IndexAt(BeginTransfer(s, p, q), y, r) {
      assert IndexAt(s, y, r);
      DroppedIndex(s, p, q, y, r);
    }
  }

  lemma AcceptKeepsInv(s: State, p: Pid, reachable: bool, allowed: bool)
    requires Inv(s) && s.transfer.None?
    ensures Inv(Accept(s, p, reachable, allowed))
  {
    if Accept(s, p, reachable, allowed) != s {
      var q := s.players[p].partner.value;
      var t := Agree(s, p);
      assert TraderOk(s, p);
      AgreeKeepsInv(s, p);
      CloseKeepsInv(t, p);
      BeginTransferKeepsInv(t, p, q);
    }
  }

  lemma InvIsSwappable(s: State)
    requires Inv(s)
    ensures Swappable(s)
  {
    if s.transfer.Some? {
      assert TraderOk(s, s.transfer.value.0) && TraderOk(s, s.transfer.value.1);
    }
  }

  /** The two players of a transfer are free; the other players' items are where they were. */
  lemma OthersKeep(s: State, allowed: bool, r: Pid)
    requires Inv(s) && s.transfer.Some? && r in s.players && s.players[r].item.Some?
    requires r != s.transfer.value.0 && r != s.transfer.value.1
    ensures Swappable(s)
    ensures var h := Finish(s, allowed).goods; var z := s.players[r].item.value; var i := s.goods.at[z].bag;
            && z in h.at && h.at[z].bag == i && i < |h.carrier| && i < |h.within|
            && h.carrier[i] == s.goods.carrier[i] && h.within[i] == s.goods.within[i]
  {
    InvIsSwappable(s);
    var (p, q) := s.transfer.value;
    assert TraderOk(s, p) && TraderOk(s, q) && TraderOk(s, r);
    hide Exchange, Exchangeable, Overlap;
    var x, y, z := s.players[p].item, s.players[q].item, s.players[r].item.value;
    if x.Some? && y.Some? {
      ExchangeLeavesOther(s.goods, p, q, x.value, y.value, allowed, z);
    }
  }

  lemma FinishKeepsInv(s: State, allowed: bool)
    requires Inv(s)
    ensures Swappable(s) && Inv(Finish(s, allowed))
  {
    InvIsSwappable(s);
    if s.transfer.Some? {
      GoodsStayOk(s, allowed);
      FinishTraders(s, allowed);
      FinishIndex(s, allowed);
      FinishOverlap(s, allowed);
      hide Exchange, Exchangeable, Swappable, Ok, TradersOk, IndexOk, NoOverlap;
      InvWhole(Finish(s, allowed));
    }
  }

  lemma FinishTraders(s: State, allowed: bool)
    requires Inv(s) && s.transfer.Some?
    ensures Swappable(s) && TradersOk(Finish(s, allowed)) && TransferOk(Finish(s, allowed))
  {
    InvIsSwappable(s);
    var t := Finish(s, allowed);
    var (p, q) := s.transfer.value;
    assert TraderOk(s, p) && TraderOk(s, q);
    hide Exchange, Exchangeable, Swappable, Ok;
    forall r | r in t.players ensures TraderOk(t, r) {
      assert TraderOk(s, r);
      if t.players[r].item.Some? { OthersKeep(s, allowed, r); }
    }
  }

  lemma FinishIndex(s: State, allowed: bool)
    requires Inv(s) && s.transfer.Some?
    ensures Swappable(s) && IndexOk(Finish(s, allowed))
  {
    InvIsSwappable(s);
    var t := Finish(s, allowed);
    var (p, q) := s.transfer.value;
    assert TraderOk(s, p) && TraderOk(s, q);
    hide Exchange, Exchangeable, Swappable, Ok, Overlap;
    forall y, r ensures IndexAt(t, y, r) {
      assert IndexAt(s, y, r);
      if r in s.players { assert TraderOk(s, r); }
    }
  }

  lemma FinishOverlap(s: State, allowed: bool)
    requires Inv(s) && s.transfer.Some?
    ensures Swappable(s) && NoOverlap(Finish(s, allowed))
  {
    InvIsSwappable(s);
    var t := Finish(s, allowed);
    var (p, q) := s.transfer.value;
    assert TraderOk(s, p) && TraderOk(s, q);
    forall r, u | r in t.players && u in t.players && r != u && t.players[r].item.Some? && t.players[u].item.Some?
      ensures !Overlap(t.goods, t.players[r].item.value, t.players[u].item.value)
    {
      hide Exchange, Exchangeable, Swappable, Ok, IndexOk;
      assert TraderOk(s, r) && TraderOk(s, u);
      OthersKeep(s, allowed, r);
      OthersKeep(s, allowed, u);
      assert !Overlap(s.goods, s.players[r].item.value, s.players[u].item.value);
    }
  }

  lemma GoodsStayOk(s: State, allowed: bool)
    requires Inv(s)
    ensures Swappable(s) && Ok(Finish(s, allowed).goods)
  {
    InvIsSwappable(s);
    if s.transfer.Some? {
      var (p, q) := s.transfer.value;
      assert TraderOk(s, p) && TraderOk(s, q);
      if s.players[p].item.Some? && s.players[q].item.Some? {
        ExchangeStaysOk(s.goods, p, q, s.players[p].item.value, s.players[q].item.value, allowed);
      }
    }
  }

  /** While items are being moved, closing the trade of one of the two players does nothing. */
  lemma CloseDuringTransferIsNothing(s: State, p: Pid)
    requires Inv(s) && s.transfer.Some? && (p == s.transfer.value.0 || p == s.transfer.value.1)
    ensures Close(s, p) == s
  {
    var (a, b) := s.transfer.value;
    assert TraderOk(s, a) && TraderOk(s, b);
  }

  // ----- Runs -------------------------------------------------------------------------------

  datatype Event =
    | DoRequest(p: Pid, q: Pid, x: ItemId, allowed: bool)
    | DoAccept(p: Pid, reachable: bool, allowed: bool)
    | DoClose(p: Pid)
    | DoFinish(allowed: bool)

  /** While items are being moved, only closing can be called back. */
  ghost predicate Enabled(s: State, e: Event) {
    match e
    case DoRequest(_, _, _, _) => s.transfer.None?
    case DoAccept(_, _, _) => s.transfer.None?
    case DoClose(_) => true
    case DoFinish(_) => Swappable(s)
  }

  ghost function Step(s: State, e: Event): State
    requires Enabled(s, e)
  {
    match e
    case DoRequest(p, q, x, allowed) => Request(s, p, q, x, allowed)
    case DoAccept(p, reachable, allowed) => Accept(s, p, reachable, allowed)
    case DoClose(p) => Close(s, p)
    case DoFinish(allowed) => Finish(s, allowed)
  }

  ghost predicate Runs(s: State, es: seq<Event>)
    decreases |es|
  {
    es == [] || (Enabled(s, es[0]) && Runs(Step(s, es[0]), es[1..]))
  }

  ghost function Run(s: State, es: seq<Event>): State
    requires Runs(s, es)
    decreases |es|
  {
    if es == [] then s else Run(Step(s, es[0]), es[1..])
  }

  lemma {:induction false} RunConcat(s: State, es: seq<Event>, fs: seq<Event>)
    requires Runs(s, es) && Runs(Run(s, es), fs)
    ensures Runs(s, es + fs) && Run(s, es + fs) == Run(Run(s, es), fs)
    decreases |es|
  {
    if es == [] {
      assert es + fs == fs;
    } else {
      RunConcat(Step(s, es[0]), es[1..], fs);
      assert (es + fs)[1..] == es[1..] + fs;
    }
  }

  lemma RunOne(s: State, e: Event)
    requires Enabled(s, e)
    ensures Runs(s, [e]) && Run(s, [e]) == Step(s, e)
  {
    assert [e][1..] == [];
  }

  lemma RunSnoc(s: State, es: seq<Event>, e: Event)
    requires Runs(s, es) && Enabled(Run(s, es), e)
    ensures Runs(s, es + [e]) && Run(s, es + [e]) == Step(Run(s, es), e)
  {
    RunOne(Run(s, es), e);
    RunConcat(s, es, [e]);
  }

  /** All units of a kind in all containers. */
  ghost function AllUnits(s: State, kind: StackRules.Kind): nat {
    Total(s.goods.bags, StackLaws.UnitsOf(kind))
  }

  lemma StepKeeps(s: State, e: Event, kind: StackRules.Kind)
    requires Inv(s) && Enabled(s, e)
    ensures Inv(Step(s, e)) && AllUnits(Step(s, e), kind) == AllUnits(s, kind)
  {
    match e
    case DoRequest(p, q, x, allowed) => RequestKeepsInv(s, p, q, x, allowed);
    case DoAccept(p, reachable, allowed) => AcceptKeepsInv(s, p, reachable, allowed);
    case DoClose(p) => CloseKeepsInv(s, p);
    case DoFinish(allowed) =>
      FinishKeepsInv(s, allowed);
      FinishKeepsUnits(s, allowed, kind);
  }

  /** The transfer itself moves units from container to container and loses none. */
  lemma FinishKeepsUnits(s: State, allowed: bool, kind: StackRules.Kind)
    requires Inv(s)
    ensures Swappable(s) && AllUnits(Finish(s, allowed), kind) == AllUnits(s, kind)
  {
    InvIsSwappable(s);
    if s.transfer.Some? {
      var (p, q) := s.transfer.value;
      assert TraderOk(s, p) && TraderOk(s, q);
      if s.players[p].item.Some? && s.players[q].item.Some? {
        ExchangeKeepsTotal(s.goods, p, q, s.players[p].item.value, s.players[q].item.value, allowed, kind);
      }
    }
  }

  /** Over any run, with closings called back in the middle of transfers, the trades stay in order
      and the number of units of every kind of item stays the same. */
  lemma {:induction false} RunKeeps(s: State, es: seq<Event>, kind: StackRules.Kind)
    requires Inv(s) && Runs(s, es)
    ensures Inv(Run(s, es)) && AllUnits(Run(s, es), kind) == AllUnits(s, kind)
    decreases |es|
  {
    if es != [] {
      StepKeeps(s, es[0], kind);
      RunKeeps(Step(s, es[0]), es[1..], kind);
    }
  }
}
