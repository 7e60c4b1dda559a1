/** The exchange of two items at the end of a trade: the tests, the two moves between containers, and
    what they do to the containers. */
module Exchanges {
  import opened Basics
  import opened Sequences
  import opened StackRules
  import opened StackLaws

  type Pid = nat
  type ItemId = nat

  /** Where an item is: a container and a position in it. */
  datatype Slot = Slot(bag: nat, pos: nat)

  /** The containers, what each of them lies inside of, at any depth, and which player carries it;
      None is the ground and any other place.  A container among the `hands` stands for the slots in which
      a player wears items. */
  datatype Goods = Goods(
    bags: seq<Bag>, at: map<ItemId, Slot>, carrier: seq<Option<Pid>>, within: seq<set<ItemId>>, hands: set<nat>)

  predicate Placed(g: Goods, s: Slot) {
    s.bag < |g.bags| && s.pos < |g.bags[s.bag].things|
  }

  /** Every item is somewhere, no two are at the same place, and no stack is too large. */
  ghost predicate Ok(g: Goods) {
    && |g.carrier| == |g.bags| == |g.within| && EveryFit(g.bags)
    && (forall x :: x in g.at ==> Placed(g, g.at[x]))
    && forall x, y :: x in g.at && y in g.at && x != y ==> g.at[x] != g.at[y]
  }

  function ThingOf(g: Goods, x: ItemId): Thing
    requires x in g.at && Placed(g, g.at[x])
  {
    g.bags[g.at[x].bag].things[g.at[x].pos]
  }

  // ----- Finding a place --------------------------------------------------------------------

  /** A slot is free. */
  predicate Free(bag: Bag) {
    |bag.things| < bag.capacity && |bag.things| + 1 <= bag.most
  }

  /** The item is worn, and not in a container. */
  predicate Worn(g: Goods, x: ItemId) {
    x in g.at && g.at[x].bag in g.hands
  }

  /** A player's container takes an item into a slot of its own; what lies in the item itself does not, nor
      what lies in the player's own item `own` if that is worn.  When `own` lies in a container, what is
      inside it is searched like everything else. */
  predicate Takes(g: Goods, b: nat, p: Pid, own: ItemId, x: ItemId)
    requires b < |g.bags| && |g.carrier| == |g.bags| == |g.within|
  {
    && g.carrier[b] == Some(p) && b !in g.hands && x !in g.within[b] && Free(g.bags[b])
    && !(own in g.within[b] && Worn(g, own))
  }

  /** The first of the player's containers, from `i` on, that takes an item; the number of containers when none does. */
  function FreeBag(g: Goods, p: Pid, own: ItemId, x: ItemId, i: nat): (b: nat)
    requires i <= |g.bags| && |g.carrier| == |g.bags| == |g.within|
    ensures i <= b <= |g.bags|
    ensures b < |g.bags| ==> Takes(g, b, p, own, x)
    ensures forall j :: i <= j < b ==> !Takes(g, j, p, own, x)
    decreases |g.bags| - i
  {
    if i == |g.bags| || Takes(g, i, p, own, x) then i else FreeBag(g, p, own, x, i + 1)
  }

  /** A stack of the kind has room, those of the two items aside. */
  predicate HasPartial(g: Goods, b: nat, own: ItemId, x: ItemId, kind: Kind)
    requires b < |g.bags| && own in g.at && x in g.at
  {
    exists j :: 0 <= j < |g.bags[b].things| && g.at[own] != Slot(b, j) && g.at[x] != Slot(b, j)
                && Partial(g.bags[b].things[j], kind)
  }

  /** The test lets a stack share another one.  The search for that passes over the item `own`, which is
      about to leave, and over what lies in it. */
  predicate MayTake(g: Goods, b: nat, p: Pid, own: ItemId, x: ItemId)
    requires b < |g.bags| && |g.carrier| == |g.bags| == |g.within| && own in g.at && x in g.at && Placed(g, g.at[x])
  {
    var size, kind := |g.bags[b].things|, ThingOf(g, x).kind;
    if kind.stackable then
      && g.carrier[b] == Some(p) && b !in g.hands && own !in g.within[b]
      && (|| HasPartial(g, b, own, x, kind)
          || (size - (if g.at[own].bag == b then 1 else 0) < g.bags[b].capacity && size + 1 <= g.bags[b].most))
    else Takes(g, b, p, own, x)
  }

  function FirstToTake(g: Goods, p: Pid, own: ItemId, x: ItemId, i: nat): (b: nat)
    requires i <= |g.bags| && |g.carrier| == |g.bags| == |g.within| && own in g.at && x in g.at && Placed(g, g.at[x])
    ensures i <= b <= |g.bags|
    ensures b < |g.bags| ==> MayTake(g, b, p, own, x)
    ensures forall j :: i <= j < b ==> !MayTake(g, j, p, own, x)
    decreases |g.bags| - i
  {
    if i == |g.bags| || MayTake(g, i, p, own, x) then i else FirstToTake(g, p, own, x, i + 1)
  }

  /** The test of an addition to a player: a place is found, and its container may hold one item more. */
  predicate Tested(g: Goods, p: Pid, own: ItemId, x: ItemId)
    requires |g.carrier| == |g.bags| == |g.within| && own in g.at && x in g.at && Placed(g, g.at[x])
  {
    var b := FirstToTake(g, p, own, x, 0);
    b < |g.bags| && |g.bags[b].things| + 1 <= g.bags[b].most
  }

  /** A container of the player in which the test finds a place.  For a stack that is one which is not in the
      player's own item, with a stack of the kind that has room, other than the two items, or a slot that is free
      once the own item has left; for anything else one with a free slot, which may be in the own item if that is
      not worn. */
  predicate Finds(g: Goods, b: nat, p: Pid, own: ItemId, x: ItemId)
    requires b < |g.bags| && |g.carrier| == |g.bags| == |g.within| && own in g.at && x in g.at && Placed(g, g.at[x])
  {
    var kind, things, bag := ThingOf(g, x).kind, g.bags[b].things, g.bags[b];
    && g.carrier[b] == Some(p) && b !in g.hands
    && if kind.stackable then
         && own !in g.within[b]
         && ((exists j :: 0 <= j < |things| && things[j].kind == kind && things[j].count < kind.size
                          && Slot(b, j) != g.at[own] && Slot(b, j) != g.at[x])
             || (|things| < bag.most
                 && (if g.at[own].bag == b then |things| <= bag.capacity else |things| < bag.capacity)))
       else
         && x !in g.within[b] && |things| < bag.capacity && |things| < bag.most
         && (own in g.within[b] ==> g.at[own].bag !in g.hands)
  }

  /** The test succeeds if and only if there is such a container and the first one may hold one item more. */
  lemma TestedIff(g: Goods, p: Pid, own: ItemId, x: ItemId)
    requires |g.carrier| == |g.bags| == |g.within| && own in g.at && x in g.at && Placed(g, g.at[x])
    ensures Tested(g, p, own, x)
            <==> exists b :: 0 <= b < |g.bags| && Finds(g, b, p, own, x) && |g.bags[b].things| < g.bags[b].most
                             && forall j :: 0 <= j < b ==> !Finds(g, j, p, own, x)
  {
    forall b | 0 <= b < |g.bags| ensures MayTake(g, b, p, own, x) <==> Finds(g, b, p, own, x) {
      MayTakeIff(g, b, p, own, x);
    }
    hide MayTake, Finds;
    var first := FirstToTake(g, p, own, x, 0);
    if first < |g.bags| {
      assert Finds(g, first, p, own, x);
      forall b | 0 <= b < |g.bags| && Finds(g, b, p, own, x) && forall j :: 0 <= j < b ==> !Finds(g, j, p, own, x)
        ensures b == first
      {
      }
    }
  }

  lemma MayTakeIff(g: Goods, b: nat, p: Pid, own: ItemId, x: ItemId)
    requires b < |g.bags| && |g.carrier| == |g.bags| == |g.within| && own in g.at && x in g.at && Placed(g, g.at[x])
    ensures MayTake(g, b, p, own, x) <==> Finds(g, b, p, own, x)
  {
  }

  // ----- Sending an item --------------------------------------------------------------------

  /** All of the thing leaves its slot. */
  predicate Whole(t: Thing, c: nat) {
    !t.kind.stackable || c == t.count
  }

  /** Where the thing at `s` is after the one at `f` has gone to the container `b`. */
  function Moved(s: Slot, f: Slot, whole: bool, b: nat, puts: bool): Slot
    requires s != f
  {
    var pos := if s.bag == f.bag && whole && s.pos > f.pos then s.pos - 1 else s.pos;
    Slot(s.bag, if s.bag == b && puts then pos + 1 else pos)
  }

  /** Something is put into a slot of its own. */
  predicate Puts(g: Goods, f: Slot, b: nat, c: nat)
    requires Placed(g, f) && b < |g.bags|
  {
    var t := g.bags[f.bag].things[f.pos];
    var place := Destination(g.bags[b], Some(|g.bags[b].things|), t.kind, f.bag == b, true);
    !t.kind.stackable || OntoDest(g.bags[b], place.dest, t.kind, c) < c
  }

  /** Every item is followed to its place.  A stack that leaves is not the same item any more; anything
      else takes along what lies in it. */
  function Settled(g: Goods, x: ItemId, b: nat, c: nat, bags: seq<Bag>): Goods
    requires Ok(g) && x in g.at && b < |g.bags|
  {
    var f := g.at[x];
    var t := ThingOf(g, x);
    var whole, puts := Whole(t, c), Puts(g, f, b, c);
    Goods(
      bags,
      map z | z in g.at && !(z == x && t.kind.stackable && whole) ::
        if z == x then if whole then Slot(b, 0) else Slot(f.bag, if f.bag == b && puts then f.pos + 1 else f.pos)
        else Moved(g.at[z], f, whole, b, puts),
      Recarried(g.carrier, g.within, x, b),
      Rehoused(g.within, x, f.bag, b),
      g.hands)
  }

  /** Who carries a container inside the item `x`, once that is in the container `b`. */
  function Recarried(carrier: seq<Option<Pid>>, within: seq<set<ItemId>>, x: ItemId, b: nat): (r: seq<Option<Pid>>)
    requires |carrier| == |within| && b < |carrier|
    ensures |r| == |carrier|
    ensures forall i :: 0 <= i < |r| ==> r[i] == if x in within[i] then carrier[b] else carrier[i]
  {
    seq(|carrier|, i requires 0 <= i < |carrier| && |within| == |carrier| && b < |carrier| =>
      if x in within[i] then carrier[b] else carrier[i])
  }

  /** What such a container lies inside of. */
  function Rehoused(within: seq<set<ItemId>>, x: ItemId, f: nat, b: nat): (r: seq<set<ItemId>>)
    requires f < |within| && b < |within|
    ensures |r| == |within|
    ensures forall i :: 0 <= i < |r| ==>
              r[i] == if x in within[i] then within[i] - within[f] + within[b] else within[i]
  {
    seq(|within|, i requires 0 <= i < |within| && f < |within| && b < |within| =>
      if x in within[i] then within[i] - within[f] + within[b] else within[i])
  }

  datatype Sent = Sent(goods: Goods, done: bool)

  /** The container in which a free slot was found lies inside the player's own item, and that is looked at. */
  predicate Refused(g: Goods, b: nat, own: ItemId, checked: bool)
    requires b < |g.within|
  {
    checked && own in g.within[b]
  }

  /** Moves `c` of the item to a player whose own item is `own`; not done when there is no free slot, or when
      the first one is refused. */
  function Send(g: Goods, x: ItemId, c: nat, to: Pid, own: ItemId, checked: bool): Sent
    requires Ok(g) && x in g.at
  {
    var f, b := g.at[x], FreeBag(g, to, own, x, 0);
    if b == |g.bags| || Refused(g, b, own, checked) then Sent(g, false)
    else
      var moved := Move(g.bags, f.bag, f.pos, b, Some(|g.bags[b].things|), c, false, true, true);
      if !Goes(g.bags, f.bag, f.pos, b, Some(|g.bags[b].things|), c, false, true, true) then
        Sent(g, moved.answer == NoError)
      else Sent(Settled(g, x, b, c, moved.bags), moved.answer == NoError)
  }

  // ----- What sending does ------------------------------------------------------------------

  /** An item that is not with the receiver goes to the receiver whole, as soon as there is a free slot. */
  lemma FreeGoes(g: Goods, x: ItemId, c: nat, to: Pid, own: ItemId)
    requires Ok(g) && x in g.at && 0 < c <= ThingOf(g, x).count
    requires g.carrier[g.at[x].bag] != Some(to) && FreeBag(g, to, own, x, 0) < |g.bags|
    ensures var f, b, t := g.at[x], FreeBag(g, to, own, x, 0), ThingOf(g, x);
            var index := Some(|g.bags[b].things|);
            var place := Destination(g.bags[b], index, t.kind, f.bag == b, true);
            && f.bag != b
            && Goes(g.bags, f.bag, f.pos, b, index, c, false, true, true)
            && HowMany(g.bags, f.bag, f.pos, b, index, c, false, true) == Quantity(t, c)
            && Move(g.bags, f.bag, f.pos, b, index, c, false, true, true).answer == NoError
            && !Drops(g.bags[b], place.index)
  {
    var f, b, t := g.at[x], FreeBag(g, to, own, x, 0), ThingOf(g, x);
    hide FirstPartial;
    SlotIsEnough(g.bags[b], t, c);
  }

  /** A free slot has room for a whole stack. */
  lemma SlotIsEnough(bag: Bag, t: Thing, c: nat)
    requires Free(bag) && Fits(t) && c <= t.count
    ensures var place := Destination(bag, Some(|bag.things|), t.kind, false, true);
            var q := QueryMax(bag, place.index, t.kind, None, c, false);
            && !Drops(bag, place.index)
            && Admits(bag, place.index, false) == NoError
            && q.max > 0 && (t.kind.stackable ==> q.max >= c)
  {
    OneSlotIsEnough(bag.capacity - |bag.things|, t.kind.size);
  }

  /** A thing that is not sent is found again where `Moved` says: of the same kind, and no less of it. */
  lemma ThingStays(bags: seq<Bag>, f: Slot, b: nat, place: Place, m: nat, s: Slot)
    requires f.bag < |bags| && f.pos < |bags[f.bag].things| && b < |bags| && f.bag != b && m > 0
    requires place.dest.Some? ==> place.dest.value < |bags[b].things|
    requires bags[f.bag].things[f.pos].kind.stackable ==> m <= bags[f.bag].things[f.pos].count
    requires !Drops(bags[b], place.index)
    requires s != f && s.bag < |bags| && s.pos < |bags[s.bag].things|
    ensures var t := bags[f.bag].things[f.pos]; var u := bags[s.bag].things[s.pos];
            var puts := !t.kind.stackable || OntoDest(bags[b], place.dest, t.kind, m) < m;
            var bags' := Transfer(bags, f.bag, f.pos, b, place, m);
            var s' := Moved(s, f, Whole(t, m), b, puts);
            && |bags'| == |bags| && s'.bag == s.bag && s'.pos < |bags'[s'.bag].things|
            && bags'[s'.bag].things[s'.pos].kind == u.kind && bags'[s'.bag].things[s'.pos].count >= u.count
  {
  }

  /** What did not leave whole is still there, and what is put into a slot comes first. */
  lemma ThingGoes(bags: seq<Bag>, f: Slot, b: nat, place: Place, m: nat)
    requires f.bag < |bags| && f.pos < |bags[f.bag].things| && b < |bags| && f.bag != b && m > 0
    requires place.dest.Some? ==> place.dest.value < |bags[b].things|
    requires bags[f.bag].things[f.pos].kind.stackable ==> m <= bags[f.bag].things[f.pos].count
    requires !Drops(bags[b], place.index)
    ensures var t := bags[f.bag].things[f.pos]; var bags' := Transfer(bags, f.bag, f.pos, b, place, m);
            && |bags'| == |bags|
            && (!t.kind.stackable ==> bags'[b].things != [] && bags'[b].things[0] == t)
            && (t.kind.stackable && m < t.count ==>
                  f.pos < |bags'[f.bag].things| && bags'[f.bag].things[f.pos].kind == t.kind)
            && |bags'[f.bag].things| == |bags[f.bag].things| - (if Whole(t, m) then 1 else 0)
            && bags'[f.bag] == bags[f.bag].(things := bags'[f.bag].things)
            && forall i :: 0 <= i < |bags| && i != f.bag && i != b ==> bags'[i] == bags[i]
  {
  }

  lemma MovedApart(s: Slot, t: Slot, f: Slot, whole: bool, b: nat, puts: bool)
    requires s != f && t != f && f.bag != b
    ensures s != t ==> Moved(s, f, whole, b, puts) != Moved(t, f, whole, b, puts)
    ensures whole && puts ==> Moved(s, f, whole, b, puts) != Slot(b, 0)
    ensures !whole ==> Moved(s, f, whole, b, puts) != f
  {
  }

  /** The order of the items is kept: each is somewhere of its own, and is what it was. */
  ghost predicate Follows(g: Goods, h: Goods, x: ItemId) {
    && Ok(g) && Ok(h) && |h.bags| == |g.bags| && h.at.Keys <= g.at.Keys
    && forall z :: z in g.at && z != x ==>
         && z in h.at && h.at[z].bag == g.at[z].bag
         && ThingOf(h, z).kind == ThingOf(g, z).kind && ThingOf(h, z).count >= ThingOf(g, z).count
  }

  /** Sending is done exactly when a free slot is found and not refused, and otherwise nothing happens. */
  lemma SendIsDoneIff(g: Goods, x: ItemId, c: nat, to: Pid, own: ItemId, checked: bool)
    requires Ok(g) && x in g.at && 0 < c <= ThingOf(g, x).count
    requires g.carrier[g.at[x].bag] != Some(to)
    ensures var s := Send(g, x, c, to, own, checked); var b := FreeBag(g, to, own, x, 0);
            && (s.done <==> b < |g.bags| && !Refused(g, b, own, checked))
            && (!s.done ==> s.goods == g)
            && (s.done ==> exists bags :: s.goods == Settled(g, x, b, c, bags) && IsTransfer(g, x, c, b, bags))
  {
    var f, b := g.at[x], FreeBag(g, to, own, x, 0);
    if b < |g.bags| && !Refused(g, b, own, checked) {
      FreeGoes(g, x, c, to, own);
      hide Goes, HowMany, Settled, Ok, Destination;
      var bags := Move(g.bags, f.bag, f.pos, b, Some(|g.bags[b].things|), c, false, true, true).bags;
      assert IsTransfer(g, x, c, b, bags) by { GoesIsTransfer(g, x, c, to, own); }
    }
  }

  /** `bags` is what is left of the containers when `c` of the item have gone to the container `b`. */
  ghost predicate IsTransfer(g: Goods, x: ItemId, c: nat, b: nat, bags: seq<Bag>)
    requires Ok(g) && x in g.at && b < |g.bags|
  {
    exists m: nat :: m > 0 && TransferredBy(g, x, c, b, m, bags)
  }

  ghost predicate TransferredBy(g: Goods, x: ItemId, c: nat, b: nat, m: nat, bags: seq<Bag>)
    requires Ok(g) && x in g.at && b < |g.bags| && m > 0
  {
    var f, t := g.at[x], ThingOf(g, x);
    var place := Destination(g.bags[b], Some(|g.bags[b].things|), t.kind, f.bag == b, true);
    && f.bag != b && !Drops(g.bags[b], place.index)
    && (t.kind.stackable ==> m == c <= t.count)
    && bags == Transfer(g.bags, f.bag, f.pos, b, place, m)
  }

  lemma GoesIsTransfer(g: Goods, x: ItemId, c: nat, to: Pid, own: ItemId)
    requires Ok(g) && x in g.at && 0 < c <= ThingOf(g, x).count
    requires g.carrier[g.at[x].bag] != Some(to) && FreeBag(g, to, own, x, 0) < |g.bags|
    ensures var f, b := g.at[x], FreeBag(g, to, own, x, 0);
            IsTransfer(g, x, c, b, Move(g.bags, f.bag, f.pos, b, Some(|g.bags[b].things|), c, false, true, true).bags)
  {
    var f, b, t := g.at[x], FreeBag(g, to, own, x, 0), ThingOf(g, x);
    FreeGoes(g, x, c, to, own);
    var index := Some(|g.bags[b].things|);
    var place := Destination(g.bags[b], index, t.kind, false, true);
    var q := QueryMax(g.bags[b], place.index, t.kind, None, c, false);
    var m := if t.kind.stackable then Min(c, q.max) else q.max;
    hide Transfer, Destination, QueryMax, Admits;
    assert TransferredBy(g, x, c, b, m, Move(g.bags, f.bag, f.pos, b, index, c, false, true, true).bags);
  }

  lemma OtherFollows(g: Goods, x: ItemId, b: nat, c: nat, m: nat, bags: seq<Bag>, z: ItemId)
    requires Ok(g) && x in g.at && b < |g.bags| && c > 0 && m > 0 && TransferredBy(g, x, c, b, m, bags)
    requires z in g.at && z != x
    ensures var h := Settled(g, x, b, c, bags);
            && z in h.at && h.at[z] == Moved(g.at[z], g.at[x], Whole(ThingOf(g, x), c), b, Puts(g, g.at[x], b, c))
            && Placed(h, h.at[z]) && h.at[z].bag == g.at[z].bag
            && ThingOf(h, z).kind == ThingOf(g, z).kind && ThingOf(h, z).count >= ThingOf(g, z).count
  {
    var f, t := g.at[x], ThingOf(g, x);
    var place := Destination(g.bags[b], Some(|g.bags[b].things|), t.kind, false, true);
    hide Transfer, Destination, OntoDest, Moved, EveryFit;
    ThingStays(g.bags, f, b, place, m, g.at[z]);
  }

  /** What is sent is either not an item any more, or has a place of its own. */
  lemma ItemSettles(g: Goods, x: ItemId, b: nat, c: nat, m: nat, bags: seq<Bag>)
    requires Ok(g) && x in g.at && b < |g.bags| && c > 0 && m > 0 && TransferredBy(g, x, c, b, m, bags)
    ensures var h := Settled(g, x, b, c, bags); var whole := Whole(ThingOf(g, x), c);
            && |bags| == |g.bags| && EveryFit(bags)
            && (x in h.at ==> Placed(h, h.at[x]) && ThingOf(h, x).kind == ThingOf(g, x).kind)
            && (x in h.at && whole ==> h.at[x] == Slot(b, 0) && Puts(g, g.at[x], b, c))
            && (x in h.at && !whole ==> h.at[x] == g.at[x])
  {
    var f, t := g.at[x], ThingOf(g, x);
    var place := Destination(g.bags[b], Some(|g.bags[b].things|), t.kind, false, true);
    TransferEffect(g.bags, f.bag, f.pos, b, place, m, b, t.kind);
    hide Transfer, Destination, OntoDest, Moved, EveryFit;
    ThingGoes(g.bags, f, b, place, m);
  }

  lemma SettledApart(g: Goods, x: ItemId, b: nat, c: nat, m: nat, bags: seq<Bag>, y: ItemId, z: ItemId)
    requires Ok(g) && x in g.at && b < |g.bags| && c > 0 && m > 0 && TransferredBy(g, x, c, b, m, bags)
    requires y != z && z != x && z in g.at && y in Settled(g, x, b, c, bags).at
    ensures var h := Settled(g, x, b, c, bags); z in h.at && h.at[y] != h.at[z]
  {
    var f := g.at[x];
    var whole, puts := Whole(ThingOf(g, x), c), Puts(g, f, b, c);
    assert y in g.at && f.bag != b;
    OtherFollows(g, x, b, c, m, bags, z);
    if y == x {
      ItemSettles(g, x, b, c, m, bags);
      MovedApart(g.at[z], g.at[z], f, whole, b, puts);
    } else {
      OtherFollows(g, x, b, c, m, bags, y);
      MovedApart(g.at[y], g.at[z], f, whole, b, puts);
    }
  }

  lemma SettledIsOk(g: Goods, x: ItemId, b: nat, c: nat, m: nat, bags: seq<Bag>)
    requires Ok(g) && x in g.at && b < |g.bags| && c > 0 && m > 0 && TransferredBy(g, x, c, b, m, bags)
    ensures Ok(Settled(g, x, b, c, bags))
  {
    var h := Settled(g, x, b, c, bags);
    ItemSettles(g, x, b, c, m, bags);
    assert |h.carrier| == |h.bags| == |h.within| && h.at.Keys <= g.at.Keys && h.bags == bags;
    hide TransferredBy, EveryFit, Settled, Puts, Whole;
    forall z | z in h.at ensures Placed(h, h.at[z]) {
      if z != x { OtherFollows(g, x, b, c, m, bags, z); }
    }
    hide Placed;
    forall y, z | y in h.at && z in h.at && y != z
      ensures h.at[y] != h.at[z]
    {
      if z != x {
        SettledApart(g, x, b, c, m, bags, y, z);
      } else {
        SettledApart(g, x, b, c, m, bags, z, y);
      }
    }
  }

  /** The other items keep their places apart, and the one that was sent has one of its own. */
  lemma SettledFollows(g: Goods, x: ItemId, b: nat, c: nat, bags: seq<Bag>)
    requires Ok(g) && x in g.at && b < |g.bags| && c > 0 && IsTransfer(g, x, c, b, bags)
    ensures Follows(g, Settled(g, x, b, c, bags), x)
  {
    var h := Settled(g, x, b, c, bags);
    var m: nat :| m > 0 && TransferredBy(g, x, c, b, m, bags);
    SettledIsOk(g, x, b, c, m, bags);
    ItemSettles(g, x, b, c, m, bags);
    assert h.bags == bags && h.at.Keys <= g.at.Keys;
    hide TransferredBy, EveryFit, Settled, Puts, Whole, Ok, Moved;
    forall z | z in g.at && z != x
      ensures z in h.at && h.at[z].bag == g.at[z].bag && Placed(h, h.at[z]) && Placed(g, g.at[z])
      ensures ThingOf(h, z).kind == ThingOf(g, z).kind && ThingOf(h, z).count >= ThingOf(g, z).count
    {
      OtherFollows(g, x, b, c, m, bags, z);
    }
  }

  // ----- The exchange -----------------------------------------------------------------------

  datatype Exchanged = Exchanged(goods: Goods, first: bool, second: bool)

  /** One item lies inside the other, at any depth. */
  predicate Inside(g: Goods, x: ItemId, y: ItemId) {
    y in g.at && g.at[y].bag < |g.within| && x in g.within[g.at[y].bag]
  }

  predicate Overlap(g: Goods, x: ItemId, y: ItemId) {
    x == y || Inside(g, x, y) || Inside(g, y, x)
  }

  /** The item lies with the player or with nobody. */
  predicate Offers(g: Goods, p: Pid, x: ItemId) {
    && x in g.at && g.at[x].bag < |g.carrier|
    && (g.carrier[g.at[x].bag] == None || g.carrier[g.at[x].bag] == Some(p))
  }

  ghost predicate Exchangeable(g: Goods, p: Pid, q: Pid, x: ItemId, y: ItemId) {
    Ok(g) && p != q && Offers(g, p, x) && Offers(g, q, y) && !Overlap(g, x, y)
  }

  /** The item `x` of `p` for the item `y` of `q`.  Both are tested; if the first has moved the second is
      moved, and that move's result is not looked at.  `allowed`: owners, weights and kinds are no hindrance. */
  function Exchange(g: Goods, p: Pid, q: Pid, x: ItemId, y: ItemId, allowed: bool): Exchanged
    requires Exchangeable(g, p, q, x, y)
  {
    if !allowed || !Tested(g, q, y, x) || !Tested(g, p, x, y) then Exchanged(g, false, false)
    else
      var c, d := ThingOf(g, x).count, ThingOf(g, y).count;
      SendFollows(g, x, c, q, y, true);
      var sent := Send(g, x, c, q, y, true);
      if !sent.done then Exchanged(sent.goods, false, false)
      else var back := Send(sent.goods, y, d, p, x, false); Exchanged(back.goods, true, back.done)
  }

  /** The other items follow, whether or not the one is sent. */
  lemma SendFollows(g: Goods, x: ItemId, c: nat, to: Pid, own: ItemId, checked: bool)
    requires Ok(g) && x in g.at && 0 < c <= ThingOf(g, x).count && g.carrier[g.at[x].bag] != Some(to)
    ensures Follows(g, Send(g, x, c, to, own, checked).goods, x)
  {
    hide Settled, IsTransfer, Send;
    SendIsDoneIff(g, x, c, to, own, checked);
    var s := Send(g, x, c, to, own, checked);
    if s.done {
      var b := FreeBag(g, to, own, x, 0);
      var bags :| s.goods == Settled(g, x, b, c, bags) && IsTransfer(g, x, c, b, bags);
      SettledFollows(g, x, b, c, bags);
    }
  }

  /** Sending moves exactly `c` units from one container to the other. */
  lemma SendUnits(g: Goods, x: ItemId, c: nat, to: Pid, own: ItemId, checked: bool, i: nat, kind: Kind)
    requires Ok(g) && x in g.at && 0 < c <= ThingOf(g, x).count && g.carrier[g.at[x].bag] != Some(to)
    requires i < |g.bags|
    ensures var s, b, t := Send(g, x, c, to, own, checked), FreeBag(g, to, own, x, 0), ThingOf(g, x);
            && |s.goods.bags| == |g.bags|
            && Units(s.goods.bags[i], kind) == Units(g.bags[i], kind)
                 - (if s.done && i == g.at[x].bag && kind == t.kind then c else 0)
                 + (if s.done && i == b && kind == t.kind then c else 0)
  {
    hide Settled, Units, Send, Transfer, OntoDest, Destination;
    SendIsDoneIff(g, x, c, to, own, checked);
    var s, t := Send(g, x, c, to, own, checked), ThingOf(g, x);
    if s.done {
      var f, b := g.at[x], FreeBag(g, to, own, x, 0);
      var bags :| s.goods == Settled(g, x, b, c, bags) && IsTransfer(g, x, c, b, bags);
      var m: nat :| m > 0 && TransferredBy(g, x, c, b, m, bags);
      SettledBags(g, x, b, c, bags);
      var place := Destination(g.bags[b], Some(|g.bags[b].things|), t.kind, f.bag == b, true);
      TransferEffect(g.bags, f.bag, f.pos, b, place, m, i, kind);
    }
  }

  lemma SettledBags(g: Goods, x: ItemId, b: nat, c: nat, bags: seq<Bag>)
    requires Ok(g) && x in g.at && b < |g.bags|
    ensures var h := Settled(g, x, b, c, bags);
            && h.bags == bags && h.carrier == Recarried(g.carrier, g.within, x, b)
            && h.within == Rehoused(g.within, x, g.at[x].bag, b) && h.hands == g.hands
  {
  }

  /** All containers together hold after a sending what they held before. */
  lemma SendKeepsTotal(g: Goods, x: ItemId, c: nat, to: Pid, own: ItemId, checked: bool, kind: Kind)
    requires Ok(g) && x in g.at && 0 < c <= ThingOf(g, x).count && g.carrier[g.at[x].bag] != Some(to)
    ensures Total(Send(g, x, c, to, own, checked).goods.bags, UnitsOf(kind)) == Total(g.bags, UnitsOf(kind))
  {
    var f, b := g.at[x], FreeBag(g, to, own, x, 0);
    if b < |g.bags| && !Refused(g, b, own, checked) {
      FreeGoes(g, x, c, to, own);
      hide Move, Goes, Destination, Units, HowMany, OntoDest;
      MoveTotal(g.bags, f.bag, f.pos, b, Some(|g.bags[b].things|), c, false, true, true, kind);
    }
  }

  /** An item that does not lie inside the one that is sent stays where it is, with whom it was. */
  lemma SendLeavesOther(g: Goods, x: ItemId, c: nat, to: Pid, own: ItemId, checked: bool, z: ItemId)
    requires Ok(g) && x in g.at && 0 < c <= ThingOf(g, x).count && g.carrier[g.at[x].bag] != Some(to)
    requires z in g.at && z != x && !Inside(g, x, z)
    ensures var h := Send(g, x, c, to, own, checked).goods; var i := g.at[z].bag;
            && Ok(h) && z in h.at && h.at[z].bag == i
            && ThingOf(h, z).kind == ThingOf(g, z).kind && ThingOf(h, z).count >= ThingOf(g, z).count
            && h.carrier[i] == g.carrier[i] && h.within[i] == g.within[i]
  {
    hide Settled, IsTransfer, Send;
    SendFollows(g, x, c, to, own, checked);
    SendIsDoneIff(g, x, c, to, own, checked);
    var s := Send(g, x, c, to, own, checked);
    if s.done {
      var b := FreeBag(g, to, own, x, 0);
      var bags :| s.goods == Settled(g, x, b, c, bags) && IsTransfer(g, x, c, b, bags);
      SettledBags(g, x, b, c, bags);
    }
  }

  /** An item that does not stack is the first in its new container, and takes along what lies in it, at any depth:
      that is with the receiver now, inside the item and what the item lies in, and no longer inside what the item
      lay in before. */
  lemma SendTakesAlong(g: Goods, x: ItemId, c: nat, to: Pid, own: ItemId, checked: bool, i: nat)
    requires Ok(g) && x in g.at && 0 < c <= ThingOf(g, x).count && g.carrier[g.at[x].bag] != Some(to)
    requires Send(g, x, c, to, own, checked).done && !ThingOf(g, x).kind.stackable && i < |g.bags|
    ensures var h := Send(g, x, c, to, own, checked).goods;
            && Ok(h) && |h.bags| == |g.bags| && x in h.at && h.carrier[h.at[x].bag] == Some(to) && h.at[x].pos == 0
            && ThingOf(h, x) == ThingOf(g, x)
            && (x in g.within[i] ==>
                  && h.carrier[i] == Some(to)
                  && forall z :: z in h.within[i] <==>
                       (z in g.within[i] && z !in g.within[g.at[x].bag]) || z in g.within[h.at[x].bag])
            && (x !in g.within[i] ==> h.carrier[i] == g.carrier[i] && h.within[i] == g.within[i])
  {
    hide Settled, Send, Transfer, OntoDest, Destination;
    SendIsDoneIff(g, x, c, to, own, checked);
    SendFollows(g, x, c, to, own, checked);
    var s, f, b := Send(g, x, c, to, own, checked), g.at[x], FreeBag(g, to, own, x, 0);
    var bags :| s.goods == Settled(g, x, b, c, bags) && IsTransfer(g, x, c, b, bags);
    var m: nat :| m > 0 && TransferredBy(g, x, c, b, m, bags);
    SettledBags(g, x, b, c, bags);
    SettledItem(g, x, b, c, bags);
    ThingGoes(g.bags, f, b, Destination(g.bags[b], Some(|g.bags[b].things|), ThingOf(g, x).kind, f.bag == b, true), m);
  }

  lemma SettledItem(g: Goods, x: ItemId, b: nat, c: nat, bags: seq<Bag>)
    requires Ok(g) && x in g.at && b < |g.bags| && !ThingOf(g, x).kind.stackable
    ensures var h := Settled(g, x, b, c, bags); x in h.at && h.at[x] == Slot(b, 0)
  {
  }

  /** A container of `p` takes `y` once `x` has left. */
  predicate MakesRoom(g: Goods, p: Pid, x: ItemId, y: ItemId, b: nat)
    requires b < |g.bags| && |g.carrier| == |g.bags| == |g.within| && x in g.at
  {
    && g.carrier[b] == Some(p) && b !in g.hands && x !in g.within[b] && y !in g.within[b]
    && var size := |g.bags[b].things| - if g.at[x].bag == b then 1 else 0;
       size < g.bags[b].capacity && size + 1 <= g.bags[b].most
  }

  lemma RoomAfterSending(g: Goods, p: Pid, q: Pid, x: ItemId, y: ItemId, b: nat)
    requires Exchangeable(g, p, q, x, y) && b < |g.bags|
    requires Send(g, x, ThingOf(g, x).count, q, y, true).done
    ensures var h := Send(g, x, ThingOf(g, x).count, q, y, true).goods;
            && |h.carrier| == |h.bags| == |h.within| == |g.bags|
            && (Takes(h, b, p, x, y) <==> MakesRoom(g, p, x, y, b))
  {
    hide Settled, Send, Transfer, OntoDest, Destination;
    var c := ThingOf(g, x).count;
    SendIsDoneIff(g, x, c, q, y, true);
    var s, t := Send(g, x, c, q, y, true), ThingOf(g, x);
    var f, d := g.at[x], FreeBag(g, q, y, x, 0);
    var bags :| s.goods == Settled(g, x, d, c, bags) && IsTransfer(g, x, c, d, bags);
    var m: nat :| m > 0 && TransferredBy(g, x, c, d, m, bags);
    SettledBags(g, x, d, c, bags);
    var place := Destination(g.bags[d], Some(|g.bags[d].things|), t.kind, f.bag == d, true);
    ThingGoes(g.bags, f, d, place, m);
  }

  /** The first container, in the order of the search, in which a player finds a free slot. */
  predicate TakesFirst(g: Goods, b: nat, p: Pid, own: ItemId, x: ItemId)
    requires b < |g.bags| && |g.carrier| == |g.bags| == |g.within|
  {
    Takes(g, b, p, own, x) && forall j :: 0 <= j < b ==> !Takes(g, j, p, own, x)
  }

  lemma TakesFirstIff(g: Goods, p: Pid, own: ItemId, x: ItemId)
    requires |g.carrier| == |g.bags| == |g.within|
    ensures var b := FreeBag(g, p, own, x, 0);
            (b < |g.bags| && own !in g.within[b])
            <==> exists a :: 0 <= a < |g.bags| && TakesFirst(g, a, p, own, x) && own !in g.within[a]
  {
    var b := FreeBag(g, p, own, x, 0);
    hide Takes;
    if b < |g.bags| {
      assert TakesFirst(g, b, p, own, x);
    }
    forall a | 0 <= a < |g.bags| && TakesFirst(g, a, p, own, x)
      ensures a == b
    {
    }
  }

  lemma FreeBagIff(g: Goods, p: Pid, own: ItemId, x: ItemId)
    requires |g.carrier| == |g.bags| == |g.within|
    ensures FreeBag(g, p, own, x, 0) < |g.bags| <==> exists b :: 0 <= b < |g.bags| && Takes(g, b, p, own, x)
  {
  }

  /** Both tests find a place. */
  predicate BothTested(g: Goods, p: Pid, q: Pid, x: ItemId, y: ItemId)
    requires |g.carrier| == |g.bags| == |g.within| && x in g.at && y in g.at && Placed(g, g.at[x]) && Placed(g, g.at[y])
  {
    Tested(g, q, y, x) && Tested(g, p, x, y)
  }

  /** Which of the two moves are made, told from the state before: the first needs a free slot with `q`, the
      first of which does not lie in `y`; the second one with `p`, for which the slot that `x` leaves counts. */
  lemma ExchangeMovesIff(g: Goods, p: Pid, q: Pid, x: ItemId, y: ItemId, allowed: bool)
    requires Exchangeable(g, p, q, x, y)
    ensures var e := Exchange(g, p, q, x, y, allowed);
            && (e.first <==> allowed && BothTested(g, p, q, x, y)
                             && exists b :: 0 <= b < |g.bags| && TakesFirst(g, b, q, y, x) && y !in g.within[b])
            && (e.second <==> e.first && exists b :: 0 <= b < |g.bags| && MakesRoom(g, p, x, y, b))
            && (!e.first ==> e.goods == g)
  {
    hide Settled, Send, Tested, Takes, TakesFirst, MakesRoom;
    var c, d := ThingOf(g, x).count, ThingOf(g, y).count;
    SendIsDoneIff(g, x, c, q, y, true);
    TakesFirstIff(g, q, y, x);
    var sent := Send(g, x, c, q, y, true);
    if allowed && BothTested(g, p, q, x, y) && sent.done {
      SendFollows(g, x, c, q, y, true);
      SendLeavesOther(g, x, c, q, y, true, y);
      SendIsDoneIff(sent.goods, y, d, p, x, false);
      FreeBagIff(sent.goods, p, x, y);
      forall b | 0 <= b < |g.bags| {
        RoomAfterSending(g, p, q, x, y, b);
      }
    }
  }

  /** Where the items end up. */
  ghost function FirstTarget(g: Goods, q: Pid, x: ItemId, y: ItemId): nat
    requires |g.carrier| == |g.bags| == |g.within|
  {
    FreeBag(g, q, y, x, 0)
  }

  ghost function SecondTarget(g: Goods, p: Pid, q: Pid, x: ItemId, y: ItemId): nat
    requires Exchangeable(g, p, q, x, y)
  {
    SendFollows(g, x, ThingOf(g, x).count, q, y, true);
    FreeBag(Send(g, x, ThingOf(g, x).count, q, y, true).goods, p, x, y, 0)
  }

  /** The units that a container gains by a move of `c` of a kind. */
  function Gain(made: bool, i: nat, from: nat, to: nat, c: nat, k: Kind, kind: Kind): int {
    if made && kind == k then (if i == to then c else 0) - (if i == from then c else 0) else 0
  }

  /** Every container gains and loses exactly what the moves that are made carry: the whole of the one item
      goes to a container of `q`, then as much as there was of the other to one of `p`. */
  lemma ExchangeUnits(g: Goods, p: Pid, q: Pid, x: ItemId, y: ItemId, allowed: bool, i: nat, kind: Kind)
    requires Exchangeable(g, p, q, x, y) && i < |g.bags|
    ensures var e := Exchange(g, p, q, x, y, allowed); var a, b := ThingOf(g, x), ThingOf(g, y);
            var s, t := FirstTarget(g, q, x, y), SecondTarget(g, p, q, x, y);
            && |e.goods.bags| == |g.bags|
            && (e.first ==> s < |g.bags| && g.carrier[s] == Some(q))
            && (e.second ==> e.first && t < |g.bags| && g.carrier[t] == Some(p))
            && Units(e.goods.bags[i], kind) == Units(g.bags[i], kind)
                 + Gain(e.first, i, g.at[x].bag, s, a.count, a.kind, kind)
                 + Gain(e.second, i, g.at[y].bag, t, b.count, b.kind, kind)
  {
    hide Settled, Send, Units, Tested, Takes, MakesRoom;
    var c, d := ThingOf(g, x).count, ThingOf(g, y).count;
    var e := Exchange(g, p, q, x, y, allowed);
    if allowed && BothTested(g, p, q, x, y) {
      SendIsDoneIff(g, x, c, q, y, true);
      SendUnits(g, x, c, q, y, true, i, kind);
      FirstTargetIsHis(g, p, q, x, y);
      if e.first {
        SendFollows(g, x, c, q, y, true);
        SendLeavesOther(g, x, c, q, y, true, y);
        SendUnits(Send(g, x, c, q, y, true).goods, y, d, p, x, false, i, kind);
        SecondTargetIsHis(g, p, q, x, y);
      }
    }
  }

  lemma FirstTargetIsHis(g: Goods, p: Pid, q: Pid, x: ItemId, y: ItemId)
    requires Exchangeable(g, p, q, x, y)
    ensures var s := FirstTarget(g, q, x, y); s < |g.bags| ==> g.carrier[s] == Some(q)
    ensures Send(g, x, ThingOf(g, x).count, q, y, true).done ==> FirstTarget(g, q, x, y) < |g.bags|
  {
    hide Settled, Send;
    SendIsDoneIff(g, x, ThingOf(g, x).count, q, y, true);
  }

  lemma SecondTargetIsHis(g: Goods, p: Pid, q: Pid, x: ItemId, y: ItemId)
    requires Exchangeable(g, p, q, x, y) && Send(g, x, ThingOf(g, x).count, q, y, true).done
    ensures var h, t := Send(g, x, ThingOf(g, x).count, q, y, true).goods, SecondTarget(g, p, q, x, y);
            && y in h.at && Ok(h) && h.carrier[h.at[y].bag] != Some(p) && |h.bags| == |g.bags|
            && (t < |g.bags| ==> g.carrier[t] == Some(p))
            && (Send(h, y, ThingOf(g, y).count, p, x, false).done <==> t < |g.bags|)
  {
    hide Settled, Send;
    var c := ThingOf(g, x).count;
    var h, t := Send(g, x, c, q, y, true).goods, SecondTarget(g, p, q, x, y);
    SendFollows(g, x, c, q, y, true);
    SendLeavesOther(g, x, c, q, y, true, y);
    SendIsDoneIff(h, y, ThingOf(g, y).count, p, x, false);
    if t < |g.bags| {
      RoomAfterSending(g, p, q, x, y, t);
    }
  }

  /** Whatever is tested and moved, no unit of any kind is lost or doubled. */
  lemma ExchangeKeepsTotal(g: Goods, p: Pid, q: Pid, x: ItemId, y: ItemId, allowed: bool, kind: Kind)
    requires Exchangeable(g, p, q, x, y)
    ensures Total(Exchange(g, p, q, x, y, allowed).goods.bags, UnitsOf(kind)) == Total(g.bags, UnitsOf(kind))
  {
    hide Settled, Send, Tested, Units;
    var c, d := ThingOf(g, x).count, ThingOf(g, y).count;
    SendKeepsTotal(g, x, c, q, y, true, kind);
    SendFollows(g, x, c, q, y, true);
    SendLeavesOther(g, x, c, q, y, true, y);
    SendKeepsTotal(Send(g, x, c, q, y, true).goods, y, d, p, x, false, kind);
  }

  lemma ExchangeStaysOk(g: Goods, p: Pid, q: Pid, x: ItemId, y: ItemId, allowed: bool)
    requires Exchangeable(g, p, q, x, y)
    ensures Ok(Exchange(g, p, q, x, y, allowed).goods)
  {
    hide Settled, Send, Tested;
    var c, d := ThingOf(g, x).count, ThingOf(g, y).count;
    SendFollows(g, x, c, q, y, true);
    SendLeavesOther(g, x, c, q, y, true, y);
    SendFollows(Send(g, x, c, q, y, true).goods, y, d, p, x, false);
  }

  /** An item that overlaps neither of the two stays where it is, with whom it was. */
  lemma ExchangeLeavesOther(g: Goods, p: Pid, q: Pid, x: ItemId, y: ItemId, allowed: bool, z: ItemId)
    requires Exchangeable(g, p, q, x, y)
    requires z in g.at && !Overlap(g, x, z) && !Overlap(g, y, z)
    ensures var h := Exchange(g, p, q, x, y, allowed).goods; var i := g.at[z].bag;
            && Ok(h) && z in h.at && h.at[z].bag == i && h.carrier[i] == g.carrier[i] && h.within[i] == g.within[i]
  {
    hide Settled, Send, Tested;
    var c, d := ThingOf(g, x).count, ThingOf(g, y).count;
    SendFollows(g, x, c, q, y, true);
    SendLeavesOther(g, x, c, q, y, true, y);
    SendLeavesOther(g, x, c, q, y, true, z);
    var h := Send(g, x, c, q, y, true).goods;
    if y in h.at && h.carrier[h.at[y].bag] != Some(p) {
      SendFollows(h, y, d, p, x, false);
      SendLeavesOther(h, y, d, p, x, false, z);
    }
  }

  /** A trade is half done, one player having both items, if and only if both tests find a place and `q` has
      a free slot, the first outside `y`, but `p` has none, also where `x` lay. */
  lemma HalfDoneIff(g: Goods, p: Pid, q: Pid, x: ItemId, y: ItemId, allowed: bool)
    requires Exchangeable(g, p, q, x, y)
    ensures var e := Exchange(g, p, q, x, y, allowed);
            (e.goods != g && !e.second)
            <==> && allowed && BothTested(g, p, q, x, y)
                 && (exists b :: 0 <= b < |g.bags| && TakesFirst(g, b, q, y, x) && y !in g.within[b])
                 && forall b :: 0 <= b < |g.bags| ==> !MakesRoom(g, p, x, y, b)
  {
    hide BothTested, Takes, TakesFirst, MakesRoom, Exchange;
    ExchangeMovesIff(g, p, q, x, y, allowed);
    ExchangeUnits(g, p, q, x, y, allowed, g.at[x].bag, ThingOf(g, x).kind);
  }

  const COIN := Kind(0, true, 100)
  const SWORD := Kind(1, false, 1)

  /** Player 0 offers the sword 7 on the ground and carries a full pack with fifty coins; player 1 offers
      ten coins, the item 8, and has a free slot. */
  function FullPack(): Goods {
    Goods([Bag(10, false, 100, false, [Thing(SWORD, 1)]),
           Bag(1, false, 100, false, [Thing(COIN, 50)]),
           Bag(2, false, 100, false, [Thing(COIN, 10)])],
          map[7 := Slot(0, 0), 8 := Slot(2, 0)], [None, Some(0), Some(1)], [{}, {}, {}], {})
  }

  lemma FullPackIsOk()
    ensures Exchangeable(FullPack(), 0, 1, 7, 8)
    ensures ThingOf(FullPack(), 7) == Thing(SWORD, 1) && ThingOf(FullPack(), 8) == Thing(COIN, 10)
  {
  }

  lemma FullPackPlaces()
    requires Exchangeable(FullPack(), 0, 1, 7, 8)
    ensures var g := FullPack();
            && BothTested(g, 0, 1, 7, 8)
            && (forall b :: 0 <= b < 3 ==> (Takes(g, b, 1, 8, 7) <==> b == 2))
            && (forall b :: 0 <= b < 3 ==> !MakesRoom(g, 0, 7, 8, b))
  {
    var g := FullPack();
    assert Partial(g.bags[1].things[0], COIN);
    assert MayTake(g, 1, 0, 7, 8) && MayTake(g, 2, 1, 8, 7);
  }

  lemma FullPackUnits()
    ensures var bags := FullPack().bags;
            && Units(bags[0], SWORD) == 1 && Units(bags[1], COIN) == 50
            && Units(bags[2], SWORD) == 0 && Units(bags[2], COIN) == 10
  {
    var bags := FullPack().bags;
    UnitsOfOne(bags[0], Thing(SWORD, 1), SWORD);
    UnitsOfOne(bags[1], Thing(COIN, 50), COIN);
    UnitsOfOne(bags[2], Thing(COIN, 10), SWORD);
    UnitsOfOne(bags[2], Thing(COIN, 10), COIN);
  }

  lemma UnitsOfOne(bag: Bag, t: Thing, kind: Kind)
    requires bag.things == [t]
    ensures Units(bag, kind) == if t.kind == kind then t.count else 0
  {
    assert bag.things[1..] == [];
    assert Total(bag.things, CountOf(kind)) == CountOf(kind)(t) + Total([], CountOf(kind));
  }

  /** The coins would fit on the fifty, so both tests succeed; but they are moved into a slot of their own,
      and there is none: player 1 ends up with the sword and the coins. */
  lemma AHalfDoneTrade()
    ensures Exchangeable(FullPack(), 0, 1, 7, 8)
    ensures var e := Exchange(FullPack(), 0, 1, 7, 8, true);
            && e.first && !e.second && |e.goods.bags| == 3
            && Units(e.goods.bags[0], SWORD) == 0 && Units(e.goods.bags[1], COIN) == 50
            && Units(e.goods.bags[2], SWORD) == 1 && Units(e.goods.bags[2], COIN) == 10
  {
    FullPackIsOk();
    FullPackPlaces();
    FullPackUnits();
    hide Units, Exchange, Exchangeable, BothTested, Takes, MakesRoom, SecondTarget;
    ExchangeMovesIff(FullPack(), 0, 1, 7, 8, true);
    ExchangeUnits(FullPack(), 0, 1, 7, 8, true, 0, SWORD);
    ExchangeUnits(FullPack(), 0, 1, 7, 8, true, 1, COIN);
    ExchangeUnits(FullPack(), 0, 1, 7, 8, true, 2, SWORD);
    ExchangeUnits(FullPack(), 0, 1, 7, 8, true, 2, COIN);
  }

  const BAG := Kind(2, false, 1)

  /** Player 0 offers the empty bag 7, which has one slot and fills all the place there is; player 1 offers the
      sword 8 and has a free slot.  The bag is worn or lies in a full pack. */
  function EmptyBag(worn: bool): Goods {
    Goods([Bag(1, false, 100, false, [Thing(BAG, 1)]),
           Bag(1, false, 100, false, []),
           Bag(2, false, 100, false, [Thing(SWORD, 1)])],
          map[7 := Slot(0, 0), 8 := Slot(2, 0)], [Some(0), Some(0), Some(1)], [{}, {7}, {}],
          if worn then {0} else {})
  }

  lemma EmptyBagPlaces(worn: bool)
    ensures Exchangeable(EmptyBag(worn), 0, 1, 7, 8)
    ensures var g := EmptyBag(worn);
            && (BothTested(g, 0, 1, 7, 8) <==> !worn)
            && TakesFirst(g, 2, 1, 8, 7) && 8 !in g.within[2]
            && (MakesRoom(g, 0, 7, 8, 0) <==> !worn)
  {
    var g := EmptyBag(worn);
    assert MayTake(g, 2, 1, 8, 7) && !MayTake(g, 0, 0, 7, 8);
    assert MayTake(g, 1, 0, 7, 8) <==> !worn;
  }

  /** The bag in the pack is searched, and its own slot is the place that the test finds; after the two moves
      the sword lies where the bag lay.  A bag that is worn is passed over, and nothing happens. */
  lemma AnOfferedBag(worn: bool)
    ensures Exchangeable(EmptyBag(worn), 0, 1, 7, 8)
    ensures var e := Exchange(EmptyBag(worn), 0, 1, 7, 8, true);
            (e.first <==> !worn) && (e.second <==> !worn) && (worn ==> e.goods == EmptyBag(worn))
  {
    EmptyBagPlaces(worn);
    hide Exchange, Exchangeable, BothTested, TakesFirst, Takes, MakesRoom;
    ExchangeMovesIff(EmptyBag(worn), 0, 1, 7, 8, true);
  }

  /** Player 1 has a full pack with two bags of one slot each, the first of which, 8, is offered for the sword 7
      of player 0. */
  function TwoBags(): Goods {
    Goods([Bag(2, false, 100, false, [Thing(SWORD, 1)]),
           Bag(2, false, 100, false, [Thing(BAG, 1), Thing(BAG, 1)]),
           Bag(1, false, 100, false, []),
           Bag(1, false, 100, false, [])],
          map[7 := Slot(0, 0), 8 := Slot(1, 0), 9 := Slot(1, 1)],
          [Some(0), Some(1), Some(1), Some(1)], [{}, {}, {8}, {9}], {})
  }

  lemma TwoBagsIsOk()
    ensures Exchangeable(TwoBags(), 0, 1, 7, 8)
    ensures ThingOf(TwoBags(), 7) == Thing(SWORD, 1) && ThingOf(TwoBags(), 8) == Thing(BAG, 1)
  {
    var g := TwoBags();
    assert g.at.Keys == {7, 8, 9};
    assert forall x :: x in g.at ==> Placed(g, g.at[x]);
    assert g.at[7] != g.at[8] && g.at[7] != g.at[9] && g.at[8] != g.at[9];
    assert EveryFit(g.bags);
    hide Placed, EveryFit;
  }

  lemma TwoBagsPlaces()
    requires Exchangeable(TwoBags(), 0, 1, 7, 8)
    ensures var g := TwoBags();
            && BothTested(g, 0, 1, 7, 8) && Takes(g, 3, 1, 8, 7)
            && TakesFirst(g, 2, 1, 8, 7) && 8 in g.within[2]
  {
    var g := TwoBags();
    TwoBagsIsOk();
    hide Ok, Exchangeable, Overlap;
    assert !Takes(g, 0, 1, 8, 7) && !Takes(g, 1, 1, 8, 7) && Takes(g, 2, 1, 8, 7);
    assert MayTake(g, 2, 1, 8, 7) && MayTake(g, 0, 0, 7, 8);
    hide Takes, MayTake;
  }

  /** Both tests succeed and the other bag would take the sword; but the first free slot is in the bag that is
      offered, so the move is refused and nothing happens. */
  lemma ARefusedMove()
    ensures Exchangeable(TwoBags(), 0, 1, 7, 8)
    ensures BothTested(TwoBags(), 0, 1, 7, 8) && Takes(TwoBags(), 3, 1, 8, 7)
    ensures var e := Exchange(TwoBags(), 0, 1, 7, 8, true); !e.first && !e.second && e.goods == TwoBags()
  {
    var g := TwoBags();
    TwoBagsIsOk();
    TwoBagsPlaces();
    ExchangeMovesIff(g, 0, 1, 7, 8, true);
    hide Exchange, Exchangeable, BothTested, Takes, MakesRoom;
    forall b | 0 <= b < |g.bags| && TakesFirst(g, b, 1, 8, 7) ensures b == 2 {
    }
  }
}
