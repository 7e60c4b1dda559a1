/** How much a container has room for, where a thing goes in it, and in which order things then lie. */
module StackRoom {
  import opened Basics
  import opened Sequences
  import opened StackRules
  import opened StackLaws

  // ----- Room -------------------------------------------------------------------------------

  /** The slots of a container; one that is overfull has those that are taken. */
  function Slots(bag: Bag): nat {
    Max(bag.capacity, |bag.things|)
  }

  /** The thing may grow when more of the kind is put into the container: any stack of the kind but the one that
      is moved, or when a slot is asked for, the one that lies there. */
  predicate MayGrow(bag: Bag, index: Option<nat>, self: Option<nat>, kind: Kind, i: nat)
    requires i < |bag.things|
  {
    bag.things[i].kind == kind && if index.Some? then index == Some(i) else self != Some(i)
  }

  /** `h` is the container with more of the kind in it: stacks have grown, and new ones have come behind. */
  ghost predicate Grown(bag: Bag, h: seq<Thing>, index: Option<nat>, self: Option<nat>, kind: Kind) {
    && |bag.things| <= |h| <= Slots(bag)
    && (forall i :: 0 <= i < |h| ==> Fits(h[i]))
    && (forall i :: 0 <= i < |bag.things| ==> GrownAt(bag, h, index, self, kind, i))
    && forall i :: |bag.things| <= i < |h| ==> h[i].kind == kind
  }

  ghost predicate GrownAt(bag: Bag, h: seq<Thing>, index: Option<nat>, self: Option<nat>, kind: Kind, i: nat)
    requires i < |bag.things| <= |h|
  {
    if MayGrow(bag, index, self, kind, i) then h[i].kind == kind && h[i].count >= bag.things[i].count
    else h[i] == bag.things[i]
  }

  ghost function CountIn(things: seq<Thing>, kind: Kind): nat {
    Total(things, CountOf(kind))
  }

  /** What a stack can still take. */
  function Grows(bag: Bag, index: Option<nat>, self: Option<nat>, kind: Kind, i: nat): nat
    requires i < |bag.things|
  {
    if MayGrow(bag, index, self, kind, i) then RoomOn(bag.things[i], kind) else 0
  }

  /** What the first `n` stacks can still take. */
  function GrowsUpTo(bag: Bag, index: Option<nat>, self: Option<nat>, kind: Kind, n: nat): nat
    requires n <= |bag.things|
  {
    if n == 0 then 0 else GrowsUpTo(bag, index, self, kind, n - 1) + Grows(bag, index, self, kind, n - 1)
  }

  lemma {:induction false} RoomSnoc(things: seq<Thing>, t: Thing, kind: Kind, self: Option<nat>)
    ensures Room(things + [t], kind, self)
            == Room(things, kind, self) + if self == Some(|things|) then 0 else RoomOn(t, kind)
  {
    if things == [] {
      assert [] + [t] == [t] && [t][1..] == [];
    } else {
      assert (things + [t])[1..] == things[1..] + [t];
      RoomSnoc(things[1..], t, kind, if self.Some? && self.value > 0 then Some(self.value - 1) else None);
    }
  }

  lemma {:induction false} RoomIsGrowth(bag: Bag, self: Option<nat>, kind: Kind, n: nat)
    requires n <= |bag.things|
    ensures GrowsUpTo(bag, None, self, kind, n) == Room(bag.things[..n], kind, self)
  {
    if n > 0 {
      RoomIsGrowth(bag, self, kind, n - 1);
      assert bag.things[..n] == bag.things[..n - 1] + [bag.things[n - 1]];
      RoomSnoc(bag.things[..n - 1], bag.things[n - 1], kind, self);
    }
  }

  lemma {:induction false} SlotIsGrowth(bag: Bag, k: nat, self: Option<nat>, kind: Kind, n: nat)
    requires n <= |bag.things|
    ensures GrowsUpTo(bag, Some(k), self, kind, n) == if k < n then RoomOn(bag.things[k], kind) else 0
  {
    if n > 0 {
      SlotIsGrowth(bag, k, self, kind, n - 1);
    }
  }

  /** The maximum is the free slots' worth and what the stacks can still take. */
  lemma MaximumIs(bag: Bag, index: Option<nat>, kind: Kind, self: Option<nat>, count: nat)
    requires !bag.paged && kind.stackable
    ensures QueryMax(bag, index, kind, self, count, false).max
            == (Slots(bag) - |bag.things|) * kind.size + GrowsUpTo(bag, index, self, kind, |bag.things|)
  {
    assert bag.things[..|bag.things|] == bag.things;
    if index.None? {
      RoomIsGrowth(bag, self, kind, |bag.things|);
    } else {
      SlotIsGrowth(bag, index.value, self, kind, |bag.things|);
    }
  }

  lemma CountSnoc(h: seq<Thing>, kind: Kind, n: nat)
    requires 0 < n <= |h|
    ensures CountIn(h[..n], kind) == CountIn(h[..n - 1], kind) + if h[n - 1].kind == kind then h[n - 1].count else 0
  {
    assert h[..n] == h[..n - 1] + [h[n - 1]];
    TotalAppend(h[..n - 1], h[n - 1], CountOf(kind));
  }

  /** The first `n` stacks hold no more than before and what they could still take, and each new stack no more
      than a full one. */
  lemma {:induction false} GrownCount(bag: Bag, h: seq<Thing>, index: Option<nat>, self: Option<nat>, kind: Kind,
                                      n: nat)
    requires Grown(bag, h, index, self, kind) && n <= |h| && kind.stackable
    ensures CountIn(h[..n], kind) <= Bound(bag, index, self, kind, n)
  {
    hide CountIn, Total;
    var m := |bag.things|;
    if n == 0 {
      assert h[..0] == bag.things[..0];
    } else {
      GrownCount(bag, h, index, self, kind, n - 1);
      CountSnoc(h, kind, n);
      BoundNext(bag, index, self, kind, n);
      if n <= m {
        assert GrownAt(bag, h, index, self, kind, n - 1);
        CountSnoc(bag.things, kind, n);
      } else {
        assert Fits(h[n - 1]);
      }
    }
  }

  ghost function Bound(bag: Bag, index: Option<nat>, self: Option<nat>, kind: Kind, n: nat): nat {
    if n <= |bag.things| then CountIn(bag.things[..n], kind) + GrowsUpTo(bag, index, self, kind, n)
    else CountIn(bag.things, kind) + GrowsUpTo(bag, index, self, kind, |bag.things|) + (n - |bag.things|) * kind.size
  }

  lemma BoundNext(bag: Bag, index: Option<nat>, self: Option<nat>, kind: Kind, n: nat)
    requires n > 0
    ensures n > |bag.things| ==>
              Bound(bag, index, self, kind, n) == Bound(bag, index, self, kind, n - 1) + kind.size
    ensures n <= |bag.things| ==>
              Bound(bag, index, self, kind, n) == Bound(bag, index, self, kind, n - 1)
                + Grows(bag, index, self, kind, n - 1)
                + if bag.things[n - 1].kind == kind then bag.things[n - 1].count else 0
  {
    if n <= |bag.things| {
      CountSnoc(bag.things, kind, n);
    } else {
      hide CountIn, GrowsUpTo;
      assert bag.things[..|bag.things|] == bag.things;
      var k := n - |bag.things|;
      assert k * kind.size == (k - 1) * kind.size + kind.size;
    }
  }

  /** With all its stacks of the kind grown to the full size, and new full ones behind them. */
  ghost function Full(bag: Bag, index: Option<nat>, self: Option<nat>, kind: Kind): seq<Thing>
  {
    seq(Slots(bag), i requires 0 <= i < Slots(bag) =>
      if i >= |bag.things| then Thing(kind, kind.size)
      else bag.things[i].(count := bag.things[i].count + Grows(bag, index, self, kind, i)))
  }

  lemma {:induction false} FullCount(bag: Bag, index: Option<nat>, self: Option<nat>, kind: Kind, n: nat)
    requires n <= Slots(bag)
    ensures CountIn(Full(bag, index, self, kind)[..n], kind) == Bound(bag, index, self, kind, n)
  {
    hide CountIn, Total;
    var h := Full(bag, index, self, kind);
    if n == 0 {
      assert h[..0] == bag.things[..0];
    } else {
      FullCount(bag, index, self, kind, n - 1);
      CountSnoc(h, kind, n);
      BoundNext(bag, index, self, kind, n);
    }
  }

  /** The maximum that a container without pages reports is the most that can be put into it, on the stacks that
      may grow and into new ones: no way to fill it adds more, and one way adds just that much. */
  lemma MaximumIsMost(bag: Bag, index: Option<nat>, kind: Kind, self: Option<nat>, count: nat)
    requires !bag.paged && kind.stackable && AllFit(bag)
    ensures var q := QueryMax(bag, index, kind, self, count, false);
            && (forall h :: Grown(bag, h, index, self, kind) ==> CountIn(h, kind) <= CountIn(bag.things, kind) + q.max)
            && (exists h :: Grown(bag, h, index, self, kind) && CountIn(h, kind) == CountIn(bag.things, kind) + q.max)
            && (q.ok <==> count <= q.max)
  {
    MaximumIs(bag, index, kind, self, count);
    var max := QueryMax(bag, index, kind, self, count, false).max;
    FullIsGrown(bag, index, self, kind);
    BoundIsMaximum(bag, index, kind, self, count);
    hide QueryMax, CountIn, Grown, Full, Bound;
    forall h | Grown(bag, h, index, self, kind) ensures CountIn(h, kind) <= CountIn(bag.things, kind) + max {
      GrownIsBounded(bag, h, index, self, kind);
    }
    var full := Full(bag, index, self, kind);
    FullCount(bag, index, self, kind, Slots(bag));
    assert full[..Slots(bag)] == full;
  }

  lemma BoundIsMaximum(bag: Bag, index: Option<nat>, kind: Kind, self: Option<nat>, count: nat)
    requires !bag.paged && kind.stackable
    ensures Bound(bag, index, self, kind, Slots(bag))
            == CountIn(bag.things, kind) + QueryMax(bag, index, kind, self, count, false).max
    ensures var q := QueryMax(bag, index, kind, self, count, false); q.ok <==> count <= q.max
  {
    MaximumIs(bag, index, kind, self, count);
    hide CountIn, GrowsUpTo, Room;
    assert bag.things[..|bag.things|] == bag.things;
  }

  lemma GrownIsBounded(bag: Bag, h: seq<Thing>, index: Option<nat>, self: Option<nat>, kind: Kind)
    requires Grown(bag, h, index, self, kind) && kind.stackable
    ensures CountIn(h, kind) <= Bound(bag, index, self, kind, Slots(bag))
  {
    GrownCount(bag, h, index, self, kind, |h|);
    assert h[..|h|] == h;
    hide CountIn, GrowsUpTo, Grown;
    BoundGrows(bag, index, self, kind, |h|, Slots(bag));
  }

  lemma BoundGrows(bag: Bag, index: Option<nat>, self: Option<nat>, kind: Kind, m: nat, n: nat)
    requires |bag.things| <= m <= n
    ensures Bound(bag, index, self, kind, m) <= Bound(bag, index, self, kind, n)
  {
    hide CountIn, GrowsUpTo;
    assert bag.things[..|bag.things|] == bag.things;
    MoreSlots(m - |bag.things|, n - |bag.things|, kind.size);
  }

  lemma FullIsGrown(bag: Bag, index: Option<nat>, self: Option<nat>, kind: Kind)
    requires AllFit(bag) && kind.stackable
    ensures var h := Full(bag, index, self, kind); |h| == Slots(bag) && Grown(bag, h, index, self, kind)
  {
    var h := Full(bag, index, self, kind);
    forall i | 0 <= i < |bag.things|
      ensures GrownAt(bag, h, index, self, kind, i) && Fits(h[i])
    {
      assert Fits(bag.things[i]);
    }
  }

  lemma MoreSlots(a: nat, b: nat, size: nat)
    requires a <= b
    ensures a * size <= b * size
  {
  }

  /** Of what does not stack, as many fit as there are free slots; a container with pages, and a move without
      limit, take any number. */
  lemma MaximumOfOthers(bag: Bag, index: Option<nat>, kind: Kind, self: Option<nat>, count: nat, noLimit: bool)
    ensures var q := QueryMax(bag, index, kind, self, count, noLimit);
            && (!noLimit && !bag.paged && !kind.stackable ==>
                  q.max + |bag.things| == Slots(bag) && (q.ok <==> |bag.things| < bag.capacity))
            && (noLimit || bag.paged ==> q.ok && q.max >= 1 && q.max >= count && (q.max == 1 || q.max == count))
  {
  }

  /** A container admits one more thing if and only if it may hold that many and, when no slot was found, has a
      slot left or pages, or there is no limit. */
  lemma AdmitsIff(bag: Bag, index: Option<nat>, noLimit: bool)
    ensures Admits(bag, index, noLimit) == NoError
            <==> |bag.things| < bag.most
                 && (index.Some? || noLimit || bag.paged || |bag.things| < bag.capacity)
    ensures Admits(bag, index, noLimit) == NoRoom
            <==> index.None? && !noLimit && !bag.paged && bag.capacity <= |bag.things|
  {
  }

  // ----- Where a thing goes -----------------------------------------------------------------

  /** There is a stack of the kind at `i` that is not full. */
  predicate TakesSome(bag: Bag, kind: Kind, i: nat) {
    i < |bag.things| && bag.things[i].kind == kind && bag.things[i].count < kind.size
  }

  /** A stack from elsewhere goes onto the stack asked for, or else onto the first one of its kind that has room;
      everything else goes where it was asked to, unless that is 255 or beyond a container without pages. */
  lemma GoesWhere(bag: Bag, index: Option<nat>, kind: Kind, here: bool, stacks: bool)
    ensures var p := Destination(bag, index, kind, here, stacks);
            var merges := stacks && kind.stackable && !here;
            var asked := index.Some? && index.value != 255 && (index.value < bag.capacity || bag.paged);
            if merges && asked && TakesSome(bag, kind, index.value) then
              p.dest == index && p.index == index
            else if merges && exists i :: 0 <= i < |bag.things| && TakesSome(bag, kind, i) then
              && p.dest.Some? && p.index == p.dest && TakesSome(bag, kind, p.dest.value)
              && forall i :: 0 <= i < p.dest.value ==> !TakesSome(bag, kind, i)
            else
              && p.index == (if asked then index else None)
              && p.dest == if asked && index.value < |bag.things| then index else None
  {
    var first := FirstPartial(bag.things, kind);
    if first < |bag.things| {
      assert TakesSome(bag, kind, first);
    }
    forall i | 0 <= i < |bag.things| ensures TakesSome(bag, kind, i) <==> Partial(bag.things[i], kind) {
    }
  }

  // ----- The order of things ----------------------------------------------------------------

  /** The things are where they were, some stacks of the kind larger than before. */
  ghost predicate InPlace(before: seq<Thing>, after: seq<Thing>, kind: Kind) {
    && |after| == |before|
    && forall i :: 0 <= i < |before| ==>
         && after[i].kind == before[i].kind && after[i].count >= before[i].count
         && (before[i].kind != kind ==> after[i] == before[i])
  }

  /** A new thing comes first, and what was in the container stays behind it in the same order. */
  ghost predicate InFront(before: seq<Thing>, after: seq<Thing>, kind: Kind) {
    && |after| >= |before|
    && (forall i :: 0 <= i < |after| - |before| ==> after[i].kind == kind)
    && InPlace(before, after[|after| - |before|..], kind)
  }

  /** Between two containers: the thing leaves its place, or grows smaller there, and comes first in the other. */
  lemma TransferKeepsOrder(bags: seq<Bag>, f: nat, i: nat, t: nat, place: Place, m: nat)
    requires f < |bags| && t < |bags| && f != t && i < |bags[f].things|
    requires place.dest.Some? ==> place.dest.value < |bags[t].things|
    requires m > 0 && (bags[f].things[i].kind.stackable ==> m <= bags[f].things[i].count)
    ensures var item, bags' := bags[f].things[i], Transfer(bags, f, i, t, place, m);
            && |bags'| == |bags|
            && bags'[f].things == (if item.kind.stackable && m < item.count
                                   then bags[f].things[i := item.(count := item.count - m)]
                                   else bags[f].things[..i] + bags[f].things[i + 1..])
            && InFront(bags[t].things, bags'[t].things, item.kind)
            && |bags'[t].things| <= |bags[t].things| + 1
  {
    TransferParts(bags, f, i, t, place, m);
    TakenOut(bags[f], i, m);
    hide Transfer, TakeOut, Arrived, InFront;
    ArrivedInFront(bags[t], place, bags[f].things[i], m);
  }

  /** A container once `m` of the thing have come to it from another one. */
  ghost function Arrived(bag: Bag, place: Place, item: Thing, m: nat): Bag
    requires place.dest.Some? ==> place.dest.value < |bag.things|
  {
    var n := OntoDest(bag, place.dest, item.kind, m);
    var filled := if n == 0 then bag else Fill(bag, place.dest.value, n);
    var rest := Remainder(item, m, n);
    if rest.None? then filled else Put(filled, place.index, rest.value)
  }

  lemma TransferParts(bags: seq<Bag>, f: nat, i: nat, t: nat, place: Place, m: nat)
    requires f < |bags| && t < |bags| && f != t && i < |bags[f].things|
    requires place.dest.Some? ==> place.dest.value < |bags[t].things|
    requires m > 0 && (bags[f].things[i].kind.stackable ==> m <= bags[f].things[i].count)
    ensures var bags' := Transfer(bags, f, i, t, place, m);
            && |bags'| == |bags| && bags'[f] == TakeOut(bags[f], i, m)
            && bags'[t] == Arrived(bags[t], place, bags[f].things[i], m)
  {
    hide TakeOut, Put, Fill, OntoDest, Remainder;
  }

  lemma ArrivedInFront(bag: Bag, place: Place, item: Thing, m: nat)
    requires place.dest.Some? ==> place.dest.value < |bag.things|
    ensures var things := Arrived(bag, place, item, m).things;
            InFront(bag.things, things, item.kind) && |things| <= |bag.things| + 1
  {
    var n := OntoDest(bag, place.dest, item.kind, m);
    var filled := if n == 0 then bag else Fill(bag, place.dest.value, n);
    Unmoved(bag.things, item.kind);
    if n > 0 {
      FilledInPlace(bag, place.dest.value, n, item.kind);
    }
    var rest := Remainder(item, m, n);
    hide InPlace, InFront, Put;
    if rest.Some? {
      PutInFront(bag.things, filled, place.index, rest.value);
    }
  }

  /** The stack at the destination is filled up first: a new one is begun, or something dropped, only when that is
      full, and otherwise it has got everything. */
  lemma FillsUpFirst(bags: seq<Bag>, f: nat, i: nat, t: nat, place: Place, m: nat)
    requires f < |bags| && t < |bags| && f != t && i < |bags[f].things| && bags[f].things[i].kind.stackable
    requires place.dest.Some? && place.dest.value < |bags[t].things| && 0 < m <= bags[f].things[i].count
    requires Fits(bags[t].things[place.dest.value])
    requires bags[t].things[place.dest.value].kind == bags[f].things[i].kind
    ensures var d, kind := place.dest.value, bags[f].things[i].kind;
            var was, things := bags[t].things, Transfer(bags, f, i, t, place, m)[t].things;
            var room := kind.size - was[d].count;
            && (m <= room ==> things == was[d := Thing(kind, was[d].count + m)])
            && (m > room && (place.index.None? || place.index.value < bags[t].capacity) ==>
                  things == [Thing(kind, m - room)] + was[d := Thing(kind, kind.size)])
            && (m > room && place.index.Some? && place.index.value >= bags[t].capacity ==>
                  things == was[d := Thing(kind, kind.size)])
  {
    assert bags[t].things[place.dest.value := bags[t].things[place.dest.value]] == bags[t].things;
  }

  lemma TakenOut(bag: Bag, i: nat, m: nat)
    requires i < |bag.things| && m > 0 && (bag.things[i].kind.stackable ==> m <= bag.things[i].count)
    ensures var item := bag.things[i];
            TakeOut(bag, i, m).things == if item.kind.stackable && m < item.count
                                         then bag.things[i := item.(count := item.count - m)]
                                         else bag.things[..i] + bag.things[i + 1..]
  {
  }

  lemma PutInFront(before: seq<Thing>, bag: Bag, index: Option<nat>, t: Thing)
    requires InPlace(before, bag.things, t.kind)
    ensures InFront(before, Put(bag, index, t).things, t.kind)
    ensures |Put(bag, index, t).things| <= |before| + 1
  {
    assert bag.things[0..] == bag.things;
    assert ([t] + bag.things)[1..] == bag.things;
  }

  /** How an addition may end, with the stack at its destination filled by `n` and `rest` still to be added. */
  lemma AddEnds(bag: Bag, index: Option<nat>, item: Thing, noLimit: bool, stacks: bool, allowed: bool)
    returns (n: nat, rest: nat)
    ensures var place := Destination(bag, index, item.kind, false, stacks);
            var after := Add(bag, index, item, noLimit, stacks, allowed).bag;
            || after == bag
            || after == Put(bag, place.index, item)
            || (place.dest.Some? && bag.things[place.dest.value].kind == item.kind
                && var filled := Fill(bag, place.dest.value, n);
                   || after == filled
                   || after == Put(filled, place.index, item)
                   || (0 < rest < item.count
                       && after == Add(filled, None, item.(count := rest), noLimit, stacks, allowed).bag))
  {
    var place := Destination(bag, index, item.kind, false, stacks);
    var q := QueryMax(bag, None, item.kind, None, item.count, noLimit);
    hide Destination, QueryMax, Admits, Put, Fill;
    var m := Min(item.count, q.max);
    n, rest := 0, 0;
    if place.dest.Some? && bag.things[place.dest.value].kind == item.kind {
      n := OntoDest(bag, place.dest, item.kind, m);
      rest := m - n;
    }
  }

  /** Adding never moves anything: stacks of the kind may grow, and what is new comes first. */
  lemma {:induction false} AddKeepsOrder(bag: Bag, index: Option<nat>, item: Thing, noLimit: bool, stacks: bool,
                                         allowed: bool)
    ensures InFront(bag.things, Add(bag, index, item, noLimit, stacks, allowed).bag.things, item.kind)
    decreases item.count
  {
    var n, rest := AddEnds(bag, index, item, noLimit, stacks, allowed);
    var place := Destination(bag, index, item.kind, false, stacks);
    hide InFront, InPlace, Add, Put, Fill;
    Unmoved(bag.things, item.kind);
    PutInFront(bag.things, bag, place.index, item);
    if place.dest.Some? && bag.things[place.dest.value].kind == item.kind {
      var filled := Fill(bag, place.dest.value, n);
      FilledInPlace(bag, place.dest.value, n, item.kind);
      PutInFront(bag.things, filled, place.index, item);
      if 0 < rest < item.count {
        AddKeepsOrder(filled, None, item.(count := rest), noLimit, stacks, allowed);
        FurtherInFront(bag.things, filled.things,
                       Add(filled, None, item.(count := rest), noLimit, stacks, allowed).bag.things, item.kind);
      }
    }
  }

  lemma Unmoved(things: seq<Thing>, kind: Kind)
    ensures InPlace(things, things, kind) && InFront(things, things, kind)
  {
    assert things[0..] == things;
  }

  lemma FilledInPlace(bag: Bag, d: nat, n: nat, kind: Kind)
    requires d < |bag.things| && bag.things[d].kind == kind
    ensures InPlace(bag.things, Fill(bag, d, n).things, kind)
    ensures InFront(bag.things, Fill(bag, d, n).things, kind)
  {
    assert Fill(bag, d, n).things[0..] == Fill(bag, d, n).things;
  }

  lemma FurtherInFront(a: seq<Thing>, b: seq<Thing>, c: seq<Thing>, kind: Kind)
    requires InPlace(a, b, kind) && InFront(b, c, kind)
    ensures InFront(a, c, kind)
  {
    var behind := c[|c| - |b|..];
    forall i | 0 <= i < |a|
      ensures behind[i].kind == a[i].kind && behind[i].count >= a[i].count
      ensures a[i].kind != kind ==> behind[i] == a[i]
    {
      assert behind[i].kind == b[i].kind && behind[i].count >= b[i].count;
    }
  }

  // ----- What is answered -------------------------------------------------------------------

  /** A move answers that all is well if and only if the thing is there already, or all of the count that was asked
      for goes; a stack of which only a part finds room is moved as far as that, and the answer says so. */
  lemma MoveAnswers(bags: seq<Bag>, f: nat, i: nat, t: nat, index: Option<nat>, count: nat,
                    noLimit: bool, stacks: bool, allowed: bool)
    requires f < |bags| && t < |bags| && i < |bags[f].things|
    ensures var item, r := bags[f].things[i], Move(bags, f, i, t, index, count, noLimit, stacks, allowed);
            var goes := Goes(bags, f, i, t, index, count, noLimit, stacks, allowed);
            var there := f == t && Destination(bags[t], index, item.kind, true, stacks).dest == Some(i);
            && (r.answer == NoError
                <==> there || (goes && (item.kind.stackable ==>
                                          HowMany(bags, f, i, t, index, count, noLimit, stacks) == count)))
            && (goes && r.answer != NoError ==>
                  && r.answer == NoRoom && HowMany(bags, f, i, t, index, count, noLimit, stacks) < count
                  && HowMany(bags, f, i, t, index, count, noLimit, stacks)
                     == QueryMax(bags[t], Destination(bags[t], index, item.kind, f == t, stacks).index, item.kind,
                                 if f == t then Some(i) else None, count, noLimit).max)
            && (!allowed && !there ==> r.answer == Denied)
  {
    hide Destination, Admits, QueryMax, Transfer;
  }

  /** An addition is refused, and changes nothing, if and only if it is not allowed or not admitted, or it does not
      all fit and the container is not for rewards. */
  lemma AddIsRefusedIff(bag: Bag, index: Option<nat>, item: Thing, noLimit: bool, stacks: bool, allowed: bool)
    ensures var r := Add(bag, index, item, noLimit, stacks, allowed);
            var q := QueryMax(bag, None, item.kind, None, item.count, noLimit);
            && (r.answer != NoError
                <==> !allowed || (!q.ok && !bag.reward)
                     || Admits(bag, Destination(bag, index, item.kind, false, stacks).index, noLimit) != NoError)
            && (r.answer != NoError ==> r.bag == bag && r.remainder == 0)
  {
    hide Destination, Admits, QueryMax, Put, Fill;
  }
}
