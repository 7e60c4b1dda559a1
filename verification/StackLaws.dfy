/** What moving and adding items keeps: the units of every kind and the sizes of the stacks. */
module StackLaws {
  import opened Basics
  import opened Sequences
  import opened StackRules

  // ----- What is counted --------------------------------------------------------------------

  ghost function CountOf(kind: Kind): Thing -> nat {
    (t: Thing) => if t.kind == kind then t.count else 0
  }

  ghost function Units(bag: Bag, kind: Kind): nat {
    Total(bag.things, CountOf(kind))
  }

  ghost function UnitsOf(kind: Kind): Bag -> nat {
    (bag: Bag) => Units(bag, kind)
  }

  predicate EveryFit(bags: seq<Bag>) {
    forall b :: 0 <= b < |bags| ==> AllFit(bags[b])
  }

  // ----- One container ----------------------------------------------------------------------

  function Quantity(t: Thing, m: nat): nat {
    if t.kind.stackable then m else t.count
  }

  lemma TakeOutUnits(bag: Bag, i: nat, m: nat, kind: Kind)
    requires i < |bag.things| && (bag.things[i].kind.stackable ==> m <= bag.things[i].count) && AllFit(bag)
    ensures var t := bag.things[i];
            && AllFit(TakeOut(bag, i, m))
            && Units(TakeOut(bag, i, m), kind) + (if t.kind == kind then Quantity(t, m) else 0) == Units(bag, kind)
  {
    var t := bag.things[i];
    if t.kind.stackable && m != t.count {
      TotalUpdate(bag.things, i, t.(count := t.count - m), CountOf(kind));
    } else {
      TotalRemove(bag.things, i, CountOf(kind));
    }
  }

  lemma FillUnits(bag: Bag, d: nat, n: nat, kind: Kind)
    requires d < |bag.things| && AllFit(bag) && Fits(bag.things[d].(count := bag.things[d].count + n))
    ensures AllFit(Fill(bag, d, n))
    ensures Units(Fill(bag, d, n), kind) == Units(bag, kind) + if bag.things[d].kind == kind then n else 0
  {
    TotalUpdate(bag.things, d, bag.things[d].(count := bag.things[d].count + n), CountOf(kind));
  }

  predicate Drops(bag: Bag, index: Option<nat>) {
    index.Some? && index.value >= bag.capacity
  }

  lemma PutUnits(bag: Bag, index: Option<nat>, t: Thing, kind: Kind)
    requires AllFit(bag) && Fits(t)
    ensures AllFit(Put(bag, index, t))
    ensures Units(Put(bag, index, t), kind) ==
            Units(bag, kind) + if t.kind == kind && !Drops(bag, index) then t.count else 0
  {
    assert ([t] + bag.things)[1..] == bag.things;
  }

  // ----- Moving -----------------------------------------------------------------------------

  /** What does not arrive: the remainder, when its slot is beyond the capacity. */
  function LostInTransfer(bags: seq<Bag>, f: nat, i: nat, t: nat, place: Place, m: nat): nat
    requires f < |bags| && t < |bags| && i < |bags[f].things|
    requires place.dest.Some? ==> place.dest.value < |bags[t].things|
  {
    var item := bags[f].things[i];
    if Drops(bags[t], place.index) then Quantity(item, m) - OntoDest(bags[t], place.dest, item.kind, m) else 0
  }

  /** Exactly `m` units leave the one container and, but for what is lost, arrive in the other. */
  lemma TransferEffect(bags: seq<Bag>, f: nat, i: nat, t: nat, place: Place, m: nat, b: nat, kind: Kind)
    requires f < |bags| && t < |bags| && i < |bags[f].things| && EveryFit(bags) && b < |bags|
    requires place.dest.Some? ==> place.dest.value < |bags[t].things| && !(f == t && place.dest.value == i)
    requires m > 0 && (bags[f].things[i].kind.stackable ==> m <= bags[f].things[i].count)
    ensures var item := bags[f].things[i]; var bags' := Transfer(bags, f, i, t, place, m);
            var q := Quantity(item, m); var lost := LostInTransfer(bags, f, i, t, place, m);
            && |bags'| == |bags| && EveryFit(bags')
            && (b != f && b != t ==> bags'[b] == bags[b])
            && lost <= q
            && Units(bags'[b], kind) == Units(bags[b], kind)
                 - (if b == f && item.kind == kind then q else 0)
                 + (if b == t && item.kind == kind then q - lost else 0)
  {
    hide Units, TakeOut, Fill, Put, OntoDest;
    var item := bags[f].things[i];
    var n := OntoDest(bags[t], place.dest, item.kind, m);
    OntoDestIs(bags[t], place.dest, item.kind, m);
    var out := bags[f := TakeOut(bags[f], i, m)];
    TakeOutUnits(bags[f], i, m, kind);
    var filled := out;
    if n != 0 {
      var d := Shifted(bags, f, i, t, place.dest.value, m);
      StaysAtShifted(bags, f, i, t, place.dest.value, m);
      FillUnits(out[t], d, n, kind);
      filled := out[t := Fill(out[t], d, n)];
    }
    SameShape(bags[f], i, m);
    assert filled[t].capacity == bags[t].capacity by { FillShape(out[t], n); }
    var rest := Remainder(item, m, n);
    if rest.Some? {
      PutUnits(filled[t], place.index, rest.value, kind);
    }
  }

  lemma OntoDestIs(bag: Bag, dest: Option<nat>, kind: Kind, m: nat)
    requires dest.Some? ==> dest.value < |bag.things|
    ensures var n := OntoDest(bag, dest, kind, m);
            && n <= m
            && (n > 0 ==> kind.stackable && dest.Some? && bag.things[dest.value].kind == kind
                          && bag.things[dest.value].count + n <= kind.size)
  {
  }

  lemma SameShape(bag: Bag, i: nat, m: nat)
    requires i < |bag.things| && (bag.things[i].kind.stackable ==> m <= bag.things[i].count)
    ensures TakeOut(bag, i, m).capacity == bag.capacity
  {
  }

  lemma FillShape(bag: Bag, n: nat)
    ensures forall d :: 0 <= d < |bag.things| ==> Fill(bag, d, n).capacity == bag.capacity
  {
  }

  /** The thing at the destination is found again after the moved thing is out. */
  lemma StaysAtShifted(bags: seq<Bag>, f: nat, i: nat, t: nat, d: nat, m: nat)
    requires f < |bags| && t < |bags| && i < |bags[f].things| && d < |bags[t].things| && !(f == t && d == i)
    requires bags[f].things[i].kind.stackable ==> m <= bags[f].things[i].count
    ensures var out := bags[f := TakeOut(bags[f], i, m)]; var e := Shifted(bags, f, i, t, d, m);
            e < |out[t].things| && out[t].things[e] == bags[t].things[d]
  {
  }

  predicate Goes(bags: seq<Bag>, f: nat, i: nat, t: nat, index: Option<nat>, count: nat,
                 noLimit: bool, stacks: bool, allowed: bool)
    requires f < |bags| && t < |bags| && i < |bags[f].things|
  {
    var item := bags[f].things[i];
    var place := Destination(bags[t], index, item.kind, f == t, stacks);
    var q := QueryMax(bags[t], place.index, item.kind, if f == t then Some(i) else None, count, noLimit);
    var m := if item.kind.stackable then Min(count, q.max) else q.max;
    && !(f == t && place.dest == Some(i)) && allowed
    && Admits(bags[t], place.index, noLimit) == NoError
    && m > 0 && (item.kind.stackable ==> m <= item.count)
  }

  /** `min(count, maxQueryCount)` of a stack, or the whole of what does not stack. */
  function HowMany(bags: seq<Bag>, f: nat, i: nat, t: nat, index: Option<nat>, count: nat,
                   noLimit: bool, stacks: bool): nat
    requires f < |bags| && t < |bags| && i < |bags[f].things|
  {
    var item := bags[f].things[i];
    var place := Destination(bags[t], index, item.kind, f == t, stacks);
    var max := QueryMax(bags[t], place.index, item.kind, if f == t then Some(i) else None, count, noLimit).max;
    if item.kind.stackable then Min(count, max) else item.count
  }

  function LostByMove(bags: seq<Bag>, f: nat, i: nat, t: nat, index: Option<nat>, count: nat,
                      noLimit: bool, stacks: bool, allowed: bool): nat
    requires f < |bags| && t < |bags| && i < |bags[f].things|
  {
    if !Goes(bags, f, i, t, index, count, noLimit, stacks, allowed) then 0
    else
      var item := bags[f].things[i];
      var place := Destination(bags[t], index, item.kind, f == t, stacks);
      var q := HowMany(bags, f, i, t, index, count, noLimit, stacks);
      if Drops(bags[t], place.index) then q - OntoDest(bags[t], place.dest, item.kind, q) else 0
  }

  lemma MoveEffect(bags: seq<Bag>, f: nat, i: nat, t: nat, index: Option<nat>, count: nat,
                   noLimit: bool, stacks: bool, allowed: bool, b: nat, kind: Kind)
    requires f < |bags| && t < |bags| && i < |bags[f].things| && EveryFit(bags) && b < |bags|
    ensures var item := bags[f].things[i];
            var bags' := Move(bags, f, i, t, index, count, noLimit, stacks, allowed).bags;
            var goes := Goes(bags, f, i, t, index, count, noLimit, stacks, allowed);
            var q := if goes then HowMany(bags, f, i, t, index, count, noLimit, stacks) else 0;
            var lost := LostByMove(bags, f, i, t, index, count, noLimit, stacks, allowed);
            && |bags'| == |bags| && EveryFit(bags') && (!goes ==> bags' == bags)
            && (b != f && b != t ==> bags'[b] == bags[b])
            && lost <= q
            && Units(bags'[b], kind) == Units(bags[b], kind)
                 - (if b == f && item.kind == kind then q else 0)
                 + (if b == t && item.kind == kind then q - lost else 0)
  {
    hide Units, Transfer, Destination, QueryMax, Admits, EveryFit;
    if Goes(bags, f, i, t, index, count, noLimit, stacks, allowed) {
      var item := bags[f].things[i];
      var place := Destination(bags[t], index, item.kind, f == t, stacks);
      var q := QueryMax(bags[t], place.index, item.kind, if f == t then Some(i) else None, count, noLimit);
      TransferEffect(bags, f, i, t, place, if item.kind.stackable then Min(count, q.max) else q.max, b, kind);
    }
  }

  lemma TwoChanges<T>(xs: seq<T>, ys: seq<T>, f: nat, t: nat, g: T -> nat)
    requires |xs| == |ys| && f < |xs| && t < |xs|
    requires forall b :: 0 <= b < |xs| && b != f && b != t ==> ys[b] == xs[b]
    ensures Total(ys, g) == Total(xs, g) + g(ys[f]) - g(xs[f]) + if f == t then 0 else g(ys[t]) - g(xs[t])
  {
    TotalUpdate(xs, f, ys[f], g);
    var zs := xs[f := ys[f]];
    TotalUpdate(zs, t, ys[t], g);
    assert zs[t := ys[t]] == ys;
  }

  /** All containers together lose what the move loses, which is only of the kind that is moved. */
  lemma MoveTotal(bags: seq<Bag>, f: nat, i: nat, t: nat, index: Option<nat>, count: nat,
                  noLimit: bool, stacks: bool, allowed: bool, kind: Kind)
    requires f < |bags| && t < |bags| && i < |bags[f].things| && EveryFit(bags)
    ensures Total(Move(bags, f, i, t, index, count, noLimit, stacks, allowed).bags, UnitsOf(kind)) ==
            Total(bags, UnitsOf(kind)) -
            if kind != bags[f].things[i].kind then 0
            else LostByMove(bags, f, i, t, index, count, noLimit, stacks, allowed)
  {
    hide Units, Move, LostByMove, Goes, HowMany, EveryFit;
    var bags' := Move(bags, f, i, t, index, count, noLimit, stacks, allowed).bags;
    forall b | 0 <= b < |bags|
      ensures |bags'| == |bags| && (b != f && b != t ==> bags'[b] == bags[b])
    {
      MoveEffect(bags, f, i, t, index, count, noLimit, stacks, allowed, b, kind);
    }
    MoveEffect(bags, f, i, t, index, count, noLimit, stacks, allowed, f, kind);
    MoveEffect(bags, f, i, t, index, count, noLimit, stacks, allowed, t, kind);
    TwoChanges(bags, bags', f, t, UnitsOf(kind));
  }

  /** A move loses nothing, if and only if it does not end in a slot beyond the capacity with something
      left that the stack there does not take. */
  lemma MoveConservesIff(bags: seq<Bag>, f: nat, i: nat, t: nat, index: Option<nat>, count: nat,
                         noLimit: bool, stacks: bool, allowed: bool)
    requires f < |bags| && t < |bags| && i < |bags[f].things| && EveryFit(bags)
    ensures var item := bags[f].things[i];
            var place := Destination(bags[t], index, item.kind, f == t, stacks);
            var q := HowMany(bags, f, i, t, index, count, noLimit, stacks);
            (forall kind :: Total(Move(bags, f, i, t, index, count, noLimit, stacks, allowed).bags, UnitsOf(kind)) ==
                            Total(bags, UnitsOf(kind)))
            <==> !(Goes(bags, f, i, t, index, count, noLimit, stacks, allowed) && Drops(bags[t], place.index)
                   && OntoDest(bags[t], place.dest, item.kind, q) < q)
  {
    hide Units, Move, Goes, HowMany, EveryFit, Total, Destination;
    var item := bags[f].things[i];
    var q := HowMany(bags, f, i, t, index, count, noLimit, stacks);
    OntoDestIs(bags[t], Destination(bags[t], index, item.kind, f == t, stacks).dest, item.kind, q);
    forall kind
      ensures Total(Move(bags, f, i, t, index, count, noLimit, stacks, allowed).bags, UnitsOf(kind)) ==
              Total(bags, UnitsOf(kind)) -
              if kind == item.kind then LostByMove(bags, f, i, t, index, count, noLimit, stacks, allowed) else 0
    {
      MoveTotal(bags, f, i, t, index, count, noLimit, stacks, allowed, kind);
    }
    MoveTotal(bags, f, i, t, index, count, noLimit, stacks, allowed, item.kind);
    ghost var after := Total(Move(bags, f, i, t, index, count, noLimit, stacks, allowed).bags, UnitsOf(item.kind));
    assert LostByMove(bags, f, i, t, index, count, noLimit, stacks, allowed) == 0 <==>
           after == Total(bags, UnitsOf(item.kind));
  }

  /** A container without pages that is not overfull loses nothing. */
  lemma UnpagedMovesLoseNothing(bags: seq<Bag>, f: nat, i: nat, t: nat, index: Option<nat>, count: nat,
                                noLimit: bool, stacks: bool, allowed: bool)
    requires f < |bags| && t < |bags| && i < |bags[f].things| && EveryFit(bags)
    requires !bags[t].paged && |bags[t].things| <= bags[t].capacity
    ensures LostByMove(bags, f, i, t, index, count, noLimit, stacks, allowed) == 0
  {
  }

  /** Ten coins onto the ninety-five in the second slot of a paged container with one slot a page:
      five of them are gone. */
  lemma APagedMoveLoses()
    ensures var coin := Kind(0, true, 100); var box := Kind(1, false, 1);
            var bags := [Bag(8, false, 100, false, [Thing(coin, 10)]),
                         Bag(1, true, 100, false, [Thing(box, 1), Thing(coin, 95)])];
            var moved := Move(bags, 0, 0, 1, None, 10, false, true, true);
            && moved.answer == NoError && moved.bags[0].things == []
            && moved.bags[1].things == [Thing(box, 1), Thing(coin, 100)]
  {
    var coin, box := Kind(0, true, 100), Kind(1, false, 1);
    var things := [Thing(box, 1), Thing(coin, 95)];
    assert things[1..] == [Thing(coin, 95)];
    assert FirstPartial(things, coin) == 1;
  }

  // ----- Adding -----------------------------------------------------------------------------

  lemma {:induction false} RoomAfterFill(things: seq<Thing>, d: nat, t: Thing, kind: Kind)
    requires d < |things|
    ensures Room(things[d := t], kind, None) == Room(things, kind, None) - RoomOn(things[d], kind) + RoomOn(t, kind)
    ensures Room(things, kind, None) >= RoomOn(things[d], kind)
  {
    if d == 0 {
      assert things[0 := t][1..] == things[1..];
    } else {
      RoomAfterFill(things[1..], d - 1, t, kind);
      assert things[d := t][1..] == things[1..][d - 1 := t];
    }
  }

  lemma {:induction false} NoRoomWithoutPartial(things: seq<Thing>, kind: Kind)
    requires forall j :: 0 <= j < |things| ==> !Partial(things[j], kind)
    ensures Room(things, kind, None) == 0
  {
    if things != [] {
      assert !Partial(things[0], kind);
      forall j | 0 <= j < |things[1..]|
        ensures !Partial(things[1..][j], kind)
      {
        assert things[1..][j] == things[j + 1];
      }
      NoRoomWithoutPartial(things[1..], kind);
    }
  }

  /** A new stack is put on the thing in its slot. */
  predicate Merges(bag: Bag, place: Place, kind: Kind)
    requires place.dest.Some? ==> place.dest.value < |bag.things|
  {
    kind.stackable && place.dest.Some? && Partial(bag.things[place.dest.value], kind)
  }

  /** A stack that does not all fit its slot finds no other one: stacking is switched off and every slot is taken. */
  predicate Strands(bag: Bag, place: Place, item: Thing, noLimit: bool, stacks: bool)
    requires place.dest.Some? ==> place.dest.value < |bag.things|
  {
    && !stacks && Merges(bag, place, item.kind) && RoomOn(bag.things[place.dest.value], item.kind) < item.count
    && !noLimit && !bag.paged && |bag.things| >= bag.capacity
  }

  /** After a merge the room that was reported is reduced by what went onto the stack. */
  lemma QueryAfterMerge(bag: Bag, d: nat, kind: Kind, count: nat, n: nat, noLimit: bool)
    requires d < |bag.things| && kind.stackable && Partial(bag.things[d], kind) && 0 < n < count
    requires n == RoomOn(bag.things[d], kind) && AllFit(bag)
    ensures var q := QueryMax(bag, None, kind, None, count, noLimit);
            && q.max >= n
            && (q.ok ==> q.max >= count)
            && (var q' := QueryMax(Fill(bag, d, n), None, kind, None, Min(count, q.max) - n, noLimit);
                Min(count, q.max) > n ==> q'.ok)
  {
    var t := bag.things[d];
    RoomAfterFill(bag.things, d, t.(count := t.count + n), kind);
  }

  /** With stacking, a container that has room for more finds a slot for it. */
  lemma RoomIsAdmitted(bag: Bag, kind: Kind, count: nat, noLimit: bool)
    requires kind.stackable && count > 0 && |bag.things| + 1 <= bag.most
    requires QueryMax(bag, None, kind, None, count, noLimit).ok
    ensures Admits(bag, Destination(bag, None, kind, false, true).index, noLimit) == NoError
  {
    if FirstPartial(bag.things, kind) == |bag.things| {
      NoRoomWithoutPartial(bag.things, kind);
    }
  }

  lemma AddKeepsFit(bag: Bag, index: Option<nat>, item: Thing, noLimit: bool, stacks: bool, allowed: bool)
    requires AllFit(bag) && Fits(item)
    ensures AllFit(Add(bag, index, item, noLimit, stacks, allowed).bag)
    decreases item.count
  {
    hide QueryMax, Units;
    var place := Destination(bag, index, item.kind, false, stacks);
    var q := QueryMax(bag, None, item.kind, None, item.count, noLimit);
    PutUnits(bag, place.index, item, item.kind);
    if place.dest.Some? && bag.things[place.dest.value].kind == item.kind && item.kind.stackable {
      var m := Min(item.count, q.max);
      var n := OntoDest(bag, place.dest, item.kind, m);
      FillUnits(bag, place.dest.value, n, item.kind);
      var filled := Fill(bag, place.dest.value, n);
      PutUnits(filled, place.index, item, item.kind);
      if m != n && m - n != item.count {
        AddKeepsFit(filled, None, item.(count := m - n), noLimit, stacks, allowed);
      }
    }
  }

  /** The item goes into a slot that is beyond the capacity. */
  predicate Vanishes(bag: Bag, place: Place, kind: Kind)
    requires place.dest.Some? ==> place.dest.value < |bag.things|
  {
    Drops(bag, place.index) && !Merges(bag, place, kind)
  }

  /** What an addition that reports no error brings. */
  ghost predicate Brings(bag: Bag, item: Thing, n: nat, r: Added, kind: Kind) {
    Units(r.bag, kind) + (if kind == item.kind then r.remainder else 0)
    == Units(bag, kind) + if kind == item.kind then n else 0
  }

  /** When room for the whole stack is reported all of it is added, but for an item in a slot beyond the
      capacity and for a remainder that is reported where stacking is switched off. */
  lemma AddIsExact(bag: Bag, index: Option<nat>, item: Thing, noLimit: bool, stacks: bool, allowed: bool, kind: Kind)
    requires AllFit(bag) && Fits(item)
    requires allowed && Admits(bag, Destination(bag, index, item.kind, false, stacks).index, noLimit) == NoError
    requires QueryMax(bag, None, item.kind, None, item.count, noLimit).ok
    ensures var place := Destination(bag, index, item.kind, false, stacks);
            var r := Add(bag, index, item, noLimit, stacks, allowed);
            && r.answer == NoError
            && Brings(bag, item, if Vanishes(bag, place, item.kind) then 0 else item.count, r, kind)
            && (r.remainder > 0 <==> Strands(bag, place, item, noLimit, stacks))
    decreases item.count, 0
  {
    hide Units, QueryMax, Room, Add, Destination, Fill, AllFit;
    var place := Destination(bag, index, item.kind, false, stacks);
    PutUnits(bag, place.index, item, kind);
    if Merges(bag, place, item.kind) {
      var d := place.dest.value;
      var n := Min(RoomOn(bag.things[d], item.kind), item.count);
      AddMerged(bag, index, item, noLimit, stacks, allowed);
      FillUnits(bag, d, n, kind);
      if n < item.count {
        QueryIsEnough(bag, item, noLimit);
        QueryAfterMerge(bag, d, item.kind, item.count, n, noLimit);
        FillKeeps(bag, d, n);
        AddRest(Fill(bag, d, n), item.(count := item.count - n), noLimit, stacks, allowed, kind);
      }
    } else {
      AddUnmerged(bag, index, item, noLimit, stacks, allowed);
    }
  }

  lemma FillKeeps(bag: Bag, d: nat, n: nat)
    requires d < |bag.things|
    ensures var t := Fill(bag, d, n); t == bag.(things := t.things) && |t.things| == |bag.things|
  {
  }

  /** The rest of a stack goes on with stacking, or alone into a slot of its own. */
  lemma AddRest(bag: Bag, rest: Thing, noLimit: bool, stacks: bool, allowed: bool, kind: Kind)
    requires AllFit(bag) && Fits(rest) && rest.kind.stackable && allowed && |bag.things| + 1 <= bag.most
    requires QueryMax(bag, None, rest.kind, None, rest.count, noLimit).ok
    ensures var r := Add(bag, None, rest, noLimit, stacks, allowed);
            var stranded := !stacks && !noLimit && !bag.paged && |bag.things| >= bag.capacity;
            && (r.answer != NoError <==> stranded)
            && r.remainder == 0
            && Units(r.bag, kind) == Units(bag, kind) + if kind == rest.kind && !stranded then rest.count else 0
    decreases rest.count, 1
  {
    hide Units, QueryMax, Room;
    if stacks {
      RoomIsAdmitted(bag, rest.kind, rest.count, noLimit);
      AddIsExact(bag, None, rest, noLimit, stacks, allowed, kind);
      NeverVanishes(bag, rest.kind);
    } else {
      PutUnits(bag, None, rest, kind);
    }
  }

  lemma NeverVanishes(bag: Bag, kind: Kind)
    ensures !Vanishes(bag, Destination(bag, None, kind, false, true), kind) || !kind.stackable
  {
  }

  lemma AddUnmerged(bag: Bag, index: Option<nat>, item: Thing, noLimit: bool, stacks: bool, allowed: bool)
    requires AllFit(bag) && Fits(item)
    requires allowed && Admits(bag, Destination(bag, index, item.kind, false, stacks).index, noLimit) == NoError
    requires QueryMax(bag, None, item.kind, None, item.count, noLimit).ok
    requires !Merges(bag, Destination(bag, index, item.kind, false, stacks), item.kind)
    ensures var place := Destination(bag, index, item.kind, false, stacks);
            Add(bag, index, item, noLimit, stacks, allowed) == Added(Put(bag, place.index, item), NoError, 0)
  {
    hide Destination, Admits, QueryMax;
    var place := Destination(bag, index, item.kind, false, stacks);
    QueryIsEnough(bag, item, noLimit);
    if place.dest.Some? {
      assert Fill(bag, place.dest.value, 0) == bag;
    }
  }

  lemma AddMerged(bag: Bag, index: Option<nat>, item: Thing, noLimit: bool, stacks: bool, allowed: bool)
    requires AllFit(bag) && Fits(item)
    requires allowed && Admits(bag, Destination(bag, index, item.kind, false, stacks).index, noLimit) == NoError
    requires QueryMax(bag, None, item.kind, None, item.count, noLimit).ok
    requires Merges(bag, Destination(bag, index, item.kind, false, stacks), item.kind)
    ensures var d := Destination(bag, index, item.kind, false, stacks).dest.value;
            var n := Min(RoomOn(bag.things[d], item.kind), item.count);
            Add(bag, index, item, noLimit, stacks, allowed) ==
            if n == item.count then Added(Fill(bag, d, n), NoError, 0)
            else
              var more := Add(Fill(bag, d, n), None, item.(count := item.count - n), noLimit, stacks, allowed);
              Added(more.bag, NoError, if more.answer != NoError then item.count - n else 0)
  {
    hide Destination, Admits, QueryMax, Fill;
    QueryIsEnough(bag, item, noLimit);
  }

  lemma QueryIsEnough(bag: Bag, item: Thing, noLimit: bool)
    requires Fits(item) && QueryMax(bag, None, item.kind, None, item.count, noLimit).ok
    ensures QueryMax(bag, None, item.kind, None, item.count, noLimit).max >= item.count
  {
  }

  /** A reward container takes what it has room for, and the rest of the stack is gone without an error. */
  lemma RewardsAreCut(bag: Bag, item: Thing, stacks: bool, kind: Kind)
    requires AllFit(bag) && Fits(item) && item.kind.stackable && bag.reward
    requires Admits(bag, Destination(bag, None, item.kind, false, stacks).index, false) == NoError
    requires !QueryMax(bag, None, item.kind, None, item.count, false).ok
    ensures var max := QueryMax(bag, None, item.kind, None, item.count, false).max;
            var r := Add(bag, None, item, false, stacks, true);
            && max < item.count && r.answer == NoError && r.remainder == 0
            && Units(r.bag, kind) == Units(bag, kind) + if kind == item.kind then max else 0
  {
    hide Units, Room, Add, QueryMax, FirstPartial, Destination, Fill, AllFit;
    var q := QueryMax(bag, None, item.kind, None, item.count, false);
    RewardMerges(bag, item, stacks);
    AddCut(bag, item);
    var d := FirstPartial(bag.things, item.kind);
    var n := Min(RoomOn(bag.things[d], item.kind), q.max);
    FillUnits(bag, d, n, kind);
    FillKeeps(bag, d, n);
    if n < q.max {
      QueryAfterMerge(bag, d, item.kind, item.count, n, false);
      AddRest(Fill(bag, d, n), item.(count := q.max - n), false, true, true, kind);
    }
  }

  lemma RewardMerges(bag: Bag, item: Thing, stacks: bool)
    requires Fits(item) && item.kind.stackable
    requires Admits(bag, Destination(bag, None, item.kind, false, stacks).index, false) == NoError
    requires !QueryMax(bag, None, item.kind, None, item.count, false).ok
    ensures stacks && FirstPartial(bag.things, item.kind) < |bag.things|
    ensures Admits(bag, Destination(bag, None, item.kind, false, true).index, false) == NoError
    ensures QueryMax(bag, None, item.kind, None, item.count, false).max < item.count
  {
    if |bag.things| < bag.capacity {
      OneSlotIsEnough(bag.capacity - |bag.things|, item.kind.size);
    }
  }

  lemma OneSlotIsEnough(free: nat, size: nat)
    requires free > 0
    ensures free * size >= size
  {
  }

  lemma AddCut(bag: Bag, item: Thing)
    requires AllFit(bag) && Fits(item) && item.kind.stackable && bag.reward
    requires Admits(bag, Destination(bag, None, item.kind, false, true).index, false) == NoError
    requires QueryMax(bag, None, item.kind, None, item.count, false).max < item.count
    requires FirstPartial(bag.things, item.kind) < |bag.things|
    ensures var d := FirstPartial(bag.things, item.kind);
            var max := QueryMax(bag, None, item.kind, None, item.count, false).max;
            var n := Min(RoomOn(bag.things[d], item.kind), max);
            Add(bag, None, item, false, true, true) ==
            if n == max then Added(Fill(bag, d, n), NoError, 0)
            else
              var more := Add(Fill(bag, d, n), None, item.(count := max - n), false, true, true);
              Added(more.bag, NoError, if more.answer != NoError then max - n else 0)
  {
    hide Admits, QueryMax, Fill;
  }

  /** Ten coins for a reward container whose one slot has ninety-five: five are added, five are gone, and no error
      is answered. */
  lemma ARewardIsCut()
    ensures var coin := Kind(0, true, 100); var bag := Bag(1, false, 100, true, [Thing(coin, 95)]);
            && AllFit(bag)
            && Add(bag, None, Thing(coin, 10), false, true, true)
               == Added(bag.(things := [Thing(coin, 100)]), NoError, 0)
  {
    var coin := Kind(0, true, 100);
    var things := [Thing(coin, 95)];
    assert things[1..] == [];
    assert Room(things, coin, None) == 5;
    assert FirstPartial(things, coin) == 0;
  }
}
