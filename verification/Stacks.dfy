/** The game's own moving and adding of items, with the containers changed in place. */
module Stacks {
  import opened Basics
  import opened Sequences
  import opened StackRules
  import opened StackLaws

  /** A container: new things come first in its list. */
  class Container {
    const capacity: nat
    const paged: bool
    const most: nat
    const reward: bool
    var things: seq<Thing>

    ghost function Now(): Bag
      reads this
    {
      Bag(capacity, paged, most, reward, things)
    }

    constructor (capacity: nat, paged: bool, most: nat, reward: bool)
      ensures Now() == Bag(capacity, paged, most, reward, [])
    {
      this.capacity, this.paged, this.most, this.reward, things := capacity, paged, most, reward, [];
    }

    method QueryDestination(index: Option<nat>, kind: Kind, here: bool, stacks: bool) returns (place: Place)
      ensures place == Destination(Bag(capacity, paged, most, reward, things), index, kind, here, stacks)
    {
      var slot := index;
      if slot.Some? && slot.value == 255 {
        slot := None;
      } else if slot.Some? && slot.value >= capacity && !paged {
        slot := None;
      }
      var dest := None;
      if slot.Some? && slot.value < |things| {
        dest := slot;
      }
      if stacks && kind.stackable && !here {
        if dest.Some? && Partial(things[dest.value], kind) {
          return Place(slot, dest);
        }
        var n := 0;
        while n < |things|
          invariant n <= |things|
          invariant forall j :: 0 <= j < n ==> !Partial(things[j], kind)
        {
          if Partial(things[n], kind) {
            return Place(Some(n), Some(n));
          }
          n := n + 1;
        }
      }
      return Place(slot, dest);
    }

    method QueryAdd(index: Option<nat>, noLimit: bool) returns (answer: Answer)
      ensures answer == Admits(Bag(capacity, paged, most, reward, things), index, noLimit)
    {
      if !noLimit && index.None? && |things| >= capacity && !paged {
        return NoRoom;
      }
      if |things| + 1 > most {
        return Full;
      }
      return NoError;
    }

    method RoomOnStacks(kind: Kind, self: Option<nat>) returns (n: nat)
      ensures n == Room(things, kind, self)
    {
      n := 0;
      assert things[0..] == things;
      var i := 0;
      while i < |things|
        invariant i <= |things|
        invariant n + Room(things[i..], kind, Behind(self, i)) == Room(things, kind, self)
      {
        assert things[i..][0] == things[i] && things[i..][1..] == things[i + 1..];
        if self != Some(i) && Partial(things[i], kind) {
          n := n + (kind.size - things[i].count);
        }
        i := i + 1;
      }
    }

    method QueryMaxCount(index: Option<nat>, kind: Kind, self: Option<nat>, count: nat, noLimit: bool)
      returns (q: Query)
      ensures q == QueryMax(Bag(capacity, paged, most, reward, things), index, kind, self, count, noLimit)
    {
      hide Room;
      if noLimit || paged {
        return Query(Max(1, count), true);
      }
      var freeSlots := if capacity > |things| then capacity - |things| else 0;
      var max;
      if kind.stackable {
        var n := 0;
        if index.None? {
          n := RoomOnStacks(kind, self);
        } else if index.value < |things| && Partial(things[index.value], kind) {
          n := kind.size - things[index.value].count;
        }
        max := freeSlots * kind.size + n;
        return Query(max, max >= count);
      }
      return Query(freeSlots, freeSlots != 0);
    }

    method AddThing(index: Option<nat>, t: Thing)
      modifies this
      ensures Now() == Put(old(Now()), index, t)
    {
      if index.Some? && index.value >= capacity {
        return;
      }
      things := [t] + things;
    }

    method UpdateThing(d: nat, count: Count)
      requires d < |things|
      modifies this
      ensures things == old(things)[d := old(things)[d].(count := count)]
    {
      things := things[d := things[d].(count := count)];
    }

    method RemoveThing(i: nat, count: nat)
      requires i < |things| && (things[i].kind.stackable ==> count <= things[i].count)
      modifies this
      ensures Now() == TakeOut(old(Now()), i, count)
    {
      var t := things[i];
      if t.kind.stackable && count != t.count {
        things := things[i := t.(count := t.count - count)];
      } else {
        things := Without(things, i);
      }
    }
  }

  /** The position of a thing in the list behind the first `i`. */
  function Behind(self: Option<nat>, i: nat): Option<nat> {
    if self.Some? && self.value >= i then Some(self.value - i) else None
  }

  /** The one or two containers of a move, as the specification has them. */
  ghost function Both(source: Container, target: Container): seq<Bag>
    reads source, target
  {
    if source == target then [source.Now()] else [source.Now(), target.Now()]
  }

  function Last(source: Container, target: Container): nat {
    if source == target then 0 else 1
  }

  lemma BothAre(source: Container, target: Container)
    ensures var both := Both(source, target); var t := Last(source, target);
            t < |both| && both[0] == source.Now() && both[t] == target.Now()
  {
  }

  /** Removes, fills the stack at the destination, and puts what is left into a slot of its own. */
  method Carry(source: Container, i: nat, target: Container, place: Place, m: nat)
    requires i < |source.things| && m > 0
    requires place.dest.Some? ==> place.dest.value < |target.things| && !(source == target && place.dest.value == i)
    requires source.things[i].kind.stackable ==> m <= source.things[i].count
    requires AllFit(target.Now())
    modifies source, target
    ensures Both(source, target) == Transfer(old(Both(source, target)), 0, i, Last(source, target), place, m)
  {
    hide TakeOut, Put;
    var item := source.things[i];
    var whole := !(item.kind.stackable && m != item.count);
    ghost var t, before := Last(source, target), Both(source, target);
    ghost var n' := OntoDest(before[t], place.dest, item.kind, m);
    source.RemoveThing(i, m);
    ghost var out := before[0 := TakeOut(before[0], i, m)];
    assert Both(source, target) == out;
    ghost var filled := out;
    var moveItem := Some(item);
    if item.kind.stackable {
      var n := 0;
      if place.dest.Some? {
        StaysAtShifted(before, 0, i, t, place.dest.value, m);
        var d := if source == target && whole && i < place.dest.value then place.dest.value - 1 else place.dest.value;
        var toItem := target.things[d];
        if toItem.kind == item.kind {
          n := Min(toItem.kind.size - toItem.count, m);
          target.UpdateThing(d, toItem.count + n);
          filled := out[t := Fill(out[t], d, n)];
          assert n == 0 ==> Fill(out[t], d, n) == out[t];
          assert Both(source, target) == filled;
        }
      }
      assert n == n';
      moveItem := if m - n > 0 then Some(item.(count := m - n)) else None;
    }
    assert moveItem == Remainder(item, m, n');
    if moveItem.Some? {
      target.AddThing(place.index, moveItem.value);
    }
  }

  method InternalMoveItem(source: Container, i: nat, target: Container, index: Option<nat>, count: nat,
                          noLimit: bool, stacks: bool, allowed: bool) returns (answer: Answer)
    requires i < |source.things|
    requires AllFit(target.Now())
    modifies source, target
    ensures var moved := Move(old(Both(source, target)), 0, i, Last(source, target), index, count,
                              noLimit, stacks, allowed);
            Both(source, target) == moved.bags && answer == moved.answer
  {
    BothAre(source, target);
    hide Destination, QueryMax, Admits, Transfer, AllFit, Both;
    var item := source.things[i];
    var place := target.QueryDestination(index, item.kind, source == target, stacks);
    if source == target && place.dest == Some(i) {
      return NoError;
    }
    if !allowed {
      return Denied;
    }
    answer := target.QueryAdd(place.index, noLimit);
    if answer != NoError {
      return;
    }
    var q := target.QueryMaxCount(place.index, item.kind, if source == target then Some(i) else None, count, noLimit);
    if !q.ok && q.max == 0 {
      return NoRoom;
    }
    var m := if item.kind.stackable then Min(count, q.max) else q.max;
    if m == 0 || (item.kind.stackable && m > item.count) {
      return NotPossible;
    }
    Carry(source, i, target, place, m);
    if item.kind.stackable && q.max < count {
      return NoRoom;
    }
    return NoError;
  }

  /** `remainderCount` is what found no slot although no error is answered. */
  method InternalAddItem(target: Container, index: Option<nat>, item: Thing, noLimit: bool, stacks: bool, allowed: bool)
    returns (answer: Answer, remainderCount: nat)
    requires AllFit(target.Now()) && Fits(item)
    modifies target
    ensures Added(target.Now(), answer, remainderCount) ==
            Add(old(target.Now()), index, item, noLimit, stacks, allowed)
    decreases item.count
  {
    hide Destination, QueryMax, Admits, Put;
    remainderCount := 0;
    if !allowed {
      answer := Denied;
      return;
    }
    var place := target.QueryDestination(index, item.kind, false, stacks);
    answer := target.QueryAdd(place.index, noLimit);
    if answer != NoError {
      return;
    }
    var q := target.QueryMaxCount(None, item.kind, None, item.count, noLimit);
    if !q.ok && !target.reward {
      answer := NoRoom;
      return;
    }
    if item.kind.stackable && place.dest.Some? && target.things[place.dest.value].kind == item.kind {
      var toItem := target.things[place.dest.value];
      var m := Min(item.count, q.max);
      var n := Min(toItem.kind.size - toItem.count, m);
      ghost var before := target.Now();
      assert n == OntoDest(before, place.dest, item.kind, m);
      target.UpdateThing(place.dest.value, toItem.count + n);
      ghost var filled := Fill(before, place.dest.value, n);
      assert target.Now() == filled && AllFit(filled);
      AddGoesOn(before, index, item, noLimit, stacks, allowed, m, n);
      hide Fill, AllFit, OntoDest, Add;
      var count := m - n;
      if count > 0 {
        if item.count != count {
          var more, rest := InternalAddItem(target, None, item.(count := count), noLimit, stacks, allowed);
          if more != NoError {
            remainderCount := count;
          }
        } else {
          target.AddThing(place.index, item);
        }
      }
    } else {
      target.AddThing(place.index, item);
    }
  }

  /** An addition that finds a thing of the same kind in its slot. */
  lemma AddGoesOn(bag: Bag, index: Option<nat>, item: Thing, noLimit: bool, stacks: bool, allowed: bool, m: nat, n: nat)
    requires allowed
    requires var place := Destination(bag, index, item.kind, false, stacks);
             var q := QueryMax(bag, None, item.kind, None, item.count, noLimit);
             && Admits(bag, place.index, noLimit) == NoError && (q.ok || bag.reward)
             && item.kind.stackable && place.dest.Some? && bag.things[place.dest.value].kind == item.kind
             && m == Min(item.count, q.max) && n == OntoDest(bag, place.dest, item.kind, m)
    ensures var place := Destination(bag, index, item.kind, false, stacks);
            var filled := Fill(bag, place.dest.value, n);
            Add(bag, index, item, noLimit, stacks, allowed) ==
            if m == n then Added(filled, NoError, 0)
            else if m - n == item.count then Added(Put(filled, place.index, item), NoError, 0)
            else
              var more := Add(filled, None, item.(count := m - n), noLimit, stacks, allowed);
              Added(more.bag, NoError, if more.answer != NoError then m - n else 0)
  {
    hide Destination, QueryMax, Admits, Put, Fill, OntoDest;
  }
}
