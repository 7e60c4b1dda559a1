/** Moving items between containers and adding new ones: stacks are filled up first. */
module StackRules {
  import opened Basics
  import opened Sequences

  /** `size` is the largest stack; things of one kind are equal but for their number. */
  datatype Kind = Kind(tag: nat, stackable: bool, size: Count)

  datatype Thing = Thing(kind: Kind, count: Count)

  /** `most` is the number of items that may be held; a paged container shows its slots in pages. */
  datatype Bag = Bag(capacity: nat, paged: bool, most: nat, reward: bool, things: seq<Thing>)

  datatype Answer = NoError | Denied | NotPossible | NoRoom | Full

  /** No stack is larger than it may be; what does not stack counts one. */
  predicate Fits(t: Thing) {
    t.count <= if t.kind.stackable then t.kind.size else 1
  }

  predicate AllFit(bag: Bag) {
    forall i :: 0 <= i < |bag.things| ==> Fits(bag.things[i])
  }

  // ----- Where a thing goes -----------------------------------------------------------------

  predicate Partial(t: Thing, kind: Kind) {
    t.kind == kind && t.count < kind.size
  }

  function FirstPartial(things: seq<Thing>, kind: Kind): (i: nat)
    ensures i <= |things|
    ensures i < |things| ==> Partial(things[i], kind)
    ensures forall j :: 0 <= j < i ==> !Partial(things[j], kind)
  {
    if things == [] || Partial(things[0], kind) then 0 else 1 + FirstPartial(things[1..], kind)
  }

  /** The slot asked for or found, None for any; and the position of the thing that is there. */
  datatype Place = Place(index: Option<nat>, dest: Option<nat>)

  /** `here`: the thing is in this very container; `stacks`: it may be put on a stack of its kind. */
  function Destination(bag: Bag, index: Option<nat>, kind: Kind, here: bool, stacks: bool): (p: Place)
    ensures p.dest.Some? ==> p.dest.value < |bag.things|
  {
    var slot := if index.Some? && (index.value == 255 || (index.value >= bag.capacity && !bag.paged)) then None
                else index;
    var dest := if slot.Some? && slot.value < |bag.things| then Some(slot.value) else None;
    var first := FirstPartial(bag.things, kind);
    if !stacks || !kind.stackable || here then Place(slot, dest)
    else if dest.Some? && Partial(bag.things[dest.value], kind) then Place(slot, dest)
    else if first < |bag.things| then Place(Some(first), Some(first))
    else Place(slot, dest)
  }

  function Admits(bag: Bag, index: Option<nat>, noLimit: bool): Answer {
    if !noLimit && index.None? && |bag.things| >= bag.capacity && !bag.paged then NoRoom
    else if |bag.things| + 1 > bag.most then Full
    else NoError
  }

  function RoomOn(t: Thing, kind: Kind): nat {
    if Partial(t, kind) then kind.size - t.count else 0
  }

  /** Room on the stacks of a kind, that of the thing itself left out. */
  function Room(things: seq<Thing>, kind: Kind, self: Option<nat>): nat {
    if things == [] then 0
    else (if self == Some(0) then 0 else RoomOn(things[0], kind))
         + Room(things[1..], kind, if self.Some? && self.value > 0 then Some(self.value - 1) else None)
  }

  datatype Query = Query(max: nat, ok: bool)

  /** How many of `count` fit. */
  function QueryMax(bag: Bag, index: Option<nat>, kind: Kind, self: Option<nat>, count: nat, noLimit: bool): Query {
    var free := if bag.capacity > |bag.things| then bag.capacity - |bag.things| else 0;
    if noLimit || bag.paged then Query(Max(1, count), true)
    else if !kind.stackable then Query(free, free > 0)
    else
      var room := if index.None? then Room(bag.things, kind, self)
                  else if index.value < |bag.things| then RoomOn(bag.things[index.value], kind)
                  else 0;
      Query(free * kind.size + room, free * kind.size + room >= count)
  }

  // ----- Changes of one container -----------------------------------------------------------

  function TakeOut(bag: Bag, i: nat, m: nat): Bag
    requires i < |bag.things| && (bag.things[i].kind.stackable ==> m <= bag.things[i].count)
  {
    var t := bag.things[i];
    if t.kind.stackable && m != t.count then bag.(things := bag.things[i := t.(count := t.count - m)])
    else bag.(things := Without(bag.things, i))
  }

  function Fill(bag: Bag, d: nat, n: nat): Bag
    requires d < |bag.things|
  {
    bag.(things := bag.things[d := bag.things[d].(count := bag.things[d].count + n)])
  }

  /** A new thing comes first; with a slot beyond the capacity it goes nowhere. */
  function Put(bag: Bag, index: Option<nat>, t: Thing): Bag {
    if index.Some? && index.value >= bag.capacity then bag else bag.(things := [t] + bag.things)
  }

  // ----- Moving -----------------------------------------------------------------------------

  datatype Moved = Moved(bags: seq<Bag>, answer: Answer)

  /** How much of a stack goes onto the thing at its destination. */
  function OntoDest(bag: Bag, dest: Option<nat>, kind: Kind, m: nat): nat
    requires dest.Some? ==> dest.value < |bag.things|
  {
    if kind.stackable && dest.Some? && bag.things[dest.value].kind == kind && bag.things[dest.value].count <= kind.size
    then Min(kind.size - bag.things[dest.value].count, m)
    else 0
  }

  /** What is left to put into a slot of its own. */
  function Remainder(item: Thing, m: nat, n: nat): Option<Thing>
    requires n <= m
  {
    if !item.kind.stackable then Some(item)
    else if m == n then None
    else Some(item.(count := m - n))
  }

  /** The position of the destination after the thing at `i` in the same container is gone. */
  function Shifted(bags: seq<Bag>, f: nat, i: nat, t: nat, d: nat, m: nat): nat
    requires f < |bags| && i < |bags[f].things|
  {
    var item := bags[f].things[i];
    if f == t && i < d && !(item.kind.stackable && m != item.count) then d - 1 else d
  }

  /** Moves `m` of the thing `i`, with every check made. */
  function Transfer(bags: seq<Bag>, f: nat, i: nat, t: nat, place: Place, m: nat): seq<Bag>
    requires f < |bags| && t < |bags| && i < |bags[f].things|
    requires place.dest.Some? ==> place.dest.value < |bags[t].things| && !(f == t && place.dest.value == i)
    requires m > 0 && (bags[f].things[i].kind.stackable ==> m <= bags[f].things[i].count)
  {
    var item := bags[f].things[i];
    var n := OntoDest(bags[t], place.dest, item.kind, m);
    var out := bags[f := TakeOut(bags[f], i, m)];
    var filled := if n == 0 then out else out[t := Fill(out[t], Shifted(bags, f, i, t, place.dest.value, m), n)];
    var rest := Remainder(item, m, n);
    if rest.None? then filled else filled[t := Put(filled[t], place.index, rest.value)]
  }

  /** `allowed`: the item may be taken and put there as far as owners, types and places are concerned. */
  function Move(bags: seq<Bag>, f: nat, i: nat, t: nat, index: Option<nat>, count: nat,
                noLimit: bool, stacks: bool, allowed: bool): Moved
    requires f < |bags| && t < |bags| && i < |bags[f].things|
  {
    var item := bags[f].things[i];
    var self := if f == t then Some(i) else None;
    var place := Destination(bags[t], index, item.kind, f == t, stacks);
    if f == t && place.dest == Some(i) then Moved(bags, NoError)
    else if !allowed then Moved(bags, Denied)
    else if Admits(bags[t], place.index, noLimit) != NoError then Moved(bags, Admits(bags[t], place.index, noLimit))
    else
      var q := QueryMax(bags[t], place.index, item.kind, self, count, noLimit);
      var m := if item.kind.stackable then Min(count, q.max) else q.max;
      if !q.ok && q.max == 0 then Moved(bags, NoRoom)
      else if m == 0 || (item.kind.stackable && m > item.count) then Moved(bags, NotPossible)
      else
        Moved(Transfer(bags, f, i, t, place, m),
              if item.kind.stackable && q.max < count then NoRoom else NoError)
  }

  // ----- Adding -----------------------------------------------------------------------------

  datatype Added = Added(bag: Bag, answer: Answer, remainder: nat)

  /** Adds a new item. The rest of a stack that is partly put on another one is added in its turn. */
  function Add(bag: Bag, index: Option<nat>, item: Thing, noLimit: bool, stacks: bool, allowed: bool): Added
    decreases item.count
  {
    var place := Destination(bag, index, item.kind, false, stacks);
    var q := QueryMax(bag, None, item.kind, None, item.count, noLimit);
    if !allowed then Added(bag, Denied, 0)
    else if Admits(bag, place.index, noLimit) != NoError then Added(bag, Admits(bag, place.index, noLimit), 0)
    else if !q.ok && !bag.reward then Added(bag, NoRoom, 0)
    else if !item.kind.stackable || place.dest.None? || bag.things[place.dest.value].kind != item.kind then
      Added(Put(bag, place.index, item), NoError, 0)
    else
      var m := Min(item.count, q.max);
      var n := OntoDest(bag, place.dest, item.kind, m);
      var filled := Fill(bag, place.dest.value, n);
      if m == n then Added(filled, NoError, 0)
      else if m - n == item.count then Added(Put(filled, place.index, item), NoError, 0)
      else
        var more := Add(filled, None, item.(count := m - n), noLimit, stacks, allowed);
        Added(more.bag, NoError, if more.answer != NoError then m - n else 0)
  }
}
