/** The script events of a creature: a list, and one bit for each type of event in it. */
module EventLists {
  import opened Basics

  const TYPES: bv8 := 13

  type Kind = k: bv8 | k < TYPES

  datatype Event = Event(name: string, kind: Kind)

  datatype State = State(list: seq<Event>, bits: bv32)

  const ONE: bv32 := 1

  function Bit(kind: Kind): bv32 {
    ONE << kind
  }

  predicate HasBit(bits: bv32, kind: Kind) {
    bits & Bit(kind) != 0
  }

  function WithBit(bits: bv32, kind: Kind): bv32 {
    bits | Bit(kind)
  }

  function WithoutBit(bits: bv32, kind: Kind): bv32 {
    bits & !Bit(kind)
  }

  lemma SetMask(bits: bv32, kind: Kind, other: Kind)
    ensures HasBit(bits | Bit(kind), other) <==> kind == other || HasBit(bits, other)
  {
  }

  lemma ClearMask(bits: bv32, kind: Kind, other: Kind)
    ensures HasBit(bits & !Bit(kind), other) <==> kind != other && HasBit(bits, other)
  {
  }

  lemma SetBit(bits: bv32, kind: Kind, other: Kind)
    ensures HasBit(WithBit(bits, kind), other) <==> kind == other || HasBit(bits, other)
  {
    hide HasBit, Bit;
    SetMask(bits, kind, other);
  }

  lemma ClearBit(bits: bv32, kind: Kind, other: Kind)
    ensures HasBit(WithoutBit(bits, kind), other) <==> kind != other && HasBit(bits, other)
  {
    hide HasBit, Bit;
    ClearMask(bits, kind, other);
  }

  // ----- What the calls do ------------------------------------------------------------------

  predicate Lists(list: seq<Event>, kind: Kind) {
    exists i :: 0 <= i < |list| && list[i].kind == kind
  }

  predicate Distinct(list: seq<Event>) {
    forall i, j :: 0 <= i < j < |list| ==> list[i] != list[j]
  }

  /** A type's bit is set exactly when an event of that type is listed; no event is listed twice. */
  ghost predicate Inv(s: State) {
    && Distinct(s.list)
    && forall kind: Kind :: HasBit(s.bits, kind) <==> Lists(s.list, kind)
  }

  function OfKind(list: seq<Event>, kind: Kind): seq<Event> {
    if list == [] then []
    else (if list[0].kind == kind then [list[0]] else []) + OfKind(list[1..], kind)
  }

  function Removed(list: seq<Event>, e: Event): seq<Event> {
    if list == [] then []
    else (if list[0] == e then [] else [list[0]]) + Removed(list[1..], e)
  }

  /** The event of the given name, if there is one. */
  function Register(s: State, event: Option<Event>): State {
    if event.None? then s
    else if !HasBit(s.bits, event.value.kind) then
      State(s.list + [event.value], WithBit(s.bits, event.value.kind))
    else if event.value in s.list then s
    else s.(list := s.list + [event.value])
  }

  function Unregister(s: State, event: Option<Event>): State {
    if event.None? || !HasBit(s.bits, event.value.kind) then s
    else
      var list := Removed(s.list, event.value);
      State(list, if Lists(list, event.value.kind) then s.bits else WithoutBit(s.bits, event.value.kind))
  }

  function Events(s: State, kind: Kind): seq<Event> {
    if HasBit(s.bits, kind) then OfKind(s.list, kind) else []
  }

  // ----- What holds after any calls ---------------------------------------------------------

  lemma {:induction false} RemovedIs(list: seq<Event>, e: Event)
    requires Distinct(list)
    ensures Distinct(Removed(list, e))
    ensures forall f :: f in Removed(list, e) <==> f in list && f != e
  {
    if list != [] {
      var rest := list[1..];
      assert forall i, j :: 0 <= i < j < |rest| ==> rest[i] == list[i + 1] && rest[j] == list[j + 1];
      RemovedIs(rest, e);
      assert list == [list[0]] + rest;
      assert list[0] !in rest;
    }
  }

  /** The event is cut out, and the rest of the list stays in its order. */
  lemma {:induction false} RemovedIsCut(list: seq<Event>, e: Event) returns (i: nat)
    requires Distinct(list)
    ensures e !in list ==> Removed(list, e) == list
    ensures e in list ==> i < |list| && IsCut(Removed(list, e), list, i, e)
  {
    i := 0;
    if list != [] {
      DistinctRest(list);
      if list[0] == e {
        NothingRemoved(list[1..], e);
      } else {
        i := RemovedIsCut(list[1..], e);
        if e in list[1..] {
          CutFurther(list, Removed(list[1..], e), i, e);
          i := i + 1;
        }
      }
    }
  }

  lemma DistinctRest(list: seq<Event>)
    requires list != [] && Distinct(list)
    ensures Distinct(list[1..]) && list[0] !in list[1..]
    ensures list == [list[0]] + list[1..]
  {
    assert forall i, j :: 0 <= i < j < |list[1..]| ==> list[1..][i] == list[i + 1] && list[1..][j] == list[j + 1];
  }

  lemma CutFurther(list: seq<Event>, cut: seq<Event>, i: nat, e: Event)
    requires list != [] && i < |list[1..]| && IsCut(cut, list[1..], i, e)
    ensures IsCut([list[0]] + cut, list, i + 1, e)
  {
    var rest := list[1..];
    assert [list[0]] + (rest[..i] + rest[i + 1..]) == list[..i + 1] + list[i + 2..];
  }

  lemma {:induction false} NothingRemoved(list: seq<Event>, e: Event)
    requires e !in list
    ensures Removed(list, e) == list
  {
    if list != [] {
      NothingRemoved(list[1..], e);
    }
  }

  ghost predicate IsCut(cut: seq<Event>, list: seq<Event>, i: nat, e: Event)
    requires i < |list|
  {
    list[i] == e && cut == list[..i] + list[i + 1..]
  }

  lemma ListsIs(list: seq<Event>, kind: Kind)
    ensures Lists(list, kind) <==> exists e :: e in list && e.kind == kind
  {
    if e :| e in list && e.kind == kind {
      var i :| 0 <= i < |list| && list[i] == e;
      assert list[i].kind == kind;
    }
  }

  lemma RegisterKeepsInv(s: State, event: Option<Event>)
    requires Inv(s)
    ensures var t := Register(s, event);
            && Inv(t)
            && (forall e :: e in t.list <==> e in s.list || event == Some(e))
            && t.list == s.list + (if event.Some? && event.value !in s.list then [event.value] else [])
            && (t != s <==> event.Some? && event.value !in s.list)
  {
    hide HasBit, WithBit, WithoutBit;
    var t := Register(s, event);
    if event.Some? && event.value !in s.list {
      forall kind: Kind
        ensures HasBit(t.bits, kind) <==> Lists(t.list, kind)
      {
        SetBit(s.bits, event.value.kind, kind);
        ListsIs(s.list, kind);
        ListsIs(t.list, kind);
      }
    } else if event.Some? {
      ListsIs(s.list, event.value.kind);
    }
  }

  lemma UnregisterKeepsInv(s: State, event: Option<Event>)
    requires Inv(s)
    ensures var t := Unregister(s, event);
            && Inv(t)
            && (forall e :: e in t.list <==> e in s.list && event != Some(e))
  {
    hide HasBit, WithBit, WithoutBit;
    var t := Unregister(s, event);
    if event.Some? {
      RemovedIs(s.list, event.value);
      ListsIs(s.list, event.value.kind);
      forall kind: Kind | t != s
        ensures HasBit(t.bits, kind) <==> Lists(t.list, kind)
      {
        ClearBit(s.bits, event.value.kind, kind);
        ListsIs(s.list, kind);
        ListsIs(t.list, kind);
        if kind != event.value.kind && Lists(s.list, kind) {
          var e :| e in s.list && e.kind == kind;
          assert e in t.list;
        }
      }
    }
  }

  /** The events that stay listed do so in their order. */
  lemma UnregisterKeepsOrder(s: State, event: Option<Event>) returns (i: nat)
    requires Inv(s)
    ensures var t := Unregister(s, event);
            if event.Some? && event.value in s.list then
              i < |s.list| && s.list[i] == event.value && t.list == s.list[..i] + s.list[i + 1..]
            else t.list == s.list
  {
    hide HasBit, WithBit, WithoutBit;
    i := 0;
    if event.Some? {
      i := RemovedIsCut(s.list, event.value);
      if event.value in s.list {
        ListsIs(s.list, event.value.kind);
      }
    }
  }

  /** The shortcut through the bit never hides an event. */
  lemma EventsAreThoseOfTheKind(s: State, kind: Kind)
    requires Inv(s)
    ensures Events(s, kind) == OfKind(s.list, kind)
    ensures forall e :: e in Events(s, kind) <==> e in s.list && e.kind == kind
    ensures forall i, j :: 0 <= i < j < |Events(s, kind)| ==> Before(s.list, Events(s, kind)[i], Events(s, kind)[j])
  {
    OfKindIs(s.list, kind);
    forall i, j | 0 <= i < j < |OfKind(s.list, kind)|
      ensures Before(s.list, OfKind(s.list, kind)[i], OfKind(s.list, kind)[j])
    {
      OfKindInOrder(s.list, kind, i, j);
    }
    if !Lists(s.list, kind) {
      NoneOfKind(s.list, kind);
    }
  }

  /** The one event is listed before the other. */
  ghost predicate Before(list: seq<Event>, e: Event, f: Event) {
    exists i, j :: 0 <= i < j < |list| && list[i] == e && list[j] == f
  }

  /** The filter takes the events of the type, in the order of the list. */
  lemma {:induction false} OfKindIs(list: seq<Event>, kind: Kind)
    ensures forall e :: e in OfKind(list, kind) <==> e in list && e.kind == kind
  {
    if list != [] {
      OfKindIs(list[1..], kind);
      assert list == [list[0]] + list[1..];
    }
  }

  lemma {:induction false} OfKindInOrder(list: seq<Event>, kind: Kind, i: nat, j: nat)
    requires i < j < |OfKind(list, kind)|
    ensures Before(list, OfKind(list, kind)[i], OfKind(list, kind)[j])
  {
    hide Before;
    var rest, all := OfKind(list[1..], kind), OfKind(list, kind);
    var n := if list[0].kind == kind then 1 else 0;
    assert all[n..] == rest && all[j] == rest[j - n];
    if i < n {
      OfKindIs(list[1..], kind);
      FirstIsBefore(list, all[j]);
    } else {
      OfKindInOrder(list[1..], kind, i - n, j - n);
      LaterIsBefore(list, rest[i - n], rest[j - n]);
      assert all[i] == rest[i - n];
    }
  }

  lemma FirstIsBefore(list: seq<Event>, f: Event)
    requires list != [] && f in list[1..]
    ensures Before(list, list[0], f)
  {
    var j :| 0 <= j < |list[1..]| && list[1..][j] == f;
    assert list[j + 1] == f;
  }

  lemma LaterIsBefore(list: seq<Event>, e: Event, f: Event)
    requires list != [] && Before(list[1..], e, f)
    ensures Before(list, e, f)
  {
    var i, j :| 0 <= i < j < |list[1..]| && list[1..][i] == e && list[1..][j] == f;
    assert list[i + 1] == e && list[j + 1] == f;
  }

  lemma {:induction false} NoneOfKind(list: seq<Event>, kind: Kind)
    requires !Lists(list, kind)
    ensures OfKind(list, kind) == []
  {
    if list != [] {
      assert list[0].kind != kind;
      forall i | 0 <= i < |list[1..]|
        ensures list[1..][i].kind != kind
      {
        assert list[1..][i] == list[i + 1];
      }
      NoneOfKind(list[1..], kind);
    }
  }

  // ----- Runs -------------------------------------------------------------------------------

  datatype Call = Registers(event: Option<Event>) | Unregisters(event: Option<Event>)

  function Run(s: State, calls: seq<Call>): State {
    if calls == [] then s
    else
      var before := Run(s, calls[..|calls| - 1]);
      match calls[|calls| - 1]
      case Registers(event) => Register(before, event)
      case Unregisters(event) => Unregister(before, event)
  }

  /** The last call about the event registered it. */
  predicate LastRegistered(calls: seq<Call>, e: Event) {
    if calls == [] then false
    else
      var last := calls[|calls| - 1];
      if last.event == Some(e) then last.Registers? else LastRegistered(calls[..|calls| - 1], e)
  }

  /** After any calls on a new creature the listed events are those whose last call registered them. */
  lemma {:induction false} RunListsTheRegistered(calls: seq<Call>, e: Event)
    ensures Inv(Run(State([], 0), calls))
    ensures e in Run(State([], 0), calls).list <==> LastRegistered(calls, e)
  {
    if calls == [] {
      NoBits();
    } else {
      var before := calls[..|calls| - 1];
      RunListsTheRegistered(before, e);
      var event := calls[|calls| - 1].event;
      RegisterKeepsInv(Run(State([], 0), before), event);
      UnregisterKeepsInv(Run(State([], 0), before), event);
    }
  }

  lemma NoBits()
    ensures forall kind: Kind :: !HasBit(0, kind)
  {
    forall kind: Kind
      ensures !HasBit(0, kind)
    {
      assert 0 & Bit(kind) == 0;
    }
  }
}
