/** The creature's own list of script events, changed in place. */
module CreatureEvents {
  import opened Basics
  import opened EventLists

  class Creature {
    var eventsList: seq<Event>
    var scriptEventsBitField: bv32

    ghost function Now(): State
      reads this
    {
      State(eventsList, scriptEventsBitField)
    }

    constructor ()
      ensures Now() == State([], 0)
    {
      eventsList, scriptEventsBitField := [], 0;
    }

    predicate HasEventRegistered(kind: Kind)
      reads this
    {
      HasBit(scriptEventsBitField, kind)
    }

    method RegisterCreatureEvent(event: Option<Event>) returns (ok: bool)
      requires Inv(Now())
      modifies this
      ensures Now() == Register(old(Now()), event) && Inv(Now())
      ensures ok <==> event.Some? && event.value !in old(eventsList)
    {
      hide Bit, HasBit, WithBit, WithoutBit, Distinct;
      RegisterKeepsInv(Now(), event);
      if event.None? {
        return false;
      }
      var e := event.value;
      if HasEventRegistered(e.kind) {
        for i := 0 to |eventsList|
          invariant e !in eventsList[..i]
        {
          if eventsList[i] == e {
            return false;
          }
        }
      } else {
        scriptEventsBitField := WithBit(scriptEventsBitField, e.kind);
      }
      eventsList := eventsList + [e];
      return true;
    }

    /** Drops the event; says whether no other of its type is left. */
    method EraseEvent(e: Event) returns (resetTypeBit: bool)
      modifies this`eventsList
      ensures eventsList == Removed(old(eventsList), e)
      ensures resetTypeBit <==> !Lists(eventsList, e.kind)
    {
      hide Lists, Removed;
      resetTypeBit := true;
      ghost var list, seen, kept := eventsList, 0, [];
      assert list[..0] == [] && list[0..] == list;
      NothingYet(e);
      var it := 0;
      while it < |eventsList|
        invariant seen <= |list| && it == |kept| && eventsList == kept + list[seen..]
        invariant kept == Removed(list[..seen], e)
        invariant resetTypeBit <==> !Lists(kept, e.kind)
        decreases |eventsList| - it
      {
        var curEvent := eventsList[it];
        NextEvent(list, seen, kept, eventsList);
        RemovedMore(list[..seen], curEvent, e);
        seen := seen + 1;
        if curEvent == e {
          eventsList := eventsList[..it] + eventsList[it + 1..];
          continue;
        }
        if curEvent.kind == e.kind {
          resetTypeBit := false;
        }
        ListsMore(kept, curEvent, e.kind);
        kept := kept + [curEvent];
        it := it + 1;
      }
      assert list[..seen] == list;
    }

    method UnregisterCreatureEvent(event: Option<Event>) returns (ok: bool)
      requires Inv(Now())
      modifies this
      ensures Now() == Unregister(old(Now()), event) && Inv(Now())
      ensures ok <==> event.Some? && Lists(old(eventsList), event.value.kind)
    {
      hide Bit, HasBit, WithBit, WithoutBit, Distinct, Lists, Removed;
      UnregisterKeepsInv(Now(), event);
      if event.None? {
        return false;
      }
      var e := event.value;
      if !HasEventRegistered(e.kind) {
        return false;
      }
      var resetTypeBit := EraseEvent(e);
      if resetTypeBit {
        scriptEventsBitField := WithoutBit(scriptEventsBitField, e.kind);
      }
      return true;
    }

    method GetCreatureEvents(kind: Kind) returns (events: seq<Event>)
      ensures events == Events(State(eventsList, scriptEventsBitField), kind)
    {
      events := [];
      if !HasEventRegistered(kind) {
        return;
      }
      for i := 0 to |eventsList|
        invariant events == OfKind(eventsList[..i], kind)
      {
        OfKindMore(eventsList[..i], eventsList[i], kind);
        assert eventsList[..i + 1] == eventsList[..i] + [eventsList[i]];
        if eventsList[i].kind == kind {
          events := events + [eventsList[i]];
        }
      }
      assert eventsList[..|eventsList|] == eventsList;
    }
  }

  lemma ListsMore(list: seq<Event>, e: Event, kind: Kind)
    ensures Lists(list + [e], kind) <==> Lists(list, kind) || e.kind == kind
  {
    ListsIs(list, kind);
    ListsIs(list + [e], kind);
    assert e in list + [e];
  }

  lemma {:induction false} OfKindMore(list: seq<Event>, e: Event, kind: Kind)
    ensures OfKind(list + [e], kind) == OfKind(list, kind) + if e.kind == kind then [e] else []
  {
    if list != [] {
      OfKindMore(list[1..], e, kind);
      assert (list + [e])[1..] == list[1..] + [e];
    }
  }

  lemma {:induction false} RemovedMore(list: seq<Event>, last: Event, e: Event)
    ensures Removed(list + [last], e) == Removed(list, e) + if last == e then [] else [last]
  {
    if list != [] {
      RemovedMore(list[1..], last, e);
      assert (list + [last])[1..] == list[1..] + [last];
    }
  }

  lemma NothingYet(e: Event)
    ensures Removed([], e) == [] && !Lists([], e.kind)
  {
  }

  lemma NextEvent(list: seq<Event>, seen: nat, kept: seq<Event>, all: seq<Event>)
    requires seen <= |list| && all == kept + list[seen..] && |kept| < |all|
    ensures seen < |list| && all[|kept|] == list[seen] && list[..seen + 1] == list[..seen] + [list[seen]]
    ensures all[..|kept|] + all[|kept| + 1..] == kept + list[seen + 1..]
    ensures all == (kept + [list[seen]]) + list[seen + 1..]
  {
    assert list[seen..] == [list[seen]] + list[seen + 1..];
  }
}
