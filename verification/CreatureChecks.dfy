/** The scheduler that makes creatures think: its fields, its methods, and that they take the
    steps of the cycle. */
module CreatureChecks {
  import opened CheckCycle

  /** What a thinking creature may call back into. */
  predicate IsCallback(e: Event) {
    e.Add? || e.Remove? || e.SetAlive? || e.SetRemoved? || e.Expire?
  }

  function NoLists(n: nat): (lists: seq<seq<Id>>)
    ensures |lists| == n
  {
    if n == 0 then [] else [[]] + NoLists(n - 1)
  }

  class Checks {
    var checkCreatureLists: seq<seq<Id>>
    var index: nat
    var pending: seq<(Id, nat)>
    var creatures: map<Id, Creature>
    /** The sweep under way. */
    ghost var sweep: Sweep

    ghost function Now(): State
      reads this
    {
      State(checkCreatureLists, index, pending, creatures, sweep)
    }

    constructor ()
      ensures Inv(Now()) && sweep.Idle? && pending == [] && creatures == map[]
    {
      checkCreatureLists := NoLists(LISTS);
      index, pending, creatures, sweep := 0, [], map[], Idle;
      new;
      forall c ensures ListedOnce(Now(), c) {
        EmptyCounts(LISTS, c);
      }
    }

    method AddCreatureCheck(c: Id, list: nat)
      requires c in creatures && !creatures[c].expired && list < LISTS
      modifies this`creatures, this`pending
      ensures Now() == AddCheck(old(Now()), c, list)
    {
      if creatures[c].removed {
        return;
      }
      creatures := creatures[c := creatures[c].(check := true)];
      var already := creatures[c].inVector;
      creatures := creatures[c := creatures[c].(inVector := true)];
      if already {
        return;
      }
      pending := pending + [(c, list)];
    }

    method RemoveCreatureCheck(c: Id)
      requires c in creatures && !creatures[c].expired
      modifies this`creatures
      ensures Now() == RemoveCheck(old(Now()), c)
    {
      if creatures[c].inVector {
        creatures := creatures[c := creatures[c].(check := false)];
      }
    }

    /** The dispatcher runs the oldest insertion; it does so between sweeps, never inside one. */
    method RunNextInsertion()
      requires Inv(Now()) && sweep.Idle?
      modifies this`checkCreatureLists, this`pending
      ensures Now() == RunFirst(old(Now()))
    {
      if pending != [] {
        var (c, list) := pending[0];
        assert pending[0].1 < LISTS;
        checkCreatureLists := checkCreatureLists[list := checkCreatureLists[list] + [c]];
        pending := pending[1..];
      }
    }

    /** Something that happens to a creature, or that a creature does, outside the sweep's own steps. */
    method Perform(e: Event)
      requires Inv(Now()) && IsCallback(e)
      modifies this`creatures, this`pending
      ensures Now() == Step(old(Now()), e)
    {
      match e {
        case Add(c, list) =>
          if c in creatures && !creatures[c].expired && list < LISTS { AddCreatureCheck(c, list); }
        case Remove(c) =>
          if c in creatures && !creatures[c].expired { RemoveCreatureCheck(c); }
        case SetAlive(c, alive) =>
          if c in creatures && !creatures[c].expired { creatures := creatures[c := creatures[c].(alive := alive)]; }
        case SetRemoved(c) =>
          if c in creatures && !creatures[c].expired { creatures := creatures[c := creatures[c].(removed := true)]; }
        case Expire(c) =>
          if c in creatures && !creatures[c].expired && !IsPending(pending, c) {
            creatures := creatures[c := creatures[c].(expired := true)];
          }
        case RunPending =>
        case BeginSweep =>
        case Visit =>
        case EndSweep =>
      }
    }

    /** The creature thinks and stays, or it leaves the list. */
    method VisitCreature(list: seq<Id>, i: nat, keptBefore: seq<Id>) returns (kept: seq<Id>)
      requires Inv(Now()) && i < |list| && sweep == Sweeping(keptBefore, list[i..])
      modifies this`creatures, this`sweep
      ensures Inv(Now()) && Now() == Step(old(Now()), Visit) && sweep == Sweeping(kept, list[i + 1..])
    {
      ghost var before := Now();
      var c := list[i];
      NextIsKnown(before);
      StepKeepsInv(before, Visit);
      hide Inv;
      kept := keptBefore;
      if Thinks(creatures[c]) {
        kept := kept + [c];
      } else if !creatures[c].expired {
        creatures := creatures[c := creatures[c].(inVector := false)];
      }
      sweep := Sweeping(kept, list[i + 1..]);
      assert list[i..][1..] == list[i + 1..];
    }

    method StartSweep() returns (list: seq<Id>)
      requires Inv(Now()) && sweep.Idle?
      modifies this`sweep
      ensures Inv(Now()) && Now() == Step(old(Now()), BeginSweep)
      ensures index < |checkCreatureLists| && list == checkCreatureLists[index]
      ensures sweep == Sweeping([], list)
    {
      ShapeOf(Now());
      StepKeepsInv(Now(), BeginSweep);
      hide Inv;
      list := checkCreatureLists[index];
      sweep := Sweeping([], list);
    }

    /** The list that was swept becomes what was kept of it. */
    method FinishSweep(kept: seq<Id>)
      requires Inv(Now()) && sweep == Sweeping(kept, [])
      modifies this`checkCreatureLists, this`index, this`sweep
      ensures Inv(Now()) && Now() == Step(old(Now()), EndSweep)
      ensures sweep.Idle? && index == Following(old(index))
    {
      ShapeOf(Now());
      StepKeepsInv(Now(), EndSweep);
      hide Inv;
      checkCreatureLists := checkCreatureLists[index := kept];
      index := (index + 1) % LISTS;
      sweep := Idle;
    }

    /** Sweeps the next list.  `callbacks` gives, for each creature reached, what happens before the next is. */
    method CheckCreatures(callbacks: seq<seq<Event>>) returns (ghost es: seq<Event>)
      requires Inv(Now()) && sweep.Idle?
      requires forall i, j :: 0 <= i < |callbacks| && 0 <= j < |callbacks[i]| ==> IsCallback(callbacks[i][j])
      modifies this
      ensures Inv(Now()) && sweep.Idle? && index == Following(old(index))
      ensures Now() == Run(old(Now()), es) && SweepCount(old(Now()), es) == 1
      ensures old(index) < |old(checkCreatureLists)|
      ensures es == [BeginSweep] + Visits(|old(checkCreatureLists)[old(index)]|, callbacks) + [EndSweep]
    {
      ShapeOf(Now());
      hide Run, SweepCount, Inv, Step, Visits;
      ghost var start := Now();
      var list := StartSweep();
      var kept: seq<Id> := [];
      es := [BeginSweep];
      RunOne(start, BeginSweep);
      NoVisits(callbacks);
      var i := 0;
      while i < |list|
        invariant 0 <= i <= |list| && sweep == Sweeping(kept, list[i..])
        invariant Inv(Now()) && index == old(index)
        invariant Now() == Run(start, es) && SweepCount(start, es) == 0
        invariant es == [BeginSweep] + Visits(i, callbacks)
      {
        NextVisit(i, callbacks);
        kept := VisitCreature(list, i, kept);
        RunSnoc(start, es, Visit);
        es := es + [Visit];
        if i < |callbacks| {
          var more := Callbacks(callbacks[i]);
          RunConcat(start, es, more);
          NoSweepEnds(Run(start, es), more);
          es := es + more;
        }
        i := i + 1;
      }
      assert list[i..] == [];
      RunSnoc(start, es, EndSweep);
      FinishSweep(kept);
      es := es + [EndSweep];
    }

    method Callbacks(todo: seq<Event>) returns (ghost es: seq<Event>)
      requires Inv(Now()) && forall j :: 0 <= j < |todo| ==> IsCallback(todo[j])
      modifies this`creatures, this`pending
      ensures Inv(Now()) && es == todo && Now() == Run(old(Now()), es)
    {
      es := [];
      var j := 0;
      while j < |todo|
        invariant 0 <= j <= |todo| && es == todo[..j]
        invariant Inv(Now()) && Now() == Run(old(Now()), es)
      {
        StepKeepsInv(Now(), todo[j]);
        RunSnoc(old(Now()), es, todo[j]);
        Perform(todo[j]);
        assert todo[..j + 1] == todo[..j] + [todo[j]];
        es := es + [todo[j]];
        j := j + 1;
      }
      assert todo[..j] == todo;
    }
  }

  /** The steps of a sweep over `n` creatures, each with what happens before the next is reached. */
  ghost function Visits(n: nat, callbacks: seq<seq<Event>>): seq<Event> {
    if n == 0 then []
    else Visits(n - 1, callbacks) + [Visit] + if n - 1 < |callbacks| then callbacks[n - 1] else []
  }

  lemma NoVisits(callbacks: seq<seq<Event>>)
    ensures [BeginSweep] + Visits(0, callbacks) == [BeginSweep]
  {
  }

  lemma NextVisit(i: nat, callbacks: seq<seq<Event>>)
    ensures [BeginSweep] + Visits(i + 1, callbacks)
            == [BeginSweep] + Visits(i, callbacks) + [Visit] + if i < |callbacks| then callbacks[i] else []
  {
    var more := if i < |callbacks| then callbacks[i] else [];
    assert [BeginSweep] + (Visits(i, callbacks) + [Visit] + more)
        == [BeginSweep] + Visits(i, callbacks) + [Visit] + more;
  }

  lemma ShapeOf(s: State)
    requires Inv(s)
    ensures |s.lists| == LISTS && s.index < LISTS
  {
  }

  lemma {:induction false} EmptyCounts(n: nat, c: Id)
    ensures CountAll(NoLists(n), c) == 0
  {
    if n > 0 {
      EmptyCounts(n - 1, c);
      assert NoLists(n)[1..] == NoLists(n - 1);
    }
  }

  /** Who is next in a sweep is a known creature. */
  lemma NextIsKnown(s: State)
    requires Inv(s) && s.sweep.Sweeping? && s.sweep.todo != []
    ensures s.sweep.todo[0] in s.creatures && |s.lists| == LISTS && s.index < LISTS
  {
    FirstOccurs(s);
    assert ListedOnce(s, s.sweep.todo[0]);
  }

  lemma RunOne(s: State, e: Event)
    ensures Run(s, [e]) == Step(s, e)
    ensures SweepCount(s, [e]) == if EndsNow(s, e) then 1 else 0
  {
    assert [e][1..] == [];
  }

  lemma {:induction false} RunConcat(s: State, es: seq<Event>, fs: seq<Event>)
    ensures Run(s, es + fs) == Run(Run(s, es), fs)
    ensures SweepCount(s, es + fs) == SweepCount(s, es) + SweepCount(Run(s, es), fs)
    decreases |es|
  {
    if es == [] {
      assert es + fs == fs;
    } else {
      RunConcat(Step(s, es[0]), es[1..], fs);
      assert (es + fs)[1..] == es[1..] + fs;
    }
  }

  lemma RunSnoc(s: State, es: seq<Event>, e: Event)
    ensures Run(s, es + [e]) == Step(Run(s, es), e)
    ensures SweepCount(s, es + [e]) == SweepCount(s, es) + if EndsNow(Run(s, es), e) then 1 else 0
  {
    RunConcat(s, es, [e]);
    RunOne(Run(s, es), e);
  }

  lemma {:induction false} NoSweepEnds(s: State, es: seq<Event>)
    requires forall j :: 0 <= j < |es| ==> IsCallback(es[j])
    ensures SweepCount(s, es) == 0
    decreases |es|
  {
    if es != [] {
      NoSweepEnds(Step(s, es[0]), es[1..]);
    }
  }
}
