/** What the calls make of a creature's flags, and that a creature which is taken out of the checks, or has
    died, stops thinking and leaves its list. */
module CheckLaws {
  import opened CheckCycle

  // ----- The flags --------------------------------------------------------------------------

  /** Adding a creature that exists and is not removed sets both flags, and queues it for the list exactly if it was
      not flagged; nothing else happens, and otherwise nothing at all. */
  lemma AddSetsFlagsIff(s: State, c: Id, list: nat)
    requires c in s.creatures
    ensures var it := s.creatures[c]; var t := Step(s, Add(c, list));
            if !it.expired && !it.removed && list < LISTS then
              && t.creatures == s.creatures[c := Creature(true, true, it.alive, false, false)]
              && t.pending == s.pending + (if it.inVector then [] else [(c, list)])
              && t.lists == s.lists && t.index == s.index && t.sweep == s.sweep
            else t == s
  {
    assert s.pending + [] == s.pending;
  }

  /** Removing clears the check of a creature that is flagged, and does nothing else. */
  lemma RemoveClearsIff(s: State, c: Id)
    requires c in s.creatures
    ensures var it := s.creatures[c]; var t := Step(s, Remove(c));
            if !it.expired && it.inVector
            then t == s.(creatures := s.creatures[c := Creature(false, true, it.alive, it.removed, false)])
            else t == s
  {
  }

  /** The creature that a sweep reaches next thinks, and is kept, if and only if it exists, is checked and alive;
      otherwise it leaves the list, and if it exists its flag is cleared. */
  lemma VisitedThinksIff(s: State, c: Id)
    requires s.sweep.Sweeping? && s.sweep.todo != [] && s.sweep.todo[0] == c && c in s.creatures
    ensures var it := s.creatures[c]; var t := Step(s, Visit);
            && (ThinksNow(s, Visit, c) <==> !it.expired && it.check && it.alive)
            && t.sweep == Sweeping(s.sweep.kept + (if ThinksNow(s, Visit, c) then [c] else []), s.sweep.todo[1..])
            && (!ThinksNow(s, Visit, c) && !it.expired ==>
                  t.creatures == s.creatures[c := Creature(it.check, false, it.alive, it.removed, false)])
            && (ThinksNow(s, Visit, c) || it.expired ==> t.creatures == s.creatures)
            && t.lists == s.lists && t.index == s.index && t.pending == s.pending
  {
    assert s.sweep.kept + [] == s.sweep.kept;
  }

  /** A creature that waits to be inserted is put behind the list it was added to, in its turn and between sweeps. */
  lemma InsertedWhereAdded(s: State)
    requires Inv(s) && s.sweep.Idle? && s.pending != []
    ensures var (c, list) := s.pending[0]; var t := Step(s, RunPending);
            && list < |s.lists| && t.lists == s.lists[list := s.lists[list] + [c]] && t.pending == s.pending[1..]
            && t.creatures == s.creatures && t.index == s.index && t.sweep == s.sweep
  {
  }

  // ----- Stopping ---------------------------------------------------------------------------

  /** In every state of the run the creature's check is cleared, or it is dead. */
  ghost predicate StaysStopped(s: State, es: seq<Event>, c: Id)
    decreases |es|
  {
    && (c in s.creatures ==> !s.creatures[c].check || !s.creatures[c].alive)
    && (es != [] ==> StaysStopped(Step(s, es[0]), es[1..], c))
  }

  /** The creature is not added in the run. */
  predicate NotAdded(es: seq<Event>, c: Id) {
    forall j :: 0 <= j < |es| && es[j].Add? ==> es[j].c != c
  }

  /** It is not made alive in the run. */
  predicate NotRevived(es: seq<Event>, c: Id) {
    forall j :: 0 <= j < |es| && es[j].SetAlive? && es[j].alive ==> es[j].c != c
  }

  /** A cleared check stays cleared until the creature is added, and the dead stay dead until they are revived. */
  lemma {:induction false} StopsUntil(s: State, es: seq<Event>, c: Id)
    requires Inv(s)
    requires c in s.creatures ==>
               || (!s.creatures[c].check && NotAdded(es, c))
               || (!s.creatures[c].alive && NotRevived(es, c))
    ensures StaysStopped(s, es, c)
    decreases |es|
  {
    if es != [] {
      StepKeepsInv(s, es[0]);
      KeepsStopped(s, es[0], c);
      assert NotAdded(es, c) ==> NotAdded(es[1..], c);
      assert NotRevived(es, c) ==> NotRevived(es[1..], c);
      StopsUntil(Step(s, es[0]), es[1..], c);
    }
  }

  lemma KeepsStopped(s: State, e: Event, c: Id)
    requires Inv(s)
    ensures var t := Step(s, e);
            && (c in t.creatures <==> c in s.creatures)
            && (c in s.creatures && !s.creatures[c].check && !(e.Add? && e.c == c) ==> !t.creatures[c].check)
            && (c in s.creatures && !s.creatures[c].alive && !(e.SetAlive? && e.c == c && e.alive) ==>
                  !t.creatures[c].alive)
  {
  }

  lemma {:induction false} StoppedNeverThinks(s: State, es: seq<Event>, c: Id)
    requires StaysStopped(s, es, c)
    ensures ThinkCount(s, es, c) == 0
    decreases |es|
  {
    if es != [] {
      StoppedNeverThinks(Step(s, es[0]), es[1..], c);
    }
  }

  /** How many sweeps of the list `b` are completed. */
  ghost function SweepsOf(s: State, es: seq<Event>, b: nat): nat
    decreases |es|
  {
    if es == [] then 0
    else (if EndsNow(s, es[0]) && s.index == b then 1 else 0) + SweepsOf(Step(s, es[0]), es[1..], b)
  }

  /** The creature is in no list and waits for none. */
  ghost predicate Nowhere(s: State, c: Id) {
    Occurrences(s, c) == 0
  }

  /** It is in the list `b`, or nowhere. */
  ghost predicate InOrOut(s: State, c: Id, b: nat) {
    Nowhere(s, c) || (b < |Lists(s)| && c in Lists(s)[b])
  }

  /** After a sweep of its list, a creature that was stopped when the sweep came to it is out; one that thought
      before it was stopped goes in the next sweep. */
  ghost predicate Stops(s: State, e: Event, t: State, c: Id, b: nat) {
    && InOrOut(t, c, b)
    && (Nowhere(s, c) ==> Nowhere(t, c))
    && (!Nowhere(t, c) && EndsNow(s, e) && s.index == b ==> Kept(s, c))
    && (!Nowhere(t, c) && Kept(t, c) ==> Kept(s, c) && !EndsNow(s, e))
  }

  lemma NowhereStays(s: State, e: Event, c: Id)
    requires Inv(s) && Nowhere(s, c) && !(e.Add? && e.c == c)
    ensures Nowhere(Step(s, e), c)
  {
    hide CountAll, Count;
    match e
    case Add(d, list) => CountPendingSnoc(s.pending, (d, list), c);
    case RunPending =>
      if s.pending != [] && s.sweep.Idle? {
        var (d, k) := s.pending[0];
        CountUpdate(s.lists, k, s.lists[k] + [d], c);
        OneMore(s.lists[k], d, c);
      }
    case BeginSweep =>
      if s.sweep.Idle? {
        BeginCounts(s, c);
      }
    case Visit =>
      if s.sweep.Sweeping? && s.sweep.todo != [] {
        VisitCounts(s, c);
      }
    case EndSweep =>
      if s.sweep.Sweeping? && s.sweep.todo == [] {
        assert s.sweep.kept + s.sweep.todo == s.sweep.kept;
      }
    case Remove(_) =>
    case SetAlive(_, _) =>
    case SetRemoved(_) =>
    case Expire(_) =>
  }

  lemma OneMore(ids: seq<Id>, d: Id, c: Id)
    ensures Count(ids + [d], c) == Count(ids, c) + if d == c then 1 else 0
  {
  }

  lemma BeginCounts(s: State, c: Id)
    requires WellFormed(s) && s.sweep.Idle?
    ensures Occurrences(Begin(s), c) == Occurrences(s, c)
  {
    var ids := s.lists[s.index];
    assert [] + ids == ids && s.lists[s.index := ids] == s.lists;
  }

  lemma VisitCounts(s: State, c: Id)
    requires Inv(s) && s.sweep.Sweeping? && s.sweep.todo != []
    ensures Occurrences(VisitNext(s), c) <= Occurrences(s, c)
    ensures s.sweep.todo[0] == c && c in s.creatures && !Thinks(s.creatures[c]) ==>
              Occurrences(VisitNext(s), c) + 1 == Occurrences(s, c)
  {
    var d := s.sweep.todo[0];
    FirstOccurs(s);
    assert ListedOnce(s, d);
    if Thinks(s.creatures[d]) {
      assert s.sweep.kept + [d] + s.sweep.todo[1..] == s.sweep.kept + s.sweep.todo;
    } else {
      LeavingCounts(s, c);
    }
  }

  ghost predicate Stopped(s: State, c: Id) {
    c in s.creatures && (!s.creatures[c].check || !s.creatures[c].alive)
  }

  lemma VisitOfStopped(s: State, c: Id, b: nat)
    requires Inv(s) && b < LISTS && c in Lists(s)[b] && Stopped(s, c)
    requires s.sweep.Sweeping? && s.sweep.todo != []
    ensures Stops(s, Visit, VisitNext(s), c, b)
  {
    hide CountAll, CountPending;
    OnlyThere(s, c, b);
    FirstOccurs(s);
    assert ListedOnce(s, c) && ListedOnce(s, s.sweep.todo[0]);
    VisitCounts(s, c);
    SweptOnce(s, c, b);
    hide Inv, Occurrences, Count;
    var kept, todo := s.sweep.kept, s.sweep.todo;
    assert todo == [todo[0]] + todo[1..];
    if todo[0] != c && s.index == b {
      assert c in kept + todo;
    }
  }

  lemma OccursWhereListed(s: State, c: Id, b: nat)
    requires Inv(s) && b < LISTS && c in Lists(s)[b]
    ensures !Nowhere(s, c)
  {
    CountAllAtLeast(Lists(s), b, c);
    assert c in multiset(Lists(s)[b]);
  }

  lemma EndOfStopped(s: State, c: Id, b: nat)
    requires Inv(s) && b < LISTS && c in Lists(s)[b] && s.sweep.Sweeping? && s.sweep.todo == []
    ensures Stops(s, EndSweep, End(s), c, b)
  {
    OccursWhereListed(s, c, b);
    hide Nowhere;
    assert s.sweep.kept + s.sweep.todo == s.sweep.kept;
  }

  lemma StepOfStopped(s: State, e: Event, c: Id, b: nat)
    requires Inv(s) && b < LISTS && InOrOut(s, c, b) && !(e.Add? && e.c == c)
    requires c in s.creatures ==> Stopped(s, c)
    ensures Stops(s, e, Step(s, e), c, b)
  {
    hide CountAll, Count, CountPending;
    if Nowhere(s, c) {
      NowhereStays(s, e, c);
    } else {
      assert ListedOnce(s, c);
      OccursWhereListed(s, c, b);
      hide Occurrences;
      if e.Visit? && s.sweep.Sweeping? && s.sweep.todo != [] {
        VisitOfStopped(s, c, b);
      } else if EndsNow(s, e) {
        EndOfStopped(s, c, b);
      } else if e.BeginSweep? && s.sweep.Idle? {
        assert [] + s.lists[s.index] == s.lists[s.index];
      }
    }
  }

  /** A stopped creature that is not added again is out once more sweeps of its list are completed than the one, if
      any, that had already made it think. */
  lemma {:induction false} StoppedLeaves(s: State, es: seq<Event>, c: Id, b: nat)
    requires Inv(s) && b < LISTS && InOrOut(s, c, b) && StaysStopped(s, es, c) && NotAdded(es, c)
    ensures Inv(Run(s, es))
    ensures !Nowhere(Run(s, es), c) ==> SweepsOf(s, es, b) <= if Kept(s, c) then 1 else 0
    ensures Nowhere(s, c) ==> Nowhere(Run(s, es), c)
    decreases |es|
  {
    hide Inv, Nowhere, InOrOut, Step;
    if es != [] {
      StepKeepsInv(s, es[0]);
      StepOfStopped(s, es[0], c, b);
      assert NotAdded(es[1..], c);
      StoppedLeaves(Step(s, es[0]), es[1..], c, b);
    }
  }

  // ----- The laws ---------------------------------------------------------------------------

  /** From the moment when a creature is taken out of the checks it never thinks, until it is added again; and once
      a sweep of its list is completed after that, or two if it had thought already in the one under way, it is in
      no list, waits for none and is not flagged. */
  lemma RemovedStops(s: State, es: seq<Event>, c: Id, b: nat)
    requires Inv(s) && Live(s, c) && b < LISTS && c in Lists(s)[b] && NotAdded(es, c)
    ensures var t := Step(s, Remove(c));
            && ThinkCount(t, es, c) == 0
            && (SweepsOf(t, es, b) > (if Kept(s, c) then 1 else 0) ==> Gone(Run(t, es), c))
  {
    var t := Step(s, Remove(c));
    StepKeepsInv(s, Remove(c));
    OccursWhereListed(s, c, b);
    assert ListedOnce(s, c);
    assert !t.creatures[c].check;
    hide Occurrences, ListedOnce;
    StopsUntil(t, es, c);
    StoppedNeverThinks(t, es, c);
    StoppedLeaves(t, es, c, b);
    GoneIfNowhere(Run(t, es), c);
  }

  /** So does a creature that dies and is not revived; to be out it must not be added again either. */
  lemma DeadStops(s: State, es: seq<Event>, c: Id, b: nat)
    requires Inv(s) && c in s.creatures && !s.creatures[c].alive && NotRevived(es, c)
    requires b < LISTS && c in Lists(s)[b]
    ensures ThinkCount(s, es, c) == 0
    ensures NotAdded(es, c) && SweepsOf(s, es, b) > (if Kept(s, c) then 1 else 0) ==> Gone(Run(s, es), c)
  {
    StopsUntil(s, es, c);
    StoppedNeverThinks(s, es, c);
    if NotAdded(es, c) {
      StoppedLeaves(s, es, c, b);
      GoneIfNowhere(Run(s, es), c);
    }
  }

  /** In no list, waiting for none, and not flagged if it still exists. */
  ghost predicate Gone(s: State, c: Id) {
    && (forall k :: 0 <= k < |Lists(s)| ==> c !in Lists(s)[k])
    && !IsPending(s.pending, c)
    && (Live(s, c) ==> !s.creatures[c].inVector)
  }

  lemma GoneIfNowhere(s: State, c: Id)
    requires Inv(s)
    ensures Nowhere(s, c) ==> Gone(s, c)
  {
    assert ListedOnce(s, c);
    if Nowhere(s, c) {
      forall k | 0 <= k < |Lists(s)| ensures c !in Lists(s)[k] {
        if c in Lists(s)[k] { OccursWhereListed(s, c, k); }
      }
      PendingCounts(s.pending, c);
    }
  }

  /** A creature that is not flagged never thinks either until it is added. */
  lemma {:induction false} UnflaggedNeverThinks(s: State, es: seq<Event>, c: Id)
    requires Inv(s) && Nowhere(s, c) && NotAdded(es, c)
    ensures ThinkCount(s, es, c) == 0 && Nowhere(Run(s, es), c)
    decreases |es|
  {
    hide Inv;
    if es != [] {
      StepKeepsInv(s, es[0]);
      NowhereStays(s, es[0], c);
      if ThinksNow(s, es[0], c) { FirstIsSomewhere(s); }
      assert NotAdded(es[1..], c);
      UnflaggedNeverThinks(Step(s, es[0]), es[1..], c);
    }
  }

  lemma FirstIsSomewhere(s: State)
    requires Inv(s) && s.sweep.Sweeping? && s.sweep.todo != []
    ensures !Nowhere(s, s.sweep.todo[0])
  {
    FirstOccurs(s);
  }

  /** A creature that waits for a list is in it when its turn has come, whatever else happens; then it thinks when
      due. */
  lemma InsertedIsListed(s: State)
    requires Inv(s) && s.sweep.Idle? && s.pending != []
    ensures var (c, list) := s.pending[0]; var t := Step(s, RunPending);
            list < LISTS && Inv(t) && c in Lists(t)[list] && (c in s.creatures && Live(s, c))
  {
    StepKeepsInv(s, RunPending);
    InsertedWhereAdded(s);
  }
}
