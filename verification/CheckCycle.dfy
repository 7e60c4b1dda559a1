/** The creature checks as a state machine.  Ten lists are swept in turn; what a creature does
    when it thinks may call back into the machine between any two steps of a sweep. */
module CheckCycle {
  type Id = nat

  const LISTS := 10

  /** `inVector` says that the creature is in a list or on its way into one; an expired creature
      exists only as a weak pointer. */
  datatype Creature = Creature(check: bool, inVector: bool, alive: bool, removed: bool, expired: bool)

  datatype Sweep = Idle | Sweeping(kept: seq<Id>, todo: seq<Id>)

  /** `pending` holds the insertions that the dispatcher has yet to run, in order. */
  datatype State = State(
    lists: seq<seq<Id>>, index: nat, pending: seq<(Id, nat)>, creatures: map<Id, Creature>, sweep: Sweep)

  datatype Event =
    | Add(c: Id, list: nat)
    | Remove(c: Id)
    | SetAlive(c: Id, alive: bool)
    | SetRemoved(c: Id)
    | Expire(c: Id)
    | RunPending
    | BeginSweep
    | Visit
    | EndSweep

  ghost predicate Live(s: State, c: Id) {
    c in s.creatures && !s.creatures[c].expired
  }

  predicate Thinks(c: Creature) {
    !c.expired && c.check && c.alive
  }

  // ----- The steps --------------------------------------------------------------------------

  function AddCheck(s: State, c: Id, list: nat): State {
    if c !in s.creatures || s.creatures[c].expired || s.creatures[c].removed || list >= LISTS then s
    else
      var it := s.creatures[c];
      s.(creatures := s.creatures[c := it.(check := true, inVector := true)],
         pending := if it.inVector then s.pending else s.pending + [(c, list)])
  }

  function RemoveCheck(s: State, c: Id): State {
    if c in s.creatures && !s.creatures[c].expired && s.creatures[c].inVector then
      s.(creatures := s.creatures[c := s.creatures[c].(check := false)])
    else s
  }

  function Update(s: State, c: Id, f: Creature -> Creature): State {
    if c in s.creatures && !s.creatures[c].expired then s.(creatures := s.creatures[c := f(s.creatures[c])])
    else s
  }

  /** The closure of a pending insertion keeps its creature from expiring. */
  predicate IsPending(pending: seq<(Id, nat)>, c: Id) {
    exists i :: 0 <= i < |pending| && pending[i].0 == c
  }

  function RunFirst(s: State): State {
    if s.pending == [] || s.sweep.Sweeping? || s.pending[0].1 >= |s.lists| then s
    else
      var (c, k) := s.pending[0];
      s.(lists := s.lists[k := s.lists[k] + [c]], pending := s.pending[1..])
  }

  function Begin(s: State): State {
    if s.sweep.Sweeping? || s.index >= |s.lists| then s else s.(sweep := Sweeping([], s.lists[s.index]))
  }

  /** The sweep reaches the next creature of its list: it stays if it thinks, otherwise it leaves. */
  function VisitNext(s: State): State {
    if s.sweep.Idle? || s.sweep.todo == [] then s
    else
      var c, rest := s.sweep.todo[0], s.sweep.todo[1..];
      if c !in s.creatures then s
      else if Thinks(s.creatures[c]) then s.(sweep := Sweeping(s.sweep.kept + [c], rest))
      else if s.creatures[c].expired then s.(sweep := Sweeping(s.sweep.kept, rest))
      else s.(sweep := Sweeping(s.sweep.kept, rest),
              creatures := s.creatures[c := s.creatures[c].(inVector := false)])
  }

  /** The next list, in a circle. */
  function Following(i: nat): nat {
    if i + 1 == LISTS then 0 else i + 1
  }

  function End(s: State): State {
    if s.sweep.Idle? || s.sweep.todo != [] || s.index >= |s.lists| then s
    else s.(lists := s.lists[s.index := s.sweep.kept], index := Following(s.index), sweep := Idle)
  }

  function Step(s: State, e: Event): State {
    match e
    case Add(c, list) => AddCheck(s, c, list)
    case Remove(c) => RemoveCheck(s, c)
    case SetAlive(c, alive) => Update(s, c, (it: Creature) => it.(alive := alive))
    case SetRemoved(c) => Update(s, c, (it: Creature) => it.(removed := true))
    case Expire(c) => if IsPending(s.pending, c) then s else Update(s, c, (it: Creature) => it.(expired := true))
    case RunPending => RunFirst(s)
    case BeginSweep => Begin(s)
    case Visit => VisitNext(s)
    case EndSweep => End(s)
  }

  function Run(s: State, es: seq<Event>): State
    decreases |es|
  {
    if es == [] then s else Run(Step(s, es[0]), es[1..])
  }

  // ----- Each creature is listed once -------------------------------------------------------

  ghost function Count(ids: seq<Id>, c: Id): nat {
    multiset(ids)[c]
  }

  ghost function CountAll(lists: seq<seq<Id>>, c: Id): nat {
    if lists == [] then 0 else Count(lists[0], c) + CountAll(lists[1..], c)
  }

  lemma {:induction false} CountUpdate(lists: seq<seq<Id>>, k: nat, ids: seq<Id>, c: Id)
    requires k < |lists|
    ensures CountAll(lists[k := ids], c) + Count(lists[k], c) == CountAll(lists, c) + Count(ids, c)
  {
    if k == 0 {
      assert lists[0 := ids][1..] == lists[1..];
    } else {
      CountUpdate(lists[1..], k - 1, ids, c);
      assert lists[k := ids][1..] == lists[1..][k - 1 := ids];
    }
  }

  lemma {:induction false} CountAllAtLeast(lists: seq<seq<Id>>, k: nat, c: Id)
    requires k < |lists|
    ensures CountAll(lists, c) >= Count(lists[k], c)
    ensures forall j :: 0 <= j < |lists| && j != k ==> CountAll(lists, c) >= Count(lists[k], c) + Count(lists[j], c)
  {
    if k > 0 {
      CountAllAtLeast(lists[1..], k - 1, c);
      assert forall j :: 1 <= j < |lists| ==> lists[j] == lists[1..][j - 1];
    } else {
      forall j | 0 < j < |lists| ensures CountAll(lists, c) >= Count(lists[0], c) + Count(lists[j], c) {
        CountAllAtLeast(lists[1..], j - 1, c);
      }
    }
  }

  ghost function CountPending(pending: seq<(Id, nat)>, c: Id): nat {
    if pending == [] then 0 else (if pending[0].0 == c then 1 else 0) + CountPending(pending[1..], c)
  }

  /** The lists as they stand: the one being swept holds what was kept and what is still to visit. */
  ghost function Lists(s: State): seq<seq<Id>> {
    if s.sweep.Sweeping? && s.index < |s.lists| then s.lists[s.index := s.sweep.kept + s.sweep.todo]
    else s.lists
  }

  /** How often a creature occurs in all lists and pending insertions together. */
  ghost function Occurrences(s: State, c: Id): nat {
    CountAll(Lists(s), c) + CountPending(s.pending, c)
  }

  ghost predicate WellFormed(s: State) {
    && |s.lists| == LISTS && s.index < LISTS
    && forall i :: 0 <= i < |s.pending| ==> s.pending[i].1 < LISTS && Live(s, s.pending[i].0)
  }

  /** A living creature occurs once exactly if it is flagged; an expired one is at most an empty weak pointer. */
  ghost predicate ListedOnce(s: State, c: Id) {
    && Occurrences(s, c) <= 1
    && (Occurrences(s, c) == 1 ==> c in s.creatures)
    && (Live(s, c) ==> (Occurrences(s, c) == 1 <==> s.creatures[c].inVector))
  }

  ghost predicate Inv(s: State) {
    WellFormed(s) && forall c :: ListedOnce(s, c)
  }

  lemma {:induction false} CountPendingSnoc(pending: seq<(Id, nat)>, p: (Id, nat), c: Id)
    ensures CountPending(pending + [p], c) == CountPending(pending, c) + if p.0 == c then 1 else 0
  {
    if pending == [] {
      assert pending + [p] == [p] && [p][1..] == [];
    } else {
      CountPendingSnoc(pending[1..], p, c);
      assert (pending + [p])[1..] == pending[1..] + [p];
    }
  }

  lemma {:induction false} PendingCounts(pending: seq<(Id, nat)>, c: Id)
    ensures CountPending(pending, c) > 0 <==> exists i :: 0 <= i < |pending| && pending[i].0 == c
  {
    if pending != [] {
      PendingCounts(pending[1..], c);
      if i :| 0 <= i < |pending| && pending[i].0 == c {
        assert i > 0 ==> pending[1..][i - 1].0 == c;
      }
    }
  }

  lemma AddKeeps(s: State, c: Id, list: nat, d: Id)
    requires Inv(s)
    ensures ListedOnce(AddCheck(s, c, list), d)
  {
    assert ListedOnce(s, d) && ListedOnce(s, c);
    CountPendingSnoc(s.pending, (c, list), d);
  }

  lemma RunFirstKeeps(s: State, d: Id)
    requires Inv(s)
    ensures ListedOnce(RunFirst(s), d)
  {
    assert ListedOnce(s, d);
    if s.pending != [] && s.sweep.Idle? {
      var (c, k) := s.pending[0];
      CountUpdate(s.lists, k, s.lists[k] + [c], d);
    }
  }

  lemma BeginKeeps(s: State, d: Id)
    requires Inv(s)
    ensures ListedOnce(Begin(s), d)
  {
    assert ListedOnce(s, d);
    if s.sweep.Idle? {
      var ids := s.lists[s.index];
      assert [] + ids == ids;
      CountUpdate(s.lists, s.index, ids, d);
    }
  }

  lemma VisitKeeps(s: State, d: Id)
    requires Inv(s)
    ensures ListedOnce(VisitNext(s), d)
  {
    hide CountAll, Count, CountPending;
    assert ListedOnce(s, d);
    if s.sweep.Sweeping? && s.sweep.todo != [] {
      var c := s.sweep.todo[0];
      FirstOccurs(s);
      assert ListedOnce(s, c);
      if !Thinks(s.creatures[c]) {
        LeavingCounts(s, d);
        LeavingCounts(s, c);
      } else {
        assert s.sweep.kept + [c] + s.sweep.todo[1..] == s.sweep.kept + s.sweep.todo;
      }
    }
  }

  lemma FirstOccurs(s: State)
    requires WellFormed(s) && s.sweep.Sweeping? && s.sweep.todo != []
    ensures Occurrences(s, s.sweep.todo[0]) >= 1
  {
    var c := s.sweep.todo[0];
    CountAllAtLeast(Lists(s), s.index, c);
    assert c in multiset(s.sweep.kept + s.sweep.todo);
  }

  /** A creature that leaves is once less in the list. */
  lemma LeavingCounts(s: State, d: Id)
    requires WellFormed(s) && s.sweep.Sweeping? && s.sweep.todo != []
    requires s.sweep.todo[0] in s.creatures && !Thinks(s.creatures[s.sweep.todo[0]])
    ensures Occurrences(VisitNext(s), d) == Occurrences(s, d) - if s.sweep.todo[0] == d then 1 else 0
  {
    var kept, c, rest := s.sweep.kept, s.sweep.todo[0], s.sweep.todo[1..];
    CountUpdate(s.lists, s.index, kept + s.sweep.todo, d);
    CountUpdate(s.lists, s.index, kept + rest, d);
    assert s.sweep.todo == [c] + rest;
    assert Count(kept + ([c] + rest), d) == Count(kept, d) + Count([c], d) + Count(rest, d);
    assert Count(kept + rest, d) == Count(kept, d) + Count(rest, d);
  }

  lemma EndKeeps(s: State, d: Id)
    requires Inv(s)
    ensures ListedOnce(End(s), d)
  {
    assert ListedOnce(s, d);
    if s.sweep.Sweeping? && s.sweep.todo == [] {
      assert s.sweep.kept + s.sweep.todo == s.sweep.kept;
    }
  }

  /** No step, in whatever order, lists a living creature twice or loses one that is flagged. */
  lemma StepKeepsInv(s: State, e: Event)
    requires Inv(s)
    ensures Inv(Step(s, e))
  {
    var t := Step(s, e);
    forall d ensures ListedOnce(t, d) {
      assert ListedOnce(s, d);
      match e
      case Add(c, list) => AddKeeps(s, c, list, d);
      case RunPending => RunFirstKeeps(s, d);
      case BeginSweep => BeginKeeps(s, d);
      case Visit => VisitKeeps(s, d);
      case EndSweep => EndKeeps(s, d);
      case Remove(_) =>
      case SetAlive(_, _) =>
      case SetRemoved(_) =>
      case Expire(_) =>
    }
  }

  lemma {:induction false} RunKeepsInv(s: State, es: seq<Event>)
    requires Inv(s)
    ensures Inv(Run(s, es))
    decreases |es|
  {
    if es != [] {
      StepKeepsInv(s, es[0]);
      RunKeepsInv(Step(s, es[0]), es[1..]);
    }
  }

  // ----- A sweep only takes away ------------------------------------------------------------

  /** What a sweep has left of its list is no more than the list held when it began. */
  ghost predicate Shrinking(s: State) {
    s.sweep.Sweeping? && s.index < |s.lists| ==>
      multiset(s.sweep.kept) + multiset(s.sweep.todo) <= multiset(s.lists[s.index])
  }

  /** Whatever is called back during a sweep, the lists stay as they are until it ends, and then
      the swept list has not grown. */
  lemma SweptListNeverGrows(s: State, e: Event)
    requires Inv(s) && Shrinking(s)
    ensures Shrinking(Step(s, e))
    ensures s.sweep.Sweeping? && Step(s, e).sweep.Sweeping? ==> Step(s, e).lists == s.lists
    ensures s.sweep.Sweeping? && Step(s, e).sweep.Idle? ==>
              multiset(Step(s, e).lists[s.index]) <= multiset(s.lists[s.index])
              && forall k :: 0 <= k < LISTS && k != s.index ==> Step(s, e).lists[k] == s.lists[k]
  {
    if s.sweep.Sweeping? {
      var todo := s.sweep.todo;
      match e
      case Visit => if todo != [] { VisitShrinks(s.sweep.kept, todo, multiset(s.lists[s.index])); }
      case EndSweep => assert todo == [] ==> multiset(todo) == multiset{};
      case Add(_, _) =>
      case Remove(_) =>
      case SetAlive(_, _) =>
      case SetRemoved(_) =>
      case Expire(_) =>
      case RunPending =>
      case BeginSweep =>
    }
  }

  lemma VisitShrinks(kept: seq<Id>, todo: seq<Id>, list: multiset<Id>)
    requires todo != [] && multiset(kept) + multiset(todo) <= list
    ensures multiset(kept + [todo[0]]) + multiset(todo[1..]) <= list
    ensures multiset(kept) + multiset(todo[1..]) <= list
  {
    assert todo == [todo[0]] + todo[1..];
  }

  // ----- Each creature thinks once in ten sweeps --------------------------------------------

  /** Event `e` makes `c` think. */
  ghost predicate ThinksNow(s: State, e: Event, c: Id) {
    e.Visit? && s.sweep.Sweeping? && s.sweep.todo != [] && s.sweep.todo[0] == c &&
    c in s.creatures && Thinks(s.creatures[c])
  }

  ghost function ThinkCount(s: State, es: seq<Event>, c: Id): nat
    decreases |es|
  {
    if es == [] then 0
    else (if ThinksNow(s, es[0], c) then 1 else 0) + ThinkCount(Step(s, es[0]), es[1..], c)
  }

  ghost predicate EndsNow(s: State, e: Event) {
    e.EndSweep? && s.sweep.Sweeping? && s.sweep.todo == []
  }

  /** How many sweeps are completed. */
  ghost function SweepCount(s: State, es: seq<Event>): nat
    decreases |es|
  {
    if es == [] then 0
    else (if EndsNow(s, es[0]) then 1 else 0) + SweepCount(Step(s, es[0]), es[1..])
  }

  ghost predicate StaysActive(s: State, es: seq<Event>, c: Id)
    decreases |es|
  {
    c in s.creatures && Thinks(s.creatures[c]) && (es != [] ==> StaysActive(Step(s, es[0]), es[1..], c))
  }

  /** How many of `n` sweeps, the first at list `i`, are at list `b`. */
  ghost function Due(i: nat, b: nat, n: nat): nat
    decreases n
  {
    if n == 0 then 0 else (if i == b then 1 else 0) + Due(Following(i), b, n - 1)
  }

  lemma {:induction false} DueOnce(i: nat, b: nat, n: nat)
    requires i < LISTS && b < LISTS && n <= LISTS
    ensures Due(i, b, n) == if n > (if i <= b then b - i else b + LISTS - i) then 1 else 0
    decreases n
  {
    if n > 0 {
      DueOnce(Following(i), b, n - 1);
    }
  }

  /** `m` sweeps later. */
  ghost function Advance(i: nat, m: nat): nat
    decreases m
  {
    if m == 0 then i else Advance(Following(i), m - 1)
  }

  lemma {:induction false} AdvanceTurn(i: nat, m: nat)
    requires i < LISTS && m <= LISTS
    ensures Advance(i, m) == if i + m < LISTS then i + m else i + m - LISTS
    decreases m
  {
    if m > 0 {
      AdvanceTurn(Following(i), m - 1);
    }
  }

  lemma {:induction false} DueSplit(i: nat, b: nat, m: nat, n: nat)
    ensures Due(i, b, m + n) == Due(i, b, m) + Due(Advance(i, m), b, n)
    decreases m
  {
    if m > 0 {
      DueSplit(Following(i), b, m - 1, n);
    }
  }

  lemma {:induction false} DueInTurns(i: nat, b: nat, turns: nat)
    requires i < LISTS && b < LISTS
    ensures Due(i, b, LISTS * turns) == turns
  {
    if turns > 0 {
      DueSplit(i, b, LISTS, LISTS * (turns - 1));
      AdvanceTurn(i, LISTS);
      DueOnce(i, b, LISTS);
      DueInTurns(i, b, turns - 1);
    }
  }

  /** In its list, `c` is nowhere else. */
  lemma OnlyThere(s: State, c: Id, b: nat)
    requires Inv(s) && b < LISTS && c in Lists(s)[b]
    ensures Count(Lists(s)[b], c) == 1 && CountPending(s.pending, c) == 0
    ensures forall j :: 0 <= j < LISTS && j != b ==> c !in Lists(s)[j]
  {
    assert ListedOnce(s, c);
    CountAllAtLeast(Lists(s), b, c);
    assert c in multiset(Lists(s)[b]);
    forall j | 0 <= j < LISTS && j != b ensures c !in Lists(s)[j] {
      assert c in Lists(s)[j] <==> c in multiset(Lists(s)[j]);
    }
  }

  /** The sweep under way has already made `c` think. */
  ghost predicate Kept(s: State, c: Id) {
    s.sweep.Sweeping? && c in s.sweep.kept
  }

  /** An active creature stays in its list; it thinks when the sweep reaches it, and not again in that sweep. */
  ghost predicate KeepsThinking(s: State, e: Event, t: State, c: Id, b: nat)
    requires b < LISTS
  {
    && |Lists(t)| == LISTS && c in Lists(t)[b]
    && (ThinksNow(s, e, c) ==> s.index == b && !Kept(s, c) && Kept(t, c) && t.index == s.index)
    && (!ThinksNow(s, e, c) && !EndsNow(s, e) ==> (Kept(t, c) <==> Kept(s, c)) && t.index == s.index)
    && (EndsNow(s, e) ==> (Kept(s, c) <==> s.index == b) && !Kept(t, c) && t.index == Following(s.index))
  }

  /** `c` is active and in list `b`, and nowhere else. */
  ghost predicate ActiveIn(s: State, c: Id, b: nat) {
    && WellFormed(s) && b < LISTS && c in Lists(s)[b] && c in s.creatures && Thinks(s.creatures[c])
    && Count(Lists(s)[b], c) == 1
    && forall j :: 0 <= j < LISTS && j != b ==> c !in Lists(s)[j]
  }

  lemma VisitOfActive(s: State, c: Id, b: nat)
    requires ActiveIn(s, c, b) && s.sweep.Sweeping? && s.sweep.todo != [] && s.sweep.todo[0] in s.creatures
    ensures KeepsThinking(s, Visit, VisitNext(s), c, b)
  {
    hide Count;
    SweptOnce(s, c, b);
    var kept, todo := s.sweep.kept, s.sweep.todo;
    assert todo == [todo[0]] + todo[1..];
    if s.index == b {
      assert c in kept + todo;
    }
  }

  lemma EndOfActive(s: State, c: Id, b: nat)
    requires ActiveIn(s, c, b) && s.sweep.Sweeping? && s.sweep.todo == []
    ensures KeepsThinking(s, EndSweep, End(s), c, b)
  {
    SweptOnce(s, c, b);
    assert s.sweep.kept + s.sweep.todo == s.sweep.kept;
  }

  lemma BetweenSweepsOfActive(s: State, e: Event, c: Id, b: nat)
    requires ActiveIn(s, c, b) && s.sweep.Idle? && (e.RunPending? || e.BeginSweep?)
    ensures KeepsThinking(s, e, Step(s, e), c, b)
  {
    if e.BeginSweep? {
      assert [] + s.lists[s.index] == s.lists[s.index];
    }
  }

  lemma StepOfActive(s: State, e: Event, c: Id, b: nat)
    requires Inv(s) && b < LISTS && c in Lists(s)[b] && c in s.creatures && Thinks(s.creatures[c])
    ensures KeepsThinking(s, e, Step(s, e), c, b)
  {
    hide CountAll, Count, CountPending;
    OnlyThere(s, c, b);
    if e.Visit? && s.sweep.Sweeping? && s.sweep.todo != [] {
      FirstOccurs(s);
      assert ListedOnce(s, s.sweep.todo[0]);
      VisitOfActive(s, c, b);
    } else if EndsNow(s, e) {
      EndOfActive(s, c, b);
    } else if s.sweep.Idle? && (e.RunPending? || e.BeginSweep?) {
      BetweenSweepsOfActive(s, e, c, b);
    }
  }

  lemma SweptOnce(s: State, c: Id, b: nat)
    requires WellFormed(s) && b < LISTS && s.sweep.Sweeping?
    requires Count(Lists(s)[b], c) == 1 && forall j :: 0 <= j < LISTS && j != b ==> c !in Lists(s)[j]
    ensures c in s.sweep.kept || c in s.sweep.todo ==> s.index == b
    ensures s.index == b ==> (c in s.sweep.kept <==> c !in s.sweep.todo)
    ensures s.index == b && s.sweep.todo != [] && s.sweep.todo[0] == c ==> c !in s.sweep.todo[1..]
  {
    var kept, todo := s.sweep.kept, s.sweep.todo;
    assert Lists(s)[s.index] == kept + todo;
    assert c in kept <==> c in multiset(kept);
    assert c in todo <==> c in multiset(todo);
    if todo != [] {
      assert todo == [todo[0]] + todo[1..];
      assert c in todo[1..] <==> c in multiset(todo[1..]);
    }
  }

  lemma {:induction false} ThinksWhenDue(s: State, es: seq<Event>, c: Id, b: nat)
    requires Inv(s) && b < LISTS && c in Lists(s)[b]
    requires StaysActive(s, es, c) && Run(s, es).sweep.Idle?
    ensures ThinkCount(s, es, c) + (if Kept(s, c) then 1 else 0) == Due(s.index, b, SweepCount(s, es))
    decreases |es|
  {
    if es != [] {
      var e := es[0];
      StepKeepsInv(s, e);
      StepOfActive(s, e, c, b);
      ThinksWhenDue(Step(s, e), es[1..], c, b);
    }
  }

  /** Over any run that completes ten sweeps (or `turns` times ten), with whatever else happens in
      between, a listed creature that stays active thinks exactly once (or `turns` times). */
  lemma {:induction false} ThinksOncePerTurn(s: State, es: seq<Event>, c: Id, b: nat, turns: nat)
    requires Inv(s) && s.sweep.Idle? && b < LISTS && c in s.lists[b]
    requires StaysActive(s, es, c) && Run(s, es).sweep.Idle? && SweepCount(s, es) == 10 * turns
    ensures ThinkCount(s, es, c) == turns
  {
    ThinksWhenDue(s, es, c, b);
    DueInTurns(s.index, b, turns);
  }
}
