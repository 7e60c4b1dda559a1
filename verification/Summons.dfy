/** Masters and their summons, and the removal of a creature with everything it has summoned.
    The summon graph may have cycles. */
module Summons {
  class Creature {
    var removed: bool
    var master: Creature?
    var summons: seq<Creature>
    var skillLoss: bool
    /** The creature stands on a tile. */
    const placed: bool

    constructor (placed: bool)
      ensures !removed && master == null && summons == [] && this.placed == placed
    {
      this.placed := placed;
      removed, master, summons, skillLoss := false, null, [], true;
    }
  }

  function Without(list: seq<Creature>, c: Creature): seq<Creature> {
    if list == [] then [] else if list[0] == c then list[1..] else [list[0]] + Without(list[1..], c)
  }

  ghost function Count(list: seq<Creature>, c: Creature): nat {
    multiset(list)[c]
  }

  lemma {:induction false} WithoutCount(list: seq<Creature>, c: Creature, x: Creature)
    ensures Count(Without(list, c), x) == if x == c && Count(list, c) > 0 then Count(list, c) - 1 else Count(list, x)
    ensures forall y | y in Without(list, c) :: y in list
  {
    if list != [] {
      assert list == [list[0]] + list[1..];
      if list[0] != c {
        WithoutCount(list[1..], c, x);
      }
    }
  }

  /** A list when `c` changes its master: it may be the old master's, the new one's, or both. */
  function Reassigned(list: seq<Creature>, isOld: bool, isNew: bool, c: Creature): seq<Creature> {
    var longer := if isNew then list + [c] else list;
    if isOld then Without(longer, c) else longer
  }

  lemma ReassignedCount(list: seq<Creature>, isOld: bool, isNew: bool, c: Creature, x: Creature)
    requires Count(list, c) == if isOld then 1 else 0
    ensures Count(Reassigned(list, isOld, isNew, c), x)
            == if x != c then Count(list, x) else if isNew then 1 else 0
    ensures forall y | y in Reassigned(list, isOld, isNew, c) :: y in list || y == c
  {
    var longer := if isNew then list + [c] else list;
    WithoutCount(longer, c, x);
  }

  /** `c` is in the list of `m` once if `m` is its master, and not at all otherwise. */
  ghost predicate Link(m: Creature, c: Creature)
    reads m`summons, c`master
  {
    Count(m.summons, c) == if c.master == m then 1 else 0
  }

  ghost predicate Within(c: Creature, w: set<Creature>)
    reads c`master, c`summons
  {
    (c.master != null ==> c.master in w) && forall s | s in c.summons :: s in w
  }

  /** In the world `w`, masters and lists of summons say the same. */
  ghost predicate Linked(w: set<Creature>)
    reads w`master, w`summons
  {
    (forall c | c in w :: Within(c, w)) && forall m, c | m in w && c in w :: Link(m, c)
  }

  /** Creature `c` was given another master, and the lists were changed accordingly. */
  twostate predicate Moved(w: set<Creature>, c: Creature, newMaster: Creature?)
    reads w`master, w`summons, c`master
  {
    && c in w && c.master == newMaster
    && (forall x | x in w && x != c :: x.master == old(x.master))
    && forall m | m in w :: m.summons == Reassigned(old(m.summons), m == old(c.master), m == newMaster, c)
  }

  method SetMaster(c: Creature, newMaster: Creature?, ghost w: set<Creature>) returns (changed: bool)
    requires Linked(w) && c in w && (newMaster != null ==> newMaster in w)
    modifies w`master, w`summons
    ensures Linked(w)
    ensures changed <==> newMaster != null || old(c.master) != null
    // Only the old and the new master's lists change; being given the same master again only moves
    // a creature to the end of the list.
    ensures changed ==> Moved(w, c, newMaster)
    ensures !changed ==> c.master == newMaster && unchanged(w)
  {
    var oldMaster := c.master;
    if newMaster == null && oldMaster == null {
      return false;
    }
    assert Within(c, w);
    if newMaster != null {
      newMaster.summons := newMaster.summons + [c];
    }
    c.master := newMaster;
    if oldMaster != null {
      oldMaster.summons := Without(oldMaster.summons, c);
    }
    assert Moved(w, c, newMaster);
    forall m | m in w ensures Within(m, w) {
      assert old(Within(m, w)) && old(Link(m, c));
      ReassignedCount(old(m.summons), m == oldMaster, m == newMaster, c, c);
    }
    forall m, x | m in w && x in w ensures Link(m, x) {
      assert old(Link(m, c)) && old(Link(m, x));
      ReassignedCount(old(m.summons), m == oldMaster, m == newMaster, c, x);
    }
    return true;
  }

  // ----- Who is removed with whom -----------------------------------------------------------

  /** The lists of summons of a world. */
  type Graph = map<Creature, seq<Creature>>

  /** A chain of `n` summons leads from `c` to `x` within `among`. */
  ghost predicate Reach(g: Graph, among: set<Creature>, c: Creature, x: Creature, n: nat) {
    c in among &&
    if n == 0 then c == x
    else c in g && exists y :: y in g[c] && Reach(g, among, y, x, n - 1)
  }

  /** `c` itself, what it has summoned, what those have summoned, and so on, within `among`. */
  ghost predicate Reachable(g: Graph, among: set<Creature>, c: Creature, x: Creature) {
    exists n: nat :: Reach(g, among, c, x, n)
  }

  lemma {:induction false} ReachMore(g: Graph, a: set<Creature>, b: set<Creature>, c: Creature, x: Creature, n: nat)
    requires Reach(g, a, c, x, n) && a <= b
    ensures Reach(g, b, c, x, n)
  {
    if n > 0 {
      var y :| y in g[c] && Reach(g, a, y, x, n - 1);
      ReachMore(g, a, b, y, x, n - 1);
    }
  }

  lemma ReachThrough(g: Graph, a: set<Creature>, b: set<Creature>, c: Creature, s: Creature, x: Creature)
    requires a <= b && c in b && c in g && s in g[c] && Reachable(g, a, s, x)
    ensures Reachable(g, b, c, x)
  {
    var n: nat :| Reach(g, a, s, x, n);
    ReachMore(g, a, b, s, x, n);
    assert Reach(g, b, c, x, n + 1);
  }

  /** A set that holds `c` and, with each member, its summons, holds all that `c` reaches. */
  lemma {:induction false} ReachStaysInside(
    g: Graph, among: set<Creature>, inside: set<Creature>, c: Creature, x: Creature, n: nat)
    requires Reach(g, among, c, x, n) && c in inside
    requires forall u, v | u in inside && u in among && u in g && v in g[u] && v in among :: v in inside
    ensures x in inside
  {
    if n > 0 {
      var y :| y in g[c] && Reach(g, among, y, x, n - 1);
      ReachStaysInside(g, among, inside, y, x, n - 1);
    }
  }

  /** The creatures that a removal can still reach. */
  ghost function Standing(w: set<Creature>): set<Creature>
    reads w`removed
  {
    set x | x in w && x.placed && !x.removed
  }

  ghost function NotRemoved(w: set<Creature>): set<Creature>
    reads w`removed
  {
    set x | x in w && !x.removed
  }

  /** `m` is the master of `c` and both are still there: `c` leaves `m` when it is removed. */
  ghost predicate Leaves(c: Creature, m: Creature)
    reads c`removed, c`master, m`removed
  {
    !c.removed && c.master == m && !m.removed
  }

  /** `g` is the lists of summons as they will be once `c` has left its master. */
  ghost predicate GraphAfterLeaving(g: Graph, w: set<Creature>, c: Creature)
    reads w`removed, w`summons, c`removed, c`master
  {
    g.Keys == w && forall x | x in w :: g[x] == if Leaves(c, x) then Without(x.summons, c) else x.summons
  }

  ghost predicate GraphNow(g: Graph, w: set<Creature>)
    reads w`summons
  {
    g.Keys == w && forall x | x in w :: x.summons == g[x]
  }

  /** Whoever was removed meanwhile has taken its summons along; whoever was removed stays so. */
  twostate predicate SummonsFollow(g: Graph, w: set<Creature>)
    requires g.Keys == w && forall x | x in w :: forall y | y in g[x] :: y in w
    reads w`removed
  {
    && (forall x | x in w && old(x.removed) :: x.removed)
    && forall x | x in w && x.removed && !old(x.removed) :: forall y | y in g[x] :: y.placed ==> y.removed
  }

  /** Summons that are removed meanwhile, other than `but`, no longer cost skill; nobody else gains that loss. */
  twostate predicate NoSkillLoss(w: set<Creature>, but: set<Creature>)
    reads w`removed, w`skillLoss
  {
    forall x | x in w ::
      (x.skillLoss ==> old(x.skillLoss)) && (x.removed && !old(x.removed) && x !in but ==> !x.skillLoss)
  }

  /** A creature leaves its master, unless that is removed itself. */
  method LeaveMaster(c: Creature, ghost w: set<Creature>, ghost g: Graph)
    requires Linked(w) && c in w && !c.removed && GraphAfterLeaving(g, w, c)
    modifies w`master, w`summons
    ensures Linked(w) && GraphNow(g, w)
    ensures forall x | x in w && x != c :: x.master == old(x.master)
    ensures c.master == if old(c.master != null && Leaves(c, c.master)) then null else old(c.master)
  {
    if c.master != null && !c.master.removed {
      assert Within(c, w);
      var changed := SetMaster(c, null, w);
    }
  }

  /** Removes `c` and everything it has summoned, directly or not. */
  method RemoveCreature(c: Creature, ghost w: set<Creature>, ghost g: Graph, ghost left: set<Creature>)
    returns (done: bool)
    requires Linked(w) && c in w && left == NotRemoved(w) && GraphAfterLeaving(g, w, c)
    requires forall x | x in w :: forall y | y in g[x] :: y in w
    modifies w`removed, w`master, w`summons, w`skillLoss
    decreases left, 0
    ensures Linked(w) && GraphNow(g, w)
    ensures done <==> old(c in Standing(w))
    ensures c.placed ==> c.removed
    ensures forall x | x in w :: x.removed <==> old(x.removed) || Reachable(g, old(Standing(w)), c, x)
    ensures SummonsFollow(g, w) && NoSkillLoss(w, {c})
    ensures forall x | x in w && x != c :: x.master == old(x.master)
    ensures c.master == if old(c.master != null && Leaves(c, c.master)) then null else old(c.master)
  {
    hide Linked, Reach, Reachable;
    if c.removed {
      OutOfReach(g, Standing(w), c);
      return false;
    }
    LeaveMaster(c, w, g);
    if !c.placed {
      OutOfReach(g, Standing(w), c);
      return false;
    }
    ghost var standing := Standing(w);
    c.removed := true;
    label Marked:
    assert NotRemoved(w) < left by {
      assert c in left && c !in NotRemoved(w);
    }
    RemoveSummons(c, w, g, NotRemoved(w));
    forall x | x in w ensures x.removed <==> old(x.removed) || Reachable(g, standing, c, x) {
      if x == c {
        ReachItself(g, standing, c);
      } else if x.removed && !old(x.removed) {
        var s :| s in g[c] && Reachable(g, old@Marked(Standing(w)), s, x);
        ReachThrough(g, old@Marked(Standing(w)), standing, c, s, x);
      }
      if Reachable(g, standing, c, x) {
        ReachableStaysInside(g, standing, (set y | y in w && y.removed), c, x);
      }
    }
    return true;
  }

  /** One step of the loop below. */
  method RemoveSummon(c: Creature, summon: Creature, ghost w: set<Creature>, ghost g: Graph, ghost left: set<Creature>)
    requires Linked(w) && c in w && c.removed && summon in c.summons && left == NotRemoved(w) && GraphNow(g, w)
    requires forall x | x in w :: forall y | y in g[x] :: y in w
    modifies w`removed, w`master, w`summons, w`skillLoss
    decreases left, 1
    ensures Linked(w) && GraphNow(g, w) && SummonsFollow(g, w) && NoSkillLoss(w, {})
    ensures summon.placed ==> summon.removed
    ensures forall x | x in w && x.removed && !old(x.removed) :: Reachable(g, old(Standing(w)), summon, x)
    ensures forall x | x in w :: x.master == old(x.master)
  {
    hide Linked, Reach, Reachable, GraphAfterLeaving;
    summon.skillLoss := false;
    NoneLeaves(c, summon, w, g);
    var gone := RemoveCreature(summon, w, g, NotRemoved(w));
  }

  /** The removal of each summon in the list of `c`.  `c` is marked as removed already, so no summon
      leaves it and the list stays as it is while it is gone through. */
  method RemoveSummons(c: Creature, ghost w: set<Creature>, ghost g: Graph, ghost left: set<Creature>)
    requires Linked(w) && c in w && c.removed && left == NotRemoved(w) && GraphNow(g, w)
    requires forall x | x in w :: forall y | y in g[x] :: y in w
    modifies w`removed, w`master, w`summons, w`skillLoss
    decreases left, 2
    ensures Linked(w) && GraphNow(g, w)
    ensures SummonsFollow(g, w) && NoSkillLoss(w, {})
    ensures forall y | y in g[c] :: y.placed ==> y.removed
    ensures forall x | x in w && x.removed && !old(x.removed) ::
              exists s :: s in g[c] && Reachable(g, old(Standing(w)), s, x)
    ensures forall x | x in w :: x.master == old(x.master)
  {
    hide Linked, Reach, Reachable, GraphAfterLeaving;
    var i := 0;
    while i < |c.summons|
      invariant i <= |g[c]| && Linked(w) && GraphNow(g, w) && c.removed
      invariant SummonsFollow(g, w) && NoSkillLoss(w, {})
      invariant forall j :: 0 <= j < i ==> g[c][j].placed ==> g[c][j].removed
      invariant forall x | x in w && x.removed && !old(x.removed) ::
                  exists s :: s in g[c] && Reachable(g, old(Standing(w)), s, x)
      invariant forall x | x in w :: x.master == old(x.master)
      decreases |g[c]| - i
    {
      var summon := c.summons[i];
      label Before:
      RemoveSummon(c, summon, w, g, NotRemoved(w));
      ghost var now, first := old@Before(Standing(w)), old(Standing(w));
      assert now <= first && summon in g[c];
      forall x | x in w && x.removed && !old(x.removed)
        ensures exists s :: s in g[c] && Reachable(g, first, s, x)
      {
        if !old@Before(x.removed) {
          ReachInMore(g, now, first, summon, x);
        }
      }
      assert SummonsFollow(g, w) by {
        forall x | x in w && x.removed && !old(x.removed) ensures forall y | y in g[x] :: y.placed ==> y.removed {
          if old@Before(x.removed) {
            assert forall y | y in g[x] :: y.placed ==> old@Before(y.removed);
          }
        }
      }
      i := i + 1;
    }
  }

  /** A summon of a removed master does not leave it. */
  lemma NoneLeaves(c: Creature, summon: Creature, w: set<Creature>, g: Graph)
    requires Linked(w) && c in w && c.removed && summon in c.summons && GraphNow(g, w)
    ensures summon in w && summon.master == c && GraphAfterLeaving(g, w, summon)
  {
    assert Within(c, w) && Link(c, summon);
    assert summon in multiset(c.summons);
  }

  lemma ReachItself(g: Graph, among: set<Creature>, c: Creature)
    requires c in among
    ensures Reachable(g, among, c, c)
  {
    assert Reach(g, among, c, c, 0);
  }

  lemma ReachableStaysInside(g: Graph, among: set<Creature>, inside: set<Creature>, c: Creature, x: Creature)
    requires Reachable(g, among, c, x) && c in inside
    requires forall u, v | u in inside && u in among && u in g && v in g[u] && v in among :: v in inside
    ensures x in inside
  {
    var n: nat :| Reach(g, among, c, x, n);
    ReachStaysInside(g, among, inside, c, x, n);
  }

  lemma OutOfReach(g: Graph, among: set<Creature>, c: Creature)
    requires c !in among
    ensures forall x :: !Reachable(g, among, c, x)
  {
  }

  lemma ReachInMore(g: Graph, a: set<Creature>, b: set<Creature>, c: Creature, x: Creature)
    requires a <= b && Reachable(g, a, c, x)
    ensures Reachable(g, b, c, x)
  {
    var n: nat :| Reach(g, a, c, x, n);
    ReachMore(g, a, b, c, x, n);
  }
}
