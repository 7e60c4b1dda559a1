/** How the experience of a dying creature is divided among those who damaged it. */
module DamageShares {
  import opened Basics

  /** The damage done by one attacker. */
  datatype Entry = Entry(id: nat, total: nat, ticks: int)

  predicate Distinct(damage: seq<Entry>) {
    forall i, j :: 0 <= i < j < |damage| ==> damage[i].id != damage[j].id
  }

  /** Each attacker occurs once; a total fits a signed 32-bit number. */
  predicate Ok(damage: seq<Entry>) {
    Distinct(damage) && forall i :: 0 <= i < |damage| ==> damage[i].total < 0x8000_0000
  }

  // ----- Adding damage ----------------------------------------------------------------------

  function DamageOf(damage: seq<Entry>, id: nat): nat {
    if damage == [] then 0
    else (if damage[0].id == id then damage[0].total else 0) + DamageOf(damage[1..], id)
  }

  function Index(damage: seq<Entry>, id: nat): (i: nat)
    ensures i <= |damage|
    ensures i < |damage| ==> damage[i].id == id
    ensures forall j :: 0 <= j < i ==> damage[j].id != id
  {
    if damage == [] || damage[0].id == id then 0 else 1 + Index(damage[1..], id)
  }

  function AddDamage(damage: seq<Entry>, id: nat, points: int, now: int): seq<Entry> {
    var i := Index(damage, id);
    if points <= 0 then damage
    else if i == |damage| then damage + [Entry(id, points, now)]
    else damage[i := Entry(id, damage[i].total + points, now)]
  }

  lemma {:induction false} DamageOfUpdate(damage: seq<Entry>, i: nat, e: Entry, id: nat)
    requires i < |damage| && e.id == damage[i].id
    ensures DamageOf(damage[i := e], id) ==
            DamageOf(damage, id) + if e.id == id then e.total - damage[i].total else 0
  {
    if i == 0 {
      assert damage[0 := e][1..] == damage[1..];
    } else {
      DamageOfUpdate(damage[1..], i - 1, e, id);
      assert damage[i := e][1..] == damage[1..][i - 1 := e];
    }
  }

  lemma {:induction false} DamageOfAppend(damage: seq<Entry>, e: Entry, id: nat)
    ensures DamageOf(damage + [e], id) == DamageOf(damage, id) + if e.id == id then e.total else 0
  {
    if damage == [] {
      assert [] + [e] == [e];
    } else {
      DamageOfAppend(damage[1..], e, id);
      assert (damage + [e])[1..] == damage[1..] + [e];
    }
  }

  /** Damage is added to the one attacker; nothing is added for no damage, and nobody is listed twice. */
  lemma AddDamageAdds(damage: seq<Entry>, id: nat, points: int, now: int, other: nat)
    requires Distinct(damage)
    ensures var t := AddDamage(damage, id, points, now);
            && Distinct(t)
            && DamageOf(t, other) == DamageOf(damage, other) + (if other == id && points > 0 then points else 0)
            && (points <= 0 ==> t == damage)
            && (points > 0 ==> exists e :: e in t && e.id == id && e.ticks == now)
            && forall e: Entry :: e.id != id ==> (e in t <==> e in damage)
  {
    var i := Index(damage, id);
    if points > 0 {
      if i == |damage| {
        DamageOfAppend(damage, Entry(id, points, now), other);
        assert AddDamage(damage, id, points, now)[i] == Entry(id, points, now);
      } else {
        DamageOfUpdate(damage, i, Entry(id, damage[i].total + points, now), other);
        assert AddDamage(damage, id, points, now)[i] == Entry(id, damage[i].total + points, now);
        UpdateKeepsOthers(damage, i, Entry(id, damage[i].total + points, now));
      }
    }
  }

  lemma UpdateKeepsOthers(damage: seq<Entry>, i: nat, x: Entry)
    requires i < |damage| && x.id == damage[i].id
    ensures forall e: Entry :: e.id != x.id ==> (e in damage[i := x] <==> e in damage)
  {
    forall e: Entry | e.id != x.id && e in damage ensures e in damage[i := x] {
      var j :| 0 <= j < |damage| && damage[j] == e;
      assert damage[i := x][j] == e;
    }
  }

  // ----- Shares -----------------------------------------------------------------------------

  /** All damage that counts: that of attacker 0 does not. */
  function AllDamage(damage: seq<Entry>): nat {
    if damage == [] then 0
    else (if damage[0].id == 0 then 0 else damage[0].total) + AllDamage(damage[1..])
  }

  /** The sum is kept in 32 bits. */
  function TotalDamage(damage: seq<Entry>): nat {
    AllDamage(damage) % U32
  }

  /** The experience for so much of the damage. */
  function Share(done: nat, total: nat, lost: nat): nat {
    if total == 0 then 0 else done * lost / total
  }

  /** Who gets an attacker's experience: the attacker or, with shared experience, the party leader.
      Attackers that are gone are not in it. */
  type Recipients = map<nat, nat>

  predicate Counts(e: Entry, self: nat, to: Recipients) {
    e.id != 0 && e.id in to && e.total != 0 && e.ticks != 0 && e.id != self
  }

  function Gain(e: Entry, total: nat, lost: nat, self: nat, to: Recipients): nat {
    if Counts(e, self, to) then Share(e.total, total, lost) else 0
  }

  /** All experience handed out, when `total` is taken for the total damage. */
  function Gains(damage: seq<Entry>, total: nat, lost: nat, self: nat, to: Recipients): nat {
    if damage == [] then 0 else Gain(damage[0], total, lost, self, to) + Gains(damage[1..], total, lost, self, to)
  }

  /** What one recipient is due. */
  function GainsOf(damage: seq<Entry>, total: nat, lost: nat, self: nat, to: Recipients, r: nat): nat {
    if damage == [] then 0
    else (if Counts(damage[0], self, to) && to[damage[0].id] == r then Gain(damage[0], total, lost, self, to) else 0)
         + GainsOf(damage[1..], total, lost, self, to, r)
  }

  /** An attacker that is known, is not the victim and has done damage gets the floor of its part of the loss, unless
      nothing counts as damage; anyone else gets nothing.  What several attackers bring to one recipient adds up. */
  lemma {:induction false} GainsOfEach(damage: seq<Entry>, i: nat, total: nat, lost: nat, self: nat,
                                       to: Recipients, r: nat)
    requires i < |damage|
    ensures var e := damage[i];
            var part := if e.id != 0 && e.id != self && e.ticks != 0 && e.total != 0 && e.id in to && to[e.id] == r
                           && total != 0
                        then e.total * lost / total else 0;
            GainsOf(damage, total, lost, self, to, r) ==
            GainsOf(damage[..i] + damage[i + 1..], total, lost, self, to, r) + part
    ensures GainsOf([], total, lost, self, to, r) == 0
  {
    if i == 0 {
      assert damage[..0] + damage[1..] == damage[1..];
    } else {
      GainsOfEach(damage[1..], i - 1, total, lost, self, to, r);
      var rest := damage[..i] + damage[i + 1..];
      assert rest[1..] == damage[1..][..i - 1] + damage[1..][i..];
      assert rest[0] == damage[0];
    }
  }

  /** The damage done by those who get experience. */
  function Rewarded(damage: seq<Entry>, self: nat, to: Recipients): nat {
    if damage == [] then 0
    else (if Counts(damage[0], self, to) then damage[0].total else 0) + Rewarded(damage[1..], self, to)
  }

  function CountRewarded(damage: seq<Entry>, self: nat, to: Recipients): nat {
    if damage == [] then 0
    else (if Counts(damage[0], self, to) then 1 else 0) + CountRewarded(damage[1..], self, to)
  }

  lemma {:induction false} RewardedIsSome(damage: seq<Entry>, self: nat, to: Recipients)
    ensures Rewarded(damage, self, to) <= AllDamage(damage)
  {
    if damage != [] {
      RewardedIsSome(damage[1..], self, to);
    }
  }

  lemma ShareIsFloor(done: nat, total: nat, lost: nat)
    requires total > 0
    ensures Share(done, total, lost) * total <= done * lost < (Share(done, total, lost) + 1) * total
  {
    var q := done * lost / total;
    assert done * lost == q * total + done * lost % total;
    assert (q + 1) * total == q * total + total;
  }

  /** Each share falls short of the exact one by less than one point. */
  lemma {:induction false} GainsAreFloors(damage: seq<Entry>, total: nat, lost: nat, self: nat, to: Recipients)
    requires total > 0
    ensures Gains(damage, total, lost, self, to) * total <= Rewarded(damage, self, to) * lost
    ensures Rewarded(damage, self, to) * lost <=
            Gains(damage, total, lost, self, to) * total + CountRewarded(damage, self, to) * (total - 1)
  {
    if damage != [] {
      var e, rest := damage[0], damage[1..];
      GainsAreFloors(rest, total, lost, self, to);
      Distribute(Gain(e, total, lost, self, to), Gains(rest, total, lost, self, to), total);
      if Counts(e, self, to) {
        ShareIsFloor(e.total, total, lost);
        Distribute(e.total, Rewarded(rest, self, to), lost);
        Distribute(1, CountRewarded(rest, self, to), total - 1);
        Distribute(Gain(e, total, lost, self, to), 1, total);
      }
    }
  }

  lemma Distribute(a: int, b: int, c: int)
    ensures (a + b) * c == a * c + b * c
  {
  }

  lemma Strictly(a: nat, b: nat, c: nat)
    requires a < b
    ensures a * c + c <= b * c
  {
    Distribute(b - a - 1, a + 1, c);
    Distribute(a, 1, c);
  }

  lemma Cancel(a: nat, b: nat, c: nat)
    requires a * c <= b * c && c > 0
    ensures a <= b
  {
    if a > b {
      Strictly(b, a, c);
    }
  }

  lemma Monotone(a: nat, b: nat, c: nat)
    requires a <= b
    ensures a * c <= b * c
  {
    Distribute(b - a, a, c);
  }

  /** Whatever the victim is worth, no more is handed out than it loses, if and only if the 32-bit total
      has not wrapped to a positive number below the damage that is rewarded. */
  lemma NeverTooMuchIff(damage: seq<Entry>, self: nat, to: Recipients)
    ensures (forall lost :: Gains(damage, TotalDamage(damage), lost, self, to) <= lost)
            <==> TotalDamage(damage) == 0 || Rewarded(damage, self, to) <= TotalDamage(damage)
  {
    var total := TotalDamage(damage);
    if total == 0 {
      forall lost
        ensures Gains(damage, total, lost, self, to) <= lost
      {
        NoGains(damage, lost, self, to);
      }
    } else if Rewarded(damage, self, to) <= total {
      forall lost
        ensures Gains(damage, total, lost, self, to) <= lost
      {
        GainsAreFloors(damage, total, lost, self, to);
        Monotone(Rewarded(damage, self, to), total, lost);
        Cancel(Gains(damage, total, lost, self, to), lost, total);
      }
    } else {
      ExactGains(damage, total, self, to);
      assert Gains(damage, total, total, self, to) > total;
    }
  }

  lemma {:induction false} NoGains(damage: seq<Entry>, lost: nat, self: nat, to: Recipients)
    ensures Gains(damage, 0, lost, self, to) == 0
  {
    if damage != [] {
      NoGains(damage[1..], lost, self, to);
    }
  }

  lemma {:induction false} ExactGains(damage: seq<Entry>, total: nat, self: nat, to: Recipients)
    requires total > 0
    ensures Gains(damage, total, total, self, to) == Rewarded(damage, self, to)
  {
    if damage != [] {
      ExactGains(damage[1..], total, self, to);
      ShareOfAll(damage[0].total, total);
    }
  }

  lemma ShareOfAll(done: nat, total: nat)
    requires total > 0
    ensures Share(done, total, total) == done
  {
    ShareIsFloor(done, total, total);
    var q := Share(done, total, total);
    Cancel(q, done, total);
    if q < done {
      Monotone(q + 1, done, total);
    }
  }

  /** Without a wrap-around there is never too much, and when everyone who did damage is rewarded,
      less than one point for each of them stays behind. */
  lemma SharesAddUp(damage: seq<Entry>, lost: nat, self: nat, to: Recipients)
    requires AllDamage(damage) < U32
    ensures Gains(damage, TotalDamage(damage), lost, self, to) <= lost
    ensures 0 < Rewarded(damage, self, to) == AllDamage(damage) ==>
              lost - Gains(damage, TotalDamage(damage), lost, self, to) < CountRewarded(damage, self, to)
  {
    hide Gains, Rewarded, AllDamage, CountRewarded;
    RewardedIsSome(damage, self, to);
    NeverTooMuchIff(damage, self, to);
    var total := TotalDamage(damage);
    if 0 < Rewarded(damage, self, to) == total {
      var g, n := Gains(damage, total, lost, self, to), CountRewarded(damage, self, to);
      GainsAreFloors(damage, total, lost, self, to);
      SomeoneIsRewarded(damage, self, to);
      FallsShort(g, n, lost, total);
    }
  }

  lemma FallsShort(g: nat, n: nat, lost: nat, total: nat)
    requires total > 0 && n > 0 && g <= lost && total * lost <= g * total + n * (total - 1)
    ensures lost - g < n
  {
    Distribute(lost - g, g, total);
    Distribute(total - 1, 1, n);
    if lost - g >= n {
      Monotone(n, lost - g, total);
    }
  }

  lemma {:induction false} SomeoneIsRewarded(damage: seq<Entry>, self: nat, to: Recipients)
    requires Rewarded(damage, self, to) > 0
    ensures CountRewarded(damage, self, to) > 0
  {
    if !Counts(damage[0], self, to) {
      SomeoneIsRewarded(damage[1..], self, to);
    }
  }

  // ----- Who gets it ------------------------------------------------------------------------

  datatype Grant = Grant(to: nat, experience: nat)

  function GrantedTo(grants: seq<Grant>, r: nat): nat {
    if grants == [] then 0 else (if grants[0].to == r then grants[0].experience else 0) + GrantedTo(grants[1..], r)
  }

  function Granted(grants: seq<Grant>): nat {
    if grants == [] then 0 else grants[0].experience + Granted(grants[1..])
  }

  predicate OneEach(grants: seq<Grant>) {
    forall i, j :: 0 <= i < j < |grants| ==> grants[i].to != grants[j].to
  }

  lemma {:induction false} GrantedAppend(grants: seq<Grant>, g: Grant, r: nat)
    ensures GrantedTo(grants + [g], r) == GrantedTo(grants, r) + if g.to == r then g.experience else 0
    ensures Granted(grants + [g]) == Granted(grants) + g.experience
  {
    if grants == [] {
      assert [] + [g] == [g];
    } else {
      GrantedAppend(grants[1..], g, r);
      assert (grants + [g])[1..] == grants[1..] + [g];
    }
  }

  lemma {:induction false} GrantedUpdate(grants: seq<Grant>, i: nat, more: nat, r: nat)
    requires i < |grants|
    ensures var t := grants[i := Grant(grants[i].to, grants[i].experience + more)];
            && GrantedTo(t, r) == GrantedTo(grants, r) + (if grants[i].to == r then more else 0)
            && Granted(t) == Granted(grants) + more
  {
    var g := Grant(grants[i].to, grants[i].experience + more);
    if i == 0 {
      assert grants[0 := g][1..] == grants[1..];
    } else {
      GrantedUpdate(grants[1..], i - 1, more, r);
      assert grants[i := g][1..] == grants[1..][i - 1 := g];
    }
  }

  lemma {:induction false} GainsMore(damage: seq<Entry>, e: Entry, total: nat, lost: nat, self: nat,
                                     to: Recipients, r: nat)
    ensures Gains(damage + [e], total, lost, self, to) ==
            Gains(damage, total, lost, self, to) + Gain(e, total, lost, self, to)
    ensures GainsOf(damage + [e], total, lost, self, to, r) == GainsOf(damage, total, lost, self, to, r)
              + if Counts(e, self, to) && to[e.id] == r then Gain(e, total, lost, self, to) else 0
  {
    if damage == [] {
      assert [] + [e] == [e];
    } else {
      GainsMore(damage[1..], e, total, lost, self, to, r);
      assert (damage + [e])[1..] == damage[1..] + [e];
    }
  }

  lemma {:induction false} AllDamageMore(damage: seq<Entry>, e: Entry)
    ensures AllDamage(damage + [e]) == AllDamage(damage) + if e.id == 0 then 0 else e.total
  {
    if damage == [] {
      assert [] + [e] == [e];
    } else {
      AllDamageMore(damage[1..], e);
      assert (damage + [e])[1..] == damage[1..] + [e];
    }
  }

  /** Three attackers whose damage adds up to 2^32 + 1: the total is taken for 1, and for one point of experience
      more than two thousand million are handed out. */
  lemma AWrappedTotal()
    ensures var damage := [Entry(1, 0x7FFF_FFFF, 1), Entry(2, 0x7FFF_FFFF, 1), Entry(3, 3, 1)];
            var to: Recipients := map[1 := 1, 2 := 2, 3 := 3];
            && Ok(damage) && AllDamage(damage) == U32 + 1 && TotalDamage(damage) == 1
            && Gains(damage, TotalDamage(damage), 1, 9, to) == U32 + 1
  {
    var damage := [Entry(1, 0x7FFF_FFFF, 1), Entry(2, 0x7FFF_FFFF, 1), Entry(3, 3, 1)];
    var to: Recipients := map[1 := 1, 2 := 2, 3 := 3];
    assert damage[1..] == [Entry(2, 0x7FFF_FFFF, 1), Entry(3, 3, 1)];
    assert damage[1..][1..] == [Entry(3, 3, 1)] && damage[1..][1..][1..] == [];
    ExactGains(damage, 1, 9, to);
    assert Rewarded(damage[1..][1..], 9, to) == 3;
  }
}
