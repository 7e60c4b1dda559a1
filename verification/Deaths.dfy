/** A creature's own record of the damage done to it, and the experience it leaves when it dies. */
module Deaths {
  import opened Basics
  import opened DamageShares

  class Creature {
    const id: nat
    var damageMap: seq<Entry>
    var lastHitCreatureId: nat

    ghost predicate Valid()
      reads this
    {
      Ok(damageMap)
    }

    constructor (id: nat)
      ensures Valid() && this.id == id && damageMap == []
    {
      this.id, damageMap, lastHitCreatureId := id, [], 0;
    }

    method AddDamagePoints(attacker: nat, damagePoints: int, now: int)
      requires Valid() && DamageOf(damageMap, attacker) + damagePoints < 0x8000_0000
      modifies this
      ensures Valid() && damageMap == AddDamage(old(damageMap), attacker, damagePoints, now)
      ensures lastHitCreatureId == if damagePoints > 0 then attacker else old(lastHitCreatureId)
    {
      if damagePoints <= 0 {
        return;
      }
      var it := 0;
      while it < |damageMap| && damageMap[it].id != attacker
        invariant it <= |damageMap|
        invariant forall j :: 0 <= j < it ==> damageMap[j].id != attacker
      {
        it := it + 1;
      }
      assert it == Index(damageMap, attacker);
      if it == |damageMap| {
        damageMap := damageMap + [Entry(attacker, damagePoints, now)];
      } else {
        DamageOfEntry(damageMap, it);
        damageMap := damageMap[it := Entry(attacker, damageMap[it].total + damagePoints, now)];
      }
      lastHitCreatureId := attacker;
    }

    /** The attacker's damage and all damage, whose quotient is the ratio; 32-bit sums. */
    method GetDamageRatio(attacker: nat) returns (attackerDamage: nat, totalDamage: nat)
      requires Valid()
      ensures totalDamage == TotalDamage(damageMap)
      ensures attackerDamage == if attacker == 0 then 0 else DamageOf(damageMap, attacker)
    {
      attackerDamage, totalDamage := 0, 0;
      for i := 0 to |damageMap|
        invariant totalDamage == AllDamage(damageMap[..i]) % U32
        invariant attackerDamage == if attacker == 0 then 0 else DamageOf(damageMap[..i], attacker)
      {
        var e := damageMap[i];
        assert damageMap[..i + 1] == damageMap[..i] + [e];
        AllDamageMore(damageMap[..i], e);
        DamageOfAppend(damageMap[..i], e, attacker);
        if e.id == 0 || e.total == 0 {
          continue;
        }
        AddWrapped(AllDamage(damageMap[..i]), e.total);
        totalDamage := (totalDamage + e.total) % U32;
        if e.id == attacker {
          NoOther(damageMap, i);
          attackerDamage := (attackerDamage + e.total) % U32;
        }
      }
      assert damageMap[..|damageMap|] == damageMap;
    }

    method GetGainedExperience(attacker: nat, lost: nat) returns (experience: nat)
      requires Valid()
      ensures experience ==
              Share(if attacker == 0 then 0 else DamageOf(damageMap, attacker), TotalDamage(damageMap), lost)
    {
      hide Share, TotalDamage, DamageOf;
      var attackerDamage, totalDamage := GetDamageRatio(attacker);
      return Share(attackerDamage, totalDamage, lost);
    }

    /** The experience of everyone who damaged the creature, added up for each one who receives it. */
    method HandOut(lost: nat, to: Recipients) returns (experienceMap: seq<Grant>)
      requires Valid()
      ensures OneEach(experienceMap)
      ensures Granted(experienceMap) == Gains(damageMap, TotalDamage(damageMap), lost, id, to)
      ensures forall r :: GrantedTo(experienceMap, r) == GainsOf(damageMap, TotalDamage(damageMap), lost, id, to, r)
    {
      hide Gain, GainsOf, Gains, GrantedTo, Granted, TotalDamage;
      experienceMap := [];
      ghost var total := TotalDamage(damageMap);
      Nothing(total, lost, id, to);
      for i := 0 to |damageMap|
        invariant OneEach(experienceMap)
        invariant Granted(experienceMap) == Gains(damageMap[..i], total, lost, id, to)
        invariant forall r :: GrantedTo(experienceMap, r) == GainsOf(damageMap[..i], total, lost, id, to, r)
      {
        var e := damageMap[i];
        assert damageMap[..i + 1] == damageMap[..i] + [e];
        forall r {
          GainsMore(damageMap[..i], e, total, lost, id, to, r);
        }
        GainsMore(damageMap[..i], e, total, lost, id, to, 0);
        GainIs(e, total, lost, id, to);
        if e.id == 0 || e.id !in to {
          continue;
        }
        if e.total == 0 || e.ticks == 0 {
          continue;
        }
        if e.id != id {
          DamageOfEntry(damageMap, i);
          var gainExp := GetGainedExperience(e.id, lost);
          experienceMap := AddTo(experienceMap, to[e.id], gainExp);
        }
      }
      assert damageMap[..|damageMap|] == damageMap;
    }
  }

  method AddTo(grants: seq<Grant>, attacker: nat, gainExp: nat) returns (r: seq<Grant>)
    requires OneEach(grants)
    ensures OneEach(r) && Granted(r) == Granted(grants) + gainExp
    ensures forall a :: GrantedTo(r, a) == GrantedTo(grants, a) + if a == attacker then gainExp else 0
  {
    hide GrantedTo, Granted;
    var it := 0;
    while it < |grants| && grants[it].to != attacker
      invariant it <= |grants|
      invariant forall j :: 0 <= j < it ==> grants[j].to != attacker
    {
      it := it + 1;
    }
    if it == |grants| {
      r := grants + [Grant(attacker, gainExp)];
      forall a {
        GrantedAppend(grants, Grant(attacker, gainExp), a);
      }
      GrantedAppend(grants, Grant(attacker, gainExp), 0);
    } else {
      r := grants[it := Grant(attacker, grants[it].experience + gainExp)];
      forall a {
        GrantedUpdate(grants, it, gainExp, a);
      }
      GrantedUpdate(grants, it, gainExp, 0);
    }
  }

  lemma {:induction false} DamageOfEntry(damage: seq<Entry>, i: nat)
    requires Distinct(damage) && i < |damage|
    ensures DamageOf(damage, damage[i].id) == damage[i].total
  {
    if i == 0 {
      NotListed(damage[1..], damage[0].id);
    } else {
      DamageOfEntry(damage[1..], i - 1);
    }
  }

  lemma {:induction false} NotListed(damage: seq<Entry>, id: nat)
    requires forall j :: 0 <= j < |damage| ==> damage[j].id != id
    ensures DamageOf(damage, id) == 0
  {
    if damage != [] {
      NotListed(damage[1..], id);
    }
  }

  lemma NoOther(damage: seq<Entry>, i: nat)
    requires Distinct(damage) && i < |damage|
    ensures DamageOf(damage[..i], damage[i].id) == 0
  {
    NotListed(damage[..i], damage[i].id);
  }

  lemma AddWrapped(a: nat, b: nat)
    ensures (a % U32 + b) % U32 == (a + b) % U32
  {
    var q := a / U32;
    assert a + b == q * U32 + (a % U32 + b);
  }

  lemma Nothing(total: nat, lost: nat, self: nat, to: Recipients)
    ensures Granted([]) == Gains([], total, lost, self, to) == 0
    ensures forall r :: GrantedTo([], r) == GainsOf([], total, lost, self, to, r) == 0
  {
  }

  lemma GainIs(e: Entry, total: nat, lost: nat, self: nat, to: Recipients)
    ensures Gain(e, total, lost, self, to) == if Counts(e, self, to) then Share(e.total, total, lost) else 0
  {
  }
}
