/** Boss points and the loot bonus that they buy. */
module Bosstiary {
  import opened Basics

  /** The square root, rounded down. */
  function Isqrt(n: nat): nat {
    if n == 0 then 0
    else var r := Isqrt(n - 1); if (r + 1) * (r + 1) <= n then r + 1 else r
  }

  lemma {:induction false} IsqrtIsRoot(n: nat)
    ensures Isqrt(n) * Isqrt(n) <= n < (Isqrt(n) + 1) * (Isqrt(n) + 1)
  {
    if n > 0 {
      IsqrtIsRoot(n - 1);
    }
  }

  /** What stands under the root; like the program's, it is a 32-bit number. */
  function Radicand(points: nat): nat
    requires points >= 1250
  {
    (8 * ((points - 1250) / 5) + 81) % U32
  }

  /** The result does not wrap around. */
  predicate InRange(points: nat) {
    points >= 1250 ==> 8 * ((points - 1250) / 5) + 81 < U32
  }

  /** 100 + (sqrt(n) - 9) / 2 rounded down is (191 + the rounded root) / 2. */
  function LootBonus(points: nat): nat {
    if points <= 250 then 25 + points / 10
    else if points < 1250 then 37 + points / 20
    else (191 + Isqrt(Radicand(points))) / 2
  }

  /** 2.5 b^2 - 477.5 b + 24000 is a whole number for every b. */
  function BossPoints(bonus: nat): nat {
    if bonus <= 25 then 0
    else if bonus <= 50 then 10 * bonus - 250
    else if bonus <= 100 then 20 * bonus - 750
    else assert (bonus - 95) * (bonus - 101) >= 0; (5 * bonus * bonus - 955 * bonus + 48000) / 2
  }

  lemma {:induction false} IsqrtReaches(n: nat, r: nat)
    ensures Isqrt(n) >= r <==> n >= r * r
  {
    var q := Isqrt(n);
    IsqrtIsRoot(n);
    if q >= r {
      assert q * q >= r * r by { Squares(r, q); }
    } else {
      assert (q + 1) * (q + 1) <= r * r by { Squares(q + 1, r); }
    }
  }

  lemma Squares(a: nat, b: nat)
    requires a <= b
    ensures a * a <= b * b
  {
    assert b * b == a * a + (b - a) * (a + b);
  }

  /** Half of k(k + 9): the number of five-point steps from 1250 to a bonus of 100 + k. */
  function Steps(k: nat): (t: nat)
    ensures 2 * t == k * (k + 9)
  {
    if k == 0 then 0 else Steps(k - 1) + k + 4
  }

  lemma {:induction false} PointsInSteps(k: nat)
    ensures BossPoints(100 + k) == 1250 + 5 * Steps(k)
  {
    var b := 100 + k;
    assert b * b == 10000 + 200 * k + k * k;
    assert k * (k + 9) == k * k + 9 * k;
    assert 5 * b * b == 5 * (b * b);
    assert 5 * b * b - 955 * b + 48000 == 5 * (k * k) + 45 * k + 2500;
    assert 2 * (1250 + 5 * Steps(k)) == 2500 + 5 * (k * (k + 9));
  }

  lemma RootOfSteps(k: nat)
    ensures (2 * k + 9) * (2 * k + 9) == 8 * Steps(k) + 81
  {
    assert (2 * k + 9) * (2 * k + 9) == 4 * (k * (k + 9)) + 81;
  }

  /** From 1250 points on, the points for a bonus are exactly the fewest that reach it. */
  lemma {:induction false} PointsAreTheFewest(points: nat, bonus: nat)
    requires points >= 1250 && InRange(points) && bonus >= 100
    ensures LootBonus(points) >= bonus <==> points >= BossPoints(bonus)
  {
    hide Isqrt, Steps, BossPoints;
    var k, q := bonus - 100, (points - 1250) / 5;
    PointsInSteps(k);
    RootOfSteps(k);
    IsqrtReaches(8 * q + 81, 2 * k + 9);
    assert points >= 1250 + 5 * Steps(k) <==> q >= Steps(k);
  }

  /** No number of points gives a larger bonus than this: the root of a 32-bit number is 16 bits long. */
  lemma {:induction false} BonusIsBounded(points: nat)
    ensures LootBonus(points) <= 32863
  {
    hide Isqrt;
    if points >= 1250 {
      IsqrtReaches(Radicand(points), 65536);
    }
  }

  /** Buying a bonus and looking it up again gives it back exactly for bonuses 25 to 50 and 100
      to 32863.  (Beyond 32 bits the program's conversion of the points is not defined.) */
  lemma {:induction false} BonusRoundTripIff(bonus: nat)
    requires BossPoints(bonus) < U32
    ensures LootBonus(BossPoints(bonus)) == bonus <==> 25 <= bonus <= 50 || 100 <= bonus <= 32863
    ensures 51 <= bonus <= 99 ==> LootBonus(BossPoints(bonus)) == bonus - 1
  {
    if bonus > 32863 {
      BonusIsBounded(BossPoints(bonus));
    } else if bonus >= 100 {
      LargeBonusRoundTrip(bonus);
    }
  }

  lemma LargeBonusRoundTrip(bonus: nat)
    requires 100 <= bonus <= 32863
    ensures LootBonus(BossPoints(bonus)) == bonus
  {
    hide Isqrt, Steps, BossPoints, LootBonus;
    var k := bonus - 100;
    PointsInSteps(k);
    PointsInSteps(k + 1);
    RootOfSteps(k);
    Squares(2 * k + 9, 65535);
    StepsGrow(k);
    PointsAreTheFewest(BossPoints(bonus), bonus);
    PointsAreTheFewest(BossPoints(bonus), bonus + 1);
  }

  lemma StepsGrow(k: nat)
    ensures Steps(k) < Steps(k + 1)
  {
  }

  /** More points never give less, except just behind 250. */
  lemma {:induction false} MorePointsGiveLessIff(p: nat, q: nat)
    requires p < q && InRange(q)
    ensures LootBonus(q) < LootBonus(p) <==> p == 250 && 251 <= q <= 259
  {
    hide Isqrt;
    if q >= 1250 {
      LargeBonuses(if p >= 1250 then p else 1250, q);
    }
  }

  lemma LargeBonuses(p: nat, q: nat)
    requires 1250 <= p <= q && InRange(q)
    ensures 100 <= LootBonus(p) <= LootBonus(q)
  {
    hide Isqrt, Radicand;
    InRangeRadicand(p, q);
    IsqrtReaches(Radicand(p), 9);
    RootsGrow(Radicand(p), Radicand(q));
  }

  lemma InRangeRadicand(p: nat, q: nat)
    requires 1250 <= p <= q && InRange(q)
    ensures 81 <= Radicand(p) <= Radicand(q)
  {
    var m, n := (p - 1250) / 5, (q - 1250) / 5;
    assert m <= n;
    assert Radicand(p) == 8 * m + 81 && Radicand(q) == 8 * n + 81;
  }

  lemma RootsGrow(m: nat, n: nat)
    requires m <= n
    ensures Isqrt(m) <= Isqrt(n)
  {
    IsqrtIsRoot(m);
    IsqrtReaches(n, Isqrt(m));
  }
}
