/** Money as it lies in nested containers: stacks of three kinds of coin, and what taking from,
    topping up and adding stacks does to what is there. */
module Coins {
  import opened Sequences

  datatype Coin = Gold | Platinum | Crystal

  function Unit(c: Coin): nat {
    match c
    case Gold => 1
    case Platinum => 100
    case Crystal => 10000
  }

  /** One item of coins; `uid` is its identity. */
  datatype Stack = Stack(uid: nat, coin: Coin, count: nat)

  /** What `n` coins of a kind are worth. */
  function Value(c: Coin, n: nat): nat {
    match c
    case Gold => n
    case Platinum => 100 * n
    case Crystal => 10000 * n
  }

  function Worth(s: Stack): nat {
    Value(s.coin, s.count)
  }

  /** Anything that a cylinder or container may hold; Other also stands for an empty slot. */
  datatype Thing = Money(stack: Stack) | Other(uid: nat) | Box(uid: nat, items: seq<Thing>)

  /** All stacks that are worth something, at every depth. */
  ghost function StacksIn(ts: seq<Thing>): seq<Stack> {
    if ts == [] then [] else StacksOf(ts[0]) + StacksIn(ts[1..])
  }

  ghost function StacksOf(t: Thing): seq<Stack> {
    match t
    case Money(s) => if s.count > 0 then [s] else []
    case Other(_) => []
    case Box(_, items) => StacksIn(items)
  }

  function Sum(fs: seq<Stack>): nat {
    if fs == [] then 0 else Worth(fs[0]) + Sum(fs[1..])
  }

  /** The cash among these things. */
  ghost function Cash(ts: seq<Thing>): nat {
    Sum(StacksIn(ts))
  }

  lemma {:induction false} SumConcat(a: seq<Stack>, b: seq<Stack>)
    ensures Sum(a + b) == Sum(a) + Sum(b)
  {
    if a == [] {
      assert a + b == b;
    } else {
      SumConcat(a[1..], b);
      assert (a + b)[1..] == a[1..] + b;
    }
  }

  lemma {:induction false} StacksConcat(a: seq<Thing>, b: seq<Thing>)
    ensures StacksIn(a + b) == StacksIn(a) + StacksIn(b)
  {
    if a == [] {
      assert a + b == b;
    } else {
      StacksConcat(a[1..], b);
      assert (a + b)[1..] == a[1..] + b;
      Associative(StacksOf(a[0]), StacksIn(a[1..]), StacksIn(b));
    }
  }

  lemma WithoutOne(b: seq<Stack>, i: nat)
    requires i < |b|
    ensures var rest := b[..i] + b[i + 1..];
            multiset(b) == multiset{b[i]} + multiset(rest) && Sum(b) == Worth(b[i]) + Sum(rest)
  {
    assert b == b[..i] + ([b[i]] + b[i + 1..]);
    SumConcat(b[..i], [b[i]] + b[i + 1..]);
    SumConcat(b[..i], b[i + 1..]);
  }

  lemma Cancel(s: Stack, a: multiset<Stack>, b: multiset<Stack>)
    requires multiset{s} + a == multiset{s} + b
    ensures a == b
  {
    assert a == (multiset{s} + a) - multiset{s};
    assert b == (multiset{s} + b) - multiset{s};
  }

  lemma {:induction false} SumOfPermutation(a: seq<Stack>, b: seq<Stack>)
    requires multiset(a) == multiset(b)
    ensures Sum(a) == Sum(b)
  {
    if a == [] {
      assert |multiset(b)| == 0;
    } else {
      FirstOut(a);
      var i := Place(b, a[0]);
      WithoutOne(b, i);
      hide Sum, Worth;
      var rest := b[..i] + b[i + 1..];
      Cancel(a[0], multiset(a[1..]), multiset(rest));
      SumOfPermutation(a[1..], rest);
    }
  }

  lemma FirstOut(a: seq<Stack>)
    requires a != []
    ensures multiset(a) == multiset{a[0]} + multiset(a[1..]) && Sum(a) == Worth(a[0]) + Sum(a[1..])
    ensures a[0] in multiset(a)
  {
    assert a == [a[0]] + a[1..];
  }

  lemma Place(b: seq<Stack>, s: Stack) returns (i: nat)
    requires s in multiset(b)
    ensures i < |b| && b[i] == s
  {
    i :| 0 <= i < |b| && b[i] == s;
  }

  /** No two stacks have the same identity. */
  ghost predicate Distinct(fs: seq<Stack>) {
    var m := multiset(fs);
    forall x | x in m :: m[x] == 1 && forall y | y in m :: x.uid == y.uid ==> x == y
  }

  lemma DistinctTail(fs: seq<Stack>)
    requires fs != [] && Distinct(fs)
    ensures Distinct(fs[1..]) && fs[0] !in fs[1..]
    ensures multiset(fs) == multiset{fs[0]} + multiset(fs[1..])
  {
    assert fs == [fs[0]] + fs[1..];
    var m := multiset(fs[1..]);
    forall x | x in m ensures m[x] == 1 && (forall y | y in m :: x.uid == y.uid ==> x == y) {
      assert x in multiset(fs);
      forall y | y in m ensures x.uid == y.uid ==> x == y {
        assert y in multiset(fs);
      }
    }
    assert fs[0] in multiset(fs);
  }

  // ----- Taking ---------------------------------------------------------------------------

  /** `n` units less in the stack `uid`; a stack with none left is gone. */
  function Take(ts: seq<Thing>, uid: nat, n: nat): seq<Thing> {
    if ts == [] then [] else TakeOf(ts[0], uid, n) + Take(ts[1..], uid, n)
  }

  function TakeOf(t: Thing, uid: nat, n: nat): seq<Thing> {
    match t
    case Money(s) =>
      if s.uid != uid then [t] else if n >= s.count then [] else [Money(s.(count := s.count - n))]
    case Other(_) => [t]
    case Box(id, items) => [Box(id, Take(items, uid, n))]
  }

  ghost function TakeFlat(fs: seq<Stack>, uid: nat, n: nat): seq<Stack> {
    if fs == [] then [] else TakeOne(fs[0], uid, n) + TakeFlat(fs[1..], uid, n)
  }

  ghost function TakeOne(s: Stack, uid: nat, n: nat): seq<Stack> {
    if s.uid != uid then [s] else if n >= s.count then [] else [s.(count := s.count - n)]
  }

  lemma {:induction false} TakeFlatConcat(a: seq<Stack>, b: seq<Stack>, uid: nat, n: nat)
    ensures TakeFlat(a + b, uid, n) == TakeFlat(a, uid, n) + TakeFlat(b, uid, n)
  {
    if a == [] {
      assert a + b == b;
    } else {
      TakeFlatConcat(a[1..], b, uid, n);
      assert (a + b)[1..] == a[1..] + b;
      Associative(TakeOne(a[0], uid, n), TakeFlat(a[1..], uid, n), TakeFlat(b, uid, n));
    }
  }

  /** Taking from nested containers takes, wherever the stack lies, from that stack and from nothing else. */
  lemma {:induction false} StacksAfterTake(ts: seq<Thing>, uid: nat, n: nat)
    ensures StacksIn(Take(ts, uid, n)) == TakeFlat(StacksIn(ts), uid, n)
    decreases ts
  {
    if ts != [] {
      StacksAfterTakeOf(ts[0], uid, n);
      StacksAfterTake(ts[1..], uid, n);
      StacksConcat(TakeOf(ts[0], uid, n), Take(ts[1..], uid, n));
      TakeFlatConcat(StacksOf(ts[0]), StacksIn(ts[1..]), uid, n);
    }
  }

  lemma {:induction false} StacksAfterTakeOf(t: Thing, uid: nat, n: nat)
    ensures StacksIn(TakeOf(t, uid, n)) == TakeFlat(StacksOf(t), uid, n)
    decreases t
  {
    match t
    case Money(s) =>
    case Other(_) =>
    case Box(id, items) =>
      StacksAfterTake(items, uid, n);
      assert TakeOf(t, uid, n)[1..] == [];
  }

  lemma {:induction false} TakeFlatAbsent(fs: seq<Stack>, uid: nat, n: nat)
    requires forall x | x in fs :: x.uid != uid
    ensures TakeFlat(fs, uid, n) == fs
  {
    if fs != [] {
      TakeFlatAbsent(fs[1..], uid, n);
    }
  }

  ghost function LeftOver(s: Stack, n: nat): multiset<Stack> {
    if n < s.count then multiset{s.(count := s.count - n)} else multiset{}
  }

  /** The stack with this identity is the first one, and no other has it. */
  lemma FirstIsAlone(fs: seq<Stack>, s: Stack)
    requires Distinct(fs) && s in fs && fs[0].uid == s.uid
    ensures fs[0] == s && forall x | x in fs[1..] :: x.uid != s.uid
  {
    DistinctTail(fs);
    assert fs[0] in multiset(fs) && s in multiset(fs);
    forall x | x in fs[1..] ensures x.uid != s.uid {
      assert x in multiset(fs);
    }
  }

  lemma {:induction false} TakeFlatEffect(fs: seq<Stack>, s: Stack, n: nat)
    requires Distinct(fs) && s in fs && 0 < n <= s.count
    ensures multiset(TakeFlat(fs, s.uid, n)) == multiset(fs) - multiset{s} + LeftOver(s, n)
    ensures Sum(TakeFlat(fs, s.uid, n)) + Value(s.coin, n) == Sum(fs)
  {
    hide Value, Worth, Distinct, LeftOver, TakeOne;
    DistinctTail(fs);
    var rest := fs[1..];
    if fs[0].uid == s.uid {
      FirstIsAlone(fs, s);
      TakeFlatAbsent(rest, s.uid, n);
      TakeOneEffect(s, n);
      SumConcat(TakeOne(s, s.uid, n), rest);
      SwapFirst(multiset(rest), s, LeftOver(s, n));
    } else {
      StandsBehind(fs, s);
      TakeFlatEffect(rest, s, n);
      TakesBehind(fs, s, n);
      SumConcat([fs[0]], TakeFlat(rest, s.uid, n));
      SwapBehind(fs[0], multiset(rest), s, LeftOver(s, n));
    }
  }

  lemma SwapFirst(r: multiset<Stack>, s: Stack, l: multiset<Stack>)
    ensures multiset{s} + r - multiset{s} + l == l + r
  {
  }

  lemma SwapBehind(x: Stack, r: multiset<Stack>, s: Stack, l: multiset<Stack>)
    requires s in r
    ensures multiset{x} + (r - multiset{s} + l) == multiset{x} + r - multiset{s} + l
  {
  }

  lemma StandsBehind(fs: seq<Stack>, s: Stack)
    requires s in fs && fs[0].uid != s.uid
    ensures s in fs[1..] && s in multiset(fs[1..])
  {
    assert fs == [fs[0]] + fs[1..];
  }

  lemma TakesBehind(fs: seq<Stack>, s: Stack, n: nat)
    requires fs != [] && fs[0].uid != s.uid
    ensures TakeFlat(fs, s.uid, n) == [fs[0]] + TakeFlat(fs[1..], s.uid, n)
  {
  }

  lemma TakeOneEffect(s: Stack, n: nat)
    requires 0 < n <= s.count
    ensures multiset(TakeOne(s, s.uid, n)) == LeftOver(s, n)
    ensures Sum(TakeOne(s, s.uid, n)) + Value(s.coin, n) == Worth(s)
  {
    UnitTimes(s, n);
  }

  lemma UnitTimes(s: Stack, n: nat)
    requires n <= s.count
    ensures Worth(s) == Value(s.coin, n) + Worth(s.(count := s.count - n))
    ensures Worth(s) == Value(s.coin, s.count)
  {
  }

  lemma DistinctAfterTake(fs: seq<Stack>, s: Stack, n: nat)
    requires Distinct(fs) && s in fs && 0 < n <= s.count
    requires multiset(TakeFlat(fs, s.uid, n)) == multiset(fs) - multiset{s} + LeftOver(s, n)
    ensures Distinct(TakeFlat(fs, s.uid, n))
  {
    var m, was := multiset(TakeFlat(fs, s.uid, n)), multiset(fs);
    assert s in was;
    var left := s.(count := s.count - n);
    assert left in was ==> left == s;
    forall x | x in m ensures m[x] == 1 && (forall y | y in m :: x.uid == y.uid ==> x == y) {
      assert x in was || x == left;
      forall y | y in m ensures x.uid == y.uid ==> x == y {
        assert y in was || y == left;
      }
    }
  }

  // ----- Adding ---------------------------------------------------------------------------

  /** `n` units more in the stack `uid`. */
  function TopUp(ts: seq<Thing>, uid: nat, n: nat): seq<Thing> {
    if ts == [] then [] else [TopUpOf(ts[0], uid, n)] + TopUp(ts[1..], uid, n)
  }

  function TopUpOf(t: Thing, uid: nat, n: nat): Thing {
    match t
    case Money(s) => if s.uid == uid && s.count > 0 then Money(s.(count := s.count + n)) else t
    case Other(_) => t
    case Box(id, items) => Box(id, TopUp(items, uid, n))
  }

  ghost function TopUpFlat(fs: seq<Stack>, uid: nat, n: nat): seq<Stack> {
    if fs == [] then [] else [TopUpOne(fs[0], uid, n)] + TopUpFlat(fs[1..], uid, n)
  }

  ghost function TopUpOne(s: Stack, uid: nat, n: nat): Stack {
    if s.uid == uid then s.(count := s.count + n) else s
  }

  lemma {:induction false} TopUpFlatConcat(a: seq<Stack>, b: seq<Stack>, uid: nat, n: nat)
    ensures TopUpFlat(a + b, uid, n) == TopUpFlat(a, uid, n) + TopUpFlat(b, uid, n)
  {
    if a == [] {
      assert a + b == b;
    } else {
      TopUpFlatConcat(a[1..], b, uid, n);
      assert (a + b)[1..] == a[1..] + b;
      Associative([TopUpOne(a[0], uid, n)], TopUpFlat(a[1..], uid, n), TopUpFlat(b, uid, n));
    }
  }

  lemma {:induction false} StacksAfterTopUp(ts: seq<Thing>, uid: nat, n: nat)
    ensures StacksIn(TopUp(ts, uid, n)) == TopUpFlat(StacksIn(ts), uid, n)
    decreases ts, 1
  {
    if ts != [] {
      StacksAfterTopUpOf(ts[0], uid, n);
      StacksAfterTopUp(ts[1..], uid, n);
      TopUpFlatConcat(StacksOf(ts[0]), StacksIn(ts[1..]), uid, n);
    }
  }

  lemma {:induction false} StacksAfterTopUpOf(t: Thing, uid: nat, n: nat)
    ensures StacksOf(TopUpOf(t, uid, n)) == TopUpFlat(StacksOf(t), uid, n)
    decreases t, 0
  {
    if t.Box? {
      StacksAfterTopUp(t.items, uid, n);
    }
  }

  lemma {:induction false} TopUpFlatAbsent(fs: seq<Stack>, uid: nat, n: nat)
    requires forall x | x in fs :: x.uid != uid
    ensures TopUpFlat(fs, uid, n) == fs
  {
    if fs != [] {
      TopUpFlatAbsent(fs[1..], uid, n);
    }
  }

  ghost function Topped(s: Stack, n: nat): multiset<Stack> {
    multiset{TopUpOne(s, s.uid, n)}
  }

  lemma {:induction false} TopUpStacks(fs: seq<Stack>, s: Stack, n: nat)
    requires Distinct(fs) && s in fs
    ensures multiset(TopUpFlat(fs, s.uid, n)) == multiset(fs) - multiset{s} + Topped(s, n)
  {
    hide Distinct;
    DistinctTail(fs);
    var rest := fs[1..];
    if fs[0].uid == s.uid {
      FirstIsAlone(fs, s);
      TopUpFlatAbsent(rest, s.uid, n);
      assert TopUpFlat(fs, s.uid, n) == [TopUpOne(s, s.uid, n)] + rest;
    } else {
      assert s in rest;
      TopUpStacks(rest, s, n);
      assert TopUpFlat(fs, s.uid, n) == [fs[0]] + TopUpFlat(rest, s.uid, n);
    }
  }

  lemma {:induction false} TopUpSum(fs: seq<Stack>, s: Stack, n: nat)
    requires Distinct(fs) && s in fs
    ensures Sum(TopUpFlat(fs, s.uid, n)) == Sum(fs) + Value(s.coin, n)
  {
    hide Value, Worth, Distinct;
    DistinctTail(fs);
    var rest := fs[1..];
    if fs[0].uid == s.uid {
      FirstIsAlone(fs, s);
      TopUpFlatAbsent(rest, s.uid, n);
      TopUpOneEffect(s, n);
      SumConcat([TopUpOne(s, s.uid, n)], rest);
    } else {
      TopUpSum(rest, s, n);
      SumConcat([fs[0]], TopUpFlat(rest, s.uid, n));
    }
  }

  lemma TopUpOneEffect(s: Stack, n: nat)
    ensures Sum([TopUpOne(s, s.uid, n)]) == Worth(s) + Value(s.coin, n)
  {
    UnitTimes(TopUpOne(s, s.uid, n), n);
  }

  /** Puts `t` behind the things of the container that `path` leads to; a path that leads nowhere ends
      where it breaks off. */
  function Insert(ts: seq<Thing>, path: seq<nat>, t: Thing): seq<Thing>
    decreases |path|
  {
    if path == [] || path[0] >= |ts| || !ts[path[0]].Box? then ts + [t]
    else
      var box := ts[path[0]];
      ts[path[0] := box.(items := Insert(box.items, path[1..], t))]
  }

  lemma {:induction false} StacksAfterInsert(ts: seq<Thing>, path: seq<nat>, s: Stack)
    requires s.count > 0
    ensures multiset(StacksIn(Insert(ts, path, Money(s)))) == multiset(StacksIn(ts)) + multiset{s}
    ensures Cash(Insert(ts, path, Money(s))) == Cash(ts) + Worth(s)
    decreases |path|
  {
    if path == [] || path[0] >= |ts| || !ts[path[0]].Box? {
      StacksConcat(ts, [Money(s)]);
      assert StacksIn([Money(s)]) == [s] + [] == [s];
      SumConcat(StacksIn(ts), [s]);
    } else {
      var k := path[0];
      var box := ts[k];
      var box' := box.(items := Insert(box.items, path[1..], Money(s)));
      StacksAfterInsert(box.items, path[1..], s);
      StacksAt(ts, k);
      StacksAt(ts[k := box'], k);
      assert ts[k := box'][..k] == ts[..k] && ts[k := box'][k + 1..] == ts[k + 1..];
    }
  }

  lemma StacksAt(ts: seq<Thing>, k: nat)
    requires k < |ts|
    ensures multiset(StacksIn(ts)) ==
            multiset(StacksIn(ts[..k])) + multiset(StacksOf(ts[k])) + multiset(StacksIn(ts[k + 1..]))
    ensures Cash(ts) == Cash(ts[..k]) + Sum(StacksOf(ts[k])) + Cash(ts[k + 1..])
  {
    SplitAt(ts, k);
    SumConcat(StacksIn(ts[..k]), StacksOf(ts[k]) + StacksIn(ts[k + 1..]));
    SumConcat(StacksOf(ts[k]), StacksIn(ts[k + 1..]));
  }

  lemma SplitAt(ts: seq<Thing>, k: nat)
    requires k < |ts|
    ensures StacksIn(ts) == StacksIn(ts[..k]) + (StacksOf(ts[k]) + StacksIn(ts[k + 1..]))
  {
    assert ts == ts[..k] + ts[k..];
    StacksConcat(ts[..k], ts[k..]);
    assert ts[k..][0] == ts[k] && ts[k..][1..] == ts[k + 1..];
  }

  /** Distinctness depends only on which stacks there are. */
  lemma DistinctAdd(a: seq<Stack>, s: Stack, b: seq<Stack>)
    requires Distinct(a) && (forall x | x in a :: x.uid != s.uid)
    requires multiset(b) == multiset(a) + multiset{s}
    ensures Distinct(b)
  {
    var m, was := multiset(b), multiset(a);
    forall x | x in m ensures m[x] == 1 && (forall y | y in m :: x.uid == y.uid ==> x == y) {
      assert x in was || x == s;
      forall y | y in m ensures x.uid == y.uid ==> x == y {
        assert y in was || y == s;
      }
    }
  }

  lemma DistinctChange(a: seq<Stack>, s: Stack, s': Stack, b: seq<Stack>)
    requires Distinct(a) && s in a && s'.uid == s.uid
    requires multiset(b) == multiset(a) - multiset{s} + multiset{s'}
    ensures Distinct(b)
  {
    var m, was := multiset(b), multiset(a);
    assert s in was && (s' in was ==> s' == s);
    forall x | x in m ensures m[x] == 1 && (forall y | y in m :: x.uid == y.uid ==> x == y) {
      assert x in was || x == s';
      forall y | y in m ensures x.uid == y.uid ==> x == y {
        assert y in was || y == s';
      }
    }
  }
}
