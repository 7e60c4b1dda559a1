/** A cylinder that holds money in nested containers, and a bank account: removing and adding money. */
module Purses {
  import opened Basics
  import opened Sequences
  import opened Coins
  import opened Payments

  /** Where the rest of the program puts a new stack of coins. */
  datatype Where = OnTop(uid: nat) | Inside(path: seq<nat>) | OnGround

  ghost function Size(ts: seq<Thing>): nat {
    if ts == [] then 0 else SizeOf(ts[0]) + Size(ts[1..])
  }

  ghost function SizeOf(t: Thing): nat {
    if t.Box? then 1 + Size(t.items) else 1
  }

  lemma {:induction false} SizeConcat(a: seq<Thing>, b: seq<Thing>)
    ensures Size(a + b) == Size(a) + Size(b)
  {
    if a == [] {
      assert a + b == b;
    } else {
      SizeConcat(a[1..], b);
      assert (a + b)[1..] == a[1..] + b;
    }
  }

  /** The containers among these things. */
  function BoxesIn(ts: seq<Thing>): seq<Thing> {
    if ts == [] then []
    else if ts[0].Box? then [ts[0]] + BoxesIn(ts[1..])
    else BoxesIn(ts[1..])
  }

  /** The money that lies here openly, not in a container. */
  function OpenMoney(ts: seq<Thing>): seq<Stack> {
    if ts == [] then []
    else if ts[0].Money? && Worth(ts[0].stack) != 0 then [ts[0].stack] + OpenMoney(ts[1..])
    else OpenMoney(ts[1..])
  }

  /** What lies openly and what lies in the containers is all there is. */
  lemma {:induction false} OpenAndBoxed(ts: seq<Thing>)
    ensures multiset(StacksIn(ts)) == multiset(OpenMoney(ts)) + multiset(StacksIn(BoxesIn(ts)))
  {
    if ts != [] {
      OpenAndBoxed(ts[1..]);
      var open, boxes := OpenMoney(ts[1..]), BoxesIn(ts[1..]);
      var here := multiset(StacksOf(ts[0]));
      assert multiset(StacksIn(ts)) == here + multiset(StacksIn(ts[1..]));
      Regroup(here, multiset(open), multiset(StacksIn(boxes)));
      OpenOrBoxed(ts);
    }
  }

  lemma OpenOrBoxed(ts: seq<Thing>)
    requires ts != []
    ensures if ts[0].Box? then OpenMoney(ts) == OpenMoney(ts[1..]) &&
                               StacksIn(BoxesIn(ts)) == StacksOf(ts[0]) + StacksIn(BoxesIn(ts[1..]))
            else BoxesIn(ts) == BoxesIn(ts[1..]) &&
                 OpenMoney(ts) == StacksOf(ts[0]) + OpenMoney(ts[1..])
  {
    assert ([ts[0]] + BoxesIn(ts[1..]))[1..] == BoxesIn(ts[1..]);
  }

  lemma {:induction false} OpenMoneyCounts(ts: seq<Thing>)
    ensures forall s | s in OpenMoney(ts) :: s.count > 0
  {
    if ts != [] {
      OpenMoneyCounts(ts[1..]);
    }
  }

  lemma {:induction false} BoxesAreBoxes(ts: seq<Thing>)
    ensures Size(BoxesIn(ts)) <= Size(ts)
    ensures forall b | b in BoxesIn(ts) :: b.Box?
  {
    if ts != [] {
      BoxesAreBoxes(ts[1..]);
      assert ([ts[0]] + BoxesIn(ts[1..]))[1..] == BoxesIn(ts[1..]);
    }
  }

  /** Looking into the next container of the queue: its open money is found, its containers queue up. */
  lemma QueueStep(boxes: seq<Thing>, i: nat)
    requires i < |boxes| && boxes[i].Box?
    ensures var boxes' := boxes + BoxesIn(boxes[i].items);
            && multiset(OpenMoney(boxes[i].items)) + multiset(StacksIn(boxes'[i + 1..]))
               == multiset(StacksIn(boxes[i..]))
            && Size(boxes'[i + 1..]) < Size(boxes[i..])
  {
    var items, tail := boxes[i].items, boxes[i + 1..];
    assert boxes[i..][1..] == tail;
    assert (boxes + BoxesIn(items))[i + 1..] == tail + BoxesIn(items);
    OpenAndBoxed(items);
    BoxesAreBoxes(items);
    StacksConcat(tail, BoxesIn(items));
    SizeConcat(tail, BoxesIn(items));
    assert StacksIn(boxes[i..]) == StacksIn(items) + StacksIn(tail);
  }

  /** One pass over some things: containers are kept for later, money is collected. */
  method VisitAll(items: seq<Thing>, boxes: seq<Thing>, found: seq<Stack>, worth: nat)
    returns (boxes': seq<Thing>, found': seq<Stack>, worth': nat)
    ensures boxes' == boxes + BoxesIn(items) && found' == found + OpenMoney(items)
    ensures worth' == worth + Sum(OpenMoney(items))
  {
    boxes', found', worth' := boxes, found, worth;
    var k := 0;
    while k < |items|
      invariant 0 <= k <= |items|
      invariant boxes' + BoxesIn(items[k..]) == boxes + BoxesIn(items)
      invariant found' + OpenMoney(items[k..]) == found + OpenMoney(items)
      invariant worth' + Sum(OpenMoney(items[k..])) == worth + Sum(OpenMoney(items))
    {
      assert items[k..][1..] == items[k + 1..];
      var t := items[k];
      match t {
        case Box(_, _) =>
          Associative(boxes', [t], BoxesIn(items[k + 1..]));
          boxes' := boxes' + [t];
        case Money(s) =>
          if Worth(s) != 0 {
            assert ([s] + OpenMoney(items[k + 1..]))[1..] == OpenMoney(items[k + 1..]);
            Associative(found', [s], OpenMoney(items[k + 1..]));
            worth' := worth' + Worth(s);
            found' := found' + [s];
          }
        case Other(_) =>
      }
      k := k + 1;
    }
  }

  /** Gathers, breadth first, all the money in these things. */
  method Gather(slots: seq<Thing>) returns (found: seq<Stack>, worth: nat)
    ensures multiset(found) == multiset(StacksIn(slots)) && worth == Sum(found)
    ensures forall s | s in found :: s.count > 0
  {
    var boxes: seq<Thing>;
    boxes, found, worth := VisitAll(slots, [], [], 0);
    OpenAndBoxed(slots);
    OpenMoneyCounts(slots);
    BoxesAreBoxes(slots);
    assert [] + BoxesIn(slots) == BoxesIn(slots) && [] + OpenMoney(slots) == OpenMoney(slots);
    var i := 0;
    assert boxes[0..] == boxes;
    while i < |boxes|
      invariant 0 <= i <= |boxes|
      invariant forall b | b in boxes :: b.Box?
      invariant multiset(found) + multiset(StacksIn(boxes[i..])) == multiset(StacksIn(slots))
      invariant worth == Sum(found) && forall s | s in found :: s.count > 0
      decreases Size(boxes[i..])
    {
      var items := boxes[i].items;
      QueueStep(boxes, i);
      OpenMoneyCounts(items);
      BoxesAreBoxes(items);
      SumConcat(found, OpenMoney(items));
      ghost var left := multiset(StacksIn((boxes + BoxesIn(items))[i + 1..]));
      Regroup(multiset(found), multiset(OpenMoney(items)), left);
      i := i + 1;
      boxes, found, worth := VisitAll(items, boxes, found, worth);
    }
    assert boxes[i..] == [];
  }

  /** `s` put in front of the first stack that is spent after it. */
  function InsertMoney(fs: seq<Stack>, s: Stack): seq<Stack> {
    if fs == [] || SpentBefore(s, fs[0]) then [s] + fs else [fs[0]] + InsertMoney(fs[1..], s)
  }

  lemma {:induction false} InsertMoneyStacks(fs: seq<Stack>, s: Stack)
    ensures multiset(InsertMoney(fs, s)) == multiset(fs) + multiset{s}
  {
    if fs != [] && !SpentBefore(s, fs[0]) {
      InsertMoneyStacks(fs[1..], s);
      assert multiset([fs[0]] + InsertMoney(fs[1..], s)) == multiset{fs[0]} + multiset(InsertMoney(fs[1..], s));
      assert fs == [fs[0]] + fs[1..];
    }
  }

  lemma {:induction false} InsertMoneyOrdered(fs: seq<Stack>, s: Stack)
    requires Ordered(fs)
    ensures Ordered(InsertMoney(fs, s))
  {
    if fs != [] && !SpentBefore(s, fs[0]) {
      var tail := InsertMoney(fs[1..], s);
      InsertMoneyOrdered(fs[1..], s);
      InsertMoneyStacks(fs[1..], s);
      forall i | 0 <= i < |tail| ensures !SpentBefore(tail[i], fs[0]) {
        assert tail[i] in multiset(tail);
        if tail[i] != s {
          assert tail[i] in multiset(fs[1..]);
          var j :| 0 <= j < |fs[1..]| && fs[1..][j] == tail[i];
          assert fs[j + 1] == tail[i];
        }
      }
    }
  }

  /** The library sort, by `SpentBefore`. */
  method SortMoney(found: seq<Stack>) returns (sorted: seq<Stack>)
    ensures multiset(sorted) == multiset(found) && Cheapest(sorted)
  {
    sorted := [];
    var k := 0;
    while k < |found|
      invariant 0 <= k <= |found|
      invariant multiset(sorted) == multiset(found[..k]) && Ordered(sorted)
    {
      InsertMoneyStacks(sorted, found[k]);
      InsertMoneyOrdered(sorted, found[k]);
      assert found[..k + 1] == found[..k] + [found[k]];
      sorted := InsertMoney(sorted, found[k]);
      k := k + 1;
    }
    assert found[..k] == found;
    OrderedIsCheapest(sorted);
  }

  ghost predicate UidsBelow(m: multiset<Stack>, bound: nat) {
    forall s | s in m :: s.uid < bound
  }

  /** Only stacks of this kind of coin differ. */
  ghost predicate SameButFor(m: multiset<Stack>, m': multiset<Stack>, coin: Coin) {
    forall s: Stack | s.coin != coin :: m[s] == m'[s]
  }

  lemma OneChanged(m: multiset<Stack>, s: Stack, s': Stack, m': multiset<Stack>, bound: nat)
    requires m' == m - multiset{s} + multiset{s'} && s in m
    requires s'.uid == s.uid && s'.coin == s.coin && UidsBelow(m, bound)
    ensures SameButFor(m, m', s.coin) && UidsBelow(m', bound)
  {
  }

  lemma OneAdded(m: multiset<Stack>, s: Stack, m': multiset<Stack>, bound: nat)
    requires m' == m + multiset{s} && s.uid < bound && forall x | x in m :: x.uid < bound
    ensures SameButFor(m, m', s.coin) && UidsBelow(m', bound)
  {
  }

  class Purse {
    /** What the cylinder holds, the ground it stands on, and the bank account. */
    var slots: seq<Thing>
    var ground: seq<Thing>
    var bank: nat
    var nextUid: nat

    /** Every stack in the cylinder is an item of its own. */
    ghost predicate Valid()
      reads this`slots, this`nextUid
    {
      Distinct(StacksIn(slots)) && UidsBelow(multiset(StacksIn(slots)), nextUid)
    }

    /** All coins, in the cylinder and on the ground. */
    ghost function AllCash(): nat
      reads this`slots, this`ground
    {
      Cash(slots) + Cash(ground)
    }

    /** The rest of the program takes a new stack: tops up an old one and adds the remainder,
        puts it into some container, or drops it. */
    method PlaceStack(coin: Coin, count: nat, place: Where)
      requires Valid() && 0 < count <= STACK_SIZE
      modifies this`slots, this`ground, this`nextUid
      ensures Valid()
      ensures AllCash() == old(AllCash()) + Value(coin, count)
      ensures SameButFor(old(multiset(StacksIn(slots))), multiset(StacksIn(slots)), coin)
    {
      match place {
        case OnTop(uid) =>
          var found, worth := Gather(slots);
          var k := 0;
          while k < |found| && !(found[k].uid == uid && found[k].coin == coin && found[k].count < STACK_SIZE) {
            k := k + 1;
          }
          var rest := count;
          if k < |found| {
            var n := if count < STACK_SIZE - found[k].count then count else STACK_SIZE - found[k].count;
            assert found[k] in multiset(found);
            TopUpStack(found[k], n);
            rest := count - n;
          }
          if rest > 0 {
            PutStack(coin, rest, []);
          }
        case Inside(path) =>
          PutStack(coin, count, path);
        case OnGround =>
          StacksAfterInsert(ground, [], Stack(nextUid, coin, count));
          ground := Insert(ground, [], Money(Stack(nextUid, coin, count)));
          nextUid := nextUid + 1;
      }
    }

    method TopUpStack(s: Stack, n: nat)
      requires Valid() && s in StacksIn(slots)
      modifies this`slots
      ensures Valid()
      ensures AllCash() == old(AllCash()) + Value(s.coin, n)
      ensures SameButFor(old(multiset(StacksIn(slots))), multiset(StacksIn(slots)), s.coin)
    {
      ghost var fs := StacksIn(slots);
      ghost var s' := TopUpOne(s, s.uid, n);
      StacksAfterTopUp(slots, s.uid, n);
      TopUpStacks(fs, s, n);
      TopUpSum(fs, s, n);
      slots := TopUp(slots, s.uid, n);
      DistinctChange(fs, s, s', StacksIn(slots));
      OneChanged(multiset(fs), s, s', multiset(StacksIn(slots)), nextUid);
    }

    method PutStack(coin: Coin, count: nat, path: seq<nat>)
      requires Valid() && count > 0
      modifies this`slots, this`nextUid
      ensures Valid()
      ensures AllCash() == old(AllCash()) + Value(coin, count)
      ensures SameButFor(old(multiset(StacksIn(slots))), multiset(StacksIn(slots)), coin)
    {
      var s := Stack(nextUid, coin, count);
      ghost var fs := StacksIn(slots);
      StacksAfterInsert(slots, path, s);
      slots := Insert(slots, path, Money(s));
      nextUid := nextUid + 1;
      DistinctAdd(fs, s, StacksIn(slots));
      OneAdded(multiset(fs), s, multiset(StacksIn(slots)), nextUid);
    }

    /** Makes `count` coins of a kind in stacks of at most a hundred. */
    method AddCoins(coin: Coin, count: nat, places: seq<Where>) returns (made: seq<Piece>, left: seq<Where>)
      requires Valid()
      modifies this`slots, this`ground, this`nextUid
      ensures Valid() && made == PiecesOf(coin, Pieces(count))
      ensures AllCash() == old(AllCash()) + Value(coin, count)
      ensures SameButFor(old(multiset(StacksIn(slots))), multiset(StacksIn(slots)), coin)
      ensures count == 0 ==> multiset(StacksIn(slots)) == old(multiset(StacksIn(slots)))
    {
      hide AllCash, Valid, Value, SameButFor, StacksIn;
      SameButForSelf(multiset(StacksIn(slots)), coin);
      ValueSplit(coin, 0, 0);
      left := places;
      var sizes: seq<nat>, toMake := [], count;
      while toMake > 0
        invariant 0 <= toMake <= count && Valid()
        invariant sizes + Pieces(toMake) == Pieces(count)
        invariant AllCash() + Value(coin, toMake) == old(AllCash()) + Value(coin, count)
        invariant SameButFor(old(multiset(StacksIn(slots))), multiset(StacksIn(slots)), coin)
        invariant count == 0 ==> multiset(StacksIn(slots)) == old(multiset(StacksIn(slots)))
      {
        var createCount := if toMake < STACK_SIZE then toMake else STACK_SIZE;
        ghost var was := multiset(StacksIn(slots));
        PlaceStack(coin, createCount, if left == [] then Inside([]) else left[0]);
        SameTwice(old(multiset(StacksIn(slots))), was, multiset(StacksIn(slots)), coin);
        left := if left == [] then [] else left[1..];
        Associative(sizes, [createCount], Pieces(toMake - createCount));
        ValueSplit(coin, createCount, toMake - createCount);
        sizes := sizes + [createCount];
        toMake := toMake - createCount;
      }
      assert sizes + [] == sizes;
      made := PiecesOf(coin, sizes);
    }

    /** Adds money as coins. */
    method AddMoney(money: nat, places: seq<Where>) returns (made: seq<Piece>)
      requires Valid()
      modifies this`slots, this`ground, this`nextUid
      ensures Valid() && made == Made(money)
      ensures AllCash() == old(AllCash()) + Minted(money)
      ensures SameAbove(old(multiset(StacksIn(slots))), multiset(StacksIn(slots)), money)
    {
      hide Pieces, AllCash, Valid, Value, SameButFor, SameAbove, StacksIn;
      if money == 0 {
        NothingMade();
        return [];
      }
      ghost var m0 := multiset(StacksIn(slots));
      var crystalCoins := money / 10000 % U32;
      var owed := money - crystalCoins * 10000;
      var crystals, left := AddCoins(Crystal, crystalCoins, places);
      ghost var m1 := multiset(StacksIn(slots));
      var platinumCoins := owed / 100 % U32;
      owed := owed - platinumCoins * 100;
      var platinums;
      platinums, left := AddCoins(Platinum, platinumCoins % U16, left);
      ghost var m2 := multiset(StacksIn(slots));
      var golds;
      golds, left := AddCoins(Gold, owed % U32, left);
      made := crystals + platinums + golds;
      AffordableKinds(money);
      SameAboveAll(m0, m1, m2, multiset(StacksIn(slots)), money);
    }

    /** Removes `n` coins of a stack, or the stack. */
    method RemoveItem(s: Stack, n: nat)
      requires Valid() && s in StacksIn(slots) && 0 < n <= s.count
      modifies this`slots
      ensures Valid()
      ensures multiset(StacksIn(slots)) == old(multiset(StacksIn(slots))) - multiset{s} + LeftOver(s, n)
      ensures AllCash() + Value(s.coin, n) == old(AllCash())
    {
      hide Distinct, UidsBelow, LeftOver, Value;
      ghost var fs := StacksIn(slots);
      StacksAfterTake(slots, s.uid, n);
      TakeFlatEffect(fs, s, n);
      DistinctAfterTake(fs, s, n);
      slots := Take(slots, s.uid, n);
      TakenUids(multiset(fs), s, n, multiset(StacksIn(slots)), nextUid);
    }

    /** Breaks the stack `s` to pay `money`: the change is given first, then the coins are taken. */
    method BreakStack(s: Stack, money: nat, places: seq<Where>)
      requires Valid() && s in StacksIn(slots) && 0 < money < Worth(s)
      modifies this`slots, this`ground, this`nextUid
      ensures Valid()
      ensures AllCash() + money == old(AllCash())
      ensures var take := CeilDiv(money, Unit(s.coin));
              SameAbove(old(multiset(StacksIn(slots))) - multiset{s} + LeftOver(s, take),
                        multiset(StacksIn(slots)), Value(s.coin, take) - money)
    {
      hide AllCash, Valid, StacksIn, SameAbove, LeftOver, Value, Worth, Minted;
      BreakOne(s, money);
      var removeCount := CeilDiv(money, Unit(s.coin));
      var change := Value(s.coin, removeCount) - money;
      MintsWhatIsOwed(change);
      ghost var m0 := multiset(StacksIn(slots));
      assert s in m0;
      var made := AddMoney(change, places);
      ghost var m1 := multiset(StacksIn(slots));
      CostlyStackStays(m0, m1, s, change);
      assert s in m1;
      RemoveItem(s, removeCount);
      SameAboveTaken(m0, m1, s, removeCount, change);
    }

    /** Spends the stacks in the order given until `money` is paid; returns what the cash does not cover. */
    method PayCash(fs: seq<Stack>, money: nat, places: seq<Where>) returns (owed: nat)
      requires Valid() && multiset(fs) == multiset(StacksIn(slots)) && money > 0
      requires forall s | s in fs :: s.count > 0
      modifies this`slots, this`ground, this`nextUid
      ensures Valid()
      ensures AllCash() + money == old(AllCash()) + owed
      ensures owed == Pay(fs, money).owed
      ensures SameAbove(Kept(fs, Pay(fs, money)), multiset(StacksIn(slots)), Pay(fs, money).change)
    {
      hide AllCash, Valid, StacksIn, SameAbove, LeftOver, Value, Worth, Kept, CeilDiv, Unit;
      owed := money;
      var i := 0;
      assert fs[0..] == fs;
      while i < |fs|
        invariant 0 <= i <= |fs| && owed > 0 && Valid()
        invariant multiset(StacksIn(slots)) == multiset(fs[i..])
        invariant AllCash() + money == old(AllCash()) + owed
        invariant PaidUpTo(fs, money, i, owed)
      {
        var s := fs[i];
        NextStack(fs, i);
        UnitTimes(s, s.count);
        SpendWhole(fs, money, i, owed);
        if Worth(s) < owed {
          RemoveItem(s, s.count);
          owed := owed - Worth(s);
        } else if Worth(s) > owed {
          SpendPart(fs, money, i, owed);
          BreakStack(s, owed, places);
          return 0;
        } else {
          RemoveItem(s, s.count);
          SameAboveSelf(multiset(StacksIn(slots)));
          return 0;
        }
        i := i + 1;
      }
      assert fs[i..] == [];
      KeptNothing(fs, Pay(fs, money));
      SameAboveSelf(multiset(StacksIn(slots)));
    }

    /** Pays `money` out of the cash and, if asked to, out of the player's bank account.
        `fs` is the order in which the stacks were offered. */
    method RemoveMoney(money: nat, isPlayer: bool, useBalance: bool, places: seq<Where>)
      returns (ok: bool, ghost fs: seq<Stack>)
      requires Valid()
      modifies this
      ensures Valid()
      ensures ok <==> money <= old(Cash(slots)) + if useBalance && isPlayer then old(bank) else 0
      ensures !ok || money == 0 ==> slots == old(slots) && ground == old(ground) && bank == old(bank)
      // Cash, wherever the change was put, and balance together fall by exactly the sum.
      ensures ok ==> AllCash() + bank == old(AllCash()) + old(bank) - money
      // The stacks are spent cheapest first and the bank pays only what they do not cover.
      ensures multiset(fs) == old(multiset(StacksIn(slots))) && Cheapest(fs) && forall s | s in fs :: s.count > 0
      ensures ok ==> bank == old(bank) - Pay(fs, money).owed
      ensures ok ==> SameAbove(Kept(fs, Pay(fs, money)), multiset(StacksIn(slots)), Pay(fs, money).change)
    {
      hide Valid, StacksIn, SameAbove, Kept, Pay;
      var moneyItems, moneyCount := Gather(slots);
      var sorted := SortMoney(moneyItems);
      fs := sorted;
      SumOfPermutation(moneyItems, StacksIn(slots));
      SumOfPermutation(sorted, StacksIn(slots));
      CountsKept(moneyItems, sorted);
      PayIsExact(sorted, money);
      if money == 0 {
        NothingTaken(sorted);
        SameAboveSelf(multiset(StacksIn(slots)));
        return true, fs;
      }
      var balance := if useBalance && isPlayer then bank else 0;
      if moneyCount + balance < money {
        return false, fs;
      }
      var owed := PayCash(sorted, money, places);
      if owed > 0 {
        assert useBalance && isPlayer && bank >= owed;
        if useBalance && isPlayer && bank >= owed {
          bank := bank - owed;
        }
      }
      return true, fs;
    }
  }

  /** Where a payment stands once the first `i` stacks are spent. */
  ghost predicate PaidUpTo(fs: seq<Stack>, money: nat, i: nat, owed: nat)
    requires i <= |fs| && forall s | s in fs :: s.count > 0
  {
    var q := Pay(fs[i..], owed);
    Pay(fs, money) == Payment(i + q.whole, q.take, q.change, q.owed)
  }

  lemma NextStack(fs: seq<Stack>, i: nat)
    requires i < |fs| && forall s | s in fs :: s.count > 0
    ensures fs[i..][0] == fs[i] && fs[i..][1..] == fs[i + 1..] && fs[i].count > 0
    ensures fs[i] in multiset(fs[i..])
    ensures multiset(fs[i..]) - multiset{fs[i]} + LeftOver(fs[i], fs[i].count) == multiset(fs[i + 1..])
  {
    assert fs[i..] == [fs[i]] + fs[i + 1..];
    assert fs[i] in fs;
  }

  lemma SpendWhole(fs: seq<Stack>, money: nat, i: nat, owed: nat)
    requires i < |fs| && owed > 0 && (forall s | s in fs :: s.count > 0) && PaidUpTo(fs, money, i, owed)
    ensures Worth(fs[i]) < owed ==> PaidUpTo(fs, money, i + 1, owed - Worth(fs[i]))
    ensures Worth(fs[i]) == owed ==> Pay(fs, money) == Payment(i + 1, 0, 0, 0) &&
                                     Kept(fs, Pay(fs, money)) == multiset(fs[i + 1..])
  {
    NextStack(fs, i);
  }

  lemma SpendPart(fs: seq<Stack>, money: nat, i: nat, owed: nat)
    requires i < |fs| && owed > 0 && (forall s | s in fs :: s.count > 0) && PaidUpTo(fs, money, i, owed)
    requires Worth(fs[i]) > owed
    ensures var s := fs[i]; var take := CeilDiv(owed, Unit(s.coin));
            && Value(s.coin, take) >= owed
            && Pay(fs, money) == Payment(i, take, Value(s.coin, take) - owed, 0)
            && Kept(fs, Pay(fs, money)) == multiset(fs[i..]) - multiset{s} + LeftOver(s, take)
  {
    hide LeftOver, Value, Worth;
    SpendPartIs(fs, money, i, owed);
    KeptPart(fs, i);
  }

  lemma SpendPartIs(fs: seq<Stack>, money: nat, i: nat, owed: nat)
    requires i < |fs| && owed > 0 && (forall s | s in fs :: s.count > 0) && PaidUpTo(fs, money, i, owed)
    requires Worth(fs[i]) > owed
    ensures var s := fs[i]; var take := CeilDiv(owed, Unit(s.coin));
            && Value(s.coin, take) >= owed && take > 0
            && Pay(fs, money) == Payment(i, take, Value(s.coin, take) - owed, 0)
  {
    hide LeftOver, Value, Worth;
    NextStack(fs, i);
    BreakOne(fs[i], owed);
  }

  lemma KeptNothing(fs: seq<Stack>, p: Payment)
    requires p.whole == |fs| && p.take == 0
    ensures Kept(fs, p) == multiset{}
  {
  }

  lemma KeptPart(fs: seq<Stack>, i: nat)
    requires i < |fs|
    ensures multiset(fs[i..]) - multiset{fs[i]} == multiset(fs[i + 1..])
  {
    assert fs[i..] == [fs[i]] + fs[i + 1..];
  }

  lemma CostlyStackStays(m0: multiset<Stack>, m1: multiset<Stack>, s: Stack, money: nat)
    requires SameAbove(m0, m1, money) && Unit(s.coin) > money
    ensures m0[s] == m1[s]
  {
  }

  lemma SameAboveTaken(m0: multiset<Stack>, m1: multiset<Stack>, s: Stack, n: nat, money: nat)
    requires SameAbove(m0, m1, money)
    ensures SameAbove(m0 - multiset{s} + LeftOver(s, n), m1 - multiset{s} + LeftOver(s, n), money)
  {
  }

  lemma SameAboveSelf(m: multiset<Stack>)
    ensures SameAbove(m, m, 0)
  {
  }

  /** What is left of the stacks `fs` after a payment, apart from the change. */
  ghost function Kept(fs: seq<Stack>, p: Payment): multiset<Stack>
    requires p.whole <= |fs| && (p.take > 0 ==> p.whole < |fs|)
  {
    if p.take > 0 then multiset(fs[p.whole + 1..]) + LeftOver(fs[p.whole], p.take)
    else multiset(fs[p.whole..])
  }

  lemma TakenUids(m: multiset<Stack>, s: Stack, n: nat, m': multiset<Stack>, bound: nat)
    requires m' == m - multiset{s} + LeftOver(s, n) && s in m && UidsBelow(m, bound)
    ensures UidsBelow(m', bound)
  {
  }

  lemma CountsKept(a: seq<Stack>, b: seq<Stack>)
    requires multiset(a) == multiset(b) && forall s | s in a :: s.count > 0
    ensures forall s | s in b :: s.count > 0
  {
    forall s | s in b ensures s.count > 0 {
      assert s in multiset(b);
      assert s in multiset(a);
    }
  }

  lemma NothingTaken(fs: seq<Stack>)
    requires forall s | s in fs :: s.count > 0
    ensures Kept(fs, Pay(fs, 0)) == multiset(fs) && Pay(fs, 0) == Payment(0, 0, 0, 0)
  {
    assert fs[0..] == fs;
  }

  lemma ValueSplit(coin: Coin, a: nat, b: nat)
    ensures Value(coin, a + b) == Value(coin, a) + Value(coin, b) && Value(coin, 0) == 0
  {
  }

  lemma SameButForSelf(m: multiset<Stack>, coin: Coin)
    ensures SameButFor(m, m, coin)
  {
  }

  lemma NothingMade()
    ensures Made(0) == [] && Minted(0) == 0
    ensures forall m: multiset<Stack> :: SameAbove(m, m, 0)
  {
  }

  /** A kind is made only of money that buys at least one coin of it. */
  lemma AffordableKinds(money: nat)
    ensures CrystalCount(money) > 0 ==> Unit(Crystal) <= money
    ensures PlatinumCount(money) > 0 ==> Unit(Platinum) <= money
  {
  }

  lemma SameAboveAll(m0: multiset<Stack>, m1: multiset<Stack>, m2: multiset<Stack>, m3: multiset<Stack>, money: nat)
    requires SameButFor(m0, m1, Crystal) && (m0 == m1 || Unit(Crystal) <= money)
    requires SameButFor(m1, m2, Platinum) && (m1 == m2 || Unit(Platinum) <= money)
    requires SameButFor(m2, m3, Gold) && (m2 == m3 || Unit(Gold) <= money)
    ensures SameAbove(m0, m3, money)
  {
    forall s: Stack | Unit(s.coin) > money ensures m0[s] == m3[s] {
      assert s.coin != Crystal ==> m0[s] == m1[s];
      assert s.coin != Platinum ==> m1[s] == m2[s];
      assert s.coin != Gold ==> m2[s] == m3[s];
    }
  }

  lemma SameTwice(a: multiset<Stack>, b: multiset<Stack>, c: multiset<Stack>, coin: Coin)
    requires SameButFor(a, b, coin) && SameButFor(b, c, coin)
    ensures SameButFor(a, c, coin)
  {
  }

  /** Stacks of coins that are each worth more than `money` are as they were. */
  ghost predicate SameAbove(m: multiset<Stack>, m': multiset<Stack>, money: nat) {
    forall s: Stack | Unit(s.coin) > money :: m[s] == m'[s]
  }
}
