/** Paying with coins and change: the arithmetic of `addMoney` and of the payment loop of `removeMoney`. */
module Payments {
  import opened Basics
  import opened Coins
  import opened Sequences

  const STACK_SIZE := 100

  // ----- Which coins are made ---------------------------------------------------------------

  /** How many coins of each kind a sum of money becomes; the counters are 32-bit, and the
      number of platinum coins passes through 16 bits. */
  function CrystalCount(money: nat): nat {
    money / 10000 % U32
  }

  function PlatinumCount(money: nat): nat {
    (money - 10000 * CrystalCount(money)) / 100 % U32
  }

  function GoldCount(money: nat): nat {
    (money - 10000 * CrystalCount(money) - 100 * PlatinumCount(money)) % U32
  }

  /** The value of the coins that are made. */
  function Minted(money: nat): nat {
    Value(Crystal, CrystalCount(money)) + Value(Platinum, PlatinumCount(money) % U16)
      + Value(Gold, GoldCount(money))
  }

  /** A counter that has wrapped has lost at least one whole turn. */
  lemma Wrapped(n: nat)
    ensures n < U32 ==> n % U32 == n
    ensures n >= U32 ==> n % U32 <= n - U32
  {
  }

  /** The coins are worth the sum exactly as long as the counters suffice. */
  lemma MintsWhatIsOwed(money: nat)
    ensures Minted(money) == 10000 * CrystalCount(money) + 100 * (PlatinumCount(money) % 65536) + GoldCount(money)
    ensures Minted(money) <= money
    ensures Minted(money) == money <==> money < 0x1_0000_0000 * 10000
  {
    var c, p := CrystalCount(money), PlatinumCount(money);
    Wrapped(money / 10000);
    Wrapped((money - 10000 * c) / 100);
    assert p % U16 <= p && p % U16 < U16;
    Wrapped(money - 10000 * c - 100 * p);
  }

  /** No other choice of coins of the same worth takes fewer coins. */
  lemma FewestCoins(money: nat, crystals: nat, platinums: nat, golds: nat)
    requires money < U32 * 10000
    requires 10000 * crystals + 100 * platinums + golds == money
    ensures CrystalCount(money) + PlatinumCount(money) % U16 + GoldCount(money) <= crystals + platinums + golds
  {
    var c := CrystalCount(money);
    assert c == money / 10000 && PlatinumCount(money) == (money - 10000 * c) / 100 < 100;
    var p := PlatinumCount(money);
    assert GoldCount(money) == money - 10000 * c - 100 * p < 100;
    var g := GoldCount(money);
    assert 10000 * crystals + 100 * platinums + golds == 10000 * c + 100 * p + g;
    assert crystals <= c;
  }

  /** `count` coins in full stacks and one stack with the rest. */
  function Pieces(count: nat): seq<nat> {
    if count == 0 then []
    else if count <= STACK_SIZE then [count]
    else [STACK_SIZE] + Pieces(count - STACK_SIZE)
  }

  lemma {:induction false} PiecesAreStacks(count: nat)
    ensures Total(Pieces(count), Itself) == count
    ensures forall n | n in Pieces(count) :: 1 <= n <= 100
    ensures forall i :: 0 <= i < |Pieces(count)| - 1 ==> Pieces(count)[i] == 100
    ensures |Pieces(count)| * 100 < count + 100
  {
    if count > STACK_SIZE {
      PiecesAreStacks(count - STACK_SIZE);
      assert Pieces(count)[1..] == Pieces(count - STACK_SIZE);
    }
  }

  lemma {:induction false} FewestStacks(count: nat, ns: seq<nat>)
    requires Total(ns, Itself) == count && forall i :: 0 <= i < |ns| ==> ns[i] <= 100
    ensures |Pieces(count)| <= |ns|
  {
    PiecesAreStacks(count);
    TotalIsBounded(ns);
  }

  lemma {:induction false} TotalIsBounded(ns: seq<nat>)
    requires forall i :: 0 <= i < |ns| ==> ns[i] <= STACK_SIZE
    ensures Total(ns, Itself) <= |ns| * STACK_SIZE
  {
    if ns != [] {
      TotalIsBounded(ns[1..]);
    }
  }

  /** A stack that is made: its kind and its size. */
  datatype Piece = Piece(coin: Coin, count: nat)

  function PiecesOf(coin: Coin, ns: seq<nat>): seq<Piece> {
    seq(|ns|, i requires 0 <= i < |ns| => Piece(coin, ns[i]))
  }

  /** The stacks that a sum of money becomes, in the order in which they are made. */
  function Made(money: nat): seq<Piece> {
    PiecesOf(Crystal, Pieces(CrystalCount(money)))
      + PiecesOf(Platinum, Pieces(PlatinumCount(money) % U16))
      + PiecesOf(Gold, Pieces(GoldCount(money)))
  }

  // ----- How a sum is paid ------------------------------------------------------------------

  /** The first `whole` stacks go; `take` coins of the next one go and `change` is given back;
      `owed` is left to pay. */
  datatype Payment = Payment(whole: nat, take: nat, change: nat, owed: nat)

  function CeilDiv(a: nat, b: nat): nat
    requires b > 0
  {
    (a + b - 1) / b
  }

  function Pay(fs: seq<Stack>, money: nat): (p: Payment)
    requires forall s | s in fs :: s.count > 0
    ensures p.whole <= |fs| && (p.take > 0 ==> p.whole < |fs| && p.owed == 0)
  {
    if fs == [] || money == 0 then Payment(0, 0, 0, money)
    else
      var s := fs[0];
      if Worth(s) < money then
        var rest := Pay(fs[1..], money - Worth(s));
        rest.(whole := rest.whole + 1)
      else if Worth(s) > money then
        var take := CeilDiv(money, Unit(s.coin));
        Payment(0, take, if Value(s.coin, take) > money then Value(s.coin, take) - money else 0, 0)
      else
        Payment(1, 0, 0, 0)
  }

  /** Cheaper unit first, then smaller total: the order in which money is spent. */
  predicate SpentBefore(a: Stack, b: Stack) {
    if Unit(a.coin) == Unit(b.coin) then Worth(a) < Worth(b) else Unit(a.coin) < Unit(b.coin)
  }

  /** Coins of a cheaper kind come first, and among those of one kind the smaller stacks. */
  ghost predicate Cheapest(fs: seq<Stack>) {
    forall i, j | 0 <= i < j < |fs| ::
      && Unit(fs[i].coin) <= Unit(fs[j].coin)
      && (fs[i].coin == fs[j].coin ==> fs[i].count <= fs[j].count)
  }

  ghost predicate Ordered(fs: seq<Stack>) {
    forall i, j | 0 <= i < j < |fs| :: !SpentBefore(fs[j], fs[i])
  }

  lemma OrderedIsCheapest(fs: seq<Stack>)
    requires Ordered(fs)
    ensures Cheapest(fs)
  {
  }

  lemma BreakOne(s: Stack, money: nat)
    requires 0 < money < Worth(s)
    ensures var take := CeilDiv(money, Unit(s.coin));
            0 < take <= s.count && money <= Value(s.coin, take) < money + Unit(s.coin)
  {
  }

  /** What is taken, less the change, plus what is still owed, is the sum to pay. */
  lemma {:induction false} PayIsExact(fs: seq<Stack>, money: nat)
    requires forall s | s in fs :: s.count > 0
    ensures var p := Pay(fs, money);
            && p.whole <= |fs| && (p.take > 0 ==> p.whole < |fs| && p.take <= fs[p.whole].count && p.owed == 0)
            && Sum(fs[..p.whole]) + (if p.take > 0 then Value(fs[p.whole].coin, p.take) else 0) + p.owed
               == money + p.change
            && (p.take == 0 ==> p.change == 0)
            && p.owed == (if Sum(fs) < money then money - Sum(fs) else 0)
            && (p.owed > 0 ==> p.whole == |fs|)
  {
    var p := Pay(fs, money);
    if fs == [] || money == 0 {
    } else if Worth(fs[0]) < money {
      PayIsExact(fs[1..], money - Worth(fs[0]));
      assert fs[..p.whole][1..] == fs[1..][..p.whole - 1];
      assert p.whole == |fs| ==> fs[..p.whole] == fs;
    } else if Worth(fs[0]) > money {
      BreakOne(fs[0], money);
    } else {
      assert fs[..1] == [fs[0]] && [fs[0]][1..] == [];
    }
  }

  lemma CheaperComesFirst(fs: seq<Stack>, i: nat, j: nat)
    requires Cheapest(fs) && i < |fs| && j < |fs| && Unit(fs[i].coin) < Unit(fs[j].coin)
    ensures i < j
  {
  }

  /** A stack is broken only when all cheaper coins are spent, and the change is less than one of its coins. */
  lemma {:induction false} BreakComesLast(fs: seq<Stack>, money: nat)
    requires (forall s | s in fs :: s.count > 0) && Cheapest(fs) && Pay(fs, money).take > 0
    ensures var p := Pay(fs, money);
            && p.whole < |fs| && p.change < Unit(fs[p.whole].coin)
            && forall s | s in fs && Unit(s.coin) < Unit(fs[p.whole].coin) :: s in fs[..p.whole]
  {
    PayIsExact(fs, money);
    var p := Pay(fs, money);
    ChangeIsSmall(fs, money);
    forall s | s in fs && Unit(s.coin) < Unit(fs[p.whole].coin) ensures s in fs[..p.whole] {
      var i :| 0 <= i < |fs| && fs[i] == s;
      CheaperComesFirst(fs, i, p.whole);
      assert fs[..p.whole][i] == s;
    }
  }

  lemma {:induction false} ChangeIsSmall(fs: seq<Stack>, money: nat)
    requires (forall s | s in fs :: s.count > 0) && Pay(fs, money).take > 0
    ensures Pay(fs, money).whole < |fs| && Pay(fs, money).change < Unit(fs[Pay(fs, money).whole].coin)
  {
    if fs != [] && money > 0 {
      if Worth(fs[0]) < money {
        ChangeIsSmall(fs[1..], money - Worth(fs[0]));
      } else if Worth(fs[0]) > money {
        BreakOne(fs[0], money);
      }
    }
  }
}
