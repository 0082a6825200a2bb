/** Paying and giving change (engine/src/game.cpp: removeMoney, addMoney; engine/src/item.cpp:
    getWorth and the item constructor).

    A purse holds the coins that a search of a player's slots and containers finds, the coins
    dropped on the tile, and the bank balance.  Whether a new stack of coins finds room is an
    input.  Adding a stack to a container keeps its worth (module ItemMoves), so stacks are
    not merged here; removing coins does not fail. */
module Money {
  import opened Common

  datatype Coin = Gold | Platinum | Crystal {
    function Unit(): nat {
      match this
      case Gold => 1
      case Platinum => 100
      case Crystal => 10000
    }
  }

  // A count is stored in one byte.
  datatype Stack = Stack(coin: Coin, count: byte) {
    // Item::getWorth.
    function Worth(): nat {
      match coin
      case Gold => count
      case Platinum => count * 100
      case Crystal => count * 10000
    }
  }

  ghost function Pick(coins: multiset<Stack>): Stack
    requires coins != multiset{}
  {
    var s :| s in coins;
    s
  }

  ghost function Worth(coins: multiset<Stack>): nat {
    if coins == multiset{} then 0
    else Pick(coins).Worth() + Worth(coins - multiset{Pick(coins)})
  }

  lemma {:induction false} WorthWithout(coins: multiset<Stack>, s: Stack)
    requires s in coins
    ensures Worth(coins) == s.Worth() + Worth(coins - multiset{s})
    decreases coins
  {
    var t := Pick(coins);
    if t != s {
      var withoutT, withoutS := coins - multiset{t}, coins - multiset{s};
      var rest := withoutT - multiset{s};
      assert rest == withoutS - multiset{t};
      WorthWithout(withoutT, s);
      WorthWithout(withoutS, t);
    }
  }

  lemma WorthWith(coins: multiset<Stack>, s: Stack)
    ensures Worth(coins + multiset{s}) == Worth(coins) + s.Worth()
  {
    WorthWithout(coins + multiset{s}, s);
    assert coins + multiset{s} - multiset{s} == coins;
  }

  function SumWorth(stacks: seq<Stack>): nat {
    if stacks == [] then 0 else stacks[0].Worth() + SumWorth(stacks[1..])
  }

  lemma {:induction false} WorthOfSeq(stacks: seq<Stack>)
    ensures Worth(multiset(stacks)) == SumWorth(stacks)
  {
    if stacks != [] {
      WorthOfSeq(stacks[1..]);
      assert stacks == [stacks[0]] + stacks[1..];
      assert multiset(stacks) == multiset(stacks[1..]) + multiset{stacks[0]};
      WorthWith(multiset(stacks[1..]), stacks[0]);
    }
  }

  // ----- Giving ----------------------------------------------------------------------------

  function Uint16(x: nat): nat {
    x % 65536
  }

  function Uint32(x: nat): nat {
    x % 0x1_0000_0000
  }

  // The count that a new stack of coins gets: an empty one is made a single coin, and only
  // one byte of the count is kept.
  function NewCount(count: nat): byte {
    (if Uint16(count) == 0 then 1 else Uint16(count)) % 256
  }

  // The crystal coins, and what the code takes to be left of the money after them.
  function Crystals(money: nat): nat {
    Uint32(money / 10000)
  }

  function AfterCrystals(money: nat): nat {
    money - Uint32(Crystals(money) * 10000)
  }

  // The worth of the platinum and gold coins made for what is left.
  function CreatedSmall(left: nat): nat {
    var platinums := Uint16(left / 100);
    (if platinums != 0 then NewCount(platinums) * 100 else 0)
    + (if left != platinums * 100 then NewCount(left - platinums * 100) else 0)
  }

  /** The worth of the coins that addMoney makes. */
  function Created(money: nat): nat {
    Crystals(money) * 10000 + CreatedSmall(AfterCrystals(money))
  }

  lemma SmallIsExact(money: nat)
    requires money < 4_294_970_000
    ensures Created(money) == money
  {
    var q, r := money / 10000, money % 10000;
    assert Crystals(money) == q && Uint32(q * 10000) == q * 10000;
    assert AfterCrystals(money) == r;
    SmallChange(r);
  }

  // Less than a crystal coin, in platinum and gold.
  lemma SmallChange(r: nat)
    requires r < 10000
    ensures CreatedSmall(r) == r
  {
    var platinums, gold := r / 100, r % 100;
    assert r - platinums * 100 == gold && Uint16(platinums) == platinums;
    SmallCount(platinums);
    SmallCount(gold);
  }

  lemma SmallCount(count: nat)
    requires count < 100
    ensures count != 0 ==> NewCount(count) == count
  {
  }

  // How often the worth of the crystal coins exceeds 32 bits.
  function Turns(money: nat): nat {
    (money / 10000 * 10000) / 0x1_0000_0000
  }

  // Each time, so much is given again in platinum and gold.
  lemma TurnsAreLeft(money: nat)
    requires money < 42_949_672_960_000
    ensures Crystals(money) == money / 10000
    ensures AfterCrystals(money) == money % 10000 + Turns(money) * 0x1_0000_0000
  {
    assert Uint32(money / 10000 * 10000) == money / 10000 * 10000 - Turns(money) * 0x1_0000_0000;
  }

  // The platinum and gold coins for a large rest: hardly more than the bytes that are kept.
  lemma LargeRest(left: nat)
    requires left >= 0x1_0000_0000
    ensures var platinums := left / 100 % 65536;
            CreatedSmall(left) == (if platinums == 0 then 0 else NewCount(platinums) * 100)
                                  + if left % 100 == 0 then 1 else left % 100
  {
    var platinums, k := left / 100 % 65536, left / 100 / 65536;
    assert left == (k * 65536 + platinums) * 100 + left % 100;
    assert left - platinums * 100 == (k * 100) * 65536 + left % 100;
    assert Uint16(left - platinums * 100) == left % 100;
  }

  // A turn is 42949672 times 100 and 96.
  lemma TurnParts(turns: nat, wrapped: nat)
    requires wrapped == turns * 0x1_0000_0000
    ensures wrapped % 100 == 0 <==> turns % 25 == 0
    ensures wrapped % 2 == 0
  {
    var q, e := turns / 25, turns % 25;
    var hundreds := 1073741824 * q + 42949672 * e;
    assert wrapped == 100 * hundreds + 96 * e == 2 * (50 * hundreds + 48 * e);
    AddMultiple(100, hundreds, 96 * e);
    AddMultiple(2, 50 * hundreds + 48 * e, 0);
    PartOfTurns(e);
  }

  lemma AddMultiple(d: nat, k: nat, x: nat)
    requires d > 0
    ensures (d * k + x) % d == x % d
  {
    var q, r := x / d, x % d;
    DivModIs(d * k + x, d, k + q, r);
  }

  lemma PartOfTurns(e: nat)
    requires e < 25
    ensures (96 * e) % 100 == 0 <==> e == 0
  {
  }

  lemma TwentyFiveTurns(turns: nat, wrapped: nat)
    requires wrapped == turns * 0x1_0000_0000 && turns % 25 == 0
    ensures wrapped % 100 == 0 && wrapped / 100 % 65536 == 0
  {
    var q := turns / 25;
    assert wrapped == 100 * (q * 1073741824);
    assert wrapped / 100 == (q * 16384) * 65536;
  }

  lemma SmallAfterTurns(r: nat, turns: nat)
    requires r < 10000 && turns > 0
    ensures CreatedSmall(r + turns * 0x1_0000_0000) == r <==> turns % 25 == 0 && r % 100 != 0
  {
    var wrapped := turns * 0x1_0000_0000;
    LargeRest(r + wrapped);
    TurnParts(turns, wrapped);
    if turns % 25 == 0 {
      TwentyFiveTurns(turns, wrapped);
      SmallAfterWhole(r, wrapped);
    } else {
      OtherRest(r, wrapped);
      EndsIn(r, wrapped);
    }
  }

  // The platinum coins come out right, and so does the gold unless there should be none.
  lemma SmallAfterWhole(r: nat, wrapped: nat)
    requires r < 10000 && wrapped >= 0x1_0000_0000 && wrapped % 100 == 0 && wrapped / 100 % 65536 == 0
    ensures CreatedSmall(r + wrapped) == r <==> r % 100 != 0
  {
    LargeRest(r + wrapped);
    assert (r + wrapped) / 100 == wrapped / 100 + r / 100 && (r + wrapped) % 100 == r % 100;
    assert (wrapped / 100 + r / 100) % 65536 == r / 100;
  }

  // The last two digits are those of the gold coins.
  lemma EndsIn(r: nat, wrapped: nat)
    requires r < 10000 && wrapped >= 0x1_0000_0000
    ensures CreatedSmall(r + wrapped) == r ==> r % 100 == if (r + wrapped) % 100 == 0 then 1 else (r + wrapped) % 100
  {
    LargeRest(r + wrapped);
    var platinums := (r + wrapped) / 100 % 65536;
    var gold := if (r + wrapped) % 100 == 0 then 1 else (r + wrapped) % 100;
    var worth := if platinums == 0 then 0 else NewCount(platinums);
    assert CreatedSmall(r + wrapped) == worth * 100 + gold;
  }

  // Then the gold coins do not make up the last two digits.
  lemma OtherRest(r: nat, wrapped: nat)
    requires wrapped % 100 != 0 && wrapped % 2 == 0
    ensures (if (r + wrapped) % 100 == 0 then 1 else (r + wrapped) % 100) != r % 100
  {
  }

  lemma CreatedAfterTurns(money: nat, q: nat, r: nat, turns: nat)
    requires 4_294_970_000 <= money < 42_949_672_960_000 && turns == Turns(money)
    requires q == money / 10000 && r == money % 10000
    ensures Created(money) == money <==> turns % 25 == 0 && money % 100 != 0
  {
    CreatedParts(money);
    LastDigits(money);
    SmallAfterTurns(r, turns);
  }

  lemma CreatedParts(money: nat)
    requires 4_294_970_000 <= money < 42_949_672_960_000
    ensures Turns(money) > 0
    ensures Created(money) == money / 10000 * 10000 + CreatedSmall(money % 10000 + Turns(money) * 0x1_0000_0000)
  {
    TurnsAreLeft(money);
  }

  lemma LastDigits(money: nat)
    ensures money == money / 10000 * 10000 + money % 10000 && money % 10000 % 100 == money % 100
  {
    assert money == (money / 10000 * 100 + money % 10000 / 100) * 100 + money % 10000 % 100;
  }

  lemma TooManyCrystals(money: nat)
    requires money >= 42_949_672_960_000
    ensures Created(money) < money
  {
    var k := money / 10000;
    assert Crystals(money) == k - (k / 0x1_0000_0000) * 0x1_0000_0000 <= k - 0x1_0000_0000;
  }

  /** The coins made are worth the money as long as the worth of the crystal coins fits 32 bits.
      Beyond that they are only where it exceeds them a multiple of 25 times, the amount does not
      end in 00, and the number of crystal coins still fits 32 bits. */
  lemma CreatedExactIff(money: nat)
    ensures Created(money) == money <==>
              || money < 4_294_970_000
              || (money < 42_949_672_960_000 && Turns(money) % 25 == 0 && money % 100 != 0)
  {
    if money < 4_294_970_000 {
      SmallIsExact(money);
    } else if money < 42_949_672_960_000 {
      CreatedAfterTurns(money, money / 10000, money % 10000, Turns(money));
    } else {
      TooManyCrystals(money);
    }
  }

  // ----- Paying ----------------------------------------------------------------------------

  predicate Ascending(stacks: seq<Stack>) {
    forall i, j :: 0 <= i < j < |stacks| ==> stacks[i].Worth() <= stacks[j].Worth()
  }

  /** What is still to pay when paying with the smallest stacks first comes to a stack that
      covers it; zero when the stacks are used up. */
  function LastChunk(stacks: seq<Stack>, money: nat): nat {
    if stacks == [] then 0
    else if stacks[0].Worth() < money then LastChunk(stacks[1..], money - stacks[0].Worth())
    else money
  }

  // What the loop over the coins leaves in the money still to pay.
  function LeftToPay(sorted: seq<Stack>, amount: nat): nat {
    if SumWorth(sorted) < amount then amount - SumWorth(sorted) else LastChunk(sorted, amount)
  }

  /** What the bank is charged: what the coins do not cover, or else the last chunk, paid in
      coins already, if the balance can bear it. */
  function BankCharge(sorted: seq<Stack>, amount: nat, useBalance: bool, bank: nat): nat {
    if useBalance && bank >= LeftToPay(sorted, amount) then LeftToPay(sorted, amount) else 0
  }

  lemma NextStack(stacks: seq<Stack>, k: nat, money: nat)
    requires k < |stacks|
    ensures stacks[k..] == [stacks[k]] + stacks[k + 1..]
    ensures SumWorth(stacks[k..]) == stacks[k].Worth() + SumWorth(stacks[k + 1..])
    ensures SumWorth(stacks[..k + 1]) == SumWorth(stacks[..k]) + stacks[k].Worth()
    ensures LastChunk(stacks[k..], money) ==
            if stacks[k].Worth() < money then LastChunk(stacks[k + 1..], money - stacks[k].Worth()) else money
  {
    assert stacks[k..][1..] == stacks[k + 1..] && stacks[..k + 1] == stacks[..k] + [stacks[k]];
    SumWorthSnoc(stacks[..k], stacks[k]);
  }

  /** Of the stacks paid with from the front, the one at k is the first to cover the amount. */
  predicate Covers(stacks: seq<Stack>, k: nat, amount: nat) {
    k < |stacks| && SumWorth(stacks[..k]) < amount <= SumWorth(stacks[..k + 1])
  }

  /** Smallest first, the stack at k covers the amount, this was left of it then, and those
      behind it are still among the coins. */
  ghost predicate PaidAt(stacks: seq<Stack>, k: nat, amount: nat, left: nat, coins: multiset<Stack>) {
    && Covers(stacks, k, amount) && left == amount - SumWorth(stacks[..k])
    && multiset(stacks[k + 1..]) <= coins
  }

  lemma {:induction false} LastChunkIs(sorted: seq<Stack>, amount: nat)
    requires 0 < amount <= SumWorth(sorted)
    ensures 0 < LastChunk(sorted, amount) <= amount
  {
    if sorted[0].Worth() < amount {
      LastChunkIs(sorted[1..], amount - sorted[0].Worth());
    }
  }

  /** A payment that is covered costs, in coins and bank money together, exactly the amount
      unless the coins alone cover it, the balance is in use, and it can bear the last chunk
      once more. */
  lemma ChargedExactIff(sorted: seq<Stack>, amount: nat, useBalance: bool, bank: nat)
    requires 0 < amount <= SumWorth(sorted) + if useBalance then bank else 0
    ensures Min(amount, SumWorth(sorted)) + BankCharge(sorted, amount, useBalance, bank) == amount
            <==> !useBalance || SumWorth(sorted) < amount || bank < LastChunk(sorted, amount)
    ensures BankCharge(sorted, amount, useBalance, bank) <= bank
  {
    if SumWorth(sorted) >= amount {
      LastChunkIs(sorted, amount);
    }
  }

  /** With the balance in use, a bank account of at least the amount, and coins enough, the
      payer always pays too much. */
  lemma RichPayTwice(sorted: seq<Stack>, amount: nat, bank: nat)
    requires 0 < amount <= SumWorth(sorted) && bank >= amount
    ensures Min(amount, SumWorth(sorted)) + BankCharge(sorted, amount, true, bank) > amount
  {
    LastChunkIs(sorted, amount);
  }

  // ----- Sorting the coins -------------------------------------------------------------------

  // Where the entries worth more than this begin.
  function UpperBound(entries: seq<Stack>, worth: nat): (r: nat)
    ensures r <= |entries|
  {
    if entries == [] || entries[|entries| - 1].Worth() <= worth then |entries|
    else UpperBound(entries[..|entries| - 1], worth)
  }

  lemma {:induction false} UpperBoundIs(entries: seq<Stack>, worth: nat)
    ensures var k := UpperBound(entries, worth);
            (k > 0 ==> entries[k - 1].Worth() <= worth) && (k < |entries| ==> entries[k].Worth() > worth)
  {
    if entries != [] && entries[|entries| - 1].Worth() > worth {
      UpperBoundIs(entries[..|entries| - 1], worth);
    }
  }

  function Inserted(entries: seq<Stack>, s: Stack, i: nat): seq<Stack>
    requires i <= |entries|
  {
    entries[..i] + [s] + entries[i..]
  }

  /** The stacks that are worth something, the smallest first, those of one worth in the order
      they were found. */
  function Sorted(found: seq<Stack>): seq<Stack> {
    if found == [] then []
    else
      var front, s := Sorted(found[..|found| - 1]), found[|found| - 1];
      if s.Worth() == 0 then front else Inserted(front, s, UpperBound(front, s.Worth()))
  }

  lemma SortedNext(sorted: seq<Stack>, s: Stack)
    requires Ascending(sorted)
    ensures var longer := Inserted(sorted, s, UpperBound(sorted, s.Worth()));
            Ascending(longer) && SumWorth(longer) == SumWorth(sorted) + s.Worth()
                && multiset(longer) == multiset(sorted) + multiset{s}
  {
    var k := UpperBound(sorted, s.Worth());
    UpperBoundIs(sorted, s.Worth());
    InsertedAscending(sorted, s, k);
    InsertedIs(sorted, s, k);
  }

  lemma SumWorthSnoc(front: seq<Stack>, s: Stack)
    ensures SumWorth(front + [s]) == SumWorth(front) + s.Worth()
  {
    SumWorthAdd(front, s, []);
    assert front + [s] + [] == front + [s] && front + [] == front;
  }

  lemma {:induction false} SortedIs(found: seq<Stack>)
    ensures Ascending(Sorted(found)) && SumWorth(Sorted(found)) == SumWorth(found)
    ensures multiset(Sorted(found)) <= multiset(found)
  {
    if found != [] {
      var front, s := found[..|found| - 1], found[|found| - 1];
      SortedIs(front);
      SumWorthSnoc(front, s);
      SortedNext(Sorted(front), s);
      assert found == front + [s];
    }
  }

  class Purse {
    var coins: multiset<Stack>
    var dropped: multiset<Stack>
    var bank: nat

    ghost function Total(): nat
      reads this
    {
      Worth(coins) + Worth(dropped)
    }

    // One new stack, into the purse or onto the tile.
    method AddStack(stack: Stack, fits: bool)
      modifies this`coins, this`dropped
      ensures Total() == old(Total()) + stack.Worth() && old(coins) <= coins
    {
      if fits {
        WorthWith(coins, stack);
        coins := coins + multiset{stack};
      } else {
        WorthWith(dropped, stack);
        dropped := dropped + multiset{stack};
      }
    }

    method AddCrystals(crystalCoins: nat, fits: nat -> bool) returns (n: nat)
      modifies this`coins, this`dropped
      ensures Total() == old(Total()) + crystalCoins * 10000 && old(coins) <= coins
    {
      n := 0;
      var left := crystalCoins;
      while left > 0
        invariant 0 <= left && old(coins) <= coins && Total() + left * 10000 == old(Total()) + crystalCoins * 10000
      {
        var count := if left < 100 then left else 100;
        assert NewCount(count) == count;
        AddStack(Stack(Crystal, NewCount(count)), fits(n));
        n := n + 1;
        left := left - count;
      }
    }

    method SplitCrystals(amount: nat) returns (crystalCoins: nat, money: nat)
      ensures crystalCoins == Crystals(amount) && money == AfterCrystals(amount)
    {
      crystalCoins := Uint32(amount / 10000);
      money := amount - Uint32(crystalCoins * 10000);
    }

    /** Give money in crystal coins, by stacks of a hundred, platinum coins and gold coins; the
        n-th stack finds room when fits says so. */
    method AddMoney(amount: nat, fits: nat -> bool)
      modifies this`coins, this`dropped
      ensures Total() == old(Total()) + Created(amount) && old(coins) <= coins
    {
      if amount == 0 {
        SmallIsExact(0);
        return;
      }
      AddCoins(amount, fits);
    }

    method AddCoins(amount: nat, fits: nat -> bool)
      modifies this`coins, this`dropped
      ensures Total() == old(Total()) + Created(amount) && old(coins) <= coins
    {
      var crystalCoins, money := SplitCrystals(amount);
      var n := AddCrystals(crystalCoins, fits);
      AddSmall(money, fits, n);
    }

    method AddSmall(left: nat, fits: nat -> bool, n: nat)
      modifies this`coins, this`dropped
      ensures Total() == old(Total()) + CreatedSmall(left) && old(coins) <= coins
    {
      var money, k := left, n;
      var platinumCoins := Uint16(money / 100);
      if platinumCoins != 0 {
        AddStack(Stack(Platinum, NewCount(platinumCoins)), fits(k));
        k := k + 1;
        money := money - platinumCoins * 100;
      }
      if money != 0 {
        AddStack(Stack(Gold, NewCount(money)), fits(k));
      }
    }

    // The coins of the purse by their worth, the smallest first, and what they are worth.
    method Collect(found: seq<Stack>) returns (moneyMap: seq<Stack>, moneyCount: nat)
      ensures moneyMap == Sorted(found) && moneyCount == SumWorth(found)
    {
      moneyMap, moneyCount := [], 0;
      for k := 0 to |found|
        invariant moneyMap == Sorted(found[..k]) && moneyCount == SumWorth(found[..k])
      {
        assert found[..k + 1] == found[..k] + [found[k]];
        SumWorthSnoc(found[..k], found[k]);
        if found[k].Worth() != 0 {
          moneyCount := moneyCount + found[k].Worth();
          moneyMap := Emplace(moneyMap, found[k]);
        }
      }
      assert found[..|found|] == found;
    }

    /** Pay, smallest stacks first; a stack worth more than what is left is broken and the
        change given back, and what the coins do not cover is taken from the bank.  The money
        still to pay is not cleared when a stack has covered it: with the balance in use the
        bank is then charged that last chunk as well, if it can be. */
    method RemoveMoney(amount: nat, found: seq<Stack>, useBalance: bool, fits: nat -> bool) returns (ok: bool)
      requires multiset(found) == coins
      modifies this
      ensures ok <==> amount == 0 || SumWorth(found) + (if useBalance then old(bank) else 0) >= amount
      ensures !ok || amount == 0 ==> coins == old(coins) && dropped == old(dropped) && bank == old(bank)
      ensures ok ==> Total() == old(Total()) - Min(amount, SumWorth(found))
      ensures ok && amount > 0 ==> bank == old(bank) - BankCharge(Sorted(found), amount, useBalance, old(bank))
      ensures amount > SumWorth(found) && ok ==> bank == old(bank) - (amount - SumWorth(found))
      ensures 0 < amount <= SumWorth(found) ==>
                exists k: nat, chunk: nat :: PaidAt(Sorted(found), k, amount, chunk, coins)
                  && bank == old(bank) - if useBalance && old(bank) >= chunk then chunk else 0
    {
      if amount == 0 {
        return true;
      }
      var moneyMap, moneyCount := Collect(found);
      var balance := if useBalance then bank else 0;
      if moneyCount + balance < amount {
        return false;
      }
      SortedIs(found);
      WorthOfSeq(found);
      var money, k := PayCoins(moneyMap, amount, fits);
      if useBalance && bank >= money {
        bank := bank - money;
      }
      ok := true;
    }

    // The loop over the stacks; what is still to pay, or was when a stack covered it.
    method PayCoins(moneyMap: seq<Stack>, amount: nat, fits: nat -> bool) returns (money: nat, ghost at: nat)
      requires amount > 0 && multiset(moneyMap) <= coins && Worth(coins) == SumWorth(moneyMap)
      modifies this`coins, this`dropped
      ensures Total() == old(Total()) - Min(amount, SumWorth(moneyMap))
      ensures money == LeftToPay(moneyMap, amount)
      ensures amount > SumWorth(moneyMap) ==> money == amount - SumWorth(moneyMap)
      ensures amount <= SumWorth(moneyMap) ==> PaidAt(moneyMap, at, amount, money, coins)
    {
      money, at := amount, 0;
      var k, paid := 0, false;
      assert moneyMap[0..] == moneyMap;
      while k < |moneyMap| && !paid
        invariant 0 <= k <= |moneyMap|
        invariant !paid ==> Paying(moneyMap, k, amount, money) && Total() - money == old(Total()) - amount
        invariant paid ==> Total() == old(Total()) - amount
        invariant paid ==> money == LastChunk(moneyMap, amount) && PaidAt(moneyMap, at, amount, money, coins)
        invariant paid ==> amount <= SumWorth(moneyMap)
      {
        at := k;
        money, paid := PayNext(moneyMap, k, amount, money, fits);
        k := k + 1;
      }
    }

    // These stacks are what the purse holds, and this is still to pay.
    ghost predicate Unpaid(stacks: seq<Stack>, money: nat)
      reads this
    {
      money > 0 && multiset(stacks) <= coins && Worth(coins) == SumWorth(stacks)
    }

    // The stacks before k are paid with, and this is still to pay.
    ghost predicate Paying(moneyMap: seq<Stack>, k: nat, amount: nat, money: nat)
      reads this
    {
      && k <= |moneyMap| && Unpaid(moneyMap[k..], money)
      && money == amount - SumWorth(moneyMap[..k])
      && money - SumWorth(moneyMap[k..]) == amount - SumWorth(moneyMap)
      && LastChunk(moneyMap[k..], money) == LastChunk(moneyMap, amount)
    }

    // One turn of that loop.
    method PayNext(moneyMap: seq<Stack>, k: nat, ghost amount: nat, money: nat, fits: nat -> bool)
      returns (left: nat, paid: bool)
      requires k < |moneyMap| && Paying(moneyMap, k, amount, money)
      modifies this`coins, this`dropped
      ensures paid ==> Total() == old(Total()) - money && left == LastChunk(moneyMap, amount)
      ensures paid ==> PaidAt(moneyMap, k, amount, left, coins) && amount <= SumWorth(moneyMap)
      ensures !paid ==> Paying(moneyMap, k + 1, amount, left) && Total() - left == old(Total()) - money
    {
      NextStack(moneyMap, k, money);
      left, paid := PayOne(moneyMap[k], moneyMap[k + 1..], money, fits);
    }

    method PayOne(item: Stack, ghost rest: seq<Stack>, money: nat, fits: nat -> bool) returns (left: nat, paid: bool)
      requires Unpaid([item] + rest, money)
      modifies this`coins, this`dropped
      ensures paid <==> item.Worth() >= money
      ensures paid ==> left == money && Total() == old(Total()) - money && multiset(rest) <= coins
      ensures !paid ==>
                && left == money - item.Worth() && Unpaid(rest, left) && dropped == old(dropped)
                && Total() == old(Total()) - item.Worth()
    {
      assert item in [item] + rest && ([item] + rest)[1..] == rest;
      WorthWithout(coins, item);
      left, paid := money, true;
      if item.Worth() < money {
        coins := coins - multiset{item};
        left, paid := money - item.Worth(), false;
      } else if item.Worth() > money {
        BreakStack(item, money, fits);
      } else {
        coins := coins - multiset{item};
      }
    }

    // Take money out of a stack that is worth more, and give the change back.
    method BreakStack(item: Stack, money: nat, fits: nat -> bool)
      requires item in coins && 0 < money < item.Worth()
      modifies this`coins, this`dropped
      ensures Total() == old(Total()) - money && old(coins) - multiset{item} <= coins
    {
      BreakIs(item, money);
      var removeCount, change := Change(item, money);
      AddExact(change, fits);
      RemoveCoins(item, removeCount);
    }

    method AddExact(change: nat, fits: nat -> bool)
      requires change < 10000
      modifies this`coins, this`dropped
      ensures Total() == old(Total()) + change && old(coins) <= coins
    {
      SmallIsExact(change);
      AddMoney(change, fits);
    }

    method TakeStack(item: Stack)
      requires item in coins
      modifies this`coins
      ensures Total() == old(Total()) - item.Worth() && coins == old(coins) - multiset{item}
    {
      WorthWithout(coins, item);
      coins := coins - multiset{item};
    }

    method Exchange(item: Stack, less: Stack)
      requires item in coins
      modifies this`coins
      ensures Total() == old(Total()) - item.Worth() + less.Worth()
      ensures old(coins) - multiset{item} <= coins
    {
      TakeStack(item);
      WorthWith(coins, less);
      coins := coins + multiset{less};
    }

    method RemoveCoins(item: Stack, n: nat)
      requires item in coins && n <= item.count
      modifies this`coins
      ensures Total() == old(Total()) - item.Worth() + Stack(item.coin, item.count - n).Worth()
      ensures old(coins) - multiset{item} <= coins
    {
      if item.count > n {
        Exchange(item, Stack(item.coin, item.count - n));
      } else {
        TakeStack(item);
      }
    }
  }

  // How many coins of the stack to take, and what they are worth too much.
  method Change(item: Stack, money: nat) returns (removeCount: nat, change: nat)
    requires 0 < money < item.Worth()
    ensures removeCount == Taken(item.coin, money) && change == WorthOf(item.coin, removeCount) - money
  {
    BreakIs(item, money);
    BreakNumbers(item, money);
    var worth := item.Worth() / item.count;
    removeCount := (money + worth - 1) / worth;
    var taken: nat := worth * removeCount;
    assert taken == WorthOf(item.coin, Taken(item.coin, money));
    change := taken - money;
  }

  lemma {:induction false} SumWorthAdd(a: seq<Stack>, s: Stack, b: seq<Stack>)
    ensures SumWorth(a + [s] + b) == SumWorth(a + b) + s.Worth()
  {
    if a == [] {
      assert a + [s] + b == [s] + b && a + b == b;
    } else {
      SumWorthAdd(a[1..], s, b);
      assert (a + [s] + b)[1..] == a[1..] + [s] + b && (a + b)[1..] == a[1..] + b;
    }
  }

  lemma InsertedAscending(entries: seq<Stack>, s: Stack, k: nat)
    requires Ascending(entries) && k <= |entries|
    requires (k > 0 ==> entries[k - 1].Worth() <= s.Worth()) && (k < |entries| ==> s.Worth() <= entries[k].Worth())
    ensures Ascending(Inserted(entries, s, k))
  {
    var longer := Inserted(entries, s, k);
    forall i, j | 0 <= i < j < |longer|
      ensures longer[i].Worth() <= longer[j].Worth()
    {
      if j < k {
        InOrder(entries, i, j);
      } else if j == k {
        InOrder(entries, i, k - 1);
      } else if i < k {
        InOrder(entries, i, j - 1);
      } else if i == k {
        InOrder(entries, k, j - 1);
      } else {
        InOrder(entries, i - 1, j - 1);
      }
    }
  }

  lemma InOrder(stacks: seq<Stack>, i: nat, j: nat)
    requires Ascending(stacks) && i <= j < |stacks|
    ensures stacks[i].Worth() <= stacks[j].Worth()
  {
  }

  // A new entry goes behind those of the same worth.
  method Emplace(entries: seq<Stack>, s: Stack) returns (longer: seq<Stack>)
    ensures longer == Inserted(entries, s, UpperBound(entries, s.Worth()))
  {
    var i := |entries|;
    assert entries[..i] == entries;
    while i > 0 && entries[i - 1].Worth() > s.Worth()
      invariant 0 <= i <= |entries| && UpperBound(entries[..i], s.Worth()) == UpperBound(entries, s.Worth())
    {
      assert entries[..i][..i - 1] == entries[..i - 1];
      i := i - 1;
    }
    longer := entries[..i] + [s] + entries[i..];
  }

  lemma InsertedIs(entries: seq<Stack>, s: Stack, i: nat)
    requires i <= |entries|
    ensures multiset(Inserted(entries, s, i)) == multiset(entries) + multiset{s}
    ensures SumWorth(Inserted(entries, s, i)) == SumWorth(entries) + s.Worth()
  {
    assert entries == entries[..i] + entries[i..];
    SumWorthAdd(entries[..i], s, entries[i..]);
  }

  // The worth of n coins, and how many of them cover an amount.
  function WorthOf(coin: Coin, n: nat): nat {
    match coin
    case Gold => n
    case Platinum => n * 100
    case Crystal => n * 10000
  }

  function Taken(coin: Coin, money: nat): nat {
    match coin
    case Gold => money
    case Platinum => (money + 99) / 100
    case Crystal => (money + 9999) / 10000
  }

  // Breaking a stack: the coins taken are just enough, and the change is less than a coin.
  lemma BreakIs(item: Stack, money: nat)
    requires 0 < money < item.Worth()
    ensures var taken := Taken(item.coin, money);
            && 0 < taken <= item.count && 0 <= WorthOf(item.coin, taken) - money < 10000
            && Stack(item.coin, item.count - taken).Worth() == item.Worth() - WorthOf(item.coin, taken)
  {
  }

  // The same numbers as the code comes by them, from the worth and the count of the stack.
  lemma BreakNumbers(item: Stack, money: nat)
    requires item.count > 0
    ensures var worth := item.Worth() / item.count;
            worth > 0 && (money + worth - 1) / worth == Taken(item.coin, money)
                && worth * Taken(item.coin, money) == WorthOf(item.coin, Taken(item.coin, money))
  {
    DivCount(item.count, item.coin.Unit());
    match item.coin
    case Gold =>
    case Platinum =>
    case Crystal =>
  }

  lemma DivCount(count: nat, unit: nat)
    requires count > 0
    ensures (count * unit) / count == unit
  {
    var k := (count * unit) / count - unit;
    assert k * count == ((count * unit) / count) * count - count * unit;
    Multiples(k, count);
  }

}
