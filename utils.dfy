/**
 * backend/src/utils/utils.ts: the password-stripping projection and the
 * greedy change-making routine `numberToCoinsCounts`.
 */
module Utils {
  import opened Wrappers
  import opened AppConfig
  import opened Entities
  import opened Exceptions

  // ---------------------------------------------------------------------
  // removeUserPassword
  // ---------------------------------------------------------------------

  /** Returns a missing user as it is; otherwise the same record without its password. */
  function RemoveUserPassword(user: Option<User>): (r: Option<UserView>)
    ensures user.None? <==> r.None?
    ensures user.Some? ==>
      && r.value.id == user.value.id
      && r.value.username == user.value.username
      && r.value.deposit == user.value.deposit
      && r.value.role == user.value.role
  {
    match user
    case None => None
    case Some(u) => Some(UserView(u.id, u.username, u.deposit, u.role))
  }

  /** Puts a password back into a stripped record. */
  function WithPassword(v: UserView, password: string): User
  {
    User(v.id, v.username, password, v.deposit, v.role)
  }

  /** Stripping loses the password and nothing else. */
  lemma RemoveUserPasswordLosesOnlyPassword(u: User, w: User)
    ensures WithPassword(RemoveUserPassword(Some(u)).value, u.password) == u
    ensures RemoveUserPassword(Some(u)) == RemoveUserPassword(Some(w)) <==> u.(password := w.password) == w
  {
  }

  // ---------------------------------------------------------------------
  // numberToCoinsCounts
  // ---------------------------------------------------------------------

  /** One entry of the result: `count` coins of face value `value`. */
  datatype CoinCount = CoinCount(value: int, count: int)

  /** The amount a list of coin counts is worth, Σ value×count. */
  function CoinSum(cs: seq<CoinCount>): int
  {
    if cs == [] then 0 else cs[0].value * cs[0].count + CoinSum(cs[1..])
  }

  /** Puts coins already chosen in front of the decomposition of what is left. */
  function Prepend(coins: seq<CoinCount>, rest: Result<seq<CoinCount>, CoinError>): Result<seq<CoinCount>, CoinError>
  {
    match rest
    case Success(cs) => Success(coins + cs)
    case Failure(e) => Failure(e)
  }

  /** The supported coins that do not exceed the amount, in their listed order. */
  function CoinsAtMost(coins: seq<int>, num: int): (r: seq<int>)
    ensures forall c :: c in r <==> c in coins && c <= num
  {
    if coins == [] then []
    else (if coins[0] <= num then [coins[0]] else []) + CoinsAtMost(coins[1..], num)
  }

  /** The reduction that keeps the larger of the running value and each element, starting from `prev`. */
  function ReduceMax(cs: seq<int>, prev: int): (r: int)
    ensures r >= prev
    ensures forall c :: c in cs ==> c <= r
    ensures r == prev || r in cs
  {
    if cs == [] then prev
    else
      assert forall c :: c in cs ==> c == cs[0] || c in cs[1..];
      ReduceMax(cs[1..], if cs[0] > prev then cs[0] else prev)
  }

  /** `c` is the largest supported coin that does not exceed `m`. */
  ghost predicate IsLargestCoinAtMost(c: int, m: int)
  {
    && c in SUPPORTED_COINS
    && c <= m
    && forall d :: d in SUPPORTED_COINS && d <= m ==> d <= c
  }

  /**
   * The coin one round of the loop picks: the maximum of the supported
   * coins that do not exceed `num`, or nothing when there are none.
   */
  function MaxCoinAtMost(num: int): (r: Option<int>)
    ensures r.None? <==> num < 5
    ensures r.Some? ==> IsLargestCoinAtMost(r.value, num)
  {
    var fits := CoinsAtMost(SUPPORTED_COINS, num);
    if |fits| == 0 then None
    else
      assert fits[0] in fits;
      Some(ReduceMax(fits, 0))
  }

  /** The arithmetic of one round: at least one coin is taken and the remainder is smaller than the coin. */
  lemma DivModByCoin(num: int, c: int)
    requires c in SUPPORTED_COINS && c <= num
    ensures num / c >= 1 && 0 <= num % c < c
    ensures c * (num / c) + num % c == num
  {
    if c == 5 {} else if c == 10 {} else if c == 20 {} else if c == 50 {} else {}
  }

  /**
   * The loop of `numberToCoinsCounts` once the remaining amount is known to
   * be whole: take the largest coin that fits as often as it fits, go on
   * with the remainder, and fail when a positive remainder is smaller than
   * every coin.
   */
  function Greedy(num: int): (r: Result<seq<CoinCount>, CoinError>)
    ensures num <= 0 ==> r == Success([])
    ensures r.Failure? ==> r.error == NoCoinFits
    ensures r.Success? ==> CoinSum(r.value) == if num > 0 then num else 0
    ensures r.Success? ==> forall i :: 0 <= i < |r.value| ==>
      r.value[i].value in SUPPORTED_COINS && r.value[i].count >= 1 && r.value[i].value <= num
    ensures r.Success? ==> forall i, j :: 0 <= i < j < |r.value| ==> r.value[i].value > r.value[j].value
    decreases num
  {
    if num <= 0 then Success([])
    else
      match MaxCoinAtMost(num)
      case None => Failure(NoCoinFits)
      case Some(maxCoin) =>
        DivModByCoin(num, maxCoin);
        match Greedy(num % maxCoin)
        case Failure(e) => Failure(e)
        case Success(rest) =>
          var cs := [CoinCount(maxCoin, num / maxCoin)] + rest;
          assert cs[1..] == rest;
          Success(cs)
  }

  /** One round of the loop, as an equation: a positive whole amount is its first coin entry followed by the decomposition of the remainder. */
  lemma GreedyUnfold(num: int)
    requires num > 0
    ensures MaxCoinAtMost(num).None? ==> Greedy(num) == Failure(NoCoinFits)
    ensures MaxCoinAtMost(num).Some? ==>
      var c := MaxCoinAtMost(num).value;
      Greedy(num) == Prepend([CoinCount(c, num / c)], Greedy(num % c))
  {
  }

  /**
   * What `numberToCoinsCounts(amount)` returns or throws: nothing to pay
   * for a non-positive amount, an error for a positive amount that is not
   * whole, and otherwise the greedy decomposition.
   */
  function Decompose(amount: real): (r: Result<seq<CoinCount>, CoinError>)
    ensures amount <= 0.0 ==> r == Success([])
    ensures amount > 0.0 && amount != amount.Floor as real ==> r == Failure(NotAnInteger)
    ensures r.Success? ==> CoinSum(r.value) as real == if amount > 0.0 then amount else 0.0
  {
    if amount <= 0.0 then Success([])
    else if amount != amount.Floor as real then Failure(NotAnInteger)
    else Greedy(amount.Floor)
  }

  /** The while loop of `numberToCoinsCounts`, pushing one entry per round. */
  method NumberToCoinsCounts(amount: real) returns (r: Result<seq<CoinCount>, CoinError>)
    ensures r == Decompose(amount)
  {
    var coins: seq<CoinCount> := [];
    var num := amount;
    PrependNothing(Decompose(amount));
    while num > 0.0
      invariant Decompose(amount) == Prepend(coins, Decompose(num))
      decreases num.Floor
    {
      if num != num.Floor as real {
        return Failure(NotAnInteger);
      }
      var n := num.Floor;
      var filteredCoins := CoinsAtMost(SUPPORTED_COINS, n);
      if |filteredCoins| == 0 {
        return Failure(NoCoinFits);
      }
      var maxCoin := ReduceMax(filteredCoins, 0);
      assert filteredCoins[0] in filteredCoins;
      assert MaxCoinAtMost(n) == Some(maxCoin);
      DivModByCoin(n, maxCoin);
      var quotient := n / maxCoin;
      var remainder := n % maxCoin;
      assert Decompose(num) == Greedy(n);
      GreedyUnfold(n);
      DecomposeWhole(remainder);
      PrependAssociates(coins, CoinCount(maxCoin, quotient), Greedy(remainder));
      coins := coins + [CoinCount(maxCoin, quotient)];
      num := remainder as real;
    }
    assert coins + [] == coins;
    return Success(coins);
  }

  lemma PrependNothing(rest: Result<seq<CoinCount>, CoinError>)
    ensures Prepend([], rest) == rest
  {
    if rest.Success? {
      assert [] + rest.value == rest.value;
    }
  }

  /** On a whole number, `Decompose` is the greedy loop itself. */
  lemma DecomposeWhole(k: int)
    ensures Decompose(k as real) == Greedy(k)
  {
    assert (k as real).Floor == k;
  }

  lemma PrependAssociates(coins: seq<CoinCount>, c: CoinCount, rest: Result<seq<CoinCount>, CoinError>)
    ensures Prepend(coins, Prepend([c], rest)) == Prepend(coins + [c], rest)
  {
    if rest.Success? {
      assert coins + ([c] + rest.value) == (coins + [c]) + rest.value;
    }
  }

  // ---------------------------------------------------------------------
  // Properties of the decomposition
  // ---------------------------------------------------------------------

  /** Entry `e` is the largest coin not above `left`, taken as many times as it fits into `left`. */
  ghost predicate RoundTakesLargestCoin(e: CoinCount, left: int)
  {
    IsLargestCoinAtMost(e.value, left) && e.count == left / e.value
  }

  /** Every entry, from the first on, takes the largest coin for what the entries before it leave of `left`. */
  ghost predicate TakesLargestEachRound(cs: seq<CoinCount>, left: int)
    decreases |cs|
  {
    cs != [] ==>
      RoundTakesLargestCoin(cs[0], left) &&
      TakesLargestEachRound(cs[1..], left - cs[0].value * cs[0].count)
  }

  /** The greedy decomposition takes the largest coin in every round. */
  lemma {:induction false} GreedyTakesLargestEachRound(num: int)
    requires Greedy(num).Success?
    ensures TakesLargestEachRound(Greedy(num).value, num)
    decreases num
  {
    if num > 0 {
      GreedyUnfold(num);
      var c := MaxCoinAtMost(num).value;
      DivModByCoin(num, c);
      GreedyTakesLargestEachRound(num % c);
      var cs := Greedy(num).value;
      assert cs[0] == CoinCount(c, num / c);
      assert cs[1..] == Greedy(num % c).value;
      assert num - c * (num / c) == num % c;
    }
  }

  /**
   * Round i picks the largest supported coin not above what is still to be
   * paid out (`left` minus the entries before it), and takes it as many
   * times as it fits.
   */
  lemma {:induction false} LargestEachRoundAtIndex(cs: seq<CoinCount>, left: int, i: nat)
    requires TakesLargestEachRound(cs, left) && i < |cs|
    ensures RoundTakesLargestCoin(cs[i], left - CoinSum(cs[..i]))
    decreases i
  {
    if i > 0 {
      var next := left - cs[0].value * cs[0].count;
      LargestEachRoundAtIndex(cs[1..], next, i - 1);
      assert cs[..i] == [cs[0]] + cs[1..][..i - 1];
      CoinSumCons(cs[0], cs[1..][..i - 1]);
      assert cs[1..][i - 1] == cs[i];
    } else {
      assert cs[..0] == [];
    }
  }

  lemma CoinSumCons(head: CoinCount, tail: seq<CoinCount>)
    ensures CoinSum([head] + tail) == head.value * head.count + CoinSum(tail)
  {
    assert ([head] + tail)[1..] == tail;
  }

  /** Each round leaves the remainder modulo 5 as it was, because every coin is a multiple of 5. */
  lemma RemainderKeepsResidue(num: int, c: int)
    requires c in SUPPORTED_COINS
    ensures (num % c) % 5 == num % 5
  {
    if c == 5 {
    } else if c == 10 {
      ShiftByFives(num % 10, 2 * (num / 10));
    } else if c == 20 {
      ShiftByFives(num % 20, 4 * (num / 20));
    } else if c == 50 {
      ShiftByFives(num % 50, 10 * (num / 50));
    } else {
      ShiftByFives(num % 100, 20 * (num / 100));
    }
  }

  /** Adding a multiple of 5 leaves the residue modulo 5 unchanged. */
  lemma ShiftByFives(a: int, k: int)
    ensures (a + 5 * k) % 5 == a % 5
  {
  }

  /**
   * A whole amount decomposes exactly when it is a multiple of the smallest
   * coin; any other positive amount (3, 203, ...) ends in a remainder that
   * no coin fits.
   */
  lemma {:induction false} GreedySucceedsIffMultipleOfFive(num: int)
    requires num >= 0
    ensures Greedy(num).Success? <==> num % 5 == 0
    decreases num
  {
    if num > 0 {
      GreedyUnfold(num);
      if num >= 5 {
        var c := MaxCoinAtMost(num).value;
        DivModByCoin(num, c);
        RemainderKeepsResidue(num, c);
        GreedySucceedsIffMultipleOfFive(num % c);
      }
    }
  }

  /** The three outcomes of `numberToCoinsCounts`, with exactly the inputs that lead to each. */
  lemma DecomposeOutcomes(amount: real)
    ensures Decompose(amount) == Failure(NotAnInteger) <==> amount > 0.0 && amount != amount.Floor as real
    ensures Decompose(amount) == Failure(NoCoinFits) <==>
      amount > 0.0 && amount == amount.Floor as real && amount.Floor % 5 != 0
    ensures Decompose(amount).Success? <==> amount <= 0.0 || (amount == amount.Floor as real && amount.Floor % 5 == 0)
  {
    if amount > 0.0 && amount == amount.Floor as real {
      GreedySucceedsIffMultipleOfFive(amount.Floor);
    }
  }

  /** Amounts named by the source: 3 and 203 leave a remainder no coin fits. */
  lemma UnpayableExamples()
    ensures Greedy(3) == Failure(NoCoinFits)
    ensures Greedy(203) == Failure(NoCoinFits)
  {
    GreedySucceedsIffMultipleOfFive(3);
    GreedySucceedsIffMultipleOfFive(203);
  }

}
