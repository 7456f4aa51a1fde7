/**
 * backend/src/app.controller.ts: the buyer endpoints. Each checks the
 * shape of its request with a pure guard before it touches the store; a
 * service error that the endpoint does not catch surfaces as a 500.
 */
module AppController {
  import opened Wrappers
  import opened Js
  import opened AppConfig
  import opened Entities
  import opened Exceptions
  import opened Utils
  import opened Store
  import opened UserService

  /** A service error left uncaught: Nest answers it with a 500. */
  function Unhandled<T>(r: Result<T, ServiceError>): (h: Result<T, HttpError>)
    ensures r.Success? <==> h.Success?
    ensures r.Success? ==> h.value == r.value
    ensures r.Failure? ==> h.error == InternalServerError(r.error)
  {
    match r
    case Success(v) => Success(v)
    case Failure(e) => Failure(InternalServerError(e))
  }

  /** The catch around `buyProducts`: every service error is rethrown as a 400 carrying it. */
  function RaisedAsBadRequest<T>(r: Result<T, ServiceError>): (h: Result<T, HttpError>)
    ensures r.Success? <==> h.Success?
    ensures r.Success? ==> h.value == r.value
    ensures r.Failure? ==> h.error == BadRequest(BadRequestReason.Rethrown(r.error))
  {
    match r
    case Success(v) => Success(v)
    case Failure(e) => Failure(BadRequest(BadRequestReason.Rethrown(e)))
  }

  /** The checks of `deposit` on `dto.value`: present, a number, and one of the supported coins. */
  function DepositGuard(value: JsValue): (r: Result<int, BadRequestReason>)
    ensures r.Success? <==> value.Num? && value.n in SUPPORTED_COINS
    ensures r.Success? ==> r.value == value.n
    ensures value.Undefined? ==> r == Failure(Required("value"))
    ensures !value.Undefined? && !value.Num? ==> r == Failure(ShouldBeNumber("value"))
    ensures value.Num? && value.n !in SUPPORTED_COINS ==> r == Failure(UnsupportedCoin)
  {
    if value.Undefined? then Failure(Required("value"))
    else if !value.Num? then Failure(ShouldBeNumber("value"))
    else if value.n !in SUPPORTED_COINS then Failure(UnsupportedCoin)
    else Success(value.n)
  }

  /** The checks of `buy`, in order: `products` present, an array, not empty, and a caller id. */
  function BuyGuard(products: ProductsField, userId: string): (r: Result<seq<BuyLine>, BadRequestReason>)
    ensures r.Success? <==> products.Lines? && |products.lines| > 0 && userId != ""
    ensures r.Success? ==> r.value == products.lines
    ensures products.Missing? ==> r == Failure(Required("products"))
    ensures products.NotAnArray? ==> r == Failure(ShouldBeArray)
    ensures products.Lines? && |products.lines| == 0 ==> r == Failure(NoProducts)
    ensures products.Lines? && |products.lines| > 0 && userId == "" ==> r == Failure(Required("userId"))
  {
    match products
    case Missing => Failure(Required("products"))
    case NotAnArray(_) => Failure(ShouldBeArray)
    case Lines(lines) =>
      if |lines| == 0 then Failure(NoProducts)
      else if userId == "" then Failure(Required("userId"))
      else Success(lines)
  }

  /** Every balance is a non-negative multiple of the smallest coin. */
  ghost predicate DepositsInCoins(users: Users)
  {
    forall k :: k in users ==> users[k].deposit >= 0 && users[k].deposit % 5 == 0
  }

  /**
   * Balances grow only by coins: an accepted deposit adds a supported coin,
   * so balances made only of deposits and resets stay multiples of 5.
   */
  lemma AcceptedDepositKeepsCoinBalances(users: Users, value: JsValue, userId: string)
    requires DepositsInCoins(users)
    requires DepositGuard(value).Success?
    ensures DepositsInCoins(DepositTo(users, userId, DepositGuard(value).value).users)
    ensures DepositsInCoins(ResetDeposit(users, userId).users)
  {
    SupportedCoinsAreMultiplesOfFive(value.n);
  }

  /** A balance made of coins can always be paid out as coins, worth exactly the balance. */
  lemma CoinBalanceDecomposes(users: Users, userId: string)
    requires DepositsInCoins(users) && userId in users
    ensures Decompose(users[userId].deposit as real).Success?
    ensures CoinSum(Decompose(users[userId].deposit as real).value) == users[userId].deposit
  {
    var d := users[userId].deposit;
    DecomposeOutcomes(d as real);
    assert (d as real).Floor == d;
  }

  class AppController {
    const userService: UserService
    /** The store behind both the user service and the product service (which only delegates). */
    const storeService: StoreService

    ghost predicate Valid()
      reads this, userService, storeService
    {
      userService.storeService == storeService && storeService.Valid()
    }

    constructor (userService: UserService)
      ensures this.userService == userService && this.storeService == userService.storeService
    {
      this.userService := userService;
      this.storeService := userService.storeService;
    }

    /** `POST deposit`: a rejected value changes nothing; an accepted coin is added to the caller's balance. */
    method Deposit(value: JsValue, userId: string) returns (r: Result<UserView, HttpError>)
      requires Valid()
      modifies storeService
      ensures Valid() && storeService.products == old(storeService.products)
      ensures DepositGuard(value).Failure? ==>
        r == Failure(BadRequest(DepositGuard(value).error)) && storeService.users == old(storeService.users)
      ensures DepositGuard(value).Success? ==>
        var s := DepositTo(old(storeService.users), userId, value.n);
        storeService.users == s.users && r == Unhandled(s.result)
    {
      var guard := DepositGuard(value);
      if guard.Failure? {
        return Failure(BadRequest(guard.error));
      }
      var deposited := userService.DepositToAccount(userId, guard.value);
      r := Unhandled(deposited);
    }

    /** `POST buy`: a malformed request changes nothing; otherwise the purchase, with its errors as 400s. */
    method Buy(products: ProductsField, userId: string) returns (r: Result<Receipt, HttpError>)
      requires Valid()
      modifies storeService
      ensures Valid()
      ensures BuyGuard(products, userId).Failure? ==>
        && r == Failure(BadRequest(BuyGuard(products, userId).error))
        && storeService.users == old(storeService.users)
        && storeService.products == old(storeService.products)
      ensures BuyGuard(products, userId).Success? ==>
        var o := Purchase(old(storeService.users), old(storeService.products), userId, products.lines);
        && storeService.users == o.users
        && storeService.products == o.products
        && r == RaisedAsBadRequest(o.result)
    {
      var guard := BuyGuard(products, userId);
      if guard.Failure? {
        return Failure(BadRequest(guard.error));
      }
      var bought := storeService.BuyProducts(userId, guard.value);
      r := RaisedAsBadRequest(bought);
    }

    /** `POST reset`: the caller's balance becomes 0. */
    method ResetDeposit(userId: string) returns (r: Result<UserView, HttpError>)
      requires Valid()
      modifies storeService
      ensures Valid() && storeService.products == old(storeService.products)
      ensures var s := Store.ResetDeposit(old(storeService.users), userId);
        storeService.users == s.users && r == Unhandled(s.result)
    {
      var reset := userService.ResetDeposit(userId);
      r := Unhandled(reset);
    }

    /**
     * `GET coins`: the caller's balance as coins. An unknown caller is a
     * 404, a balance that does not decompose a 502; a balance made of
     * coins always decomposes, into coins worth exactly that balance.
     */
    method GetUserCoins(userId: string) returns (r: Result<seq<CoinCount>, HttpError>)
      requires Valid()
      ensures userId == "" ==> r == Failure(InternalServerError(ArgumentRequired))
      ensures userId != "" && userId !in storeService.users ==> r == Failure(NotFound)
      ensures userId != "" && userId in storeService.users ==>
        match Decompose(storeService.users[userId].deposit as real)
        case Success(change) => r == Success(change)
        case Failure(e) => r == Failure(BadGateway(e))
      ensures userId != "" && userId in storeService.users && DepositsInCoins(storeService.users) ==>
        r.Success? && CoinSum(r.value) == storeService.users[userId].deposit
    {
      var found := FindUserById(storeService.users, userId);
      if found.Failure? {
        return Failure(InternalServerError(found.error));
      }
      if found.value.None? {
        return Failure(NotFound);
      }
      var user := found.value.value;
      if DepositsInCoins(storeService.users) {
        CoinBalanceDecomposes(storeService.users, userId);
      }
      var change := NumberToCoinsCounts(user.deposit as real);
      if change.Failure? {
        return Failure(BadGateway(change.error));
      }
      r := Success(change.value);
    }
  }
}
