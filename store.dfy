/**
 * backend/src/store/store.service.ts: the store that owns the user and
 * product tables. The tables are maps from primary key to row. Each
 * operation is given twice: a specification function over the tables
 * (what it returns or throws, and the tables afterwards), and a method of
 * `StoreService` that performs it step by step and is proved to agree.
 */
module Store {
  import opened Wrappers
  import opened Js
  import opened Entities
  import opened Exceptions
  import opened Utils

  type Users = map<string, User>
  type Products = map<string, Product>

  /** Every row is stored under its own primary key. */
  ghost predicate UsersKeyed(users: Users)
  {
    forall k :: k in users ==> users[k].id == k
  }

  ghost predicate ProductsKeyed(products: Products)
  {
    forall k :: k in products ==> products[k].id == k
  }

  /** The money invariant: no balance is negative. */
  ghost predicate DepositsNonNegative(users: Users)
  {
    forall k :: k in users ==> users[k].deposit >= 0
  }

  /** The stock invariant: no product has negative availability. */
  ghost predicate StockNonNegative(products: Products)
  {
    forall k :: k in products ==> products[k].amountAvailable >= 0
  }

  /** A user operation's effect: what it returns or throws, and the user table afterwards. */
  datatype UserStep = UserStep(result: Result<UserView, ServiceError>, users: Users)

  /** A product operation's effect: what it returns or throws, and the product table afterwards. */
  datatype ProductStep = ProductStep(result: Result<Product, ServiceError>, products: Products)

  // =====================================================================
  // Users
  // =====================================================================

  /** A row as the store hands it out: `removeUserPassword` of a row that exists. */
  function View(u: User): (v: UserView)
    ensures Some(v) == RemoveUserPassword(Some(u))
  {
    RemoveUserPassword(Some(u)).value
  }

  /** `findUserById`: an empty id is refused; otherwise the row without its password, or nothing. */
  function FindUserById(users: Users, id: string): (r: Result<Option<UserView>, ServiceError>)
    ensures r.Failure? <==> id == ""
    ensures r.Failure? ==> r.error == ArgumentRequired
    ensures r.Success? ==> (r.value.Some? <==> id in users)
    ensures r.Success? && id in users ==> r.value == RemoveUserPassword(Some(users[id]))
  {
    if id == "" then Failure(ArgumentRequired)
    else Success(RemoveUserPassword(if id in users then Some(users[id]) else None))
  }

  /** `findAllUsers`: every row of the table, each without its password (the order is not modelled). */
  function FindAllUsers(users: Users): (r: set<UserView>)
    ensures forall k :: k in users ==> RemoveUserPassword(Some(users[k])).value in r
    ensures forall v :: v in r ==> exists k :: k in users && RemoveUserPassword(Some(users[k])) == Some(v)
  {
    set k | k in users :: RemoveUserPassword(Some(users[k])).value
  }

  /** The lookup of `findUserByUsername` finds a row: usernames are compared after lower-casing the query. */
  predicate UsernameTaken(users: Users, username: string)
  {
    exists k :: k in users && users[k].username == ToLower(username)
  }

  /** The row `createUser` saves: the name lower-cased, the password hash, and a zero balance. */
  function NewUser(id: string, dto: CreateUserDto, passwordHash: string): (u: User)
    ensures u.id == id && u.deposit == 0 && u.password == passwordHash && u.role == dto.role
    ensures u.username == ToLower(dto.username)
  {
    User(id, ToLower(dto.username), passwordHash, 0, dto.role)
  }

  /** `withdrawUserDeposit`. */
  function Withdraw(users: Users, id: string, amount: int): (s: UserStep)
    ensures s.result.Failure? ==> s.users == users
    ensures s.result == Failure(ArgumentRequired) <==> id == ""
    ensures s.result == Failure(UserNotFound) <==> id != "" && id !in users
    ensures s.result == Failure(UserDepositInsufficient) <==> id != "" && id in users && users[id].deposit < amount
    ensures s.result.Success? ==>
      && id in users
      && s.users == users[id := users[id].(deposit := users[id].deposit - amount)]
      && s.users[id].deposit >= 0
      && s.result.value == View(s.users[id])
    ensures DepositsNonNegative(users) ==> DepositsNonNegative(s.users)
  {
    match FindUserById(users, id)
    case Failure(e) => UserStep(Failure(e), users)
    case Success(None) => UserStep(Failure(UserNotFound), users)
    case Success(Some(user)) =>
      if user.deposit < amount then UserStep(Failure(UserDepositInsufficient), users)
      else
        // Saving the stripped record back leaves the stored password in place.
        var saved := users[id].(deposit := user.deposit - amount);
        UserStep(Success(View(saved)), users[id := saved])
  }

  /** `depositToUserAccount`: adds exactly `value` to that user's balance and touches no one else. */
  function DepositTo(users: Users, id: string, value: int): (s: UserStep)
    ensures s.result.Failure? ==> s.users == users
    ensures s.result == Failure(ArgumentRequired) <==> id == ""
    ensures s.result == Failure(UserNotFound) <==> id != "" && id !in users
    ensures s.result.Success? ==>
      && id in users
      && s.users == users[id := users[id].(deposit := users[id].deposit + value)]
      && s.result.value == View(s.users[id])
    ensures DepositsNonNegative(users) && value >= 0 ==> DepositsNonNegative(s.users)
  {
    match FindUserById(users, id)
    case Failure(e) => UserStep(Failure(e), users)
    case Success(None) => UserStep(Failure(UserNotFound), users)
    case Success(Some(user)) =>
      var saved := users[id].(deposit := user.deposit + value);
      UserStep(Success(View(saved)), users[id := saved])
  }

  /**
   * `resetUserDeposit` as the code stands: for an unknown id it reads the
   * id of the missing (null) user to build the error, so a TypeError
   * escapes instead of `UserNotFound`.
   */
  function ResetDepositAsWritten(users: Users, id: string): (s: UserStep)
    ensures id != "" && id !in users ==> s.result == Failure(TypeError)
  {
    match FindUserById(users, id)
    case Failure(e) => UserStep(Failure(e), users)
    case Success(None) => UserStep(Failure(TypeError), users)
    case Success(Some(user)) =>
      var saved := users[id].(deposit := 0);
      UserStep(Success(View(saved)), users[id := saved])
  }

  /** `resetUserDeposit` as intended: the balance becomes 0; an unknown id throws `UserNotFound`. */
  function ResetDeposit(users: Users, id: string): (s: UserStep)
    ensures s.result.Failure? ==> s.users == users
    ensures s.result == Failure(ArgumentRequired) <==> id == ""
    ensures s.result == Failure(UserNotFound) <==> id != "" && id !in users
    ensures s.result.Success? ==>
      && id in users
      && s.users == users[id := users[id].(deposit := 0)]
      && s.result.value == View(s.users[id])
    ensures DepositsNonNegative(users) ==> DepositsNonNegative(s.users)
  {
    match FindUserById(users, id)
    case Failure(e) => UserStep(Failure(e), users)
    case Success(None) => UserStep(Failure(UserNotFound), users)
    case Success(Some(user)) =>
      var saved := users[id].(deposit := 0);
      UserStep(Success(View(saved)), users[id := saved])
  }

  /** The two versions of `resetUserDeposit` differ only in the error an unknown id raises. */
  lemma ResetAsWrittenMisreportsUnknownUser(users: Users, id: string)
    ensures id != "" && id !in users ==>
      ResetDepositAsWritten(users, id).result == Failure(TypeError) &&
      ResetDeposit(users, id).result == Failure(UserNotFound)
    ensures id == "" || id in users ==> ResetDepositAsWritten(users, id) == ResetDeposit(users, id)
  {
  }

  /** The spread merge of `updateUser`: the properties the body carries replace the stored ones. */
  function MergeUser(user: User, dto: UpdateUserDto): (u: User)
    ensures u.id == user.id && u.deposit == user.deposit
    ensures u.username == (if dto.username.Some? then dto.username.value else user.username)
    ensures u.password == (if dto.password.Some? then dto.password.value else user.password)
    ensures u.role == (if dto.role.Some? then dto.role.value else user.role)
  {
    user.(username := dto.username.GetOr(user.username),
          password := dto.password.GetOr(user.password),
          role := dto.role.GetOr(user.role))
  }

  /** `updateUser`. */
  function UpdateUserRecord(users: Users, id: string, dto: UpdateUserDto): (s: UserStep)
    ensures s.result.Failure? ==> s.users == users
    ensures s.result == Failure(ArgumentRequired) <==> id == ""
    ensures s.result == Failure(UserNotFound) <==> id != "" && id !in users
    ensures s.result.Success? ==>
      && id in users
      && s.users == users[id := MergeUser(users[id], dto)]
      && s.result.value == View(s.users[id])
  {
    match FindUserById(users, id)
    case Failure(e) => UserStep(Failure(e), users)
    case Success(None) => UserStep(Failure(UserNotFound), users)
    case Success(Some(_)) =>
      var saved := MergeUser(users[id], dto);
      UserStep(Success(View(saved)), users[id := saved])
  }

  /**
   * `removeUser`: the row goes, and the removed record is returned without
   * its password and, as TypeORM's `remove` leaves it, without its id (an
   * undefined id is written "" here).
   */
  function RemoveUserRecord(users: Users, id: string): (s: UserStep)
    ensures s.result.Failure? ==> s.users == users
    ensures s.result == Failure(ArgumentRequired) <==> id == ""
    ensures s.result == Failure(UserNotFound) <==> id != "" && id !in users
    ensures s.result.Success? ==>
      && id in users && s.users == users - {id}
      && s.result.value == View(users[id]).(id := "")
  {
    match FindUserById(users, id)
    case Failure(e) => UserStep(Failure(e), users)
    case Success(None) => UserStep(Failure(UserNotFound), users)
    case Success(Some(user)) => UserStep(Success(user.(id := "")), users - {id})
  }

  /** Withdrawing and then depositing the same amount restores the table. */
  lemma WithdrawThenDepositRestores(users: Users, id: string, amount: int)
    requires Withdraw(users, id, amount).result.Success?
    ensures DepositTo(Withdraw(users, id, amount).users, id, amount).users == users
  {
    var after := Withdraw(users, id, amount).users;
    assert after[id].(deposit := after[id].deposit + amount) == users[id];
  }

  /** Depositing and then withdrawing the same non-negative amount succeeds and restores the table. */
  lemma DepositThenWithdrawRestores(users: Users, id: string, value: int)
    requires DepositTo(users, id, value).result.Success?
    requires value >= 0 && users[id].deposit >= 0
    ensures Withdraw(DepositTo(users, id, value).users, id, value).result.Success?
    ensures Withdraw(DepositTo(users, id, value).users, id, value).users == users
  {
    var after := DepositTo(users, id, value).users;
    assert after[id].(deposit := after[id].deposit - value) == users[id];
  }

  /** Resetting twice is resetting once, and a reset forgets any deposit made before it. */
  lemma ResetForgetsDeposits(users: Users, id: string, value: int)
    requires DepositTo(users, id, value).result.Success?
    ensures ResetDeposit(ResetDeposit(users, id).users, id) == ResetDeposit(users, id)
    ensures ResetDeposit(DepositTo(users, id, value).users, id) == ResetDeposit(users, id)
  {
    assert users[id].(deposit := users[id].deposit + value).(deposit := 0) == users[id].(deposit := 0);
  }

  // =====================================================================
  // Products
  // =====================================================================

  /** `findProductById`: an empty id is refused; otherwise the row, or nothing. */
  function FindProductById(products: Products, id: string): (r: Result<Option<Product>, ServiceError>)
    ensures r.Failure? <==> id == ""
    ensures r.Failure? ==> r.error == ArgumentRequired
    ensures r.Success? ==> (r.value.Some? <==> id in products)
    ensures r.Success? && id in products ==> r.value.value == products[id]
  {
    if id == "" then Failure(ArgumentRequired)
    else if id in products then Success(Some(products[id]))
    else Success(None)
  }

  /** `findAllProducts`: every row of the table (the order is not modelled). */
  function FindAllProducts(products: Products): (r: set<Product>)
    ensures forall k :: k in products ==> products[k] in r
    ensures forall p :: p in r ==> exists k :: k in products && products[k] == p
  {
    set k | k in products :: products[k]
  }

  /** The row `createProduct` saves: the body's fields, a new id, and the caller as seller. */
  function NewProduct(id: string, sellerId: string, dto: CreateProductDto): (p: Product)
    ensures p.id == id && p.sellerId == sellerId
    ensures p.amountAvailable == dto.amountAvailable && p.cost == dto.cost && p.productName == dto.productName
  {
    Product(id, dto.amountAvailable, dto.cost, dto.productName, sellerId)
  }

  /** The spread merge of `updateProduct`: the properties the body carries replace the stored ones; id and seller stay. */
  function MergeProduct(product: Product, dto: UpdateProductDto): (p: Product)
    ensures p.id == product.id && p.sellerId == product.sellerId
    ensures p.amountAvailable == (if dto.amountAvailable.Some? then dto.amountAvailable.value else product.amountAvailable)
    ensures p.cost == (if dto.cost.Some? then dto.cost.value else product.cost)
    ensures p.productName == (if dto.productName.Some? then dto.productName.value else product.productName)
  {
    product.(amountAvailable := dto.amountAvailable.GetOr(product.amountAvailable),
             cost := dto.cost.GetOr(product.cost),
             productName := dto.productName.GetOr(product.productName))
  }

  /** `updateProduct`. */
  function UpdateProductRecord(products: Products, id: string, dto: UpdateProductDto): (s: ProductStep)
    ensures s.result.Failure? ==> s.products == products
    ensures s.result == Failure(ArgumentRequired) <==> id == ""
    ensures s.result == Failure(ProductNotFound) <==> id != "" && id !in products
    ensures s.result.Success? ==>
      id in products && s.products == products[id := MergeProduct(products[id], dto)] && s.result.value == s.products[id]
  {
    match FindProductById(products, id)
    case Failure(e) => ProductStep(Failure(e), products)
    case Success(None) => ProductStep(Failure(ProductNotFound), products)
    case Success(Some(product)) =>
      var saved := MergeProduct(product, dto);
      ProductStep(Success(saved), products[id := saved])
  }

  /** `removeProduct`: the row goes and the removed record is returned with its id cleared, as `remove` leaves it. */
  function RemoveProductRecord(products: Products, id: string): (s: ProductStep)
    ensures s.result.Failure? ==> s.products == products
    ensures s.result == Failure(ArgumentRequired) <==> id == ""
    ensures s.result == Failure(ProductNotFound) <==> id != "" && id !in products
    ensures s.result.Success? ==> id in products && s.products == products - {id} && s.result.value == products[id].(id := "")
  {
    match FindProductById(products, id)
    case Failure(e) => ProductStep(Failure(e), products)
    case Success(None) => ProductStep(Failure(ProductNotFound), products)
    case Success(Some(product)) => ProductStep(Success(product.(id := "")), products - {id})
  }

  /** An update with an empty body changes nothing, and repeating an update changes nothing more. */
  lemma UpdateProductIdempotent(products: Products, id: string, dto: UpdateProductDto)
    requires UpdateProductRecord(products, id, dto).result.Success?
    ensures UpdateProductRecord(products, id, UpdateProductDto(None, None, None)).products == products
    ensures var once := UpdateProductRecord(products, id, dto).products;
            UpdateProductRecord(once, id, dto) == UpdateProductRecord(products, id, dto)
  {
    var p := products[id];
    assert MergeProduct(p, UpdateProductDto(None, None, None)) == p;
    assert MergeProduct(MergeProduct(p, dto), dto) == MergeProduct(p, dto);
  }

  /** A product that was removed cannot be removed, updated or bought again. */
  lemma RemovedProductIsGone(products: Products, id: string, dto: UpdateProductDto)
    requires RemoveProductRecord(products, id).result.Success?
    ensures var after := RemoveProductRecord(products, id).products;
      && RemoveProductRecord(after, id).result == Failure(ProductNotFound)
      && UpdateProductRecord(after, id, dto).result == Failure(ProductNotFound)
      && after.Keys == products.Keys - {id}
  {
  }

  // =====================================================================
  // buyProducts
  // =====================================================================

  /** What a successful purchase returns. */
  datatype Receipt = Receipt(totalSpent: int, change: seq<CoinCount>, purchasedProducts: seq<Product>)

  /** A purchase's effect: what it returns or throws, and both tables afterwards. */
  datatype BuyOutcome = BuyOutcome(result: Result<Receipt, ServiceError>, users: Users, products: Products)

  /** The product ids of some lines, in order. */
  function Ids(lines: seq<BuyLine>): (r: seq<JsValue>)
    ensures |r| == |lines| && forall j :: 0 <= j < |lines| ==> r[j] == lines[j].productId
  {
    seq(|lines|, j requires 0 <= j < |lines| => lines[j].productId)
  }

  /**
   * The duplicate search of the validation loop: some other line (another
   * request object) carries the same product id as line i.
   */
  predicate HasDuplicate(lines: seq<BuyLine>, i: nat): (r: bool)
    requires i < |lines|
    ensures r <==> lines[i].productId in Ids(lines[..i] + lines[i + 1..])
  {
    var others := lines[..i] + lines[i + 1..];
    assert forall j :: 0 <= j < i ==> lines[j] == others[j];
    assert forall j :: i < j < |lines| ==> lines[j] == others[j - 1];
    exists j :: 0 <= j < |lines| && j != i && lines[j].productId == lines[i].productId
  }

  /** The key a line's product id looks up; non-string ids match no key. */
  function LineId(line: BuyLine): string
  {
    if line.productId.Str? then line.productId.s else ""
  }

  /** The requested amount of a line that passed validation. */
  function Amount(line: BuyLine): int
  {
    if line.productAmount.Num? then line.productAmount.n else 0
  }

  /**
   * The checks the validation loop makes on line i, in the code's order;
   * the first that fails is thrown, and a line that passes yields the
   * stored product.
   */
  function CheckLine(lines: seq<BuyLine>, i: nat, products: Products): (r: Result<Product, ServiceError>)
    requires i < |lines|
    ensures r.Success? ==>
      && lines[i].productId.Str? && LineId(lines[i]) in products
      && r.value == products[LineId(lines[i])]
      && !HasDuplicate(lines, i)
      && lines[i].productAmount.Num?
      && 0 < Amount(lines[i]) <= r.value.amountAvailable
    ensures r == Failure(ValueRequired(ProductIdValue)) <==> !Truthy(lines[i].productId)
    ensures r == Failure(DuplicateProduct) <==> Truthy(lines[i].productId) && HasDuplicate(lines, i)
    ensures r == Failure(ValueRequired(ProductAmountValue)) <==>
      Truthy(lines[i].productId) && !HasDuplicate(lines, i) && !Truthy(lines[i].productAmount)
    ensures r == Failure(InvalidNumber) <==>
      && Truthy(lines[i].productId) && !HasDuplicate(lines, i) && Truthy(lines[i].productAmount)
      && !lines[i].productAmount.Num?
    ensures r == Failure(NotPositiveNumber) <==>
      && Truthy(lines[i].productId) && !HasDuplicate(lines, i)
      && lines[i].productAmount.Num? && lines[i].productAmount.n < 0
    ensures r == Failure(ProductNotFound) <==>
      && Truthy(lines[i].productId) && !HasDuplicate(lines, i)
      && lines[i].productAmount.Num? && lines[i].productAmount.n > 0
      && (!lines[i].productId.Str? || LineId(lines[i]) !in products)
    ensures r == Failure(ProductAmountNotAvailable) <==>
      && Truthy(lines[i].productId) && !HasDuplicate(lines, i)
      && lines[i].productAmount.Num? && lines[i].productAmount.n > 0
      && lines[i].productId.Str? && LineId(lines[i]) in products
      && lines[i].productAmount.n > products[LineId(lines[i])].amountAvailable
  {
    var line := lines[i];
    if !Truthy(line.productId) then Failure(ValueRequired(ProductIdValue))
    else if HasDuplicate(lines, i) then Failure(DuplicateProduct)
    else if !Truthy(line.productAmount) then Failure(ValueRequired(ProductAmountValue))
    else if !line.productAmount.Num? then Failure(InvalidNumber)
    else if line.productAmount.n <= 0 then Failure(NotPositiveNumber)
    else if !line.productId.Str? then Failure(ProductNotFound)
    else
      match FindProductById(products, line.productId.s)
      case Failure(e) => Failure(e)
      case Success(None) => Failure(ProductNotFound)
      case Success(Some(storeProduct)) =>
        if line.productAmount.n > storeProduct.amountAvailable then Failure(ProductAmountNotAvailable)
        else Success(storeProduct)
  }

  /**
   * The validation loop over the first k lines: the products to buy in
   * request order, or the error of the first line that fails.
   */
  function ValidateLines(lines: seq<BuyLine>, products: Products, k: nat): (r: Result<seq<Product>, ServiceError>)
    requires k <= |lines|
    ensures r.Success? <==> forall i :: 0 <= i < k ==> CheckLine(lines, i, products).Success?
    ensures r.Success? ==> |r.value| == k && forall i :: 0 <= i < k ==> CheckLine(lines, i, products) == Success(r.value[i])
    ensures r.Failure? ==> exists i :: 0 <= i < k && CheckLine(lines, i, products) == Failure(r.error)
                                       && (forall j :: 0 <= j < i ==> CheckLine(lines, j, products).Success?)
    decreases k
  {
    if k == 0 then Success([])
    else
      match ValidateLines(lines, products, k - 1)
      case Failure(e) => Failure(e)
      case Success(ps) =>
        match CheckLine(lines, k - 1, products)
        case Failure(e) => Failure(e)
        case Success(p) => Success(ps + [p])
  }

  /** Every one of the first k lines asks for a non-negative amount at a non-negative price. */
  predicate NonNegativeTerms(lines: seq<BuyLine>, toBuy: seq<Product>, k: nat)
    requires k <= |lines| && k <= |toBuy|
  {
    forall i :: 0 <= i < k ==> 0 <= Amount(lines[i]) && 0 <= toBuy[i].cost
  }

  /** `costSum`: Σ productAmount × cost over the first k lines and the products found for them. */
  function CostSum(lines: seq<BuyLine>, toBuy: seq<Product>, k: nat): int
    requires k <= |lines| && k <= |toBuy|
  {
    if k == 0 then 0 else CostSum(lines, toBuy, k - 1) + Amount(lines[k - 1]) * toBuy[k - 1].cost
  }

  /** An order total is never negative when no line has a negative amount or price. */
  lemma {:induction false} CostSumNonNegative(lines: seq<BuyLine>, toBuy: seq<Product>, k: nat)
    requires k <= |lines| && k <= |toBuy|
    requires NonNegativeTerms(lines, toBuy, k)
    ensures 0 <= CostSum(lines, toBuy, k)
  {
    if k > 0 {
      assert NonNegativeTerms(lines, toBuy, k - 1);
      CostSumNonNegative(lines, toBuy, k - 1);
      assert 0 <= Amount(lines[k - 1]) * toBuy[k - 1].cost;
    }
  }

  /** The same sum priced from the catalog, line by line. */
  function CatalogTotal(lines: seq<BuyLine>, products: Products, k: nat): int
    requires k <= |lines|
  {
    if k == 0 then 0
    else
      var price := if LineId(lines[k - 1]) in products then products[LineId(lines[k - 1])].cost else 0;
      CatalogTotal(lines, products, k - 1) + Amount(lines[k - 1]) * price
  }

  /** A product whose stock is lowered by the given amount. */
  function Decrement(p: Product, amount: int): Product
  {
    p.(amountAvailable := p.amountAvailable - amount)
  }

  /** The purchased products after the commit loop: each one decremented by its line's amount. */
  function Decremented(lines: seq<BuyLine>, toBuy: seq<Product>): (r: seq<Product>)
    requires |toBuy| == |lines|
    ensures |r| == |lines|
    ensures forall i :: 0 <= i < |r| ==> r[i] == Decrement(toBuy[i], Amount(lines[i]))
  {
    seq(|lines|, i requires 0 <= i < |lines| => Decrement(toBuy[i], Amount(lines[i])))
  }

  /** The product table after the first k saves of the commit loop. */
  function CommitStock(products: Products, lines: seq<BuyLine>, toBuy: seq<Product>, k: nat): (r: Products)
    requires k <= |lines| && |toBuy| == |lines|
    ensures products.Keys <= r.Keys
  {
    if k == 0 then products
    else CommitStock(products, lines, toBuy, k - 1)[LineId(lines[k - 1]) := Decrement(toBuy[k - 1], Amount(lines[k - 1]))]
  }

  /**
   * `buyProducts`: find the buyer, validate every line, and settle the
   * validated order.
   */
  function Purchase(users: Users, products: Products, userId: string, lines: seq<BuyLine>): (o: BuyOutcome)
    ensures o.users.Keys == users.Keys
    ensures forall k :: k in users && k != userId ==> o.users[k] == users[k]
    ensures o.result.Success? ==> |o.result.value.purchasedProducts| == |lines|
  {
    match FindUserById(users, userId)
    case Failure(e) => BuyOutcome(Failure(e), users, products)
    case Success(None) => BuyOutcome(Failure(UserNotFound), users, products)
    case Success(Some(storeUser)) =>
      match ValidateLines(lines, products, |lines|)
      case Failure(e) => BuyOutcome(Failure(e), users, products)
      case Success(toBuy) => Settle(users, products, userId, storeUser.deposit, lines, toBuy)
  }

  /**
   * The rest of `buyProducts` once the lines are validated: price the
   * order and check the buyer's balance, then save each decremented
   * product, debit the buyer, and only then decompose the remaining
   * balance into change.
   */
  function Settle(users: Users, products: Products, userId: string, deposit: int, lines: seq<BuyLine>, toBuy: seq<Product>): (o: BuyOutcome)
    requires |toBuy| == |lines|
    ensures o.users.Keys == users.Keys
    ensures forall k :: k in users && k != userId ==> o.users[k] == users[k]
    ensures o.result.Success? ==> |o.result.value.purchasedProducts| == |lines|
  {
    var costSum := CostSum(lines, toBuy, |lines|);
    if deposit < costSum then BuyOutcome(Failure(UserDepositInsufficient), users, products)
    else
      var committed := CommitStock(products, lines, toBuy, |lines|);
      var debited := Withdraw(users, userId, costSum);
      match debited.result
      case Failure(e) => BuyOutcome(Failure(e), debited.users, committed)
      case Success(updatedUser) =>
        match Decompose(updatedUser.deposit as real)
        case Failure(ce) => BuyOutcome(Failure(Decomposition(ce)), debited.users, committed)
        case Success(change) =>
          BuyOutcome(Success(Receipt(costSum, change, Decremented(lines, toBuy))), debited.users, committed)
  }

  /** A known buyer with a validated order reaches the settling step with their stored balance. */
  lemma PurchaseSettles(users: Users, products: Products, userId: string, lines: seq<BuyLine>)
    requires userId != "" && userId in users
    requires ValidateLines(lines, products, |lines|).Success?
    ensures Purchase(users, products, userId, lines)
         == Settle(users, products, userId, users[userId].deposit, lines, ValidateLines(lines, products, |lines|).value)
  {
    assert FindUserById(users, userId) == Success(Some(View(users[userId])));
  }

  /** A settled order that returns took exactly the price from the buyer, and the tables are the commit's. */
  lemma SettleReturns(users: Users, products: Products, userId: string, lines: seq<BuyLine>, toBuy: seq<Product>)
    requires |toBuy| == |lines| && userId in users
    requires Settle(users, products, userId, users[userId].deposit, lines, toBuy).result.Success?
    ensures var cost := CostSum(lines, toBuy, |lines|);
            var o := Settle(users, products, userId, users[userId].deposit, lines, toBuy);
      && cost <= users[userId].deposit
      && o.users == users[userId := users[userId].(deposit := users[userId].deposit - cost)]
      && o.products == CommitStock(products, lines, toBuy, |lines|)
      && o.result.value.totalSpent == cost
      && o.result.value.purchasedProducts == Decremented(lines, toBuy)
      && Decompose((users[userId].deposit - cost) as real) == Success(o.result.value.change)
  {
  }

  /** Once the balance covers the price, settling writes both tables and fails exactly when the change cannot be paid. */
  lemma SettleAfterPayment(users: Users, products: Products, userId: string, lines: seq<BuyLine>, toBuy: seq<Product>)
    requires |toBuy| == |lines| && userId != "" && userId in users
    requires CostSum(lines, toBuy, |lines|) <= users[userId].deposit
    ensures var left := users[userId].deposit - CostSum(lines, toBuy, |lines|);
            var o := Settle(users, products, userId, users[userId].deposit, lines, toBuy);
      && o.users == users[userId := users[userId].(deposit := left)]
      && o.products == CommitStock(products, lines, toBuy, |lines|)
      && (o.result.Failure? <==> left % 5 != 0)
      && (o.result.Failure? ==> o.result.error == Decomposition(NoCoinFits))
  {
    var cost := CostSum(lines, toBuy, |lines|);
    var left := users[userId].deposit - cost;
    var debited := Withdraw(users, userId, cost);
    assert debited.result.value.deposit == left;
    DecomposeOutcomes(left as real);
    assert (left as real).Floor == left;
  }

  /** Some line among the first k names the product stored under `key`. */
  ghost predicate Requested(lines: seq<BuyLine>, key: string, k: nat)
    requires k <= |lines|
  {
    exists i :: 0 <= i < k && LineId(lines[i]) == key
  }

  /** Once a line fails, validation throws that line's error however many lines follow. */
  lemma {:induction false} ValidationFailureSticks(lines: seq<BuyLine>, products: Products, k: nat, m: nat)
    requires k <= m <= |lines|
    requires ValidateLines(lines, products, k).Failure?
    ensures ValidateLines(lines, products, m) == ValidateLines(lines, products, k)
    decreases m - k
  {
    if m > k {
      ValidationFailureSticks(lines, products, k, m - 1);
    }
  }

  /**
   * What a validated order guarantees, line by line: the product found is
   * the stored row under the line's id, the amount is positive and in
   * stock, and no two lines name the same product.
   */
  ghost predicate Accepted(lines: seq<BuyLine>, products: Products, toBuy: seq<Product>)
  {
    && |toBuy| == |lines|
    && (forall i :: 0 <= i < |lines| ==>
          && lines[i].productId.Str? && LineId(lines[i]) in products
          && toBuy[i] == products[LineId(lines[i])]
          && 0 < Amount(lines[i]) <= toBuy[i].amountAvailable)
    && (forall i, j :: 0 <= i < j < |lines| ==> LineId(lines[i]) != LineId(lines[j]))
  }

  /** Validation succeeds only on an accepted order. */
  lemma ValidationAccepts(lines: seq<BuyLine>, products: Products)
    requires ValidateLines(lines, products, |lines|).Success?
    ensures Accepted(lines, products, ValidateLines(lines, products, |lines|).value)
  {
    var toBuy := ValidateLines(lines, products, |lines|).value;
    forall i | 0 <= i < |lines|
      ensures lines[i].productId.Str? && LineId(lines[i]) in products && toBuy[i] == products[LineId(lines[i])]
      ensures 0 < Amount(lines[i]) <= toBuy[i].amountAvailable
    {
      assert CheckLine(lines, i, products) == Success(toBuy[i]);
    }
    forall i, j | 0 <= i < j < |lines|
      ensures LineId(lines[i]) != LineId(lines[j])
    {
      assert CheckLine(lines, i, products).Success?;
      assert !HasDuplicate(lines, i);
    }
  }

  /** The duplicate check: a validated order names every product at most once. */
  lemma ValidatedLinesAreDistinct(lines: seq<BuyLine>, products: Products)
    requires ValidateLines(lines, products, |lines|).Success?
    ensures forall i, j :: 0 <= i < j < |lines| ==> lines[i].productId != lines[j].productId
  {
    ValidationAccepts(lines, products);
  }

  /**
   * The search in the pricing step: the first product to buy whose id is
   * the line's product id.
   */
  function FindToBuy(toBuy: seq<Product>, productId: JsValue): (r: Option<Product>)
    ensures r.Some? ==> r.value in toBuy && productId == Str(r.value.id)
    ensures r.None? ==> forall p :: p in toBuy ==> productId != Str(p.id)
  {
    if toBuy == [] then None
    else if productId == Str(toBuy[0].id) then Some(toBuy[0])
    else FindToBuy(toBuy[1..], productId)
  }

  /** After validation, the `find` in `costSum` picks, for line i, exactly the i-th product to buy. */
  lemma FindPicksLinesProduct(lines: seq<BuyLine>, products: Products, i: nat)
    requires ProductsKeyed(products)
    requires ValidateLines(lines, products, |lines|).Success?
    requires i < |lines|
    ensures FindToBuy(ValidateLines(lines, products, |lines|).value, lines[i].productId)
         == Some(ValidateLines(lines, products, |lines|).value[i])
  {
    var toBuy := ValidateLines(lines, products, |lines|).value;
    ValidationAccepts(lines, products);
    FindFirstMatch(lines, products, toBuy, i, 0);
  }

  lemma {:induction false} FindFirstMatch(lines: seq<BuyLine>, products: Products, toBuy: seq<Product>, i: nat, from: nat)
    requires ProductsKeyed(products)
    requires Accepted(lines, products, toBuy)
    requires from <= i < |lines|
    ensures FindToBuy(toBuy[from..], lines[i].productId) == Some(toBuy[i])
    decreases i - from
  {
    assert toBuy[from..][0] == toBuy[from];
    if from < i {
      assert LineId(lines[from]) != LineId(lines[i]);
      assert toBuy[from..][1..] == toBuy[from + 1..];
      FindFirstMatch(lines, products, toBuy, i, from + 1);
    }
  }

  /** The validated `costSum` is the order priced from the catalog. */
  lemma {:induction false} CostSumIsCatalogTotal(lines: seq<BuyLine>, products: Products, toBuy: seq<Product>, k: nat)
    requires Accepted(lines, products, toBuy)
    requires k <= |lines|
    ensures CostSum(lines, toBuy, k) == CatalogTotal(lines, products, k)
  {
    if k > 0 {
      CostSumIsCatalogTotal(lines, products, toBuy, k - 1);
    }
  }

  /**
   * The first k saves of the commit loop decrement exactly the products of
   * the first k lines, each by its line's amount, and leave every other row
   * and the set of keys as they were.
   */
  lemma CommitStockEffect(products: Products, lines: seq<BuyLine>, toBuy: seq<Product>, k: nat)
    requires Accepted(lines, products, toBuy)
    requires k <= |lines|
    ensures CommitStock(products, lines, toBuy, k).Keys == products.Keys
    ensures forall i :: 0 <= i < k ==>
      CommitStock(products, lines, toBuy, k)[LineId(lines[i])] == Decrement(toBuy[i], Amount(lines[i]))
    ensures forall key :: key in products && !Requested(lines, key, k) ==>
      CommitStock(products, lines, toBuy, k)[key] == products[key]
  {
    CommitStockKeys(products, lines, toBuy, k);
    forall i | 0 <= i < k
      ensures CommitStock(products, lines, toBuy, k)[LineId(lines[i])] == Decrement(toBuy[i], Amount(lines[i]))
    {
      CommitStockLowersLine(products, lines, toBuy, k, i);
    }
    forall key | key in products && !Requested(lines, key, k)
      ensures CommitStock(products, lines, toBuy, k)[key] == products[key]
    {
      CommitStockSparesOthers(products, lines, toBuy, k, key);
    }
  }

  lemma {:induction false} CommitStockKeys(products: Products, lines: seq<BuyLine>, toBuy: seq<Product>, k: nat)
    requires Accepted(lines, products, toBuy)
    requires k <= |lines|
    ensures CommitStock(products, lines, toBuy, k).Keys == products.Keys
  {
    if k > 0 {
      CommitStockKeys(products, lines, toBuy, k - 1);
    }
  }

  lemma {:induction false} CommitStockLowersLine(products: Products, lines: seq<BuyLine>, toBuy: seq<Product>, k: nat, i: nat)
    requires Accepted(lines, products, toBuy)
    requires i < k <= |lines|
    ensures LineId(lines[i]) in CommitStock(products, lines, toBuy, k)
    ensures CommitStock(products, lines, toBuy, k)[LineId(lines[i])] == Decrement(toBuy[i], Amount(lines[i]))
  {
    if i < k - 1 {
      CommitStockLowersLine(products, lines, toBuy, k - 1, i);
      assert LineId(lines[i]) != LineId(lines[k - 1]);
    }
  }

  lemma {:induction false} CommitStockSparesOthers(products: Products, lines: seq<BuyLine>, toBuy: seq<Product>, k: nat, key: string)
    requires Accepted(lines, products, toBuy)
    requires k <= |lines|
    requires key in products && !Requested(lines, key, k)
    ensures key in CommitStock(products, lines, toBuy, k)
    ensures CommitStock(products, lines, toBuy, k)[key] == products[key]
  {
    if k > 0 {
      assert LineId(lines[k - 1]) != key;
      assert !Requested(lines, key, k - 1);
      CommitStockSparesOthers(products, lines, toBuy, k - 1, key);
    }
  }

  /** Every line that passes validation asks for no more than is stored, so the commit leaves no stock negative. */
  lemma CommitKeepsStockNonNegative(products: Products, lines: seq<BuyLine>, toBuy: seq<Product>)
    requires Accepted(lines, products, toBuy)
    requires StockNonNegative(products)
    ensures StockNonNegative(CommitStock(products, lines, toBuy, |lines|))
  {
    var after := CommitStock(products, lines, toBuy, |lines|);
    CommitStockEffect(products, lines, toBuy, |lines|);
    forall key | key in after
      ensures after[key].amountAvailable >= 0
    {
      if Requested(lines, key, |lines|) {
        var i :| 0 <= i < |lines| && LineId(lines[i]) == key;
      }
    }
  }

  /**
   * A purchase that returns has validated every line, priced the order
   * from the catalog, taken exactly that price from the buyer and nothing
   * from anyone else, lowered each requested product's stock by the
   * requested amount (never below zero) and left every other product as
   * it was; it reports the products as saved, in request order, and
   * change worth the new balance.
   */
  lemma PurchaseSucceeds(users: Users, products: Products, userId: string, lines: seq<BuyLine>)
    requires Purchase(users, products, userId, lines).result.Success?
    ensures userId in users && ValidateLines(lines, products, |lines|).Success?
    ensures var o := Purchase(users, products, userId, lines);
            var spent := CatalogTotal(lines, products, |lines|);
      && o.result.value.totalSpent == spent
      && spent <= users[userId].deposit
      && o.users == users[userId := users[userId].(deposit := users[userId].deposit - spent)]
      && CoinSum(o.result.value.change) == users[userId].deposit - spent
    ensures var o := Purchase(users, products, userId, lines);
      && o.products.Keys == products.Keys
      && |o.result.value.purchasedProducts| == |lines|
      && (forall i :: 0 <= i < |lines| ==>
            && LineId(lines[i]) in products
            && o.products[LineId(lines[i])] == Decrement(products[LineId(lines[i])], Amount(lines[i]))
            && 0 < Amount(lines[i]) <= products[LineId(lines[i])].amountAvailable
            && o.result.value.purchasedProducts[i] == o.products[LineId(lines[i])])
      && (forall key :: key in products && !Requested(lines, key, |lines|) ==> o.products[key] == products[key])
  {
    PurchaseReturns(users, products, userId, lines);
    PurchaseSettles(users, products, userId, lines);
    ValidationAccepts(lines, products);
    SettledReceipt(users, products, userId, lines, ValidateLines(lines, products, |lines|).value);
  }

  /** The settling step of a purchase that returns, for an accepted order. */
  lemma SettledReceipt(users: Users, products: Products, userId: string, lines: seq<BuyLine>, toBuy: seq<Product>)
    requires userId in users && Accepted(lines, products, toBuy)
    requires Settle(users, products, userId, users[userId].deposit, lines, toBuy).result.Success?
    ensures var o := Settle(users, products, userId, users[userId].deposit, lines, toBuy);
            var spent := CatalogTotal(lines, products, |lines|);
      && o.result.value.totalSpent == spent
      && spent <= users[userId].deposit
      && o.users == users[userId := users[userId].(deposit := users[userId].deposit - spent)]
      && CoinSum(o.result.value.change) == users[userId].deposit - spent
    ensures var o := Settle(users, products, userId, users[userId].deposit, lines, toBuy);
      && o.products.Keys == products.Keys
      && |o.result.value.purchasedProducts| == |lines|
      && (forall i :: 0 <= i < |lines| ==>
            && LineId(lines[i]) in products
            && o.products[LineId(lines[i])] == Decrement(products[LineId(lines[i])], Amount(lines[i]))
            && 0 < Amount(lines[i]) <= products[LineId(lines[i])].amountAvailable
            && o.result.value.purchasedProducts[i] == o.products[LineId(lines[i])])
      && (forall key :: key in products && !Requested(lines, key, |lines|) ==> o.products[key] == products[key])
  {
    SettleReturns(users, products, userId, lines, toBuy);
    CostSumIsCatalogTotal(lines, products, toBuy, |lines|);
    CommitStockEffect(products, lines, toBuy, |lines|);
    var spent := CatalogTotal(lines, products, |lines|);
    DecomposeOutcomes((users[userId].deposit - spent) as real);
    assert ((users[userId].deposit - spent) as real).Floor == users[userId].deposit - spent;
  }

  /** A purchase that returns went down the one path of `buyProducts` that reaches the `return`. */
  lemma PurchaseReturns(users: Users, products: Products, userId: string, lines: seq<BuyLine>)
    requires Purchase(users, products, userId, lines).result.Success?
    ensures userId in users && ValidateLines(lines, products, |lines|).Success?
    ensures var toBuy := ValidateLines(lines, products, |lines|).value;
            var cost := CostSum(lines, toBuy, |lines|);
            var o := Purchase(users, products, userId, lines);
      && cost <= users[userId].deposit
      && o.users == users[userId := users[userId].(deposit := users[userId].deposit - cost)]
      && o.products == CommitStock(products, lines, toBuy, |lines|)
      && o.result.value.totalSpent == cost
      && o.result.value.purchasedProducts == Decremented(lines, toBuy)
      && Decompose((users[userId].deposit - cost) as real) == Success(o.result.value.change)
  {
    assert userId != "" && userId in users;
    assert ValidateLines(lines, products, |lines|).Success?;
    PurchaseSettles(users, products, userId, lines);
    SettleReturns(users, products, userId, lines, ValidateLines(lines, products, |lines|).value);
  }

  /**
   * Which error a failing purchase throws, in the order `buyProducts`
   * checks: the buyer, then each line, then the balance; before the
   * commit nothing is written.
   */
  lemma PurchaseFailsBeforeCommit(users: Users, products: Products, userId: string, lines: seq<BuyLine>)
    ensures var o := Purchase(users, products, userId, lines);
      && (userId == "" ==> o == BuyOutcome(Failure(ArgumentRequired), users, products))
      && (userId != "" && userId !in users ==> o == BuyOutcome(Failure(UserNotFound), users, products))
      && (userId != "" && userId in users && ValidateLines(lines, products, |lines|).Failure? ==>
            o == BuyOutcome(Failure(ValidateLines(lines, products, |lines|).error), users, products))
      && (userId != "" && userId in users && ValidateLines(lines, products, |lines|).Success? ==>
            var cost := CostSum(lines, ValidateLines(lines, products, |lines|).value, |lines|);
            (o.result == Failure(UserDepositInsufficient) <==> users[userId].deposit < cost) &&
            (users[userId].deposit < cost ==> o.users == users && o.products == products))
  {
  }

  /**
   * The one failure that comes after the writes: once the order is
   * validated and paid for, the stock has been lowered and the buyer
   * debited, and only then is the remaining balance decomposed; the
   * purchase throws exactly when that balance is not a multiple of 5, and
   * the writes stay applied.
   */
  lemma ChangeFailsAfterCommit(users: Users, products: Products, userId: string, lines: seq<BuyLine>)
    requires userId != "" && userId in users
    requires ValidateLines(lines, products, |lines|).Success?
    requires CostSum(lines, ValidateLines(lines, products, |lines|).value, |lines|) <= users[userId].deposit
    ensures var toBuy := ValidateLines(lines, products, |lines|).value;
            var left := users[userId].deposit - CostSum(lines, toBuy, |lines|);
            var o := Purchase(users, products, userId, lines);
      && o.users == users[userId := users[userId].(deposit := left)]
      && o.products == CommitStock(products, lines, toBuy, |lines|)
      && (o.result.Failure? <==> left % 5 != 0)
      && (o.result.Failure? ==> o.result.error == Decomposition(NoCoinFits))
  {
    PurchaseSettles(users, products, userId, lines);
    SettleAfterPayment(users, products, userId, lines, ValidateLines(lines, products, |lines|).value);
  }

  /** A purchase never makes a balance or a stock level negative. */
  lemma PurchaseKeepsInvariants(users: Users, products: Products, userId: string, lines: seq<BuyLine>)
    requires DepositsNonNegative(users) && StockNonNegative(products)
    ensures DepositsNonNegative(Purchase(users, products, userId, lines).users)
    ensures StockNonNegative(Purchase(users, products, userId, lines).products)
  {
    var vl := ValidateLines(lines, products, |lines|);
    if userId != "" && userId in users && vl.Success? {
      PurchaseSettles(users, products, userId, lines);
      ValidationAccepts(lines, products);
      CommitKeepsStockNonNegative(products, lines, vl.value);
    }
  }

  // =====================================================================
  // Fresh primary keys
  // =====================================================================

  function Repeat(n: nat): (w: string)
    ensures |w| == n
  {
    if n == 0 then "" else "x" + Repeat(n - 1)
  }

  ghost function LongestKey(keys: set<string>): (m: nat)
    ensures forall k :: k in keys ==> |k| <= m
    decreases |keys|
  {
    if keys == {} then 0
    else
      var k :| k in keys;
      var m := LongestKey(keys - {k});
      if |k| > m then |k| else m
  }

  /** However many rows a table holds, some non-empty key is still unused (what `uuidv4()` relies on). */
  lemma FreshKeyExists(keys: set<string>)
    ensures exists id :: id != "" && id !in keys
  {
    var w := Repeat(LongestKey(keys) + 1);
    assert w !in keys;
  }

  // =====================================================================
  // The service object
  // =====================================================================

  /**
   * The store with its two repositories. Each method does what the
   * corresponding specification function above says, to the table it
   * names, and leaves the other table alone.
   */
  class StoreService {
    var users: Users
    var products: Products

    ghost predicate Valid()
      reads this
    {
      UsersKeyed(users) && ProductsKeyed(products)
    }

    /** Empty repositories. */
    constructor ()
      ensures Valid() && users == map[] && products == map[]
    {
      users := map[];
      products := map[];
    }

    /** `findUserByUsername`: the row whose username is the lower-cased query, without its password. */
    method FindUserByUsername(username: string) returns (r: Result<Option<UserView>, ServiceError>)
      ensures r.Failure? <==> username == ""
      ensures r.Failure? ==> r.error == ArgumentRequired
      ensures r.Success? ==> (r.value.Some? <==> UsernameTaken(users, username))
      ensures r.Success? && r.value.Some? ==>
        exists k :: k in users && users[k].username == ToLower(username) && r.value.value == View(users[k])
    {
      if username == "" {
        return Failure(ArgumentRequired);
      }
      var name := ToLower(username);
      if k :| k in users && users[k].username == name {
        return Success(Some(View(users[k])));
      }
      return Success(None);
    }

    /** `createUser`: a row under a new id, holding the hash the caller computed. */
    method CreateUser(dto: CreateUserDto, passwordHash: string) returns (r: UserView)
      requires Valid()
      modifies this
      ensures Valid() && products == old(products)
      ensures r.id != "" && r.id !in old(users)
      ensures users == old(users)[r.id := NewUser(r.id, dto, passwordHash)]
      ensures r == View(users[r.id])
    {
      FreshKeyExists(users.Keys);
      var id :| id != "" && id !in users;
      var newUser := NewUser(id, dto, passwordHash);
      users := users[id := newUser];
      r := View(newUser);
    }

    /** `updateUser`: the stored row merged with the present fields of the body. */
    method UpdateUser(id: string, dto: UpdateUserDto) returns (r: Result<UserView, ServiceError>)
      requires Valid()
      modifies this
      ensures Valid() && products == old(products)
      ensures UserStep(r, users) == UpdateUserRecord(old(users), id, dto)
    {
      var found := FindUserById(users, id);
      if found.Failure? {
        return Failure(found.error);
      }
      if found.value.None? {
        return Failure(UserNotFound);
      }
      var user := found.value.value;
      var saved := MergeUser(WithPassword(user, users[user.id].password), dto);
      users := users[user.id := saved];
      r := Success(View(saved));
    }

    /** `removeUser`. */
    method RemoveUser(id: string) returns (r: Result<UserView, ServiceError>)
      requires Valid()
      modifies this
      ensures Valid() && products == old(products)
      ensures UserStep(r, users) == RemoveUserRecord(old(users), id)
    {
      var found := FindUserById(users, id);
      if found.Failure? {
        return Failure(found.error);
      }
      if found.value.None? {
        return Failure(UserNotFound);
      }
      var user := found.value.value;
      users := users - {user.id};
      r := Success(user.(id := ""));
    }

    /** `withdrawUserDeposit`. */
    method WithdrawUserDeposit(id: string, amountToWithdraw: int) returns (r: Result<UserView, ServiceError>)
      requires Valid()
      modifies this
      ensures Valid() && products == old(products)
      ensures UserStep(r, users) == Withdraw(old(users), id, amountToWithdraw)
    {
      var found := FindUserById(users, id);
      if found.Failure? {
        return Failure(found.error);
      }
      if found.value.None? {
        return Failure(UserNotFound);
      }
      var user := found.value.value;
      if user.deposit < amountToWithdraw {
        return Failure(UserDepositInsufficient);
      }
      user := user.(deposit := user.deposit - amountToWithdraw);
      var saved := WithPassword(user, users[user.id].password);
      users := users[user.id := saved];
      r := Success(View(saved));
    }

    /** `depositToUserAccount`. */
    method DepositToUserAccount(userId: string, depositValue: int) returns (r: Result<UserView, ServiceError>)
      requires Valid()
      modifies this
      ensures Valid() && products == old(products)
      ensures UserStep(r, users) == DepositTo(old(users), userId, depositValue)
    {
      var found := FindUserById(users, userId);
      if found.Failure? {
        return Failure(found.error);
      }
      if found.value.None? {
        return Failure(UserNotFound);
      }
      var user := found.value.value;
      user := user.(deposit := user.deposit + depositValue);
      var saved := WithPassword(user, users[user.id].password);
      users := users[user.id := saved];
      r := Success(View(saved));
    }

    /** `resetUserDeposit`, with the unknown-user error it evidently means to throw. */
    method ResetUserDeposit(userId: string) returns (r: Result<UserView, ServiceError>)
      requires Valid()
      modifies this
      ensures Valid() && products == old(products)
      ensures UserStep(r, users) == ResetDeposit(old(users), userId)
    {
      var found := FindUserById(users, userId);
      if found.Failure? {
        return Failure(found.error);
      }
      if found.value.None? {
        return Failure(UserNotFound);
      }
      var user := found.value.value;
      user := user.(deposit := 0);
      var saved := WithPassword(user, users[user.id].password);
      users := users[user.id := saved];
      r := Success(View(saved));
    }

    /** `createProduct`: a row under a new id, with the caller as its seller. */
    method CreateProduct(userId: string, dto: CreateProductDto) returns (r: Product)
      requires Valid()
      modifies this
      ensures Valid() && users == old(users)
      ensures r.id != "" && r.id !in old(products)
      ensures products == old(products)[r.id := r]
      ensures r == NewProduct(r.id, userId, dto)
    {
      FreshKeyExists(products.Keys);
      var id :| id != "" && id !in products;
      r := NewProduct(id, userId, dto);
      products := products[id := r];
    }

    /** `updateProduct`. */
    method UpdateProduct(id: string, dto: UpdateProductDto) returns (r: Result<Product, ServiceError>)
      requires Valid()
      modifies this
      ensures Valid() && users == old(users)
      ensures ProductStep(r, products) == UpdateProductRecord(old(products), id, dto)
    {
      var found := FindProductById(products, id);
      if found.Failure? {
        return Failure(found.error);
      }
      if found.value.None? {
        return Failure(ProductNotFound);
      }
      var saved := MergeProduct(found.value.value, dto);
      products := products[saved.id := saved];
      r := Success(saved);
    }

    /** `removeProduct`. */
    method RemoveProduct(id: string) returns (r: Result<Product, ServiceError>)
      requires Valid()
      modifies this
      ensures Valid() && users == old(users)
      ensures ProductStep(r, products) == RemoveProductRecord(old(products), id)
    {
      var found := FindProductById(products, id);
      if found.Failure? {
        return Failure(found.error);
      }
      if found.value.None? {
        return Failure(ProductNotFound);
      }
      var product := found.value.value;
      products := products - {product.id};
      r := Success(product.(id := ""));
    }

    /** The validation loop of `buyProducts`: the products to buy, or the first failing line's error. */
    method ValidateProducts(lines: seq<BuyLine>) returns (r: Result<seq<Product>, ServiceError>)
      ensures r == ValidateLines(lines, products, |lines|)
    {
      var productsToBuy: seq<Product> := [];
      for i := 0 to |lines|
        invariant ValidateLines(lines, products, i) == Success(productsToBuy)
      {
        var checked := CheckLine(lines, i, products);
        if checked.Failure? {
          ValidationFailureSticks(lines, products, i + 1, |lines|);
          return Failure(checked.error);
        }
        productsToBuy := productsToBuy + [checked.value];
      }
      return Success(productsToBuy);
    }

    /** The commit loop of `buyProducts`: each product to buy is decremented and saved. */
    method CommitPurchase(lines: seq<BuyLine>, productsToBuy: seq<Product>) returns (purchased: seq<Product>)
      requires Valid() && Accepted(lines, products, productsToBuy)
      modifies this
      ensures Valid() && users == old(users)
      ensures products == CommitStock(old(products), lines, productsToBuy, |lines|)
      ensures purchased == Decremented(lines, productsToBuy)
    {
      purchased := productsToBuy;
      for i := 0 to |lines|
        invariant |purchased| == |lines|
        invariant products == CommitStock(old(products), lines, productsToBuy, i)
        invariant ProductsKeyed(products) && users == old(users)
        invariant forall j :: 0 <= j < i ==> purchased[j] == Decrement(productsToBuy[j], Amount(lines[j]))
        invariant forall j :: i <= j < |lines| ==> purchased[j] == productsToBuy[j]
      {
        var productToBuy := Decrement(purchased[i], Amount(lines[i]));
        purchased := purchased[i := productToBuy];
        products := products[productToBuy.id := productToBuy];
      }
    }

    /**
     * `buyProducts`: find the buyer, validate, price the order, check the
     * balance, commit the stock, debit the buyer, and work out the change.
     */
    method BuyProducts(userId: string, lines: seq<BuyLine>) returns (r: Result<Receipt, ServiceError>)
      requires Valid()
      modifies this
      ensures Valid()
      ensures BuyOutcome(r, users, products) == Purchase(old(users), old(products), userId, lines)
    {
      var storeUser := FindUserById(users, userId);
      if storeUser.Failure? {
        return Failure(storeUser.error);
      }
      if storeUser.value.None? {
        return Failure(UserNotFound);
      }
      var buyer := storeUser.value.value;

      var validated := ValidateProducts(lines);
      if validated.Failure? {
        return Failure(validated.error);
      }
      var productsToBuy := validated.value;

      var costSum := CostSum(lines, productsToBuy, |lines|);
      if buyer.deposit < costSum {
        return Failure(UserDepositInsufficient);
      }

      ValidationAccepts(lines, products);
      var purchased := CommitPurchase(lines, productsToBuy);

      // The balance was checked above, so the debit cannot throw.
      var updatedUser := WithdrawUserDeposit(buyer.id, costSum);
      assert updatedUser.Success?;
      var change := NumberToCoinsCounts(updatedUser.value.deposit as real);
      if change.Failure? {
        return Failure(Decomposition(change.error));
      }
      return Success(Receipt(costSum, change.value, purchased));
    }
  }
}
