# Vending machine backend: the money-and-stock engine

A Dafny model of the core of the NestJS backend of `maiuka/vending-machine`.
It covers:

- the store service (backend/src/store/store.service.ts). This is a user
  table and a product table, modelled as maps from primary key to row, with
  `save` and `remove` as map updates. Each operation that writes a table is
  written twice: as a specification function over the tables, and as a
  method of the class `StoreService`, which mutates them and is proved to
  agree with that function. The lookups by id and the find-all queries are
  specification functions only, and the username search is a method only;
- `numberToCoinsCounts`, the greedy change-maker over the coins
  `[5, 10, 20, 50, 100]`, and `removeUserPassword` (backend/src/utils/utils.ts);
- `UserService.create` with its case-insensitive username check, and the
  deposit and reset operations (backend/src/user/user.service.ts);
- the buyer endpoints `deposit`, `buy` and `coins`, plus the `reset` endpoint
  (backend/src/app.controller.ts);
- the seller endpoints `findById`, `create`, `update` and `remove`, with the
  ownership rule `validateAccess` (backend/src/product/product.controller.ts).

Files and modules:

| file | module | contents |
|---|---|---|
| wrappers.dfy | `Wrappers` | `Option`, `Result`, `Outcome` |
| js.dfy | `Js` | request values, JavaScript truthiness, ASCII `toLowerCase` |
| app_config.dfy | `AppConfig` | `SUPPORTED_COINS` |
| entities.dfy | `Entities` | user and product rows, request bodies |
| exceptions.dfy | `Exceptions` | the service error kinds and HTTP errors |
| utils.dfy | `Utils` | `removeUserPassword`, `numberToCoinsCounts` |
| store.dfy | `Store` | specification functions, the purchase lemmas, class `StoreService` |
| user_service.dfy | `UserService` | class `UserService` |
| app_controller.dfy | `AppController` | request guards, class `AppController` |
| product_controller.dfy | `ProductController` | `validateAccess`, class `ProductController` |

Errors are modelled as kinds only: a `Result` whose `Failure` carries a
`ServiceError`, and `HttpError` for the controllers. A service error that a
controller does not catch becomes `InternalServerError`, NestJS's 500. Ids
are strings, and the empty string stands for a missing id. A falsy request
property is `Undefined`, `Null`, `0`, `""` or `false`, as `JsValue` spells
them out.

## Model

| member | source | states |
|---|---|---|
| `Utils.RemoveUserPassword` | backend/src/utils/utils.ts:6-12 | A missing user comes back missing. Otherwise the result has the same id, username, deposit and role. |
| `Utils.RemoveUserPasswordLosesOnlyPassword` | backend/src/utils/utils.ts:6-12 | Putting the password back restores the row. Two rows strip to the same record exactly when they differ at most in the password. |
| `Utils.CoinsAtMost` | backend/src/utils/utils.ts:29 | The filter keeps exactly the coins that are at most the remaining amount. |
| `Utils.ReduceMax` | backend/src/utils/utils.ts:35-38 | The reduce returns an upper bound of every element that is at least the seed, and is either the seed or one of the elements. |
| `Utils.MaxCoinAtMost` | backend/src/utils/utils.ts:29-38 | There is no coin exactly when the amount is below 5. Otherwise the result is the largest supported coin not above the amount. |
| `Utils.DivModByCoin` | backend/src/utils/utils.ts:40-41 | For a coin that fits, the quotient is at least 1, the remainder is below the coin, and the two recombine to the amount. |
| `Utils.Greedy` | backend/src/utils/utils.ts:22-49 | An amount of 0 or below gives the empty list. A failure is always "no coin fits". On success, Σ value×count is the amount, every value is a supported coin at most the amount, every count is at least 1, and the values strictly decrease. |
| `Utils.GreedyUnfold` | backend/src/utils/utils.ts:22-49 | One round of the loop: the entry for the largest coin comes first, then the decomposition of the remainder. |
| `Utils.Decompose` | backend/src/utils/utils.ts:14-52 | An amount of 0 or below gives []. A positive non-integer fails with "not an integer". On success, the coins are worth exactly the amount. |
| `Utils.NumberToCoinsCounts` | backend/src/utils/utils.ts:14-52 | The while loop with `coins.push` returns exactly `Decompose(amount)`. |
| `Utils.GreedyTakesLargestEachRound` | backend/src/utils/utils.ts:29-48 | Every round of the decomposition takes the largest supported coin not above the amount still to pay, as many times as it fits. |
| `Utils.LargestEachRoundAtIndex` | backend/src/utils/utils.ts:29-48 | In such a list, entry i holds the largest supported coin not above the amount minus entries 0..i-1, with count `left / coin`. |
| `Utils.RemainderKeepsResidue` | backend/src/utils/utils.ts:41 | Taking the remainder by a supported coin keeps the residue modulo 5. |
| `Utils.GreedySucceedsIffMultipleOfFive` | backend/src/utils/utils.ts:29-34 | A non-negative whole amount decomposes exactly when it is a multiple of 5. |
| `Utils.DecomposeOutcomes` | backend/src/utils/utils.ts:22-34 | The three outcomes hold exactly on these inputs: "not an integer" for positive non-integers; "no coin fits" for positive integers that are not multiples of 5; success otherwise. |
| `Utils.UnpayableExamples` | backend/src/utils/utils.ts:29-34 | 3 and 203 end in a remainder that no coin fits. |
| `AppConfig.SupportedCoinsAreMultiplesOfFive` | backend/src/core/app-config.ts:2 | Every supported coin is a positive multiple of 5. |
| `Js.Truthy` | backend/src/store/store.service.ts:184-199 | A request value is falsy exactly when it is `undefined`, `null`, `false`, `0` or `""`. |
| `Js.LowerChar` | backend/src/store/store.service.ts:63 | Upper-case ASCII letters map to lower case; everything else is unchanged. |
| `Js.ToLower` | backend/src/store/store.service.ts:63 | `toLowerCase` keeps the length and lowers each character. |
| `Js.ToLowerIdempotent` | backend/src/store/store.service.ts:70-74 | Lower-casing twice is lower-casing once, so stored names are already in lookup form. |
| `Store.FindUserById` | backend/src/store/store.service.ts:52-57 | It throws `ArgumentRequired` exactly for an empty id. Otherwise it returns the stripped row when the id is stored, and nothing if not. |
| `Store.FindAllUsers` | backend/src/store/store.service.ts:48-50 | The result holds exactly the stripped rows of the table. |
| `Store.NewUser` | backend/src/store/store.service.ts:68-78 | The new row has the given id, the lower-cased name, the hash, the role and a balance of 0. |
| `Store.Withdraw` | backend/src/store/store.service.ts:96-108 | Outcomes, each exactly on its inputs: `ArgumentRequired`; `UserNotFound`; `UserDepositInsufficient` with the table unchanged; or `deposit − amount`, which is ≥ 0, written to that row only. No balance ever becomes negative. |
| `Store.DepositTo` | backend/src/store/store.service.ts:110-118 | It throws `ArgumentRequired` or `UserNotFound` exactly on their inputs. Otherwise it adds exactly the value to that user's row only. A non-negative value keeps all balances non-negative. |
| `Store.ResetDepositAsWritten` | backend/src/store/store.service.ts:120-127 | As the code stands, an unknown id ends in a TypeError. |
| `Store.ResetDeposit` | backend/src/store/store.service.ts:120-127 | As intended: `ArgumentRequired` or `UserNotFound` exactly on their inputs; otherwise that balance becomes 0 and nothing else changes. |
| `Store.ResetAsWrittenMisreportsUnknownUser` | backend/src/store/store.service.ts:120-127 | The two versions differ only on an unknown id: one gives TypeError, the other `UserNotFound`. |
| `Store.MergeUser` | backend/src/store/store.service.ts:85 | For a body of the declared fields, the merged row keeps id and balance and takes each field the body carries. |
| `Store.UpdateUserRecord` | backend/src/store/store.service.ts:80-86 | It throws `ArgumentRequired` or `UserNotFound` exactly on their inputs. Otherwise it writes the merged row under that id only. |
| `Store.RemoveUserRecord` | backend/src/store/store.service.ts:88-94 | It throws `ArgumentRequired` or `UserNotFound` exactly on their inputs. Otherwise the row leaves the table and is returned without its password and with its id cleared, as TypeORM's `remove` leaves it. |
| `Store.WithdrawThenDepositRestores` | backend/src/store/store.service.ts:96-118 | Depositing what was just withdrawn restores the table. |
| `Store.DepositThenWithdrawRestores` | backend/src/store/store.service.ts:96-118 | Withdrawing what was just deposited onto a non-negative balance succeeds and restores the table. |
| `Store.ResetForgetsDeposits` | backend/src/store/store.service.ts:110-127 | A reset is idempotent and erases any deposit made before it. |
| `Store.FindProductById` | backend/src/store/store.service.ts:151-156 | It throws `ArgumentRequired` exactly for an empty id. Otherwise it returns the stored row, or nothing. |
| `Store.FindAllProducts` | backend/src/store/store.service.ts:147-149 | The result holds exactly the rows of the table. |
| `Store.NewProduct` | backend/src/store/store.service.ts:140-145 | The new row holds the body's stock, cost and name, the new id, and the caller as seller. |
| `Store.MergeProduct` | backend/src/store/store.service.ts:163 | For a body of the declared fields, the merged row keeps id and seller and takes each field the body carries. |
| `Store.UpdateProductRecord` | backend/src/store/store.service.ts:158-164 | It throws `ArgumentRequired` or `ProductNotFound` exactly on their inputs. Otherwise it writes the merged row under that id only and returns it. |
| `Store.RemoveProductRecord` | backend/src/store/store.service.ts:166-172 | It throws `ArgumentRequired` or `ProductNotFound` exactly on their inputs. Otherwise the row leaves the table and is returned with its id cleared, as TypeORM's `remove` leaves it (backend/src/app.controller.spec.ts:246-260). |
| `Store.UpdateProductIdempotent` | backend/src/store/store.service.ts:158-164 | An empty body changes nothing, and a repeated update changes nothing more. |
| `Store.RemovedProductIsGone` | backend/src/store/store.service.ts:158-172 | After a removal, removing or updating the same id throws `ProductNotFound`, and exactly that key is gone. |
| `Store.HasDuplicate` | backend/src/store/store.service.ts:186-188 | Line i has a duplicate exactly when its product id occurs among the ids of the other lines. |
| `Store.CheckLine` | backend/src/store/store.service.ts:184-216 | Each of the seven errors is thrown exactly when the checks before it pass and its own check fails, in the code's order: missing id, duplicate, missing amount, non-number, non-positive, unknown product, not enough stock. A line that passes names a stored product by a string id, is the only line naming it, and asks for a positive number not above the stock; it yields that stored row. |
| `Store.ValidateLines` | backend/src/store/store.service.ts:182-220 | Validation succeeds exactly when every line passes, and yields each line's product in request order. Otherwise it throws the error of the first line that fails. |
| `Store.ValidationFailureSticks` | backend/src/store/store.service.ts:182-220 | Once a line fails, the loop's error is that line's error, however many lines follow. |
| `Store.ValidatedLinesAreDistinct` | backend/src/store/store.service.ts:185-193 | In a validated order no two lines carry the same product id. |
| `Store.ValidationAccepts` | backend/src/store/store.service.ts:182-220 | Along the order, a validated order's products are the stored rows under the line ids. Amounts are positive and within stock, and lines are distinct. |
| `Store.FindToBuy` | backend/src/store/store.service.ts:225 | `find` returns a product to buy whose id is the line's, or nothing when none matches. |
| `Store.FindPicksLinesProduct` | backend/src/store/store.service.ts:221-227 | After validation, the `find` in `costSum` returns, for line i, exactly the i-th product to buy. |
| `Store.CostSumNonNegative` | backend/src/store/store.service.ts:221-227 | `costSum` (`Store.CostSum`) is never negative when no line has a negative amount or price. |
| `Store.CostSumIsCatalogTotal` | backend/src/store/store.service.ts:221-227 | `costSum` equals Σ productAmount × cost, priced from the catalog. |
| `Store.Decremented` | backend/src/store/store.service.ts:233-238 | The purchased products are the products to buy, each lowered by its line's amount, in order. |
| `Store.CommitStock` | backend/src/store/store.service.ts:233-238 | The saves of the commit loop never delete a product; `CommitStockEffect` states exactly what they change. |
| `Store.CommitStockEffect` | backend/src/store/store.service.ts:233-238 | The saves lower each requested product by exactly its amount, touch no other product, and keep the set of keys. |
| `Store.CommitKeepsStockNonNegative` | backend/src/store/store.service.ts:211-238 | Committing a validated order leaves no stock negative. |
| `Store.Purchase` | backend/src/store/store.service.ts:175-248 | No user is created or deleted, no row but the buyer's changes, and a receipt lists one purchased product per line. The lemmas below state each outcome. |
| `Store.Settle` | backend/src/store/store.service.ts:221-247 | The steps after validation keep the same properties: no user created or deleted, only the buyer's row changed, one purchased product per line. |
| `Store.PurchaseSettles` | backend/src/store/store.service.ts:175-181 | A known buyer with a validated order reaches the pricing step with their stored balance. |
| `Store.SettleReturns` | backend/src/store/store.service.ts:221-247 | A settling step that returns: the price was covered, the buyer paid exactly it, the tables are the commit's, and the change is the decomposition of the new balance. |
| `Store.SettleAfterPayment` | backend/src/store/store.service.ts:229-243 | Once the balance covers the price, the stock and the balance are written, and the step fails exactly when the new balance is not a multiple of 5. |
| `Store.SettledReceipt` | backend/src/store/store.service.ts:221-247 | For an accepted order, the settling step that returns charged the catalog price and lowered exactly the requested products. |
| `Store.PurchaseReturns` | backend/src/store/store.service.ts:221-247 | A successful purchase took the one path to the `return`. The buyer paid exactly `costSum`, the tables are the commit's, and the change is the decomposition of the new balance. |
| `Store.PurchaseSucceeds` | backend/src/store/store.service.ts:175-248 | On success, `totalSpent` is the catalog total, and the buyer alone pays it (it is within the balance). Each requested product drops by exactly its amount, which was positive and in stock. Others are untouched and the keys are kept. `purchasedProducts` are the saved rows in request order, and the change sums to the new balance. |
| `Store.PurchaseFailsBeforeCommit` | backend/src/store/store.service.ts:176-231 | The errors come in the code's order: empty id; unknown buyer; first failing line; insufficient balance (exactly when the balance is below the cost). All of them leave both tables unchanged. |
| `Store.ChangeFailsAfterCommit` | backend/src/store/store.service.ts:233-241 | For a validated and funded order, the stock and balance writes are applied. The purchase then throws "no coin fits" exactly when the new balance is not a multiple of 5. |
| `Store.PurchaseKeepsInvariants` | backend/src/store/store.service.ts:175-248 | A purchase keeps every balance and every stock non-negative. |
| `Store.FreshKeyExists` | backend/src/store/store.service.ts:75 | Some non-empty key is always unused, so a fresh id can be chosen. |
| `Store.StoreService.constructor` | backend/src/store/store.service.ts:36-43 | The store starts with both tables empty. |
| `Store.StoreService.FindUserByUsername` | backend/src/store/store.service.ts:59-66 | It throws `ArgumentRequired` exactly for an empty name. It finds a row exactly when some stored username is the lower-cased query, and returns that row stripped. |
| `Store.StoreService.CreateUser` | backend/src/store/store.service.ts:68-78 | It saves `NewUser` under a fresh non-empty id and returns it stripped; every other row is kept. |
| `Store.StoreService.UpdateUser` | backend/src/store/store.service.ts:80-86 | Result and new user table are those of `UpdateUserRecord`; products unchanged. |
| `Store.StoreService.RemoveUser` | backend/src/store/store.service.ts:88-94 | Result and new user table are those of `RemoveUserRecord`; products unchanged. |
| `Store.StoreService.WithdrawUserDeposit` | backend/src/store/store.service.ts:96-108 | The in-place `user.deposit -= amount` and save have `Withdraw`'s result and new table. |
| `Store.StoreService.DepositToUserAccount` | backend/src/store/store.service.ts:110-118 | The in-place `user.deposit += value` and save have `DepositTo`'s result and new table. |
| `Store.StoreService.ResetUserDeposit` | backend/src/store/store.service.ts:120-127 | With the intended error, the method has `ResetDeposit`'s result and new table. |
| `Store.StoreService.CreateProduct` | backend/src/store/store.service.ts:140-145 | It saves `NewProduct` with the caller as seller under a fresh non-empty id; users unchanged. |
| `Store.StoreService.UpdateProduct` | backend/src/store/store.service.ts:158-164 | Result and new product table are those of `UpdateProductRecord`. |
| `Store.StoreService.RemoveProduct` | backend/src/store/store.service.ts:166-172 | Result and new product table are those of `RemoveProductRecord`. |
| `Store.StoreService.ValidateProducts` | backend/src/store/store.service.ts:182-220 | The loop that pushes into `productsToBuy` returns exactly `ValidateLines` over all lines. |
| `Store.StoreService.CommitPurchase` | backend/src/store/store.service.ts:233-238 | The loop that decrements and saves leaves the product table that `CommitStock` gives and returns `Decremented`; users unchanged. |
| `Store.StoreService.BuyProducts` | backend/src/store/store.service.ts:175-248 | Result and both new tables are exactly those of `Purchase`. |
| `UserService.UsernameCheckIgnoresCase` | backend/src/user/user.service.ts:12-15 | Two names with the same lower-case form are taken or free together. |
| `UserService.RegisteredNameIsTaken` | backend/src/user/user.service.ts:12-18 | After a registration, every spelling of the name that lowers to the same form is taken. |
| `UserService.UserService.constructor` | backend/src/user/user.service.ts:10 | The service works on the store it is given. |
| `UserService.UserService.Create` | backend/src/user/user.service.ts:12-18 | An empty name throws `ArgumentRequired`; a taken name, in any case, throws `UsernameExists`; both leave the table unchanged. Otherwise it stores exactly `createUser`'s row: fresh id, lower-cased name, balance 0. Usernames that were unique stay unique. |
| `UserService.UserService.DepositToAccount` | backend/src/user/user.service.ts:46-48 | Exactly `depositToUserAccount` with the same value. |
| `UserService.UserService.ResetDeposit` | backend/src/user/user.service.ts:50-52 | Exactly the corrected `resetUserDeposit` (`Store.ResetDeposit`): an unknown id gives `UserNotFound`, not the TypeError of the code as written. |
| `AppController.Unhandled` | backend/src/app.controller.ts:64 | An uncaught service error becomes a 500 carrying it; a value passes through. |
| `AppController.RaisedAsBadRequest` | backend/src/app.controller.ts:85-89 | Every service error of the purchase becomes a 400 carrying that error; a value passes through. |
| `AppController.DepositGuard` | backend/src/app.controller.ts:49-62 | It accepts exactly a number among the supported coins. It rejects, in order: an undefined value (required), a non-number (should be a number), an unsupported value. |
| `AppController.BuyGuard` | backend/src/app.controller.ts:70-83 | It accepts exactly a non-empty array with a caller id. It rejects, in order: missing, not an array, empty, no caller id. |
| `AppController.AcceptedDepositKeepsCoinBalances` | backend/src/app.controller.ts:57-64 | If balances are non-negative multiples of 5, they stay so after an accepted deposit and after a reset. |
| `AppController.CoinBalanceDecomposes` | backend/src/app.controller.ts:100-110 | A balance that is a non-negative multiple of 5 always decomposes into coins worth exactly that balance. |
| `AppController.AppController.constructor` | backend/src/app.controller.ts:26-30 | The controller uses the user service and its store. |
| `AppController.AppController.Deposit` | backend/src/app.controller.ts:48-65 | A rejected value is a 400 and leaves balances unchanged. An accepted coin goes to `depositToUserAccount`, whose errors surface as 500s. |
| `AppController.AppController.Buy` | backend/src/app.controller.ts:69-90 | A malformed request is a 400 and touches neither table. Otherwise the tables are `Purchase`'s, and its errors are raised as 400s. |
| `AppController.AppController.ResetDeposit` | backend/src/app.controller.ts:94-96 | Exactly the corrected reset (`Store.ResetDeposit`) of the caller's balance, with errors as 500s; as written the unknown-id error is a TypeError, also a 500. |
| `AppController.AppController.GetUserCoins` | backend/src/app.controller.ts:100-110 | An empty id is a 500 and an unknown caller a 404. Otherwise the result is the decomposition of the balance, or a 502 when it fails. A balance that is a multiple of 5 always succeeds, with coins worth the balance. |
| `ProductController.CreateGuard` | backend/src/product/product.controller.ts:46-59 | It passes exactly when stock, name and cost are truthy and a caller id is present. Otherwise it reports the first missing field in the code's order: `amountAvailable`, `productName`, `cost`, `userId`. |
| `ProductController.ValidateAccess` | backend/src/product/product.controller.ts:87-106 | It passes exactly when the product id is given, the product exists, and the caller is its seller. The failures are: no id → 400; unknown product → 404; anyone else → 403. |
| `ProductController.AllowedUpdateKeepsOwnership` | backend/src/product/product.controller.ts:71-78 | For a body of the declared fields, an allowed update keeps the product with the same seller and touches no other product. |
| `ProductController.ProductController.constructor` | backend/src/product/product.controller.ts:25-29 | The controller works on the given store. |
| `ProductController.ProductController.FindById` | backend/src/product/product.controller.ts:36-42 | An empty id is a 500. It returns the stored product exactly when the id is stored, and a 404 otherwise. |
| `ProductController.ProductController.Create` | backend/src/product/product.controller.ts:46-67 | A failed field check is a 400 and an unknown caller a 404; neither changes anything. Otherwise it stores a new product with the caller as seller. |
| `ProductController.ProductController.Update` | backend/src/product/product.controller.ts:71-78 | A refused access changes nothing. An allowed one has exactly `updateProduct`'s new table and row. |
| `ProductController.ProductController.Remove` | backend/src/product/product.controller.ts:82-85 | A refused access changes nothing. An allowed one removes exactly that product and returns it with its id cleared. |

## Left out

- Password hashing: `hashPassword` is a bcrypt call. `CreateUser` and `Create` take the hash as a parameter, and the stored password is an opaque string.
- uuid generation: a new id is any non-empty key not yet in the table, chosen nondeterministically.
- Persistence: the TypeORM repositories are maps, and `save` and `remove` cannot fail. A failure in the middle of the commit loop is outside the model. So is the order in which `find()` lists rows; the find-all functions return sets.
- The cleared (undefined) id of a record that `remove` returns is written as the empty string, since ids are strings here.
- Store.MergeProduct: a body is taken to carry only the fields its dto declares. `{ ...product, ...dto }` copies every property of the raw body, so a body carrying `id` or `sellerId` would overwrite them; such bodies are not modelled, since the dtos and any validation pipe that might strip them are not part of this model.
- ProductController.AllowedUpdateKeepsOwnership: holds for bodies carrying only the declared fields; a body carrying `sellerId` would hand the product over, and one carrying `id` would save over another row.
- Store.MergeUser: likewise, a user body carrying `id` or `deposit` is not modelled.
- Numbers in requests are integers (`Num(int)`). A fractional deposit value or product amount is not modelled. `cost` is a whole number, not a decimal column. `numberToCoinsCounts` does take a real number, so its "should be an integer" branch is modelled.
- A buy line whose product id is a non-string truthy value is taken to match no stored product, so it gives `ProductNotFound`.
- The duplicate check `p !== product` compares request objects by identity. The model compares line positions.
- `toLowerCase` is modelled on ASCII letters only.
- `findUserByUsername(…, includePassword)`: the path that returns the password is used only by authentication, and is not modelled.
- `createUserSession`, login, JWT and passport guards: the caller's id is an input, and an empty string stands for a missing one.
- user.controller.ts, product.service.ts and the `findAll` endpoints: the product service only delegates, so the controllers call the store directly.
- Exception message texts are not modelled; errors are kinds.
- Concurrency: each `await` is one sequential step.
- The request body types in backend/src/dtos are not part of this model. Their shapes are taken from how the core reads them.

Where the design and the code differ, the model follows the code:

- The code rejects only a falsy cost or stock at product creation, and checks nothing on update. Cost and stock are therefore not required to be positive. In particular `costSum` can be negative, so `Store.PurchaseSucceeds` does not claim it is at least 0.
- `updateUser` does not lower-case a new username. Case-insensitive uniqueness therefore covers only names that came through `createUser`. `UserService.UserService.Create` keeps exact-match uniqueness in every case.

## Findings

| source | as written | input that shows it | evidently intended | confidence | as-written member | corrected member |
|---|---|---|---|---|---|---|
| backend/src/store/store.service.ts:120-127 | `resetUserDeposit` throws `new UserNotFound(user.id)` on the branch where `user` is null. | `POST reset` with a non-empty id that has no row. Reading `user.id` raises a TypeError, which `ResetAsWrittenMisreportsUnknownUser` shows. | Throw `UserNotFound(userId)`, as `depositToUserAccount` does. | high (not executed) | `Store.ResetDepositAsWritten` | `Store.ResetDeposit` |
