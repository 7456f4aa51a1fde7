/**
 * backend/src/user/user.service.ts: registration with the username check,
 * and the deposit operations the controllers call, as delegation to the
 * store.
 */
module UserService {
  import opened Wrappers
  import opened Js
  import opened Entities
  import opened Exceptions
  import opened Store

  /** No two rows share a username. */
  ghost predicate UniqueUsernames(users: Users)
  {
    forall a, b :: a in users && b in users && users[a].username == users[b].username ==> a == b
  }

  /** Names that differ only in the case of ASCII letters clash with each other. */
  lemma UsernameCheckIgnoresCase(users: Users, a: string, b: string)
    requires ToLower(a) == ToLower(b)
    ensures UsernameTaken(users, a) <==> UsernameTaken(users, b)
  {
  }

  /** Once registered, a name is taken in every spelling that lower-cases to it. */
  lemma RegisteredNameIsTaken(users: Users, id: string, dto: CreateUserDto, passwordHash: string, other: string)
    requires ToLower(other) == ToLower(dto.username)
    ensures UsernameTaken(users[id := NewUser(id, dto, passwordHash)], other)
  {
    var after := users[id := NewUser(id, dto, passwordHash)];
    assert id in after && after[id].username == ToLower(other);
  }

  class UserService {
    const storeService: StoreService

    constructor (storeService: StoreService)
      ensures this.storeService == storeService
    {
      this.storeService := storeService;
    }

    /**
     * `create`: an empty name is refused by the lookup, a name already
     * taken (ignoring case) throws `UsernameExists`, and otherwise the new
     * row is exactly what `createUser` saves. Unique names stay unique.
     */
    method Create(dto: CreateUserDto, passwordHash: string) returns (r: Result<UserView, ServiceError>)
      requires storeService.Valid()
      modifies storeService
      ensures storeService.Valid() && storeService.products == old(storeService.products)
      ensures dto.username == "" ==> r == Failure(ArgumentRequired)
      ensures dto.username != "" && UsernameTaken(old(storeService.users), dto.username) ==> r == Failure(UsernameExists)
      ensures r.Failure? ==> storeService.users == old(storeService.users)
      ensures dto.username != "" && !UsernameTaken(old(storeService.users), dto.username) ==>
        && r.Success?
        && r.value.id != "" && r.value.id !in old(storeService.users)
        && storeService.users == old(storeService.users)[r.value.id := NewUser(r.value.id, dto, passwordHash)]
        && r.value == View(storeService.users[r.value.id])
        && r.value.username == ToLower(dto.username) && r.value.deposit == 0
      ensures UniqueUsernames(old(storeService.users)) ==> UniqueUsernames(storeService.users)
    {
      var existing := storeService.FindUserByUsername(dto.username);
      if existing.Failure? {
        return Failure(existing.error);
      }
      if existing.value.Some? {
        return Failure(UsernameExists);
      }
      var created := storeService.CreateUser(dto, passwordHash);
      r := Success(created);
    }

    /** `depositToAccount`: exactly the store's `depositToUserAccount` with the same value. */
    method DepositToAccount(userId: string, depositValue: int) returns (r: Result<UserView, ServiceError>)
      requires storeService.Valid()
      modifies storeService
      ensures storeService.Valid() && storeService.products == old(storeService.products)
      ensures UserStep(r, storeService.users) == DepositTo(old(storeService.users), userId, depositValue)
    {
      r := storeService.DepositToUserAccount(userId, depositValue);
    }

    /** `resetDeposit`: exactly the store's `resetUserDeposit`. */
    method ResetDeposit(id: string) returns (r: Result<UserView, ServiceError>)
      requires storeService.Valid()
      modifies storeService
      ensures storeService.Valid() && storeService.products == old(storeService.products)
      ensures UserStep(r, storeService.users) == Store.ResetDeposit(old(storeService.users), id)
    {
      r := storeService.ResetUserDeposit(id);
    }
  }
}
