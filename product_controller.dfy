/**
 * backend/src/product/product.controller.ts: the seller endpoints. The
 * field checks of `create` and the ownership rule of `validateAccess` are
 * pure checks made before the store is changed.
 */
module ProductController {
  import opened Wrappers
  import opened Entities
  import opened Exceptions
  import opened Store
  import opened AppController

  /** The field checks of `create`, in order: stock, name and cost must be truthy, and a caller id present. */
  function CreateGuard(dto: CreateProductDto, userId: string): (r: Outcome<BadRequestReason>)
    ensures r.Pass? <==> dto.amountAvailable != 0 && dto.productName != "" && dto.cost != 0 && userId != ""
    ensures dto.amountAvailable == 0 ==> r == Fail(Required("amountAvailable"))
    ensures dto.amountAvailable != 0 && dto.productName == "" ==> r == Fail(Required("productName"))
    ensures dto.amountAvailable != 0 && dto.productName != "" && dto.cost == 0 ==> r == Fail(Required("cost"))
    ensures dto.amountAvailable != 0 && dto.productName != "" && dto.cost != 0 && userId == "" ==> r == Fail(Required("userId"))
  {
    if dto.amountAvailable == 0 then Fail(Required("amountAvailable"))
    else if dto.productName == "" then Fail(Required("productName"))
    else if dto.cost == 0 then Fail(Required("cost"))
    else if userId == "" then Fail(Required("userId"))
    else Pass
  }

  /**
   * `validateAccess`: a product id is required, the product must exist,
   * and the caller must be its (non-empty) seller.
   */
  function ValidateAccess(products: Products, productId: string, userId: string): (r: Outcome<HttpError>)
    ensures r.Pass? <==> productId != "" && productId in products && userId != "" && products[productId].sellerId == userId
    ensures productId == "" ==> r == Fail(BadRequest(Required("producId")))
    ensures productId != "" && productId !in products ==> r == Fail(NotFound)
    ensures productId != "" && productId in products && r.Fail? ==> r == Fail(Forbidden)
  {
    if productId == "" then Fail(BadRequest(Required("producId")))
    else
      match FindProductById(products, productId)
      case Failure(e) => Fail(InternalServerError(e))
      case Success(None) => Fail(NotFound)
      case Success(Some(product)) =>
        if userId == "" || product.sellerId == "" || product.sellerId != userId then Fail(Forbidden)
        else Pass
  }

  /** An update the seller is allowed to make keeps the product theirs and touches no other product. */
  lemma AllowedUpdateKeepsOwnership(products: Products, productId: string, userId: string, dto: UpdateProductDto)
    requires ValidateAccess(products, productId, userId).Pass?
    ensures var after := UpdateProductRecord(products, productId, dto).products;
      && after.Keys == products.Keys
      && ValidateAccess(after, productId, userId).Pass?
      && (forall k :: k in products && k != productId ==> after[k] == products[k])
  {
  }

  class ProductController {
    const storeService: StoreService

    constructor (storeService: StoreService)
      ensures this.storeService == storeService
    {
      this.storeService := storeService;
    }

    /** `GET product/:id`: the stored product, or a 404. */
    method FindById(id: string) returns (r: Result<Product, HttpError>)
      ensures id == "" ==> r == Failure(InternalServerError(ArgumentRequired))
      ensures id != "" ==> (r.Success? <==> id in storeService.products)
      ensures id != "" && id !in storeService.products ==> r == Failure(NotFound)
      ensures r.Success? ==> id in storeService.products && r.value == storeService.products[id]
    {
      var found := FindProductById(storeService.products, id);
      if found.Failure? {
        return Failure(InternalServerError(found.error));
      }
      if found.value.None? {
        return Failure(NotFound);
      }
      r := Success(found.value.value);
    }

    /**
     * `POST product`: a body or caller that fails the checks, or a caller
     * who is not a user, changes nothing; otherwise a new product is
     * stored with the caller as seller.
     */
    method Create(dto: CreateProductDto, userId: string) returns (r: Result<Product, HttpError>)
      requires storeService.Valid()
      modifies storeService
      ensures storeService.Valid() && storeService.users == old(storeService.users)
      ensures CreateGuard(dto, userId).Fail? ==> r == Failure(BadRequest(CreateGuard(dto, userId).error))
      ensures CreateGuard(dto, userId).Pass? && userId !in storeService.users ==> r == Failure(NotFound)
      ensures r.Failure? ==> storeService.products == old(storeService.products)
      ensures CreateGuard(dto, userId).Pass? && userId in storeService.users ==>
        && r.Success?
        && r.value.id != "" && r.value.id !in old(storeService.products)
        && storeService.products == old(storeService.products)[r.value.id := r.value]
        && r.value == NewProduct(r.value.id, userId, dto)
    {
      var guard := CreateGuard(dto, userId);
      if guard.Fail? {
        return Failure(BadRequest(guard.error));
      }
      var user := FindUserById(storeService.users, userId);
      if user.Failure? || user.value.None? {
        return Failure(NotFound);
      }
      var created := storeService.CreateProduct(userId, dto);
      r := Success(created);
    }

    /** `PUT product/:id`: only the seller may update, and a refused update changes nothing. */
    method Update(id: string, dto: UpdateProductDto, userId: string) returns (r: Result<Product, HttpError>)
      requires storeService.Valid()
      modifies storeService
      ensures storeService.Valid() && storeService.users == old(storeService.users)
      ensures ValidateAccess(old(storeService.products), id, userId).Fail? ==>
        r == Failure(ValidateAccess(old(storeService.products), id, userId).error) &&
        storeService.products == old(storeService.products)
      ensures ValidateAccess(old(storeService.products), id, userId).Pass? ==>
        var s := UpdateProductRecord(old(storeService.products), id, dto);
        r == Success(s.result.value) && storeService.products == s.products
    {
      var access := ValidateAccess(storeService.products, id, userId);
      if access.Fail? {
        return Failure(access.error);
      }
      var updated := storeService.UpdateProduct(id, dto);
      r := Unhandled(updated);
    }

    /** `DELETE product/:id`: only the seller may remove, and a refused removal changes nothing. */
    method Remove(id: string, userId: string) returns (r: Result<Product, HttpError>)
      requires storeService.Valid()
      modifies storeService
      ensures storeService.Valid() && storeService.users == old(storeService.users)
      ensures ValidateAccess(old(storeService.products), id, userId).Fail? ==>
        r == Failure(ValidateAccess(old(storeService.products), id, userId).error) &&
        storeService.products == old(storeService.products)
      ensures ValidateAccess(old(storeService.products), id, userId).Pass? ==>
        r == Success(old(storeService.products)[id].(id := "")) && storeService.products == old(storeService.products) - {id}
    {
      var access := ValidateAccess(storeService.products, id, userId);
      if access.Fail? {
        return Failure(access.error);
      }
      var removed := storeService.RemoveProduct(id);
      r := Unhandled(removed);
    }
  }
}
