/** The stored records (user.entity.ts, product.entity.ts) and the request bodies the core reads. */
module Entities {
  import opened Wrappers
  import opened Js

  /** A row of the user table; the password is the stored (hashed) string, opaque here. */
  datatype User = User(id: string, username: string, password: string, deposit: int, role: string)

  /** A user record with the password taken out, as every store operation returns it. */
  datatype UserView = UserView(id: string, username: string, deposit: int, role: string)

  /** A row of the product table; `cost` is a whole number of currency units here. */
  datatype Product = Product(id: string, amountAvailable: int, cost: int, productName: string, sellerId: string)

  /** Body of a registration request. */
  datatype CreateUserDto = CreateUserDto(username: string, password: string, role: string)

  /** Body of a user update; `None` is a property the body does not carry. */
  datatype UpdateUserDto = UpdateUserDto(username: Option<string>, password: Option<string>, role: Option<string>)

  /**
   * Body of a product creation. A missing property and a falsy one are
   * both represented by 0 or "", since the code treats them alike.
   */
  datatype CreateProductDto = CreateProductDto(amountAvailable: int, cost: int, productName: string)

  /** Body of a product update; `None` is a property the body does not carry. */
  datatype UpdateProductDto = UpdateProductDto(amountAvailable: Option<int>, cost: Option<int>, productName: Option<string>)

  /** One element of the `products` array of a buy request, taken as sent. */
  datatype BuyLine = BuyLine(productId: JsValue, productAmount: JsValue)

  /** The `products` property of a buy request: missing, some non-array value, or an array of lines. */
  datatype ProductsField = Missing | NotAnArray(v: JsValue) | Lines(lines: seq<BuyLine>)
}
