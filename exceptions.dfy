/** The error kinds the core throws (the exception classes of the backend) and the HTTP errors the controllers raise. */
module Exceptions {

  /** Which value a `ValueRequired` error names. */
  datatype RequiredValue = ProductIdValue | ProductAmountValue

  /** Why `numberToCoinsCounts` gave up. */
  datatype CoinError =
    | NotAnInteger   // "Number (...) should be an integer."
    | NoCoinFits     // "No supported coin is less than or equal to the number ..."

  /** Errors thrown by the store and the user service. */
  datatype ServiceError =
    | ArgumentRequired
    | ValueRequired(which: RequiredValue)
    | InvalidNumber
    | NotPositiveNumber
    | UserNotFound
    | UsernameExists
    | UserDepositInsufficient
    | ProductNotFound
    | ProductAmountNotAvailable
    | DuplicateProduct
    | Decomposition(cause: CoinError)
    | TypeError      // a property read on null

  /** The message of a 400 response raised by a controller. */
  datatype BadRequestReason =
    | Required(field: string)
    | ShouldBeNumber(field: string)
    | UnsupportedCoin
    | ShouldBeArray
    | NoProducts
    | Rethrown(serviceError: ServiceError)

  /** HTTP errors; a service error that no controller catches surfaces as a 500. */
  datatype HttpError =
    | BadRequest(reason: BadRequestReason)
    | NotFound
    | Forbidden
    | BadGateway(coinError: CoinError)
    | InternalServerError(unhandled: ServiceError)
}
