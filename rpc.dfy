/** gRPC status outcomes shared by the user, inventory and order services.
    A reply is either a value or one of the three status codes the
    handlers return; the message text of a status is reduced to the
    information it carries. */
module Rpc {

  /** Why a request was refused with codes.InvalidArgument. */
  datatype Reason =
    | NameAndEmailRequired   // CreateUser: "name and email are required"
    | NameRequired           // CreateItem: "name is required"
    | QuantityNegative       // CreateItem: "quantity must be >= 0"
    | IdRequired             // GetUser, GetItem: "id is required"

  /** The kind of record a codes.NotFound status talks about. */
  datatype Entity = UserEntity | ItemEntity | OrderEntity

  /** The check of CreateOrder that failed. A failed lookup wraps the
      status the dependency returned ("user not found: %v"). */
  datatype Check =
    | UserNotFound(cause: Error)
    | ItemNotFound(cause: Error)
    | NotEnoughStock

  /** The status codes the handlers return. */
  datatype Error =
    | InvalidArgument(reason: Reason)
    | NotFound(entity: Entity, id: string)
    | FailedPrecondition(check: Check)

  /** A handler's reply: the response's payload, or a status error. */
  datatype Result<T> = Ok(value: T) | Err(error: Error)
}
