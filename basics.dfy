/** Shared vocabulary of the store-rating models: optional attribute values,
    record identifiers, and the field-scoped validation errors that the
    models collect instead of raising. */
module Basics {

  /** An attribute that may be nil. */
  datatype Option<+T> = None | Some(value: T)

  /** Primary keys of the `users` and `stores` tables. */
  type UserId = nat
  type StoreId = nat

  /** The attribute (or `:base`) an error is attached to. */
  datatype Field =
    | Name | Email | Address | Password | Proprietor
    | Value | UserRef | UserIdField | Base

  /** One entry of a record's `errors` collection. */
  datatype Error = Error(field: Field, message: string)

  // Default messages of the framework's built-in validators.
  const BLANK_MESSAGE := "can't be blank"
  const TAKEN_MESSAGE := "has already been taken"
  const INVALID_MESSAGE := "is invalid"
  const TOO_LONG_400_MESSAGE := "is too long (maximum is 400 characters)"
  const MUST_EXIST_MESSAGE := "must exist"
}
