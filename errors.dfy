/** The exceptions the services throw, with the messages they carry. */
module Errors {
  import Text

  datatype Error =
    /** `EntityNotFoundException` from every lookup of the current user. */
    | UserNotFound(email: string)
    /** `OrderException` when an order is placed from a missing or empty cart. */
    | CartEmpty
    | OrderNotFound(orderId: int)
    | OrderItemNotFound(itemId: int)
    | BookNotFound(bookId: int)
    | CategoryNotFound(categoryId: int)
    | CartItemNotFound(cartItemId: int)
    /** `RegistrationException` for an e-mail that is already registered. */
    | RegistrationRejected(email: string)
    /** `IllegalArgumentException` from `OrderStatus.valueOf`. */
    | NoSuchStatus(name: string)
    /** The unique index on `books.isbn` refuses the row. */
    | DuplicateIsbn(isbn: string)
    /** The unique index on `categories.name` refuses the row. */
    | DuplicateCategoryName(name: string)
    /** `ConstraintViolationException`: the order's `@NotNull` shipping address is null. */
    | ShippingAddressMissing
    /** A cart line quantity would leave the range of a Java `Integer`: the
        refusal of the corrected increment, which the source does not have. */
    | QuantityOverflow(cartItemId: int)

  /** The exception message each error carries. */
  function Message(e: Error): string {
    match e
    case UserNotFound(email) => "Can't get user with email: " + email
    case CartEmpty => "Shopping cart is empty"
    case OrderNotFound(id) => "Can't find order with ID: " + Text.LongToString(id)
    case OrderItemNotFound(id) => "Can't find order item with ID: " + Text.LongToString(id)
    case BookNotFound(id) => "Can't get book with id: " + Text.LongToString(id)
    case CategoryNotFound(id) => "Can't get category with id: " + Text.LongToString(id)
    case CartItemNotFound(id) => "Can't find cart entity with id " + Text.LongToString(id)
    case RegistrationRejected(email) => "Can't register user " + email
    case NoSuchStatus(name) => "No enum constant com.bookstore.core.model.Order.OrderStatus." + name
    // the two unique-index messages come from the database driver; only their subject is kept
    case DuplicateIsbn(isbn) => isbn
    case DuplicateCategoryName(name) => name
    // the default message of `@NotNull`; the exception's own text lists every violation
    case ShippingAddressMissing => "must not be null"
    case QuantityOverflow(id) => "integer overflow"
  }
}
