/** The persistent entities of the bookstore, one record per JPA entity.
    Ids live in the keys of the tables (see Persistence), not in the records.
    Money is held in exact minor units, the way `BigDecimal` keeps it exact. */
module Entities {
  import opened Wrappers

  /** The largest value of a Java `Integer`. */
  const IntegerMax: int := 0x7FFF_FFFF

  /** `Order.OrderStatus`, in declaration order. */
  datatype OrderStatus = CREATED | PAID | SENT | DELIVERED | COMPLETED | CANCELLED

  /** `Role.RoleName`. */
  datatype RoleName = ADMIN | USER

  /** `Enum.name()` of a status. */
  function StatusName(s: OrderStatus): string {
    match s
    case CREATED => "CREATED"
    case PAID => "PAID"
    case SENT => "SENT"
    case DELIVERED => "DELIVERED"
    case COMPLETED => "COMPLETED"
    case CANCELLED => "CANCELLED"
  }

  /** The names of the status constants, in declaration order (`getEnumConstants`). */
  const StatusNames: seq<string> :=
    ["CREATED", "PAID", "SENT", "DELIVERED", "COMPLETED", "CANCELLED"]

  /** `OrderStatus.valueOf`: the constant with exactly that name. */
  function ParseStatus(name: string): (r: Option<OrderStatus>)
    ensures r.Some? ==> StatusName(r.value) == name
    ensures r.None? ==> name !in StatusNames
  {
    if name == "CREATED" then Some(CREATED)
    else if name == "PAID" then Some(PAID)
    else if name == "SENT" then Some(SENT)
    else if name == "DELIVERED" then Some(DELIVERED)
    else if name == "COMPLETED" then Some(COMPLETED)
    else if name == "CANCELLED" then Some(CANCELLED)
    else None
  }

  lemma ParseStatusName(s: OrderStatus)
    ensures ParseStatus(StatusName(s)) == Some(s)
  {
  }

  /** A registered user; the shipping address is optional at registration, so
      `None` stands for a stored `null`. */
  datatype User = User(
    email: string,
    password: string,
    firstName: string,
    lastName: string,
    shippingAddress: Option<string>,
    roles: set<RoleName>)

  datatype Book = Book(
    title: string,
    author: string,
    isbn: string,
    price: int,
    description: Option<string>,
    coverImage: Option<string>,
    deleted: bool)

  datatype Category = Category(name: string, description: Option<string>, deleted: bool)

  /** A shopping cart; its id is its user's id (`@MapsId`), and its lines are
      the cart items that point at it (`mappedBy = "shoppingCart"`). */
  datatype ShoppingCart = ShoppingCart(user: int)

  datatype CartItem = CartItem(cart: int, book: int, quantity: int, deleted: bool)

  datatype Order = Order(
    user: int,
    status: OrderStatus,
    total: int,
    orderDate: int,
    shippingAddress: string,
    deleted: bool)

  /** An order line; `price` is the book's price copied when the order was placed. */
  datatype OrderItem = OrderItem(order: int, book: int, quantity: int, price: int, deleted: bool)
}
