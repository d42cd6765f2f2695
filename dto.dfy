/** The response views the services return, and the mappers that build them.
    The mappers only copy fields; their `@AfterMapping` hooks add the owner's
    e-mail, or a line's book id and title. */
module Dto {
  import opened Entities
  import opened Persistence

  datatype CartItemDto = CartItemDto(id: int, bookId: int, bookTitle: string, quantity: int)

  datatype ShoppingCartDto = ShoppingCartDto(id: int, email: string, cartItems: set<CartItemDto>)

  datatype OrderItemDto = OrderItemDto(id: int, bookId: int, bookTitle: string, quantity: int, price: int)

  datatype OrderDto = OrderDto(
    id: int,
    email: string,
    status: string,
    total: int,
    orderDate: int,
    shippingAddress: string,
    orderItems: set<OrderItemDto>)

  /** `CartItemMapper.toDto`. */
  function CartItemToDto(books: map<int, Book>, id: int, item: CartItem): CartItemDto
    requires item.book in books
  {
    CartItemDto(id, item.book, books[item.book].title, item.quantity)
  }

  /** `ShoppingCartMapper.toDto`: the cart's id, its owner's e-mail and one entry per live line. */
  function ShoppingCartToDto(s: Store, cart: int): (r: ShoppingCartDto)
    requires s.Valid() && cart in s.carts
    ensures r.id == cart && r.email == s.users[cart].email
    ensures forall d :: d in r.cartItems ==>
      d.id in CartLines(s.cartItems, cart) && d == CartItemToDto(s.books, d.id, s.cartItems[d.id])
    ensures forall i :: i in CartLines(s.cartItems, cart) ==>
      CartItemToDto(s.books, i, s.cartItems[i]) in r.cartItems
  {
    var lines := CartLines(s.cartItems, cart);
    ShoppingCartDto(cart, s.users[s.carts[cart].user].email,
                    set i | i in lines :: CartItemToDto(s.books, i, s.cartItems[i]))
  }

  /** A cart's view lists every book at most once: two entries for the same
      book are the same entry. */
  lemma CartViewListsEachBookOnce(s: Store, cart: int)
    requires s.Valid() && cart in s.carts
    ensures forall d, e ::
      (d in ShoppingCartToDto(s, cart).cartItems && e in ShoppingCartToDto(s, cart).cartItems && d.bookId == e.bookId)
      ==> d == e
  {
    var view := ShoppingCartToDto(s, cart).cartItems;
    forall d, e | d in view && e in view && d.bookId == e.bookId
      ensures d == e
    {
      assert s.cartItems[d.id].book == s.cartItems[e.id].book;
      assert d.id == e.id;
    }
  }

  /** `OrderItemMapper.toDto`. */
  function OrderItemToDto(books: map<int, Book>, id: int, item: OrderItem): OrderItemDto
    requires item.book in books
  {
    OrderItemDto(id, item.book, books[item.book].title, item.quantity, item.price)
  }

  /** The views of the live lines of an order (`OrderItemMapper.toDtos`). */
  function OrderItemsToDtos(s: Store, order: int): (r: set<OrderItemDto>)
    requires s.Valid()
    ensures forall d :: d in r ==>
      d.id in OrderLines(s.orderItems, order) && d == OrderItemToDto(s.books, d.id, s.orderItems[d.id])
    ensures forall i :: i in OrderLines(s.orderItems, order) ==>
      OrderItemToDto(s.books, i, s.orderItems[i]) in r
  {
    var lines := OrderLines(s.orderItems, order);
    set i | i in lines :: OrderItemToDto(s.books, i, s.orderItems[i])
  }

  /** `OrderMapper.toDto`. */
  function OrderToDto(s: Store, id: int): OrderDto
    requires s.Valid() && id in s.orders
  {
    var o := s.orders[id];
    OrderDto(id, s.users[o.user].email, StatusName(o.status), o.total, o.orderDate,
             o.shippingAddress, OrderItemsToDtos(s, id))
  }
}
