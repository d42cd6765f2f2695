/** `OrderServiceImpl`: placing an order from the caller's cart, reading the
    caller's orders, and setting an order's status. */
module OrderService {
  import opened Wrappers
  import opened Entities
  import opened Errors
  import opened Persistence
  import opened Money
  import opened Dto

  /** The live orders of a user (`OrderRepository.findAllByUser`). */
  function UserOrderIds(orders: map<int, Order>, user: int): (r: set<int>)
    ensures forall o :: o in r <==> OrderActive(orders, o) && orders[o].user == user
  {
    set o | o in orders && orders[o].user == user && !orders[o].deleted
  }

  /** `getOrders`: a view of every live order of the caller, and of no other order. */
  function GetOrders(s: Store, email: string): (r: Result<set<OrderDto>, Error>)
    requires s.Valid()
    ensures FindUserByEmail(s.users, email).None? ==> r == Err(UserNotFound(email))
    ensures FindUserByEmail(s.users, email).Some? ==>
      var u := FindUserByEmail(s.users, email).value;
      && r.Ok?
      && (forall d :: d in r.value ==> d.id in UserOrderIds(s.orders, u) && d == OrderToDto(s, d.id))
      && (forall o :: o in UserOrderIds(s.orders, u) ==> OrderToDto(s, o) in r.value)
      && (forall d :: d in r.value ==> d.email == email)
  {
    match FindUserByEmail(s.users, email)
    case None => Err(UserNotFound(email))
    case Some(u) => Ok(set o | o in UserOrderIds(s.orders, u) :: OrderToDto(s, o))
  }

  /** `getOrderById`: the caller's live order with that id; another user's order
      is reported exactly like a missing one. */
  function GetOrderById(s: Store, email: string, orderId: int): (r: Result<OrderDto, Error>)
    requires s.Valid()
    ensures FindUserByEmail(s.users, email).None? ==> r == Err(UserNotFound(email))
    ensures FindUserByEmail(s.users, email).Some? ==>
      var u := FindUserByEmail(s.users, email).value;
      && (orderId !in UserOrderIds(s.orders, u) ==> r == Err(OrderNotFound(orderId)))
      && (orderId in UserOrderIds(s.orders, u) ==> r == Ok(OrderToDto(s, orderId)))
    ensures r.Ok? ==> r.value.id == orderId && r.value.email == email
  {
    match FindUserByEmail(s.users, email)
    case None => Err(UserNotFound(email))
    case Some(u) =>
      if OrderActive(s.orders, orderId) && s.orders[orderId].user == u
      then Ok(OrderToDto(s, orderId))
      else Err(OrderNotFound(orderId))
  }

  /** The cart-item table after `cartItemRepository.delete` on each of `ids`:
      those rows are soft-deleted, every other row is left as it was. */
  function DeleteLines(items: map<int, CartItem>, ids: set<int>): map<int, CartItem> {
    map i | i in items :: if i in ids then items[i].(deleted := true) else items[i]
  }

  /** Soft-deleting lines keeps the cart-item constraints and empties the
      carts whose lines were all deleted. */
  lemma DeleteLinesValid(carts: map<int, ShoppingCart>, books: map<int, Book>, items: map<int, CartItem>,
                         ids: set<int>, u: int)
    requires CartItemsValid(carts, books, items) && OneLinePerBook(items)
    requires CartLines(items, u) <= ids
    ensures CartItemsValid(carts, books, DeleteLines(items, ids))
    ensures OneLinePerBook(DeleteLines(items, ids))
    ensures CartLines(DeleteLines(items, ids), u) == {}
  {
    var after := DeleteLines(items, ids);
    forall i | i in after
      ensures i !in CartLines(after, u)
    {
      if i !in ids {
        assert i !in CartLines(items, u);
      }
    }
  }

  /** A line `addOrder` creates for order `id`: live, of a known book, with a quantity of at least 1. */
  ghost predicate NewLine(item: OrderItem, id: int, books: map<int, Book>) {
    item.order == id && !item.deleted && item.book in books && item.quantity >= 1
  }

  /** Saving a new order with lines of fresh ids keeps the order-line
      constraints, and the new order's lines are exactly those lines. */
  lemma SaveOrderLines(orders: map<int, Order>, books: map<int, Book>, items: map<int, OrderItem>,
                       next: int, created: map<int, OrderItem>, id: int, order: Order)
    requires OrderItemsValid(orders, books, items) && IdsIssued(items.Keys, next)
    requires id !in orders
    requires forall k :: k in created ==> next <= k && NewLine(created[k], id, books)
    ensures created.Keys !! items.Keys
    ensures OrderLines(items + created, id) == created
    ensures OrderItemsValid(orders[id := order], books, items + created)
  {
    forall k | k in items
      ensures k !in created
    {
      assert k < next;
    }
    var lines := OrderLines(items + created, id);
    forall i | i in lines
      ensures i in created
    {
    }
    forall k | k in created
      ensures k in lines
    {
      assert (items + created)[k] == created[k];
    }
    assert lines.Keys == created.Keys;
  }

  /** The state of the loop of `addOrder` once the cart lines `done` are
      handled: each has been soft-deleted in `itemsOut` and has its own order
      line of order `id` in `created` (`lineOf` pairs them), with an id issued
      from `next` on and the line's book, quantity and the book's price. */
  ghost predicate Moved(items: map<int, CartItem>, books: map<int, Book>, id: int, next: int, done: set<int>,
                        itemsOut: map<int, CartItem>, created: map<int, OrderItem>, nextOut: int,
                        lineOf: map<int, int>)
  {
    && next <= nextOut
    && itemsOut == DeleteLines(items, done)
    && lineOf.Keys == done
    && (forall k :: k in created ==> next <= k < nextOut && NewLine(created[k], id, books))
    && (forall k :: k in created ==> exists c :: c in lineOf && lineOf[c] == k)
    && (forall c, d :: c in lineOf && d in lineOf && lineOf[c] == lineOf[d] ==> c == d)
    && (forall c :: c in lineOf ==>
          c in items && items[c].book in books && lineOf[c] in created &&
          created[lineOf[c]] == OrderItem(id, items[c].book, items[c].quantity, books[items[c].book].price, false))
  }

  /** One turn of the loop of `addOrder` on cart line `c`. */
  lemma MoveOne(items: map<int, CartItem>, books: map<int, Book>, id: int, next: int, done: set<int>,
                itemsOut: map<int, CartItem>, created: map<int, OrderItem>, nextOut: int,
                lineOf: map<int, int>, c: int)
    requires Moved(items, books, id, next, done, itemsOut, created, nextOut, lineOf)
    requires c in items && c !in done && items[c].book in books && items[c].quantity >= 1
    ensures var item := OrderItem(id, items[c].book, items[c].quantity, books[items[c].book].price, false);
      Moved(items, books, id, next, done + {c}, itemsOut[c := items[c].(deleted := true)],
            created[nextOut := item], nextOut + 1, lineOf[c := nextOut])
  {
    var item := OrderItem(id, items[c].book, items[c].quantity, books[items[c].book].price, false);
    var lineOf' := lineOf[c := nextOut];
    var created' := created[nextOut := item];
    assert nextOut !in created;
    forall k | k in created'
      ensures exists d :: d in lineOf' && lineOf'[d] == k
    {
      if k == nextOut {
        assert lineOf'[c] == k;
      } else {
        var d :| d in lineOf && lineOf[d] == k;
        assert lineOf'[d] == k;
      }
    }
    assert itemsOut[c := items[c].(deleted := true)] == DeleteLines(items, done + {c});
    forall d, e | d in lineOf' && e in lineOf' && lineOf'[d] == lineOf'[e]
      ensures d == e
    {
    }
  }

  /** The loop of `addOrder`, over the cart-item table `items` as the
      transaction sees it: for each line of `cart`, one new order line of order
      `id` (ids issued from `next` on) with the line's book, quantity and the
      book's current price, added to the running total, and the cart line
      deleted. `lineOf` pairs each cart line with its order line. */
  method MoveLines(items: map<int, CartItem>, books: map<int, Book>, id: int, cart: set<int>, next: int)
    returns (itemsOut: map<int, CartItem>, created: map<int, OrderItem>, total: int, nextOut: int,
             ghost lineOf: map<int, int>)
    requires forall c :: c in cart ==> c in items && items[c].book in books && items[c].quantity >= 1
    ensures Moved(items, books, id, next, cart, itemsOut, created, nextOut, lineOf)
    ensures total == Total(created)
  {
    itemsOut, created, total, nextOut, lineOf := items, map[], 0, next, map[];
    var remaining := cart;
    assert Total(created) == 0 by {
      assert Subtotals(created) == map[];
    }
    assert itemsOut == DeleteLines(items, {});
    while remaining != {}
      invariant remaining <= cart
      invariant Moved(items, books, id, next, cart - remaining, itemsOut, created, nextOut, lineOf)
      invariant total == Total(created)
      decreases remaining
    {
      HasElement(remaining);
      var c :| c in remaining;
      var line := itemsOut[c];
      assert line == items[c];
      var item := OrderItem(id, line.book, line.quantity, books[line.book].price, false);
      TotalAdd(created, nextOut, item);
      MoveOne(items, books, id, next, cart - remaining, itemsOut, created, nextOut, lineOf, c);
      created := created[nextOut := item];
      lineOf := lineOf[c := nextOut];
      nextOut := nextOut + 1;
      total := total + item.price * item.quantity;
      // `cartItemRepository.delete(cartItem)`: a soft delete
      itemsOut := itemsOut[c := line.(deleted := true)];
      assert cart - (remaining - {c}) == (cart - remaining) + {c};
      remaining := remaining - {c};
    }
  }

  /** What a successful `addOrder` leaves behind in store `s'`, given the store
      `s` it started from: exactly one new order, with the next order id, for
      user `u`, created now with status CREATED and the user's shipping
      address; one new order line per former cart line (`lineOf` pairs them)
      with the line's book and quantity and the book's current price; a total
      equal to the sum of price times quantity over those lines; every former
      cart line deleted, no other cart line changed; and no other table changed. */
  ghost predicate OrderPlaced(s: Store, s': Store, u: int, now: int, lineOf: map<int, int>) {
    var id := s.nextOrderId;
    var cart := CartLines(s.cartItems, u);
    var lines := OrderLines(s'.orderItems, id);
    && u in s.users
    && s.users[u].shippingAddress.Some?
    && id !in s.orders
    && id in s'.orders
    && s'.orders == s.orders[id := Order(u, CREATED, s'.orders[id].total, now, s.users[u].shippingAddress.value, false)]
    && s'.orderItems == s.orderItems + lines
    && lines.Keys !! s.orderItems.Keys
    && lineOf.Keys == cart
    && (forall k :: k in lines ==> exists c :: c in lineOf && lineOf[c] == k)
    && (forall c, d :: c in lineOf && d in lineOf && lineOf[c] == lineOf[d] ==> c == d)
    && (forall c :: c in lineOf ==>
          c in s.cartItems && s.cartItems[c].book in s.books && lineOf[c] in lines &&
          lines[lineOf[c]] == OrderItem(id, s.cartItems[c].book, s.cartItems[c].quantity,
                                        s.books[s.cartItems[c].book].price, false))
    && s'.orders[id].total == Total(lines)
    && s'.cartItems == DeleteLines(s.cartItems, cart)
    && CartLines(s'.cartItems, u) == {}
    && s' == s.(cartItems := s'.cartItems, orders := s'.orders, orderItems := s'.orderItems,
                nextOrderId := id + 1, nextOrderItemId := s'.nextOrderItemId)
  }

  /** After the loop of `addOrder`: deleting the cart lines and saving the
      order with its new lines keeps the store's constraints and leaves the
      store as `OrderPlaced` describes. */
  lemma PlaceOrderFacts(s: Store, u: int, now: int, cartItems: map<int, CartItem>, next: int,
                        created: map<int, OrderItem>, total: int, lineOf: map<int, int>, s': Store)
    requires s.Valid() && u in s.users && s.users[u].shippingAddress.Some?
    requires Moved(s.cartItems, s.books, s.nextOrderId, s.nextOrderItemId, CartLines(s.cartItems, u),
                   cartItems, created, next, lineOf)
    requires total == Total(created)
    requires s' == s.(cartItems := DeleteLines(s.cartItems, CartLines(s.cartItems, u)),
                      orders := s.orders[s.nextOrderId := Order(u, CREATED, total, now, s.users[u].shippingAddress.value, false)],
                      orderItems := s.orderItems + created,
                      nextOrderId := s.nextOrderId + 1, nextOrderItemId := next)
    ensures s'.Valid()
    ensures OrderPlaced(s, s', u, now, lineOf)
  {
    var id := s.nextOrderId;
    var order := Order(u, CREATED, total, now, s.users[u].shippingAddress.value, false);
    DeleteLinesValid(s.carts, s.books, s.cartItems, CartLines(s.cartItems, u), u);
    SaveOrderLines(s.orders, s.books, s.orderItems, s.nextOrderItemId, created, id, order);
  }

  /** The transaction of `addOrder` once the caller's non-empty cart is known,
      over the store as it reads it: the store it commits. */
  method PlaceOrderIn(s: Store, u: int, now: int) returns (s': Store, ghost lineOf: map<int, int>)
    requires s.Valid()
    requires u in s.users && CartLines(s.cartItems, u) != {} && s.users[u].shippingAddress.Some?
    ensures s'.Valid()
    ensures OrderPlaced(s, s', u, now, lineOf)
  {
    var cart := CartLines(s.cartItems, u);
    // the id `orderRepository.save` gives the order below
    var id := s.nextOrderId;
    var cartItems, created, total, next;
    cartItems, created, total, next, lineOf := MoveLines(s.cartItems, s.books, id, cart, s.nextOrderItemId);
    // `orderRepository.save(order)`: the lines are saved with it, by cascade
    s' := s.(cartItems := cartItems,
             orders := s.orders[id := Order(u, CREATED, total, now, s.users[u].shippingAddress.value, false)],
             orderItems := s.orderItems + created,
             nextOrderId := id + 1, nextOrderItemId := next);
    PlaceOrderFacts(s, u, now, cartItems, next, created, total, lineOf, s');
  }

  /** `addOrder`: turns the caller's cart into a new order (see `OrderPlaced`);
      an unknown caller, an empty cart or a caller without a shipping address
      changes nothing. */
  method AddOrder(db: Database, email: string, now: int) returns (r: Outcome<Error>, ghost lineOf: map<int, int>)
    requires db.Valid()
    modifies db
    ensures db.Valid()
    ensures r.Fail? ==> db.store == old(db.store)
    ensures FindUserByEmail(old(db.store).users, email).None? ==> r == Fail(UserNotFound(email))
    ensures FindUserByEmail(old(db.store).users, email).Some? ==>
      var s := old(db.store);
      var u := FindUserByEmail(s.users, email).value;
      && (u !in s.carts || CartLines(s.cartItems, u) == {} ==> r == Fail(CartEmpty))
      && (u in s.carts && CartLines(s.cartItems, u) != {} && s.users[u].shippingAddress.None? ==>
            r == Fail(ShippingAddressMissing))
      && (u in s.carts && CartLines(s.cartItems, u) != {} && s.users[u].shippingAddress.Some? ==>
            r == Pass && OrderPlaced(s, db.store, u, now, lineOf))
  {
    lineOf := map[];
    var s := db.store;
    var user := FindUserByEmail(s.users, email);
    if user.None? {
      return Fail(UserNotFound(email)), lineOf;
    }
    var u := user.value;
    if u !in s.carts || CartLines(s.cartItems, u) == {} {
      return Fail(CartEmpty), lineOf;
    }
    if s.users[u].shippingAddress.None? {
      // the order gets a null address, which `@NotNull` refuses when it is
      // saved; the transaction, cart deletions included, is rolled back
      return Fail(ShippingAddressMissing), lineOf;
    }
    var s';
    s', lineOf := PlaceOrderIn(s, u, now);
    db.store := s';
    r := Pass;
  }

  /** After an order is placed, the caller's cart view (`getShoppingCart`) is empty. */
  lemma CartViewEmptyAfterOrder(s: Store, s': Store, u: int, now: int, lineOf: map<int, int>)
    requires OrderPlaced(s, s', u, now, lineOf) && s'.Valid() && u in s'.carts
    ensures ShoppingCartToDto(s', u).cartItems == {}
  {
  }

  /** `updateOrderById`: sets the requested status, whatever the current one is. */
  method UpdateOrderById(db: Database, orderId: int, status: string) returns (r: Outcome<Error>)
    requires db.Valid()
    modifies db
    ensures db.Valid()
    ensures !OrderActive(old(db.store).orders, orderId) ==>
      r == Fail(OrderNotFound(orderId)) && db.store == old(db.store)
    ensures OrderActive(old(db.store).orders, orderId) && ParseStatus(status).None? ==>
      r == Fail(NoSuchStatus(status)) && db.store == old(db.store)
    ensures OrderActive(old(db.store).orders, orderId) && ParseStatus(status).Some? ==>
      var s := old(db.store);
      && r == Pass
      && db.store == s.(orders := s.orders[orderId := s.orders[orderId].(status := ParseStatus(status).value)])
  {
    var s := db.store;
    if !OrderActive(s.orders, orderId) {
      return Fail(OrderNotFound(orderId));
    }
    var parsed := ParseStatus(status);
    if parsed.None? {
      return Fail(NoSuchStatus(status));
    }
    db.store := s.(orders := s.orders[orderId := s.orders[orderId].(status := parsed.value)]);
    r := Pass;
  }
}
