/** `OrderItemServiceImpl`: the lines of one of the caller's orders. Both
    operations only read the store. */
module OrderItemService {
  import opened Wrappers
  import opened Entities
  import opened Errors
  import opened Persistence
  import opened Dto

  /** `OrderRepository.findFirstByUserAndId`: a live order with that id and that owner. */
  predicate OwnsOrder(orders: map<int, Order>, user: int, orderId: int) {
    OrderActive(orders, orderId) && orders[orderId].user == user
  }

  /** `OrderItemRepository.findFirstByOrderAndId`: a live line with that id of that order. */
  predicate LineOfOrder(items: map<int, OrderItem>, orderId: int, itemId: int) {
    itemId in items && items[itemId].order == orderId && !items[itemId].deleted
  }

  /** `getOrderItems`: the views of exactly the lines of the caller's order; an
      order of another user is reported exactly like a missing one. */
  function GetOrderItems(s: Store, email: string, orderId: int): (r: Result<set<OrderItemDto>, Error>)
    requires s.Valid()
    ensures FindUserByEmail(s.users, email).None? ==> r == Err(UserNotFound(email))
    ensures FindUserByEmail(s.users, email).Some? ==>
      var u := FindUserByEmail(s.users, email).value;
      && (!OwnsOrder(s.orders, u, orderId) ==> r == Err(OrderNotFound(orderId)))
      && (OwnsOrder(s.orders, u, orderId) ==> r.Ok?)
    ensures r.Ok? ==>
      && s.users[s.orders[orderId].user].email == email
      && (forall d :: d in r.value ==>
            LineOfOrder(s.orderItems, orderId, d.id) && d == OrderItemToDto(s.books, d.id, s.orderItems[d.id]))
      && (forall i :: LineOfOrder(s.orderItems, orderId, i) ==>
            OrderItemToDto(s.books, i, s.orderItems[i]) in r.value)
  {
    match FindUserByEmail(s.users, email)
    case None => Err(UserNotFound(email))
    case Some(u) =>
      if OwnsOrder(s.orders, u, orderId) then Ok(OrderItemsToDtos(s, orderId))
      else Err(OrderNotFound(orderId))
  }

  /** `getOrderItemById`: the view of one line of the caller's order; a line of
      another order is reported exactly like a missing one. */
  function GetOrderItemById(s: Store, email: string, orderId: int, itemId: int): (r: Result<OrderItemDto, Error>)
    requires s.Valid()
    ensures FindUserByEmail(s.users, email).None? ==> r == Err(UserNotFound(email))
    ensures FindUserByEmail(s.users, email).Some? ==>
      var u := FindUserByEmail(s.users, email).value;
      && (!OwnsOrder(s.orders, u, orderId) ==> r == Err(OrderNotFound(orderId)))
      && (OwnsOrder(s.orders, u, orderId) && !LineOfOrder(s.orderItems, orderId, itemId) ==>
            r == Err(OrderItemNotFound(itemId)))
      && (OwnsOrder(s.orders, u, orderId) && LineOfOrder(s.orderItems, orderId, itemId) ==>
            r == Ok(OrderItemToDto(s.books, itemId, s.orderItems[itemId])))
    ensures r.Ok? ==> r.value.id == itemId && s.users[s.orders[orderId].user].email == email
  {
    match FindUserByEmail(s.users, email)
    case None => Err(UserNotFound(email))
    case Some(u) =>
      if !OwnsOrder(s.orders, u, orderId) then Err(OrderNotFound(orderId))
      else if !LineOfOrder(s.orderItems, orderId, itemId) then Err(OrderItemNotFound(itemId))
      else Ok(OrderItemToDto(s.books, itemId, s.orderItems[itemId]))
  }

  /** The two reads agree: a line is found by id exactly when the order's list
      holds a view with that id, and then the list holds that very view. */
  lemma ItemByIdIsListed(s: Store, email: string, orderId: int, itemId: int)
    requires s.Valid()
    ensures GetOrderItemById(s, email, orderId, itemId).Ok? <==>
      GetOrderItems(s, email, orderId).Ok? && exists d :: d in GetOrderItems(s, email, orderId).value && d.id == itemId
    ensures GetOrderItemById(s, email, orderId, itemId).Ok? ==>
      GetOrderItemById(s, email, orderId, itemId).value in GetOrderItems(s, email, orderId).value
  {
    var one := GetOrderItemById(s, email, orderId, itemId);
    var all := GetOrderItems(s, email, orderId);
    if one.Ok? {
      assert one.value in all.value;
    }
  }
}
