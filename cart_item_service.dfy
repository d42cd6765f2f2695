/** `CartItemServiceImpl`: adding a book to the caller's cart, changing a
    line's quantity and removing a line. */
module CartItemService {
  import opened Wrappers
  import opened Entities
  import opened Errors
  import opened Persistence
  import ShoppingCartService

  /** Java `int` arithmetic: the value modulo 2^32, read back as a signed number. */
  function WrapInt(x: int): (r: int)
    ensures -0x8000_0000 <= r <= IntegerMax
    ensures (r - x) % 0x1_0000_0000 == 0
  {
    (x + 0x8000_0000) % 0x1_0000_0000 - 0x8000_0000
  }

  /** The increment `addItem` performs as written: `Integer` addition, which wraps around. */
  function AddQuantityAsWritten(current: int, requested: int): int {
    WrapInt(current + requested)
  }

  /** A line already at the largest `Integer` quantity, incremented by one, gets a
      negative quantity: the increment as written breaks "every quantity is at least 1". */
  lemma AddQuantityAsWrittenGoesNegative()
    ensures AddQuantityAsWritten(IntegerMax, 1) == -0x8000_0000
    ensures AddQuantityAsWritten(IntegerMax, 1) < 1
  {
  }

  /** The increment as intended: the exact sum, refused when an `Integer` cannot hold it. */
  function AddQuantity(current: int, requested: int): (r: Option<int>)
    requires 1 <= current <= IntegerMax && 1 <= requested <= IntegerMax
    ensures r.Some? <==> current + requested <= IntegerMax
    ensures r.Some? ==> r.value == current + requested && 1 <= r.value <= IntegerMax
    ensures r.Some? ==> r.value == AddQuantityAsWritten(current, requested)
  {
    var sum := current + requested;
    if sum <= IntegerMax then Some(sum) else None
  }

  /** The ownership check of `updateItem` and `deleteItem`: the line exists, is
      live, and the user of its cart has the caller's e-mail. */
  predicate OwnedBy(s: Store, id: int, email: string) {
    && id in s.cartItems
    && !s.cartItems[id].deleted
    && s.cartItems[id].cart in s.carts
    && s.carts[s.cartItems[id].cart].user in s.users
    && s.users[s.carts[s.cartItems[id].cart].user].email == email
  }

  /** Giving a line a quantity an `Integer` holds, at least 1, keeps the store's constraints. */
  lemma SetQuantityValid(s: Store, id: int, quantity: int)
    requires s.Valid() && id in s.cartItems && 1 <= quantity <= IntegerMax
    ensures s.(cartItems := s.cartItems[id := s.cartItems[id].(quantity := quantity)]).Valid()
  {
  }

  /** Inserting, under the next id, a line of a cart for a book it has no live
      line for keeps the store's constraints. */
  lemma InsertLineValid(s: Store, cart: int, book: int, quantity: int)
    requires s.Valid() && cart in s.carts && book in s.books
    requires FindCartItemByBookId(s.cartItems, cart, book).None?
    requires 1 <= quantity <= IntegerMax
    ensures s.(cartItems := s.cartItems[s.nextCartItemId := CartItem(cart, book, quantity, false)],
               nextCartItemId := s.nextCartItemId + 1).Valid()
  {
  }

  /** Soft-deleting a line keeps the store's constraints. */
  lemma DeleteLineValid(s: Store, id: int)
    requires s.Valid() && id in s.cartItems
    ensures s.(cartItems := s.cartItems[id := s.cartItems[id].(deleted := true)]).Valid()
  {
  }

  /** `addItem`: the caller's cart (created if needed) gets `quantity` more of the
      book: its line for the book grows, or a new line is inserted. A failure
      rolls the whole transaction back, including a cart created on the way. */
  method AddItem(db: Database, email: string, bookId: int, quantity: int) returns (r: Outcome<Error>)
    requires db.Valid()
    requires 1 <= quantity <= IntegerMax
    modifies db
    ensures db.Valid()
    ensures r.Fail? ==> db.store == old(db.store)
    ensures FindUserByEmail(old(db.store).users, email).None? ==> r == Fail(UserNotFound(email))
    ensures FindUserByEmail(old(db.store).users, email).Some? ==>
      var s := old(db.store);
      var u := FindUserByEmail(s.users, email).value;
      var carts := s.carts[u := ShoppingCart(u)];
      var line := FindCartItemByBookId(s.cartItems, u, bookId);
      && (line.Some? ==>
            var item := s.cartItems[line.value];
            && (AddQuantity(item.quantity, quantity).None? ==> r == Fail(QuantityOverflow(line.value)))
            && (AddQuantity(item.quantity, quantity).Some? ==>
                  && r == Pass
                  && db.store == s.(carts := carts,
                                    cartItems := s.cartItems[line.value := item.(quantity := item.quantity + quantity)])))
      && (line.None? && !BookActive(s.books, bookId) ==> r == Fail(BookNotFound(bookId)))
      && (line.None? && BookActive(s.books, bookId) ==>
            && r == Pass
            && s.nextCartItemId !in s.cartItems
            && db.store == s.(carts := carts,
                              cartItems := s.cartItems[s.nextCartItemId := CartItem(u, bookId, quantity, false)],
                              nextCartItemId := s.nextCartItemId + 1))
  {
    var before := db.store;
    var cart := ShoppingCartService.ShoppingCartByEmail(db, email);
    if cart.Err? {
      return Fail(cart.error);
    }
    var u := cart.value;
    var s := db.store;
    var line := FindCartItemByBookId(s.cartItems, u, bookId);
    if line.Some? {
      var item := s.cartItems[line.value];
      var sum := AddQuantity(item.quantity, quantity);
      if sum.None? {
        db.store := before;
        return Fail(QuantityOverflow(line.value));
      }
      SetQuantityValid(s, line.value, sum.value);
      db.store := s.(cartItems := s.cartItems[line.value := item.(quantity := sum.value)]);
    } else {
      if !BookActive(s.books, bookId) {
        db.store := before;
        return Fail(BookNotFound(bookId));
      }
      InsertLineValid(s, u, bookId, quantity);
      db.store := s.(cartItems := s.cartItems[s.nextCartItemId := CartItem(u, bookId, quantity, false)],
                     nextCartItemId := s.nextCartItemId + 1);
    }
    r := Pass;
  }

  /** `updateItem`: the caller's line gets exactly the requested quantity. */
  method UpdateItem(db: Database, email: string, id: int, quantity: int) returns (r: Outcome<Error>)
    requires db.Valid()
    requires 1 <= quantity <= IntegerMax
    modifies db
    ensures db.Valid()
    ensures !OwnedBy(old(db.store), id, email) ==> r == Fail(CartItemNotFound(id)) && db.store == old(db.store)
    ensures OwnedBy(old(db.store), id, email) ==>
      var s := old(db.store);
      && r == Pass
      && db.store == s.(cartItems := s.cartItems[id := s.cartItems[id].(quantity := quantity)])
  {
    var s := db.store;
    if !OwnedBy(s, id, email) {
      return Fail(CartItemNotFound(id));
    }
    SetQuantityValid(s, id, quantity);
    db.store := s.(cartItems := s.cartItems[id := s.cartItems[id].(quantity := quantity)]);
    r := Pass;
  }

  /** `deleteItem`: the caller's line is soft-deleted; no other line changes. */
  method DeleteItem(db: Database, email: string, id: int) returns (r: Outcome<Error>)
    requires db.Valid()
    modifies db
    ensures db.Valid()
    ensures !OwnedBy(old(db.store), id, email) ==> r == Fail(CartItemNotFound(id)) && db.store == old(db.store)
    ensures OwnedBy(old(db.store), id, email) ==>
      var s := old(db.store);
      && r == Pass
      && db.store == s.(cartItems := s.cartItems[id := s.cartItems[id].(deleted := true)])
      && id !in CartLines(db.store.cartItems, s.cartItems[id].cart)
  {
    var s := db.store;
    if !OwnedBy(s, id, email) {
      return Fail(CartItemNotFound(id));
    }
    DeleteLineValid(s, id);
    db.store := s.(cartItems := s.cartItems[id := s.cartItems[id].(deleted := true)]);
    r := Pass;
  }
}
