/** `ShoppingCartServiceImpl`: a user's cart, created on first use. */
module ShoppingCartService {
  import opened Wrappers
  import opened Entities
  import opened Errors
  import opened Persistence
  import opened Dto

  /** `shoppingCartByEmail`: the id of the user's cart, which is the user's id;
      the cart is created, with no lines, when the user has none yet. */
  method ShoppingCartByEmail(db: Database, email: string) returns (r: Result<int, Error>)
    requires db.Valid()
    modifies db
    ensures db.Valid()
    ensures FindUserByEmail(old(db.store).users, email).None? ==>
      r == Err(UserNotFound(email)) && db.store == old(db.store)
    ensures FindUserByEmail(old(db.store).users, email).Some? ==>
      var u := FindUserByEmail(old(db.store).users, email).value;
      && r == Ok(u)
      && db.store == old(db.store).(carts := old(db.store).carts[u := ShoppingCart(u)])
      && (u in old(db.store).carts ==> db.store == old(db.store))
      && (u !in old(db.store).carts ==> CartLines(db.store.cartItems, u) == {})
  {
    var s := db.store;
    var user := FindUserByEmail(s.users, email);
    if user.None? {
      return Err(UserNotFound(email));
    }
    var u := user.value;
    if u !in s.carts {
      // no line can point at a cart that does not exist
      forall i | i in s.cartItems ensures s.cartItems[i].cart != u { }
      assert CartLines(s.cartItems, u) == {};
      db.store := s.(carts := s.carts[u := ShoppingCart(u)]);
    }
    r := Ok(u);
  }

  /** `getShoppingCart`: the view of the cart `shoppingCartByEmail` yields. */
  method GetShoppingCart(db: Database, email: string) returns (r: Result<ShoppingCartDto, Error>)
    requires db.Valid()
    modifies db
    ensures db.Valid()
    ensures FindUserByEmail(old(db.store).users, email).None? ==>
      r == Err(UserNotFound(email)) && db.store == old(db.store)
    ensures FindUserByEmail(old(db.store).users, email).Some? ==>
      var u := FindUserByEmail(old(db.store).users, email).value;
      && db.store == old(db.store).(carts := old(db.store).carts[u := ShoppingCart(u)])
      && u in db.store.carts
      && r == Ok(ShoppingCartToDto(db.store, u))
  {
    var cart := ShoppingCartByEmail(db, email);
    if cart.Err? {
      return Err(cart.error);
    }
    r := Ok(ShoppingCartToDto(db.store, cart.value));
  }

  /** Asking twice yields the same cart, and the second call creates nothing:
      there is never more than one cart per user. */
  method ShoppingCartByEmailTwice(db: Database, email: string) returns (first: Result<int, Error>, second: Result<int, Error>)
    requires db.Valid()
    modifies db
    ensures db.Valid()
    ensures first == second
    ensures first.Ok? ==> first.value in db.store.carts && db.store.carts[first.value].user == first.value
    ensures first.Ok? ==> db.store == old(db.store).(carts := old(db.store).carts[first.value := ShoppingCart(first.value)])
    ensures first.Err? ==> db.store == old(db.store)
  {
    first := ShoppingCartByEmail(db, email);
    ghost var between := db.store;
    second := ShoppingCartByEmail(db, email);
    assert db.store == between;
  }
}
