/** The relational store behind the JPA repositories: one map from id to
    record per table, and one identity counter per table. Soft-deleted rows
    stay in their table with `deleted` set; every read below skips them,
    as the entities' `@Where(clause = "is_deleted = false")` makes Hibernate do. */
module Persistence {
  import opened Wrappers
  import opened Entities

  /** Every key of a table is an id the table's identity counter has issued. */
  ghost predicate IdsIssued(keys: set<int>, next: int) {
    1 <= next && forall k :: k in keys ==> 1 <= k < next
  }

  /** At most one user per e-mail address. */
  ghost predicate EmailsUnique(users: map<int, User>) {
    forall i, j :: i in users && j in users && users[i].email == users[j].email ==> i == j
  }

  /** The unique index on `books.isbn` (it covers soft-deleted rows too). */
  ghost predicate IsbnsUnique(books: map<int, Book>) {
    forall i, j :: i in books && j in books && books[i].isbn == books[j].isbn ==> i == j
  }

  /** The unique index on `categories.name` (it covers soft-deleted rows too). */
  ghost predicate CategoryNamesUnique(categories: map<int, Category>) {
    forall i, j :: i in categories && j in categories && categories[i].name == categories[j].name ==> i == j
  }

  /** A cart shares its id with its user. */
  ghost predicate CartsValid(users: map<int, User>, carts: map<int, ShoppingCart>) {
    forall u :: u in carts ==> u in users && carts[u].user == u
  }

  /** Cart lines point at a cart and a book, and hold a quantity a Java `Integer` can hold, at least 1. */
  ghost predicate CartItemsValid(carts: map<int, ShoppingCart>, books: map<int, Book>, items: map<int, CartItem>) {
    forall i :: i in items ==>
      items[i].cart in carts && items[i].book in books && 1 <= items[i].quantity <= IntegerMax
  }

  /** A cart holds at most one live line per book. */
  ghost predicate OneLinePerBook(items: map<int, CartItem>) {
    forall i, j ::
      (i in items && j in items && !items[i].deleted && !items[j].deleted
       && items[i].cart == items[j].cart && items[i].book == items[j].book) ==> i == j
  }

  ghost predicate OrdersValid(users: map<int, User>, orders: map<int, Order>) {
    forall o :: o in orders ==> orders[o].user in users
  }

  /** Order lines point at an order and a book, with a quantity of at least 1. */
  ghost predicate OrderItemsValid(orders: map<int, Order>, books: map<int, Book>, items: map<int, OrderItem>) {
    forall i :: i in items ==>
      items[i].order in orders && items[i].book in books && items[i].quantity >= 1
  }

  /** `findByEmail`: the id of the user registered with that e-mail, if any. */
  function FindUserByEmail(users: map<int, User>, email: string): (r: Option<int>)
    requires EmailsUnique(users)
    ensures r.Some? ==> r.value in users && users[r.value].email == email
    ensures r.None? ==> forall i :: i in users ==> users[i].email != email
  {
    if exists i :: i in users && users[i].email == email then
      var i :| i in users && users[i].email == email;
      Some(i)
    else
      None
  }

  /** The live lines of a cart: `ShoppingCart.cartItems`, mapped by `CartItem.shoppingCart`. */
  function CartLines(items: map<int, CartItem>, cart: int): (r: set<int>)
    ensures forall i :: i in r <==> i in items && items[i].cart == cart && !items[i].deleted
  {
    set i | i in items && items[i].cart == cart && !items[i].deleted
  }

  /** `CartItemRepository.findCardItemByBookId`: the live line of that cart for that book, if any. */
  function FindCartItemByBookId(items: map<int, CartItem>, cart: int, book: int): (r: Option<int>)
    requires OneLinePerBook(items)
    ensures r.Some? ==> r.value in CartLines(items, cart) && items[r.value].book == book
    ensures r.None? ==> forall i :: i in CartLines(items, cart) ==> items[i].book != book
  {
    if exists i :: i in items && items[i].cart == cart && items[i].book == book && !items[i].deleted then
      var i :| i in items && items[i].cart == cart && items[i].book == book && !items[i].deleted;
      Some(i)
    else
      None
  }

  /** The lookup by book agrees with the cart's lines: it yields a line exactly
      when that line is a live line of the cart for that book, so the cart has
      no second such line. */
  lemma FindCartItemIsCartLine(items: map<int, CartItem>, cart: int, book: int, i: int)
    requires OneLinePerBook(items)
    ensures FindCartItemByBookId(items, cart, book) == Some(i) <==>
      i in CartLines(items, cart) && items[i].book == book
  {
    var found := FindCartItemByBookId(items, cart, book);
    if i in CartLines(items, cart) && items[i].book == book {
      assert found.Some?;
      assert items[found.value].cart == cart && !items[found.value].deleted;
    }
  }

  /** The lines of an order: `Order.orderItems`, mapped by `OrderItem.order`. */
  function OrderLines(items: map<int, OrderItem>, order: int): (r: map<int, OrderItem>)
    ensures forall i :: i in r <==> i in items && items[i].order == order && !items[i].deleted
    ensures forall i :: i in r ==> r[i] == items[i]
  {
    map i | i in items && items[i].order == order && !items[i].deleted :: items[i]
  }

  /** `BookRepository.findById`: a book that exists and is not soft-deleted. */
  predicate BookActive(books: map<int, Book>, id: int) {
    id in books && !books[id].deleted
  }

  /** `CategoryRepository.findById`: a category that exists and is not soft-deleted. */
  predicate CategoryActive(categories: map<int, Category>, id: int) {
    id in categories && !categories[id].deleted
  }

  /** `OrderRepository.findFirstById`: an order that exists and is not soft-deleted. */
  predicate OrderActive(orders: map<int, Order>, id: int) {
    id in orders && !orders[id].deleted
  }

  /** The tables of the store, one map from id to record per JPA repository,
      and the next id each table's identity column hands out. */
  datatype Store = Store(
    users: map<int, User>,
    books: map<int, Book>,
    categories: map<int, Category>,
    carts: map<int, ShoppingCart>,
    cartItems: map<int, CartItem>,
    orders: map<int, Order>,
    orderItems: map<int, OrderItem>,
    nextUserId: int,
    nextBookId: int,
    nextCategoryId: int,
    nextCartItemId: int,
    nextOrderId: int,
    nextOrderItemId: int)
  {
    /** The constraints the schema and the services maintain together. */
    ghost predicate Valid() {
      && IdsIssued(users.Keys, nextUserId)
      && IdsIssued(books.Keys, nextBookId)
      && IdsIssued(categories.Keys, nextCategoryId)
      && IdsIssued(cartItems.Keys, nextCartItemId)
      && IdsIssued(orders.Keys, nextOrderId)
      && IdsIssued(orderItems.Keys, nextOrderItemId)
      && EmailsUnique(users)
      && IsbnsUnique(books)
      && CategoryNamesUnique(categories)
      && CartsValid(users, carts)
      && CartItemsValid(carts, books, cartItems)
      && OneLinePerBook(cartItems)
      && OrdersValid(users, orders)
      && OrderItemsValid(orders, books, orderItems)
    }
  }

  /** The persistence context shared by the services: every repository call
      reads or replaces its store. */
  class Database {
    var store: Store

    ghost predicate Valid()
      reads this
    {
      store.Valid()
    }

    /** An empty store: no rows, every identity column starting at 1. */
    constructor ()
      ensures Valid()
      ensures store == Store(map[], map[], map[], map[], map[], map[], map[], 1, 1, 1, 1, 1, 1)
    {
      store := Store(map[], map[], map[], map[], map[], map[], map[], 1, 1, 1, 1, 1, 1);
    }
  }
}
