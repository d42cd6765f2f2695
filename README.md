# Bookstore service core in Dafny

This project models the service layer of a Spring Boot bookstore backend
(VoitseshukV/bookstore). The backend has users, books and categories, a
shopping cart per user, and orders placed from that cart.

The relational store behind the JPA repositories is one value, `Persistence.Store`. It holds:

- one `map` from id to record per table;
- one identity counter per table;
- the schema constraints that the services keep together, as `Store.Valid()`.

Unique ISBNs, unique category names, one live line per book in a cart, and line quantities between 1 and `Integer.MAX_VALUE` are all part of `Store.Valid()`.

The services share a `Persistence.Database` object whose single field, `store`, they replace. A service that changes tables is a method with `modifies db`. Its postcondition gives the whole new store in terms of the old one, and says which exception it throws instead. A read-only service is a function of the store. Soft deletion works as the entities' `@SQLDelete`/`@Where` pair makes it work: a deleted row stays in its table with `deleted` set, and every read skips it.

Modules, one per source class:

- `OrderService` places an order from the caller's cart. `MoveLines` is the loop that creates the order lines, adds up the total and soft-deletes the cart lines, and `OrderPlaced` states the resulting store. The module also reads the caller's orders and overwrites an order's status.
- `CartItemService` adds a book to the cart, either raising the quantity of the existing line or inserting a line. It also sets a line's quantity and deletes a line; both first check that the line belongs to the caller.
- `ShoppingCartService` returns the user's cart, creating it on first use.
- `OrderItemService` reads the lines of one of the caller's orders.
- `BookSpecificationBuilder` and `IsbnSpecificationProvider` build a search condition, modelled as a predicate `Book -> bool`. The builder and-s one provider condition per field that is present and not blank. The ISBN condition compares upper-cased values.
- `BookService`, `CategoryService` and `UserService` handle the catalogue and registration: existence-checked updates, soft deletes, unique-index refusals, and registration with a duplicate check and the single role USER.
- `EnumValidatorConstraint` and `FieldMatchValidator` are the two bean validators. Each is a class with its configuration fields. `ConstraintContext.Context` records the violations they report.
- `JwtAuthenticationFilter.GetToken` extracts the token from an `Authorization` header in the Bearer scheme (section 2.1 of RFC 6750).
- `Money` holds order totals as exact integers in minor units. It proves that the total does not depend on the order in which a loop visits the lines.

A duplicate registration is not left to the database: `register` checks `findByEmail` first and throws a `RegistrationException`.

## Model

| member | source | states |
|---|---|---|
| Entities.ParseStatus | src/main/java/com/bookstore/core/model/Order.java:51-58 | `valueOf` succeeds exactly on the six constant names, and the constant it yields has that name |
| Entities.ParseStatusName | src/main/java/com/bookstore/core/model/Order.java:51-58 | the name of every status parses back to that status |
| Text.ToUpper | src/main/java/com/bookstore/core/repository/book/IsbnSpecificationProvider.java:26-27 | upper-casing keeps the length and maps every character on its own |
| Text.ToLower | src/main/java/com/bookstore/core/security/JwtAuthenticationFilter.java:46 | lower-casing keeps the length and maps every character on its own |
| Text.UpperCharEqual | src/main/java/com/bookstore/core/repository/book/IsbnSpecificationProvider.java:26-27 | two characters upper-case to the same character exactly when they are equal up to letter case |
| Text.ToLowerPrefix | src/main/java/com/bookstore/core/security/JwtAuthenticationFilter.java:46 | testing a prefix of the lower-cased header is testing the lower-cased prefix |
| Money.SumOverRemove | src/main/java/com/bookstore/core/service/impl/OrderServiceImpl.java:68-69 | any line can be added first: a sum does not depend on the order of the lines |
| Money.SumAdd | src/main/java/com/bookstore/core/service/impl/OrderServiceImpl.java:68-69 | adding a fresh entry adds its amount to the sum |
| Money.RunningTotalIsSum | src/main/java/com/bookstore/core/service/impl/OrderServiceImpl.java:60-72 | a loop that visits every line once, in any order, ends with the sum of the amounts |
| Money.TotalAdd | src/main/java/com/bookstore/core/service/impl/OrderServiceImpl.java:68-69 | adding a line to an order adds price times quantity to its total |
| Money.FirstTestOrderTotal | src/test/java/com/bookstore/core/util/TestDataFactory.java:433-450 | the lines 500 x 1, 420 x 1 and 450 x 2 total 1820 |
| Persistence.FindUserByEmail | src/main/java/com/bookstore/core/service/impl/OrderServiceImpl.java:48-49 | finds a user with that e-mail exactly when one exists |
| Persistence.FindCartItemByBookId | src/main/java/com/bookstore/core/repository/cart/CartItemRepository.java:8-10 | finds the cart's live line for that book, or reports that the cart has none |
| Persistence.FindCartItemIsCartLine | src/main/java/com/bookstore/core/repository/cart/CartItemRepository.java:8-10 | the lookup by book yields a line exactly when it is a live line of that cart for that book, so there is no second one |
| Dto.CartViewListsEachBookOnce | src/main/java/com/bookstore/core/mapper/ShoppingCartMapper.java:13-23 | the cart view lists each book at most once: two entries for the same book are one entry |
| ShoppingCartService.ShoppingCartByEmail | src/main/java/com/bookstore/core/service/impl/ShoppingCartServiceImpl.java:30-41 | unknown e-mail: not found, nothing changes; an existing cart is returned untouched; otherwise a cart with no lines is created for the user |
| ShoppingCartService.GetShoppingCart | src/main/java/com/bookstore/core/service/impl/ShoppingCartServiceImpl.java:25-26 | returns the view of exactly the cart `shoppingCartByEmail` yields |
| ShoppingCartService.ShoppingCartByEmailTwice | src/main/java/com/bookstore/core/service/impl/ShoppingCartServiceImpl.java:33-41 | a second call returns the same cart and creates nothing: two calls change the store exactly as one call does, so there is at most one cart per user |
| CartItemService.WrapInt | src/main/java/com/bookstore/core/service/impl/CartItemServiceImpl.java:33 | Java `int` addition: the result is in the `int` range and congruent to the exact sum modulo 2^32 |
| CartItemService.AddQuantityAsWrittenGoesNegative | src/main/java/com/bookstore/core/service/impl/CartItemServiceImpl.java:33 | the increment as written turns a quantity of 2147483647 plus 1 into -2147483648 |
| CartItemService.AddQuantity | src/main/java/com/bookstore/core/service/impl/CartItemServiceImpl.java:33 | the checked increment succeeds exactly when the sum fits in an `Integer`, and then agrees with the increment as written |
| CartItemService.SetQuantityValid | src/main/java/com/bookstore/core/service/impl/CartItemServiceImpl.java:55-57 | setting a quantity from 1 to `Integer.MAX_VALUE` keeps every store constraint |
| CartItemService.InsertLineValid | src/main/java/com/bookstore/core/service/impl/CartItemServiceImpl.java:34-43 | a new line for a book the cart has no line for keeps one live line per book, and every other constraint |
| CartItemService.DeleteLineValid | src/main/java/com/bookstore/core/service/impl/CartItemServiceImpl.java:69 | deleting a line keeps every store constraint |
| CartItemService.AddItem | src/main/java/com/bookstore/core/service/impl/CartItemServiceImpl.java:28-44 | unknown user: not found. An existing line grows by the requested quantity when the sum fits in an `Integer`, and is refused otherwise (the corrected increment, see Findings); nothing else changes. Otherwise an unknown book fails, or exactly one new line is added with that book and quantity. A failure rolls back the cart created on the way |
| CartItemService.UpdateItem | src/main/java/com/bookstore/core/service/impl/CartItemServiceImpl.java:48-58 | a missing line, or one of another user's cart, is not found and nothing changes; otherwise the quantity becomes exactly the requested one and no other line changes |
| CartItemService.DeleteItem | src/main/java/com/bookstore/core/service/impl/CartItemServiceImpl.java:61-70 | the same ownership check; then only that line is soft-deleted and leaves the cart |
| OrderService.GetOrders | src/main/java/com/bookstore/core/service/impl/OrderServiceImpl.java:37-43 | unknown e-mail: not found; otherwise a view of every live order of the caller and of no other order, each carrying the caller's e-mail |
| OrderService.GetOrderById | src/main/java/com/bookstore/core/service/impl/OrderServiceImpl.java:78-83 | the caller's live order with that id; another user's order is not found, like a missing one |
| OrderService.DeleteLinesValid | src/main/java/com/bookstore/core/service/impl/OrderServiceImpl.java:70-74 | deleting all of a cart's lines keeps the cart-item constraints and leaves the cart with no lines |
| OrderService.SaveOrderLines | src/main/java/com/bookstore/core/service/impl/OrderServiceImpl.java:73 | saving the order with lines under fresh ids: the new order's lines are exactly those lines, and the order-line constraints hold |
| OrderService.MoveOne | src/main/java/com/bookstore/core/service/impl/OrderServiceImpl.java:61-71 | one turn of the loop keeps the pairing of handled cart lines with their order lines one-to-one |
| OrderService.MoveLines | src/main/java/com/bookstore/core/service/impl/OrderServiceImpl.java:60-71 | one new order line per cart line, with its book, its quantity and the book's current price; the total is the sum of price times quantity; every cart line is deleted, and no other line |
| OrderService.PlaceOrderFacts | src/main/java/com/bookstore/core/service/impl/OrderServiceImpl.java:72-74 | the store after the loop and the save keeps every constraint and is the one `OrderPlaced` describes |
| OrderService.PlaceOrderIn | src/main/java/com/bookstore/core/service/impl/OrderServiceImpl.java:54-74 | from a non-empty cart of a user with a shipping address: one CREATED order, with that address, lines and total as above, and an empty cart; no other table changes |
| OrderService.AddOrder | src/main/java/com/bookstore/core/service/impl/OrderServiceImpl.java:47-75 | unknown e-mail: not found; a missing or empty cart: "Shopping cart is empty"; a user without a shipping address: the `@NotNull` address of the order is refused on save; all three change nothing; otherwise the order is placed as `OrderPlaced` states |
| OrderService.CartViewEmptyAfterOrder | src/main/java/com/bookstore/core/service/impl/OrderServiceImpl.java:70-75 | after an order is placed, the view `getShoppingCart` returns for the caller has no entries |
| OrderService.UpdateOrderById | src/main/java/com/bookstore/core/service/impl/OrderServiceImpl.java:87-93 | an unknown order is not found; an unknown status name fails; otherwise the status is overwritten from any prior status, and nothing else changes |
| OrderItemService.GetOrderItems | src/main/java/com/bookstore/core/service/impl/OrderItemServiceImpl.java:25-33 | unknown e-mail: not found; another user's or a missing order: not found; otherwise the views of exactly that order's lines |
| OrderItemService.GetOrderItemById | src/main/java/com/bookstore/core/service/impl/OrderItemServiceImpl.java:36-44 | the same two checks, then the line only if it belongs to that order; otherwise "order item not found" |
| OrderItemService.ItemByIdIsListed | src/main/java/com/bookstore/core/service/impl/OrderItemServiceImpl.java:25-44 | a line is found by id exactly when the order's list holds a view with that id, and the list then holds that very view |
| IsbnSpecificationProvider.IsbnMatchesIgnoringCase | src/main/java/com/bookstore/core/repository/book/IsbnSpecificationProvider.java:26-27 | a book matches exactly when its ISBN has the parameter's length and agrees with it character by character up to letter case |
| IsbnSpecificationProvider.IsbnOtherLengthNeverMatches | src/main/java/com/bookstore/core/repository/book/IsbnSpecificationProvider.java:26-27 | exact match, never a substring match: a parameter of another length never matches |
| IsbnSpecificationProvider.IsbnMatchesItself | src/main/java/com/bookstore/core/repository/book/IsbnSpecificationProvider.java:26-27 | a book always matches its own ISBN |
| IsbnSpecificationProvider.IsbnIgnoresParameterCase | src/main/java/com/bookstore/core/repository/book/IsbnSpecificationProvider.java:27 | the parameter, its lower-case form and its upper-case form select the same books |
| Text.ToUpperIdempotent | src/main/java/com/bookstore/core/repository/book/IsbnSpecificationProvider.java:27 | upper-casing an upper-cased parameter changes nothing |
| BookSpecificationBuilder.BuildMatches | src/main/java/com/bookstore/core/repository/book/BookSpecificationBuilder.java:17-44 | a book is selected exactly when it meets the condition of every present field, each from the provider registered under that field's name |
| BookSpecificationBuilder.NothingPresentSelectsAll | src/main/java/com/bookstore/core/repository/book/BookSpecificationBuilder.java:18-43 | with every field null or blank, every book is selected |
| BookSpecificationBuilder.NullSameAsBlank | src/main/java/com/bookstore/core/repository/book/BookSpecificationBuilder.java:19-20 | a null field and a blank field select the same books, for each of the four fields |
| BookSpecificationBuilder.MoreFieldsSelectFewer | src/main/java/com/bookstore/core/repository/book/BookSpecificationBuilder.java:19-42 | filling in more fields never selects more books |
| BookSpecificationBuilder.IsbnSearchSelectsEqualIsbns | src/main/java/com/bookstore/core/repository/book/BookSpecificationBuilder.java:31-35 | with the ISBN provider, a present ISBN parameter selects only books whose ISBN equals it up to letter case |
| BookSpecificationBuilder.IsbnOnlySearchSelectsEqualIsbns | src/main/java/com/bookstore/core/repository/book/BookSpecificationBuilder.java:31-35 | with the ISBN provider and only the ISBN field present, a book is selected exactly when its ISBN equals the parameter up to letter case |
| BookService.SoftDeleted | src/main/java/com/bookstore/core/service/impl/BookServiceImpl.java:54-56 | a delete keeps every row and changes no other book; the deleted id no longer reads as a live book |
| BookService.FindAll | src/main/java/com/bookstore/core/service/impl/BookServiceImpl.java:31-35 | exactly the books that are not deleted, each as `getBookById` reads it |
| BookService.SearchWithinFindAll | src/main/java/com/bookstore/core/service/impl/BookServiceImpl.java:59-64 | a search selects among the books `findAll` lists, and with no present field it selects all of them |
| BookService.SavedBookIsSearchable | src/main/java/com/bookstore/core/service/impl/BookServiceImpl.java:59-64 | a book `save` has just stored is found by a search for its own ISBN |
| BookService.Save | src/main/java/com/bookstore/core/service/impl/BookServiceImpl.java:26-28 | an ISBN already stored is refused and nothing changes; otherwise the book is stored under the next id and then reads back |
| BookService.UpdateById | src/main/java/com/bookstore/core/service/impl/BookServiceImpl.java:44-51 | a missing id fails and stores nothing; otherwise the record at that id is replaced, keeping the id, unless another row holds the ISBN |
| BookService.DeleteById | src/main/java/com/bookstore/core/service/impl/BookServiceImpl.java:54-56 | a soft delete of that book alone |
| BookService.DeletedBookIsGone | src/main/java/com/bookstore/core/model/Book.java:18-19 | a deleted book is absent from `getBookById`, `findAll` and every search; every other book reads as before |
| CategoryService.SoftDeleted | src/main/java/com/bookstore/core/service/impl/CategoryServiceImpl.java:51-53 | a delete keeps every row and changes no other category; the deleted id no longer reads as live |
| CategoryService.FindAll | src/main/java/com/bookstore/core/service/impl/CategoryServiceImpl.java:28-32 | exactly the categories that are not deleted |
| CategoryService.Save | src/main/java/com/bookstore/core/service/impl/CategoryServiceImpl.java:22-25 | a name already stored is refused and nothing changes; otherwise the category is stored under the next id and then reads back |
| CategoryService.UpdateById | src/main/java/com/bookstore/core/service/impl/CategoryServiceImpl.java:41-48 | a missing id fails and stores nothing; otherwise the record at that id is replaced, keeping the id, unless another row holds the name |
| CategoryService.DeleteById | src/main/java/com/bookstore/core/service/impl/CategoryServiceImpl.java:51-53 | a soft delete of that category alone |
| CategoryService.DeletedCategoryIsGone | src/main/java/com/bookstore/core/model/Category.java:19-20 | a deleted category is absent from every read; every other category reads as before |
| UserService.FindByEmail | src/main/java/com/bookstore/core/service/impl/UserServiceImpl.java:41-44 | the stored user with that e-mail exactly when there is one; otherwise "Can't get user with email" |
| UserService.Register | src/main/java/com/bookstore/core/service/impl/UserServiceImpl.java:27-38 | an e-mail already registered is refused and nothing changes; otherwise exactly one user is added, which `findByEmail` then finds |
| UserService.RegisterValid | src/main/java/com/bookstore/core/service/impl/UserServiceImpl.java:29-36 | adding a user with an unregistered e-mail keeps e-mails unique, and `findByEmail` then finds that user |
| ConstraintContext.Context.Report | src/main/java/com/bookstore/core/dto/validation/EnumValidatorConstraint.java:29-31 | appends exactly one violation and disables the default one |
| EnumValidatorConstraint.Validator.Initialize | src/main/java/com/bookstore/core/dto/validation/EnumValidatorConstraint.java:15-23 | the valid values are exactly the enum's names, and the message lists them all after "must be any of enum: " |
| EnumValidatorConstraint.Validator.IsValid | src/main/java/com/bookstore/core/dto/validation/EnumValidatorConstraint.java:26-34 | valid exactly for a non-null configured name; an invalid value reports the message, a valid one reports nothing |
| EnumValidatorConstraint.StatusNamesAreParsed | src/main/java/com/bookstore/core/dto/UpdateOrderDto.java:7-8 | the status validator accepts exactly the names `valueOf` accepts |
| EnumValidatorConstraint.StatusNamesAreCaseSensitive | src/main/java/com/bookstore/core/dto/validation/EnumValidatorConstraint.java:27 | "PAID" is a status name and "paid" is not |
| FieldMatchValidator.Validator.Initialize | src/main/java/com/bookstore/core/dto/validation/FieldMatchValidator.java:15-19 | keeps the annotation's two field names and message |
| FieldMatchValidator.Validator.IsValid | src/main/java/com/bookstore/core/dto/validation/FieldMatchValidator.java:22-44 | valid exactly when the two properties are equal (two nulls included) or a lookup fails; a mismatch reports the message, or the default message on the first field when the message is blank |
| JwtAuthenticationFilter.GetToken | src/main/java/com/bookstore/core/security/JwtAuthenticationFilter.java:44-50 | a token is the header without its first 7 characters, so it is 7 characters shorter |
| JwtAuthenticationFilter.BlankHeaderHasNoToken | src/main/java/com/bookstore/core/security/JwtAuthenticationFilter.java:46 | a missing, empty or all-white-space header has no token |
| JwtAuthenticationFilter.GetTokenAccepts | src/main/java/com/bookstore/core/security/JwtAuthenticationFilter.java:46 | a token is found exactly when the first 7 characters are "bearer " up to letter case |
| JwtAuthenticationFilter.SchemeCaseIgnored | src/main/java/com/bookstore/core/security/JwtAuthenticationFilter.java:46-47 | "Bearer ", "BEARER " and "bearer " all yield the rest of the header |
| JwtAuthenticationFilter.NoSpaceNoToken | src/main/java/com/bookstore/core/security/JwtAuthenticationFilter.java:22 | "bearerabc", with no space after the scheme, has no token |

## Left out

- Pagination (`Pageable`): `getOrders` and both `findAll` return every matching row, as a set or a map by id. The lists the source builds have no defined order.
- The exact DTO types: `BookDto`, `CategoryDto` and `UserResponseDto` are not part of this model. Their reads return the records, and their writes return the id.
- The MapStruct mappers are generated, so their bodies are not available. `Dto` keeps the fields their `@AfterMapping` hooks copy.
- Book categories: `BookMapper` refers to them, but the `Book` entity modelled here has none.
- Transactions and concurrency: each service call is one atomic step. `AddItem` does restore the store when it fails after creating a cart, because the exception rolls the transaction back.
- The clock: `LocalDateTime.now()` is the parameter `now`.
- Password hashing: `PasswordEncoder.encode` is the uninterpreted parameter `encode`. UserService.Register therefore cannot state that the stored password differs from the raw one.
- Reflection: `BeanUtils.getProperty` is the bean's lookup function, which may fail.
- Token checks, signing and the security context: `JwtUtil`, `doFilterInternal` and `AuthenticationService` are not part of this model.
- Bean-validation annotations are preconditions. Request quantities are at least 1, and null request fields (a null quantity or book id, which the source rejects with an exception and a rollback) are excluded by the `int` fields. The ISBN pattern of `CreateBookRequestDto` is not modelled.
- The database's unique-index error messages: only their subject is kept.
- Identity values consumed by failed inserts: a refused insert leaves the counter as it was.
- `BigDecimal` scale: amounts are integers in minor units, so `500` and `500.00` are the same amount.
- CartItemService.AddItem: follows the corrected increment. When the sum leaves the `Integer` range it refuses with `QuantityOverflow`, an error the source does not have; the source stores the wrapped sum instead (see Findings).
- The text of the exception that a null order address raises: `ShippingAddressMissing` carries only the `@NotNull` default message.
- Text.ToUpper: maps the ASCII letters only; Java's `toUpperCase` maps all of Unicode, locale included.
- Text.ToLower: maps the ASCII letters only; Java's `toLowerCase` maps all of Unicode, locale included, and can change a string's length.
- EnumValidatorConstraint.Validator.Initialize: states the message through `ArrayToString`, not as the literal text for `OrderStatus`.
- `OrderRepository.findFirstById` and `findFirstByUserAndId` are not declared in the repository shown. They are modelled by what their derived-query names select.

## Findings

| source | as written | input that shows it | evidently intended | confidence | as-written member | corrected member |
|---|---|---|---|---|---|---|
| src/main/java/com/bookstore/core/service/impl/CartItemServiceImpl.java:33 | the line's new quantity is the `Integer` sum of the old and the requested quantity, which wraps around | a line holding 2147483647 copies, and one more added: the line then holds -2147483648 | the quantity stays between 1 and `Integer.MAX_VALUE`; an increment that does not fit is refused | not executed | CartItemService.AddQuantityAsWrittenGoesNegative | CartItemService.AddQuantity |
