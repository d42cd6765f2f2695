/** `BookServiceImpl`: the book catalogue. Saving, updating and deleting change
    the book table; reading and searching see only books that are not deleted. */
module BookService {
  import opened Wrappers
  import opened Entities
  import opened Errors
  import opened Persistence
  import opened Specifications
  import opened BookSpecificationBuilder
  import IsbnSpecificationProvider

  /** `CreateBookRequestDto`. */
  datatype CreateBookRequest = CreateBookRequest(
    title: string,
    author: string,
    isbn: string,
    price: int,
    description: Option<string>,
    coverImage: Option<string>)

  /** `BookMapper.toModel`: a book that is not deleted, with the request's fields. */
  function ToModel(req: CreateBookRequest): (b: Book)
    ensures !b.deleted && b.isbn == req.isbn && b.price == req.price
  {
    Book(req.title, req.author, req.isbn, req.price, req.description, req.coverImage, false)
  }

  /** The unique index on `books.isbn` refuses a row with that ISBN at any id
      but `id`: some other row, deleted or not, already holds it. */
  predicate IsbnTaken(books: map<int, Book>, isbn: string, id: int) {
    exists j :: j in books && j != id && books[j].isbn == isbn
  }

  /** The book table after `deleteById`: the row, when it is there and not yet
      deleted, is soft-deleted; a missing id leaves the table as it was. */
  function SoftDeleted(books: map<int, Book>, id: int): (r: map<int, Book>)
    ensures r.Keys == books.Keys
    ensures forall j :: j in books && j != id ==> r[j] == books[j]
    ensures !BookActive(r, id)
  {
    if BookActive(books, id) then books[id := books[id].(deleted := true)] else books
  }

  /** `getBookById`: a book that exists and is not deleted. */
  function GetBookById(s: Store, id: int): (r: Result<Book, Error>)
    ensures r.Ok? <==> BookActive(s.books, id)
    ensures r.Ok? ==> r.value == s.books[id]
    ensures r.Err? ==> r.error == BookNotFound(id)
  {
    if BookActive(s.books, id) then Ok(s.books[id]) else Err(BookNotFound(id))
  }

  /** `findAll`: every book that is not deleted, by id. */
  function FindAll(s: Store): (r: map<int, Book>)
    ensures forall i :: i in r <==> BookActive(s.books, i)
    ensures forall i :: i in r ==> GetBookById(s, i) == Ok(r[i])
  {
    map i | i in s.books && !s.books[i].deleted :: s.books[i]
  }

  /** `search`: the books, not deleted, that meet the condition `build` makes of the parameters. */
  function Search(s: Store, params: SearchParameters, manager: ProviderManager): (r: map<int, Book>)
    ensures forall i :: i in r <==> BookActive(s.books, i) && Build(params, manager)(s.books[i])
    ensures forall i :: i in r ==> i in s.books && r[i] == s.books[i]
  {
    map i | i in s.books && !s.books[i].deleted && Build(params, manager)(s.books[i]) :: s.books[i]
  }

  /** A search selects among the books `findAll` lists, and with every field
      null or blank it selects all of them. */
  lemma SearchWithinFindAll(s: Store, params: SearchParameters, manager: ProviderManager)
    ensures forall i :: i in Search(s, params, manager) ==> i in FindAll(s) && Search(s, params, manager)[i] == FindAll(s)[i]
    ensures (!Present(params.title) && !Present(params.author) && !Present(params.isbn)
             && !Present(params.description)) ==> Search(s, params, manager) == FindAll(s)
  {
    if !Present(params.title) && !Present(params.author) && !Present(params.isbn) && !Present(params.description) {
      forall i | i in FindAll(s)
        ensures i in Search(s, params, manager)
      {
        NothingPresentSelectsAll(params, manager, s.books[i]);
      }
    }
  }

  /** `save`: the book is inserted under the next id, unless its ISBN is already stored. */
  method Save(db: Database, req: CreateBookRequest) returns (r: Result<int, Error>)
    requires db.Valid()
    modifies db
    ensures db.Valid()
    ensures IsbnTaken(old(db.store).books, req.isbn, old(db.store).nextBookId) ==>
      r == Err(DuplicateIsbn(req.isbn)) && db.store == old(db.store)
    ensures !IsbnTaken(old(db.store).books, req.isbn, old(db.store).nextBookId) ==>
      var s := old(db.store);
      && r == Ok(s.nextBookId)
      && s.nextBookId !in s.books
      && db.store == s.(books := s.books[s.nextBookId := ToModel(req)], nextBookId := s.nextBookId + 1)
      && GetBookById(db.store, r.value) == Ok(ToModel(req))
  {
    var s := db.store;
    var id := s.nextBookId;
    if IsbnTaken(s.books, req.isbn, id) {
      return Err(DuplicateIsbn(req.isbn));
    }
    db.store := s.(books := s.books[id := ToModel(req)], nextBookId := id + 1);
    r := Ok(id);
  }

  /** A saved book is found by a search for its own ISBN. */
  lemma SavedBookIsSearchable(s: Store, req: CreateBookRequest, manager: ProviderManager)
    requires UsesIsbnProvider(manager)
    ensures var s' := s.(books := s.books[s.nextBookId := ToModel(req)], nextBookId := s.nextBookId + 1);
      s.nextBookId in Search(s', SearchParameters(None, None, Some(req.isbn), None), manager)
  {
    var params := SearchParameters(None, None, Some(req.isbn), None);
    BuildMatches(params, manager, ToModel(req));
    IsbnSpecificationProvider.IsbnMatchesItself(ToModel(req));
  }

  /** `updateById`: the record at a stored, not deleted id is replaced by the
      request's book, keeping the id; a missing id or an ISBN held by another
      row stores nothing. */
  method UpdateById(db: Database, id: int, req: CreateBookRequest) returns (r: Result<int, Error>)
    requires db.Valid()
    modifies db
    ensures db.Valid()
    ensures !BookActive(old(db.store).books, id) ==> r == Err(BookNotFound(id)) && db.store == old(db.store)
    ensures BookActive(old(db.store).books, id) && IsbnTaken(old(db.store).books, req.isbn, id) ==>
      r == Err(DuplicateIsbn(req.isbn)) && db.store == old(db.store)
    ensures BookActive(old(db.store).books, id) && !IsbnTaken(old(db.store).books, req.isbn, id) ==>
      && r == Ok(id)
      && db.store == old(db.store).(books := old(db.store).books[id := ToModel(req)])
      && GetBookById(db.store, id) == Ok(ToModel(req))
  {
    var s := db.store;
    if !BookActive(s.books, id) {
      return Err(BookNotFound(id));
    }
    if IsbnTaken(s.books, req.isbn, id) {
      return Err(DuplicateIsbn(req.isbn));
    }
    db.store := s.(books := s.books[id := ToModel(req)]);
    r := Ok(id);
  }

  /** `deleteById`: a soft delete; no other book changes. */
  method DeleteById(db: Database, id: int)
    requires db.Valid()
    modifies db
    ensures db.Valid()
    ensures db.store == old(db.store).(books := SoftDeleted(old(db.store).books, id))
  {
    var s := db.store;
    db.store := s.(books := SoftDeleted(s.books, id));
  }

  /** Once deleted, a book is gone from every read: `getBookById` reports it
      missing, and neither `findAll` nor any search lists it; every other
      book reads as before. */
  lemma DeletedBookIsGone(s: Store, id: int, params: SearchParameters, manager: ProviderManager)
    ensures var s' := s.(books := SoftDeleted(s.books, id));
      && GetBookById(s', id) == Err(BookNotFound(id))
      && id !in FindAll(s')
      && id !in Search(s', params, manager)
      && (forall j :: j != id ==> GetBookById(s', j) == GetBookById(s, j))
  {
  }
}
