/** `CategoryServiceImpl`: the category table. Saving, updating and deleting
    change it; reading sees only categories that are not deleted. */
module CategoryService {
  import opened Wrappers
  import opened Entities
  import opened Errors
  import opened Persistence

  /** `CreateCategoryRequestDto`: a name and an optional description. */
  datatype CreateCategoryRequest = CreateCategoryRequest(name: string, description: Option<string>)

  /** `CategoryMapper.toModel`: a category that is not deleted, with the request's fields. */
  function ToModel(req: CreateCategoryRequest): (c: Category)
    ensures !c.deleted && c.name == req.name && c.description == req.description
  {
    Category(req.name, req.description, false)
  }

  /** The unique index on `categories.name` refuses a row with that name at any
      id but `id`: some other row, deleted or not, already holds it. */
  predicate NameTaken(categories: map<int, Category>, name: string, id: int) {
    exists j :: j in categories && j != id && categories[j].name == name
  }

  /** The category table after `deleteById`: the row, when it is there and not
      yet deleted, is soft-deleted; a missing id leaves the table as it was. */
  function SoftDeleted(categories: map<int, Category>, id: int): (r: map<int, Category>)
    ensures r.Keys == categories.Keys
    ensures forall j :: j in categories && j != id ==> r[j] == categories[j]
    ensures !CategoryActive(r, id)
  {
    if CategoryActive(categories, id) then categories[id := categories[id].(deleted := true)] else categories
  }

  /** `getById`: a category that exists and is not deleted. */
  function GetById(s: Store, id: int): (r: Result<Category, Error>)
    ensures r.Ok? <==> CategoryActive(s.categories, id)
    ensures r.Ok? ==> r.value == s.categories[id]
    ensures r.Err? ==> r.error == CategoryNotFound(id)
  {
    if CategoryActive(s.categories, id) then Ok(s.categories[id]) else Err(CategoryNotFound(id))
  }

  /** `findAll`: every category that is not deleted, by id. */
  function FindAll(s: Store): (r: map<int, Category>)
    ensures forall i :: i in r <==> CategoryActive(s.categories, i)
    ensures forall i :: i in r ==> GetById(s, i) == Ok(r[i])
  {
    map i | i in s.categories && !s.categories[i].deleted :: s.categories[i]
  }

  /** `save`: the category is inserted under the next id, unless its name is already stored. */
  method Save(db: Database, req: CreateCategoryRequest) returns (r: Result<int, Error>)
    requires db.Valid()
    modifies db
    ensures db.Valid()
    ensures NameTaken(old(db.store).categories, req.name, old(db.store).nextCategoryId) ==>
      r == Err(DuplicateCategoryName(req.name)) && db.store == old(db.store)
    ensures !NameTaken(old(db.store).categories, req.name, old(db.store).nextCategoryId) ==>
      var s := old(db.store);
      && r == Ok(s.nextCategoryId)
      && s.nextCategoryId !in s.categories
      && db.store == s.(categories := s.categories[s.nextCategoryId := ToModel(req)],
                        nextCategoryId := s.nextCategoryId + 1)
      && GetById(db.store, r.value) == Ok(ToModel(req))
  {
    var s := db.store;
    var id := s.nextCategoryId;
    if NameTaken(s.categories, req.name, id) {
      return Err(DuplicateCategoryName(req.name));
    }
    db.store := s.(categories := s.categories[id := ToModel(req)], nextCategoryId := id + 1);
    r := Ok(id);
  }

  /** `updateById`: the record at a stored, not deleted id is replaced by the
      request's category, keeping the id; a missing id or a name held by
      another row stores nothing. */
  method UpdateById(db: Database, id: int, req: CreateCategoryRequest) returns (r: Result<int, Error>)
    requires db.Valid()
    modifies db
    ensures db.Valid()
    ensures !CategoryActive(old(db.store).categories, id) ==>
      r == Err(CategoryNotFound(id)) && db.store == old(db.store)
    ensures CategoryActive(old(db.store).categories, id) && NameTaken(old(db.store).categories, req.name, id) ==>
      r == Err(DuplicateCategoryName(req.name)) && db.store == old(db.store)
    ensures CategoryActive(old(db.store).categories, id) && !NameTaken(old(db.store).categories, req.name, id) ==>
      && r == Ok(id)
      && db.store == old(db.store).(categories := old(db.store).categories[id := ToModel(req)])
      && GetById(db.store, id) == Ok(ToModel(req))
  {
    var s := db.store;
    if !CategoryActive(s.categories, id) {
      return Err(CategoryNotFound(id));
    }
    if NameTaken(s.categories, req.name, id) {
      return Err(DuplicateCategoryName(req.name));
    }
    db.store := s.(categories := s.categories[id := ToModel(req)]);
    r := Ok(id);
  }

  /** `deleteById`: a soft delete; no other category changes. */
  method DeleteById(db: Database, id: int)
    requires db.Valid()
    modifies db
    ensures db.Valid()
    ensures db.store == old(db.store).(categories := SoftDeleted(old(db.store).categories, id))
  {
    var s := db.store;
    db.store := s.(categories := SoftDeleted(s.categories, id));
  }

  /** Once deleted, a category is gone from every read, and every other
      category reads as before. */
  lemma DeletedCategoryIsGone(s: Store, id: int)
    ensures var s' := s.(categories := SoftDeleted(s.categories, id));
      && GetById(s', id) == Err(CategoryNotFound(id))
      && id !in FindAll(s')
      && (forall j :: j != id ==> GetById(s', j) == GetById(s, j))
  {
  }
}
