/** `BookSpecificationBuilder`: the condition a book search applies, built
    from the optional title, author, ISBN and description parameters. */
module BookSpecificationBuilder {
  import opened Wrappers
  import opened Entities
  import opened Text
  import opened Specifications
  import opened IsbnSpecificationProvider

  /** `BookSearchParametersDto`; `None` stands for a Java `null`. */
  datatype SearchParameters = SearchParameters(
    title: Option<string>,
    author: Option<string>,
    isbn: Option<string>,
    description: Option<string>)

  /** `BookSpecificationProviderManager`: the condition the provider registered
      under a key builds from a parameter. Its title, author and description
      providers are not part of this model, so the manager is a parameter. */
  type ProviderManager = (string, string) -> Specification

  /** A manager whose "isbn" provider is `IsbnSpecificationProvider`. */
  ghost predicate UsesIsbnProvider(manager: ProviderManager) {
    forall param, b :: manager(IsbnKey, param)(b) == IsbnSpecification(param)(b)
  }

  /** A search field that constrains the search: non-null and not blank. */
  predicate Present(field: Option<string>) {
    field.Some? && !IsBlank(field.value)
  }

  /** One step of `build`: the condition of a present field is and-ed in. */
  function AndField(spec: Specification, manager: ProviderManager, key: string, field: Option<string>): Specification {
    if Present(field) then And(spec, manager(key, field.value)) else spec
  }

  /** `build`: from the unconstrained condition, one `and` per present field,
      in the order title, author, ISBN, description. */
  function Build(params: SearchParameters, manager: ProviderManager): Specification {
    var spec := Unconstrained();
    var spec := AndField(spec, manager, "title", params.title);
    var spec := AndField(spec, manager, "author", params.author);
    var spec := AndField(spec, manager, IsbnKey, params.isbn);
    AndField(spec, manager, "description", params.description)
  }

  /** A book meets the condition of a field: trivially when the field is absent or blank. */
  predicate FieldHolds(manager: ProviderManager, key: string, field: Option<string>, b: Book) {
    Present(field) ==> manager(key, field.value)(b)
  }

  /** A book is selected exactly when it meets the condition of every present
      field, each taken from the provider registered under that field's name. */
  lemma BuildMatches(params: SearchParameters, manager: ProviderManager, b: Book)
    ensures Build(params, manager)(b) <==>
      && FieldHolds(manager, "title", params.title, b)
      && FieldHolds(manager, "author", params.author, b)
      && FieldHolds(manager, IsbnKey, params.isbn, b)
      && FieldHolds(manager, "description", params.description, b)
  {
  }

  /** With every field null or blank the search selects every book. */
  lemma NothingPresentSelectsAll(params: SearchParameters, manager: ProviderManager, b: Book)
    requires !Present(params.title) && !Present(params.author)
    requires !Present(params.isbn) && !Present(params.description)
    ensures Build(params, manager)(b)
  {
    BuildMatches(params, manager, b);
  }

  /** A null field and a blank field select the same books. */
  lemma NullSameAsBlank(params: SearchParameters, manager: ProviderManager, blank: string, b: Book)
    requires IsBlank(blank)
    ensures Build(params.(title := None), manager)(b) == Build(params.(title := Some(blank)), manager)(b)
    ensures Build(params.(author := None), manager)(b) == Build(params.(author := Some(blank)), manager)(b)
    ensures Build(params.(isbn := None), manager)(b) == Build(params.(isbn := Some(blank)), manager)(b)
    ensures Build(params.(description := None), manager)(b) == Build(params.(description := Some(blank)), manager)(b)
  {
  }

  /** `narrow` keeps every present field of `wide` and may fill in more. */
  predicate Narrows(narrow: SearchParameters, wide: SearchParameters) {
    && (Present(wide.title) ==> narrow.title == wide.title)
    && (Present(wide.author) ==> narrow.author == wide.author)
    && (Present(wide.isbn) ==> narrow.isbn == wide.isbn)
    && (Present(wide.description) ==> narrow.description == wide.description)
  }

  /** Filling in more fields never selects more books. */
  lemma MoreFieldsSelectFewer(narrow: SearchParameters, wide: SearchParameters, manager: ProviderManager, b: Book)
    requires Narrows(narrow, wide)
    ensures Build(narrow, manager)(b) ==> Build(wide, manager)(b)
  {
    BuildMatches(narrow, manager, b);
    BuildMatches(wide, manager, b);
  }

  /** With the ISBN provider in place, a present ISBN parameter selects only
      books whose ISBN equals it once letter case is ignored. */
  lemma IsbnSearchSelectsEqualIsbns(params: SearchParameters, manager: ProviderManager, b: Book)
    requires UsesIsbnProvider(manager) && Present(params.isbn)
    requires Build(params, manager)(b)
    ensures |b.isbn| == |params.isbn.value|
    ensures forall i :: 0 <= i < |b.isbn| ==> SameIgnoringCase(b.isbn[i], params.isbn.value[i])
  {
    BuildMatches(params, manager, b);
    IsbnMatchesIgnoringCase(params.isbn.value, b);
  }

  /** A search on the ISBN alone selects exactly the books whose ISBN equals
      the parameter once letter case is ignored. */
  lemma IsbnOnlySearchSelectsEqualIsbns(params: SearchParameters, manager: ProviderManager, b: Book)
    requires UsesIsbnProvider(manager) && Present(params.isbn)
    requires !Present(params.title) && !Present(params.author) && !Present(params.description)
    ensures Build(params, manager)(b) <==>
      |b.isbn| == |params.isbn.value|
      && forall i :: 0 <= i < |b.isbn| ==> SameIgnoringCase(b.isbn[i], params.isbn.value[i])
  {
    BuildMatches(params, manager, b);
    IsbnMatchesIgnoringCase(params.isbn.value, b);
  }
}
