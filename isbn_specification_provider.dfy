/** `IsbnSpecificationProvider`: the search condition on the ISBN column. */
module IsbnSpecificationProvider {
  import opened Entities
  import opened Text
  import opened Specifications

  /** `FIELD_NAME`, the key the provider is registered under (`getKey`). */
  const IsbnKey: string := "isbn"

  /** `getSpecification`: the upper-cased ISBN equals the upper-cased parameter. */
  function IsbnSpecification(param: string): Specification {
    (b: Book) => ToUpper(b.isbn) == ToUpper(param)
  }

  /** A book matches exactly when its ISBN has the parameter's length and
      agrees with it character by character once letter case is ignored. */
  lemma IsbnMatchesIgnoringCase(param: string, b: Book)
    ensures IsbnSpecification(param)(b) <==>
      |b.isbn| == |param| && forall i :: 0 <= i < |param| ==> SameIgnoringCase(b.isbn[i], param[i])
  {
    var u, v := ToUpper(b.isbn), ToUpper(param);
    if |b.isbn| == |param| {
      forall i | 0 <= i < |param|
        ensures u[i] == v[i] <==> SameIgnoringCase(b.isbn[i], param[i])
      {
        UpperCharEqual(b.isbn[i], param[i]);
      }
      if forall i :: 0 <= i < |param| ==> SameIgnoringCase(b.isbn[i], param[i]) {
        assert u == v;
      }
    }
  }

  /** The match is exact, never a substring match: a parameter of another length never matches. */
  lemma IsbnOtherLengthNeverMatches(param: string, b: Book)
    requires |param| != |b.isbn|
    ensures !IsbnSpecification(param)(b)
  {
    assert |ToUpper(b.isbn)| != |ToUpper(param)|;
  }

  /** A book always matches its own ISBN. */
  lemma IsbnMatchesItself(b: Book)
    ensures IsbnSpecification(b.isbn)(b)
  {
  }

  lemma UpperOfLower(s: string)
    ensures ToUpper(ToLower(s)) == ToUpper(s)
  {
    var l := ToLower(s);
    assert forall i :: 0 <= i < |s| ==> UpperChar(l[i]) == UpperChar(s[i]);
  }

  /** Parameters that differ only in letter case select the same books: the
      parameter, its lower-case and its upper-case forms all agree. */
  lemma IsbnIgnoresParameterCase(param: string, b: Book)
    ensures IsbnSpecification(ToLower(param))(b) == IsbnSpecification(param)(b)
    ensures IsbnSpecification(ToUpper(param))(b) == IsbnSpecification(param)(b)
  {
    UpperOfLower(param);
    ToUpperIdempotent(param);
  }
}
