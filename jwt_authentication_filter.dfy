/** `JwtAuthenticationFilter.getToken`: the token of an `Authorization` header
    that uses the Bearer scheme (section 2.1 of RFC 6750). */
module JwtAuthenticationFilter {
  import opened Wrappers
  import opened Text

  const BearerTokenPrefix: string := "bearer "
  const TokenBeginIndex: nat := 7

  /** `getToken`: `header` is the `Authorization` header, `None` when absent. */
  function GetToken(header: Option<string>): (r: Option<string>)
    ensures r.Some? ==> header.Some? && |header.value| >= TokenBeginIndex
    ensures r.Some? ==> r.value == header.value[TokenBeginIndex..] && |r.value| == |header.value| - 7
  {
    if header.Some? && HasText(header.value)
       && |header.value| >= |BearerTokenPrefix|
       && ToLower(header.value)[..|BearerTokenPrefix|] == BearerTokenPrefix
    then Some(header.value[TokenBeginIndex..])
    else None
  }

  /** A character lower-cases to a given lower-case letter or non-letter exactly
      when it is that character up to letter case. */
  lemma LowerCharIs(c: char, d: char)
    requires !IsUpperAscii(d)
    ensures LowerChar(c) == d <==> SameIgnoringCase(c, d)
  {
  }

  /** A missing, empty or all-white-space header carries no token. */
  lemma BlankHeaderHasNoToken(header: Option<string>)
    requires header.None? || IsBlank(header.value)
    ensures GetToken(header).None?
  {
  }

  /** A token is found exactly when the header's first seven characters are
      "bearer " up to letter case; the `hasText` test never rejects such a header. */
  lemma GetTokenAccepts(h: string)
    ensures GetToken(Some(h)).Some? <==>
      |h| >= 7 && forall i :: 0 <= i < 7 ==> SameIgnoringCase(h[i], BearerTokenPrefix[i])
  {
    if |h| >= 7 {
      var lower := ToLower(h)[..7];
      ToLowerPrefix(h, 7);
      forall i | 0 <= i < 7
        ensures lower[i] == BearerTokenPrefix[i] <==> SameIgnoringCase(h[i], BearerTokenPrefix[i])
      {
        LowerCharIs(h[i], BearerTokenPrefix[i]);
      }
      if forall i :: 0 <= i < 7 ==> SameIgnoringCase(h[i], BearerTokenPrefix[i]) {
        assert lower == BearerTokenPrefix;
        assert !IsWhitespace(h[0]);
      }
    }
  }

  /** The scheme is matched whatever its letter case, and the token is what
      follows the single space. */
  lemma SchemeCaseIgnored(h: string)
    requires |h| >= 7 && (h[..7] == "Bearer " || h[..7] == "BEARER " || h[..7] == "bearer ")
    ensures GetToken(Some(h)) == Some(h[7..])
  {
    GetTokenAccepts(h);
    assert forall i :: 0 <= i < 7 ==> h[i] == h[..7][i];
  }

  /** Without the space after the scheme there is no token. */
  lemma NoSpaceNoToken()
    ensures GetToken(Some("bearerabc")).None?
  {
    GetTokenAccepts("bearerabc");
    assert !SameIgnoringCase("bearerabc"[6], BearerTokenPrefix[6]);
  }
}
