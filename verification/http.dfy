/** The `Authorization: Bearer <token>` header convention shared by the
    request filter, the logout handler and the refresh endpoint. A missing
    header is `None`. */
module Http {
  import opened Wrappers

  const BEARER: string := "Bearer "

  predicate StartsWith(s: string, prefix: string) {
    |prefix| <= |s| && s[..|prefix|] == prefix
  }

  /** The token carried by a header: the header with its 7-character
      "Bearer " prefix cut off, or None when the header is missing or does
      not start with that prefix. */
  function BearerToken(header: Option<string>): (token: Option<string>)
    ensures token.Some? <==> header.Some? && StartsWith(header.value, BEARER)
    ensures token.Some? ==> |BEARER| == 7 && token.value == header.value[7..]
    ensures token.Some? ==> header.value == BEARER + token.value
  {
    if header.Some? && StartsWith(header.value, BEARER) then Some(header.value[7..]) else None
  }

  /** Sending a token as a bearer header carries exactly that token. */
  lemma BearerTokenOf(token: string)
    ensures BearerToken(Some(BEARER + token)) == Some(token)
  {
    assert (BEARER + token)[..|BEARER|] == BEARER;
    assert (BEARER + token)[7..] == token;
  }
}
