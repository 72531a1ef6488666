/** The `Authorization` header every request of the playlist code carries. */
module Auth {
  import opened Wrappers

  const BearerPrefix: string := "Bearer "

  /** `get_auth_header`: the bearer header for an access token, from which the token reads back. */
  function AuthHeader(accessToken: string): (r: string)
    ensures TokenOf(r) == Some(accessToken)
  {
    var h := BearerPrefix + accessToken;
    assert h[..|BearerPrefix|] == BearerPrefix;
    assert h[|BearerPrefix|..] == accessToken;
    h
  }

  /** The access token a bearer header carries, or `None` for any other header. */
  function TokenOf(header: string): Option<string>
  {
    if |header| >= |BearerPrefix| && header[..|BearerPrefix|] == BearerPrefix
    then Some(header[|BearerPrefix|..])
    else None
  }

  /** Every header `TokenOf` accepts is the bearer header of the token it returns. */
  lemma AuthHeaderOfTokenOf(header: string)
    requires TokenOf(header).Some?
    ensures AuthHeader(TokenOf(header).value) == header
  {
    assert header == header[..|BearerPrefix|] + header[|BearerPrefix|..];
  }

  /** Distinct tokens give distinct headers, so a request's header identifies its token. */
  lemma AuthHeaderInjective(t1: string, t2: string)
    requires AuthHeader(t1) == AuthHeader(t2)
    ensures t1 == t2
  {
  }
}
