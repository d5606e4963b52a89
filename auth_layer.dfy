/** The parsing of the `Authorization` header in the API: the basic
    credentials of a login request and the bearer-token shape that the
    claims reader checks before handing the token to the JWT library. */
module AuthLayer {
  import opened Text

  /** Base64 decoding with the standard alphabet and padding (section 4 of
      RFC 4648): the decoded text or the decoder's error. */
  type Decoder = string -> Result<string>

  const MissingCredentials := "username:password required but missing"
  const BadAuthorization := "bad authorization string"
  const BadTokenHeader := "bad token header"

  datatype Credentials = Credentials(user: string, password: string)

  /** `GetCredentials`: the header must be two words separated by one
      space; the second is decoded, and the decoded text must hold exactly
      one colon, between the user name and the password. */
  function GetCredentials(header: string, decode: Decoder): (r: Result<Credentials>)
    ensures |Split(header, ' ')| != 2 ==> r == Err(MissingCredentials)
    ensures |Split(header, ' ')| == 2 && decode(Split(header, ' ')[1]).Err? ==>
              r == Err(decode(Split(header, ' ')[1]).msg)
    ensures r.Ok? ==> |Split(header, ' ')| == 2 && decode(Split(header, ' ')[1]).Ok? &&
                      r.value.user + ":" + r.value.password == decode(Split(header, ' ')[1]).value &&
                      ':' !in r.value.user && ':' !in r.value.password
  {
    var encoded := Split(header, ' ');
    SplitCount(header, ' ');
    if |encoded| != 2 then Err(MissingCredentials)
    else
      match decode(encoded[1])
      case Err(msg) => Err(msg)
      case Ok(decoded) =>
        var credentials := Split(decoded, ':');
        SplitCount(decoded, ':');
        if |credentials| != 2 then Err(BadAuthorization)
        else
          SplitFields(decoded, ':');
          SplitJoin(decoded, ':');
          assert Join(credentials, ':') == credentials[0] + [':'] + credentials[1];
          Ok(Credentials(credentials[0], credentials[1]))
  }

  /** Credentials encoded under any scheme word are read back: the scheme
      is never inspected, and the user name and password come back as
      they were written. */
  lemma CredentialsRoundTrip(scheme: string, token: string, user: string, password: string, decode: Decoder)
    requires ' ' !in scheme && ' ' !in token
    requires ':' !in user && ':' !in password
    requires decode(token) == Ok(user + ":" + password)
    ensures GetCredentials(scheme + " " + token, decode) == Ok(Credentials(user, password))
  {
    SplitAround(scheme, token, ' ');
    SplitAround(user, password, ':');
  }

  /** The scheme word is never inspected: any two scheme words give the
      same answer for the same encoded credentials. */
  lemma SchemeIgnored(scheme: string, other: string, token: string, decode: Decoder)
    requires ' ' !in scheme && ' ' !in other && ' ' !in token
    ensures GetCredentials(scheme + " " + token, decode) == GetCredentials(other + " " + token, decode)
  {
    SplitAround(scheme, token, ' ');
    SplitAround(other, token, ' ');
  }

  /** A decoded text with no colon, or with a colon in the password, is
      refused as a bad authorization string. */
  lemma ColonCountEnforced(scheme: string, token: string, decoded: string, decode: Decoder)
    requires ' ' !in scheme && ' ' !in token
    requires decode(token) == Ok(decoded) && Count(decoded, ':') != 1
    ensures GetCredentials(scheme + " " + token, decode) == Err(BadAuthorization)
  {
    SplitAround(scheme, token, ' ');
    SplitCount(decoded, ':');
  }

  /** `GetClaims`' header check: exactly two words, the first `Bearer`;
      the second is the token handed to the JWT library. */
  function BearerToken(header: string): (r: Result<string>)
    ensures r.Ok? <==> |Split(header, ' ')| == 2 && Split(header, ' ')[0] == "Bearer"
    ensures r.Err? ==> r.msg == BadTokenHeader
    ensures r.Ok? ==> header == "Bearer " + r.value && ' ' !in r.value
  {
    var parts := Split(header, ' ');
    SplitCount(header, ' ');
    if |parts| != 2 || parts[0] != "Bearer" then Err(BadTokenHeader)
    else
      SplitFields(header, ' ');
      SplitJoin(header, ' ');
      assert Join(parts, ' ') == parts[0] + [' '] + parts[1];
      Ok(parts[1])
  }

  /** Any token without a space is accepted behind `Bearer `. */
  lemma BearerRoundTrip(token: string)
    requires ' ' !in token
    ensures BearerToken("Bearer " + token) == Ok(token)
  {
    assert ' ' !in "Bearer";
    assert "Bearer " + token == "Bearer" + [' '] + token;
    SplitAround("Bearer", token, ' ');
  }
}
