/** Resolving the caller of a request from its `Authorization` header
    (`getUserFromRequest` in the API router). */
module Auth {
  import opened Json
  import opened Text

  /** A user record of the host application; never changed by the router. */
  datatype User = User(id: int, username: string, active: bool)

  /** Who a request comes from. */
  datatype Caller =
    | Anonymous        // no usable credentials or no such active user: 401
    | Malformed        // the header is exactly "Basic": decoding `undefined` throws, 500
    | Known(user: User)

  /** The header split on spaces, as `const [type, credentials] = header.split(' ')`. */
  datatype Authorization = Authorization(scheme: string, credentials: Option<string>)

  function ParseAuthorization(header: string): (a: Authorization)
    ensures a.scheme <= header && ' ' !in a.scheme
    ensures a.credentials.None? <==> ' ' !in header
    ensures a.credentials.None? ==> a.scheme == header
    ensures a.credentials.Some? ==>
      ' ' !in a.credentials.value && a.scheme + " " + a.credentials.value <= header
    ensures a.credentials.Some? ==>
      var n := |a.scheme| + 1 + |a.credentials.value|;
      n == |header| || header[n] == ' '
  {
    var parts := Split(header, ' ');
    SplitInTwo(header, ' ');
    SplitPiecesFree(header, ' ');
    FirstPiece(header, ' ');
    assert parts[0] in parts;
    assert |parts| >= 2 ==> parts[1] in parts;
    SecondPiece(header, ' ');
    Authorization(parts[0], if |parts| >= 2 then Some(parts[1]) else None)
  }

  /** The username carried by decoded credentials: the text before the first ':'. */
  function Username(decoded: string): (name: string)
    ensures name <= decoded && ':' !in name
    ensures |name| < |decoded| ==> decoded[|name|] == ':'
  {
    FirstPiece(decoded, ':');
    Split(decoded, ':')[0]
  }

  /** `R.findOne("user", "username = ? AND active = 1")`: the first matching row. */
  function FindActiveUser(users: seq<User>, name: string): (r: Option<User>)
    ensures r.Some? ==> r.value in users && r.value.active && r.value.username == name
    ensures r.None? <==> forall u :: u in users ==> !(u.active && u.username == name)
  {
    if users == [] then None
    else if users[0].active && users[0].username == name then Some(users[0])
    else
      assert forall u :: u in users ==> u == users[0] || u in users[1..];
      FindActiveUser(users[1..], name)
  }

  /** `getUserFromRequest`. `decode` is base64 decoding (section 4 of RFC 4648)
      followed by UTF-8 decoding, taken as given. */
  function ResolveCaller(header: Option<string>, decode: string -> string, users: seq<User>): (c: Caller)
    ensures header.None? || header == Some("") ==> c == Anonymous
    ensures header.Some? && ParseAuthorization(header.value).scheme != "Basic" ==> c == Anonymous
    ensures c.Malformed? <==> header == Some("Basic")
    ensures c.Known? ==>
      && header.Some? && "Basic " <= header.value
      && c.user in users && c.user.active
      && ParseAuthorization(header.value).credentials.Some?
      && c.user.username == Username(decode(ParseAuthorization(header.value).credentials.value))
    ensures header.Some? && header.value != "Basic" && ParseAuthorization(header.value).scheme == "Basic" ==>
      var name := Username(decode(ParseAuthorization(header.value).credentials.value));
      (c.Anonymous? <==> forall u :: u in users ==> !(u.active && u.username == name))
  {
    match header
    case None => Anonymous
    case Some(h) =>
      if h == "" then Anonymous
      else
        var a := ParseAuthorization(h);
        if a.scheme != "Basic" then Anonymous
        else if a.credentials.None? then Malformed
        else
          match FindActiveUser(users, Username(decode(a.credentials.value)))
          case None => Anonymous
          case Some(u) => Known(u)
  }
}
