/** Registration, login and the bearer-token check. The users table is a
    value with its UNIQUE username and email columns; password hashing
    (bcrypt) and token signing and decoding (PyJWT) are foreign code and
    appear as parameters: the hash produced for the new password, a password
    checker, a token signer and a token decoder. */
module Auth {
  import opened Text

  datatype User = User(
    id: nat,
    username: string,
    email: string,
    passwordHash: string,
    firstName: string,
    lastName: string)

  /** The `users` table and its AUTOINCREMENT counter. */
  datatype Users = Users(rows: seq<User>, nextId: nat)

  /** `username TEXT NOT NULL UNIQUE`, `email TEXT NOT NULL UNIQUE`, and ids below the counter. */
  predicate WellFormed(t: Users)
  {
    && (forall i, j :: 0 <= i < j < |t.rows| ==> t.rows[i].username != t.rows[j].username)
    && (forall i, j :: 0 <= i < j < |t.rows| ==> t.rows[i].email != t.rows[j].email)
    && (forall i :: 0 <= i < |t.rows| ==> t.rows[i].id < t.nextId)
  }

  /** The two UNIQUE columns a user is looked up by. */
  datatype UserKey = ByName | ByMail

  function KeyOf(u: User, k: UserKey): string
  {
    match k
    case ByName => u.username
    case ByMail => u.email
  }

  /** `get_user_by_username` and `get_user_by_email`: the first row whose
      column holds the value. */
  function FindBy(rows: seq<User>, k: UserKey, v: string): (r: Option<User>)
    ensures r.Some? ==> r.value in rows && KeyOf(r.value, k) == v
    ensures r.None? <==> forall i :: 0 <= i < |rows| ==> KeyOf(rows[i], k) != v
  {
    if rows == [] then None
    else if KeyOf(rows[0], k) == v then Some(rows[0])
    else FindBy(rows[1..], k, v)
  }

  // ---------------------------------------------------------------------
  // register_user
  // ---------------------------------------------------------------------

  datatype Registration =
    | RegisterFailed(error: string)
    | Registered(userId: nat, username: string, email: string, token: string)

  /** `register_user`: the checks in the code's order, the first failure
      being the answer; only when all pass is the user created. */
  function RegisterUser(t: Users, username: string, email: string, password: string,
                        firstName: string, lastName: string,
                        passwordHash: string, sign: (nat, string) -> string): (r: (Registration, Users))
    ensures |username| < 3 ==> r.0 == RegisterFailed("Username must be at least 3 characters")
    ensures |username| >= 3 && |password| < 6 ==> r.0 == RegisterFailed("Password must be at least 6 characters")
    ensures |username| >= 3 && |password| >= 6 && '@' !in email ==> r.0 == RegisterFailed("Invalid email format")
    ensures |username| >= 3 && |password| >= 6 && '@' in email && FindBy(t.rows, ByName, username).Some? ==>
      r.0 == RegisterFailed("Username already exists")
    ensures |username| >= 3 && |password| >= 6 && '@' in email && FindBy(t.rows, ByName, username).None? && FindBy(t.rows, ByMail, email).Some?
      ==> r.0 == RegisterFailed("Email already registered")
    ensures |username| >= 3 && |password| >= 6 && '@' in email && FindBy(t.rows, ByName, username).None? && FindBy(t.rows, ByMail, email).None?
      ==> r.0.Registered?
    ensures r.0.RegisterFailed? ==> r.1 == t
    ensures r.0.Registered? ==>
      && r.0 == Registered(t.nextId, username, email, sign(t.nextId, username))
      && r.1 == Users(t.rows + [User(t.nextId, username, email, passwordHash, firstName, lastName)], t.nextId + 1)
  {
    if |username| < 3 then (RegisterFailed("Username must be at least 3 characters"), t)
    else if |password| < 6 then (RegisterFailed("Password must be at least 6 characters"), t)
    else if '@' !in email then (RegisterFailed("Invalid email format"), t)
    else if FindBy(t.rows, ByName, username).Some? then (RegisterFailed("Username already exists"), t)
    else if FindBy(t.rows, ByMail, email).Some? then (RegisterFailed("Email already registered"), t)
    else
      var id := t.nextId;
      var user := User(id, username, email, passwordHash, firstName, lastName);
      (Registered(id, username, email, sign(id, username)), Users(t.rows + [user], id + 1))
  }

  /** Registration keeps the table's UNIQUE constraints. */
  lemma RegisterKeepsTableWellFormed(t: Users, username: string, email: string, password: string,
                                     firstName: string, lastName: string,
                                     passwordHash: string, sign: (nat, string) -> string)
    requires WellFormed(t)
    ensures WellFormed(RegisterUser(t, username, email, password, firstName, lastName, passwordHash, sign).1)
  {
  }

  // ---------------------------------------------------------------------
  // login_user
  // ---------------------------------------------------------------------

  datatype Login =
    | LoginFailed(error: string)
    | LoggedIn(userId: nat, username: string, email: string, firstName: string, lastName: string, token: string)

  /** The user a login name designates: by username first, then by email. */
  function FindLoginUser(rows: seq<User>, login: string): (r: Option<User>)
    ensures r.Some? ==> r.value in rows && (r.value.username == login || r.value.email == login)
    ensures r.None? <==> forall i :: 0 <= i < |rows| ==> rows[i].username != login && rows[i].email != login
    ensures FindBy(rows, ByName, login).Some? ==> r == FindBy(rows, ByName, login)
  {
    var byName := FindBy(rows, ByName, login);
    if byName.Some? then byName else FindBy(rows, ByMail, login)
  }

  /** `login_user`. */
  function LoginUser(t: Users, login: string, password: string,
                     verify: (string, string) -> bool, sign: (nat, string) -> string): (r: Login)
    ensures FindLoginUser(t.rows, login).None? <==> r == LoginFailed("User not found")
    ensures r.LoggedIn? ==>
      && FindLoginUser(t.rows, login).Some?
      && var u := FindLoginUser(t.rows, login).value;
      && verify(password, u.passwordHash)
      && r == LoggedIn(u.id, u.username, u.email, u.firstName, u.lastName, sign(u.id, u.username))
    ensures FindLoginUser(t.rows, login).Some? && !verify(password, FindLoginUser(t.rows, login).value.passwordHash)
      ==> r == LoginFailed("Invalid password")
    ensures FindLoginUser(t.rows, login).Some? && verify(password, FindLoginUser(t.rows, login).value.passwordHash)
      ==> r.LoggedIn?
  {
    match FindLoginUser(t.rows, login)
    case None => LoginFailed("User not found")
    case Some(u) =>
      if !verify(password, u.passwordHash) then LoginFailed("Invalid password")
      else LoggedIn(u.id, u.username, u.email, u.firstName, u.lastName, sign(u.id, u.username))
  }

  /** A user who has just registered can log in with the same username and
      password (given a checker that accepts the password against its hash),
      and gets the new id and a token for it. */
  lemma RegisterThenLogin(t: Users, username: string, email: string, password: string,
                          firstName: string, lastName: string, passwordHash: string,
                          sign: (nat, string) -> string, verify: (string, string) -> bool)
    requires WellFormed(t)
    requires RegisterUser(t, username, email, password, firstName, lastName, passwordHash, sign).0.Registered?
    requires verify(password, passwordHash)
    ensures var t' := RegisterUser(t, username, email, password, firstName, lastName, passwordHash, sign).1;
      LoginUser(t', username, password, verify, sign)
        == LoggedIn(t.nextId, username, email, firstName, lastName, sign(t.nextId, username))
  {
    var t' := RegisterUser(t, username, email, password, firstName, lastName, passwordHash, sign).1;
    var u := User(t.nextId, username, email, passwordHash, firstName, lastName);
    assert t'.rows[|t.rows|] == u;
    assert FindBy(t'.rows, ByName, username) == Some(u) by {
      var found := FindBy(t'.rows, ByName, username);
      assert found.Some? by { assert t'.rows[|t.rows|].username == username; }
      var k :| 0 <= k < |t'.rows| && t'.rows[k] == found.value;
      if k < |t.rows| {
        assert false;
      }
    }
  }

  /** Registering the same username a second time is refused. */
  lemma RegisterTwiceRefused(t: Users, username: string, email: string, email2: string, password: string,
                             firstName: string, lastName: string, passwordHash: string,
                             sign: (nat, string) -> string)
    requires RegisterUser(t, username, email, password, firstName, lastName, passwordHash, sign).0.Registered?
    requires '@' in email2
    ensures var t' := RegisterUser(t, username, email, password, firstName, lastName, passwordHash, sign).1;
      RegisterUser(t', username, email2, password, firstName, lastName, passwordHash, sign).0
        == RegisterFailed("Username already exists")
  {
    var t' := RegisterUser(t, username, email, password, firstName, lastName, passwordHash, sign).1;
    assert t'.rows[|t.rows|].username == username;
  }

  // ---------------------------------------------------------------------
  // jwt_required
  // ---------------------------------------------------------------------

  /** What `decode_jwt_token` gives back. */
  datatype Decoded = Expired | InvalidToken | Payload(userId: int, username: string)

  datatype CurrentUser = CurrentUser(userId: int, username: string)

  /** The text up to the first plain space: the field `split(' ')` puts
      after the first separator. */
  function FieldUntilSpace(s: string): (r: string)
    ensures IsPrefix(r, s)
    ensures forall i :: 0 <= i < |r| ==> r[i] != ' '
    ensures |r| == |s| || s[|r|] == ' '
  {
    if s == [] || s[0] == ' ' then [] else [s[0]] + FieldUntilSpace(s[1..])
  }

  /** The token of an Authorization header: only a header starting with
      "Bearer " carries one, and it is the second space-separated field. */
  function BearerToken(header: Option<string>): (r: Option<string>)
    ensures r.Some? <==> header.Some? && IsPrefix("Bearer ", header.value)
    ensures r.Some? ==> r.value == FieldUntilSpace(header.value[7..])
  {
    if header.Some? && IsPrefix("Bearer ", header.value) then Some(FieldUntilSpace(header.value[7..])) else None
  }

  /** The check `jwt_required` performs before running the route: a
      missing or empty token, then a token the decoder refuses, each give
      401 with their message; otherwise the route runs as the payload's user. */
  function JwtRequired(header: Option<string>, decode: string -> Decoded): (r: Result<CurrentUser, (int, string)>)
    ensures r.Ok? <==>
      && BearerToken(header).Some? && BearerToken(header).value != []
      && decode(BearerToken(header).value).Payload?
    ensures r.Ok? ==>
      var p := decode(BearerToken(header).value);
      r.value == CurrentUser(p.userId, p.username)
    ensures r.Err? ==> r.error.0 == 401
    ensures (BearerToken(header).None? || BearerToken(header).value == []) ==> r == Err((401, "Token is missing"))
    ensures BearerToken(header).Some? && BearerToken(header).value != [] && decode(BearerToken(header).value).Expired?
      ==> r == Err((401, "Token has expired"))
    ensures BearerToken(header).Some? && BearerToken(header).value != [] && decode(BearerToken(header).value).InvalidToken?
      ==> r == Err((401, "Invalid token"))
  {
    var token := BearerToken(header);
    if token.None? || token.value == [] then Err((401, "Token is missing"))
    else match decode(token.value)
      case Expired => Err((401, "Token has expired"))
      case InvalidToken => Err((401, "Invalid token"))
      case Payload(id, name) => Ok(CurrentUser(id, name))
  }

  /** A header "Bearer T" for a space-free, non-empty T that decodes gives
      the route exactly T's user. */
  lemma BearerHeaderRoundTrip(token: string, decode: string -> Decoded)
    requires token != [] && forall i :: 0 <= i < |token| ==> token[i] != ' '
    requires decode(token).Payload?
    ensures JwtRequired(Some("Bearer " + token), decode) == Ok(CurrentUser(decode(token).userId, decode(token).username))
  {
    var h := "Bearer " + token;
    assert h[7..] == token;
    FieldUntilSpaceWhole(token);
  }

  /** A string without spaces is its own first field. */
  lemma {:induction false} FieldUntilSpaceWhole(s: string)
    requires forall i :: 0 <= i < |s| ==> s[i] != ' '
    ensures FieldUntilSpace(s) == s
  {
    if s != [] {
      FieldUntilSpaceWhole(s[1..]);
    }
  }
}
