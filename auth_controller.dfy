/** Registration and login over the User table. Registration changes the table
    and is a method of `UserTable`; login only reads it and is a function of the
    table's rows. The crypto oracles are parameters. */
module AuthController {
  import opened JsValues
  import opened UserModel
  import opened Crypto

  /** The JSON body of both routes. A `role` sent by the client is carried but
      never read. */
  datatype Credentials = Credentials(email: string, password: string, role: Option<string>)

  /** Login's answer: the status sent and, on success, the token in the body. */
  datatype LoginReply = LoginReply(status: int, token: Option<string>)

  /** POST /auth/login: 404 for an unknown email, 401 when the password does not
      match the stored hash, otherwise 200 with a token signed over `{ id, role }`. */
  function Login(rows: seq<User>, body: Credentials, c: Oracles): (r: LoginReply)
    ensures r.status == 200 || r.status == 401 || r.status == 404
    ensures r.token.Some? <==> r.status == 200
    ensures r.status == 404 <==> forall i :: 0 <= i < |rows| ==> rows[i].email != body.email
  {
    match FindByEmail(rows, body.email)
    case None => LoginReply(404, None)
    case Some(user) =>
      if !c.compare(body.password, user.password) then LoginReply(401, None)
      else LoginReply(200, Some(c.sign(Claims(user.id, user.role))))
  }

  /** The status registration sends: 400 when the email is already taken, else 201. */
  function RegisterStatus(rows: seq<User>, email: string): int {
    if FindByEmail(rows, email).Some? then 400 else 201
  }

  /** The rows after registration: unchanged for a taken email, otherwise one new
      row with the hashed password and role 'user', under key `nextId`. */
  function RegisteredRows(rows: seq<User>, nextId: int, body: Credentials, c: Oracles): seq<User> {
    if FindByEmail(rows, body.email).Some? then rows
    else rows + [NewUser(nextId, UserCreation(body.email, c.hash(body.password), Some(UserRole)))]
  }

  class UserTable {
    var rows: seq<User>
    var nextId: int

    ghost predicate Valid()
      reads this
    {
      UsersValid(rows, nextId)
    }

    constructor ()
      ensures Valid() && rows == [] && nextId == 1
    {
      rows := [];
      nextId := 1;
    }

    /** `User.create(attrs)`: the store's unique constraint refuses a taken email
        (`None`, nothing changes); otherwise a new row under the next key. */
    method Create(attrs: UserCreation) returns (created: Option<User>)
      requires Valid()
      modifies this
      ensures Valid()
      ensures created.None? <==> exists i :: 0 <= i < |old(rows)| && old(rows)[i].email == attrs.email
      ensures created.None? ==> rows == old(rows) && nextId == old(nextId)
      ensures created.Some? ==> created.value == NewUser(old(nextId), attrs)
      ensures created.Some? ==> rows == old(rows) + [created.value] && nextId == old(nextId) + 1
    {
      if FindByEmail(rows, attrs.email).Some? {
        return None;
      }
      var user := NewUser(nextId, attrs);
      rows := rows + [user];
      nextId := nextId + 1;
      created := Some(user);
    }

    /** POST /auth/register. */
    method Register(body: Credentials, c: Oracles) returns (status: int, user: Option<User>)
      requires Valid()
      modifies this
      ensures Valid()
      ensures status == RegisterStatus(old(rows), body.email)
      ensures rows == RegisteredRows(old(rows), old(nextId), body, c)
      ensures nextId == if status == 201 then old(nextId) + 1 else old(nextId)
      ensures user == if status == 201 then Some(rows[|rows| - 1]) else None
    {
      var existing := FindByEmail(rows, body.email);
      if existing.Some? {
        return 400, None;
      }
      var hashed := c.hash(body.password);
      user := Create(UserCreation(body.email, hashed, Some(UserRole)));
      status := 201;
    }
  }

  /** On a table with unique emails, login answers for the one row that has the
      email: 401 exactly when the password does not match its hash, and
      otherwise a token signed over that row's key and role. */
  lemma LoginAgainstRow(rows: seq<User>, body: Credentials, c: Oracles, u: User)
    requires UniqueEmails(rows)
    requires u in rows && u.email == body.email
    ensures Login(rows, body, c).status == 401 <==> !c.compare(body.password, u.password)
    ensures c.compare(body.password, u.password) ==>
      Login(rows, body, c) == LoginReply(200, Some(c.sign(Claims(u.id, u.role))))
  {
    FindByEmailUnique(rows, u);
  }

  /** A taken email leaves the table as it was; a free one adds exactly one row,
      with the hashed password and role 'user' whatever role the body names. */
  lemma RegisterAddsOne(rows: seq<User>, nextId: int, body: Credentials, c: Oracles)
    ensures RegisterStatus(rows, body.email) == 400 ==> RegisteredRows(rows, nextId, body, c) == rows
    ensures RegisterStatus(rows, body.email) == 201 ==>
      && |RegisteredRows(rows, nextId, body, c)| == |rows| + 1
      && RegisteredRows(rows, nextId, body, c)[..|rows|] == rows
      && RegisteredRows(rows, nextId, body, c)[|rows|] == User(nextId, body.email, c.hash(body.password), UserRole)
  {
  }

  /** Registration keeps the table invariant: unique emails and unique keys. */
  lemma RegisterPreservesValid(rows: seq<User>, nextId: int, body: Credentials, c: Oracles)
    requires UsersValid(rows, nextId)
    ensures UsersValid(RegisteredRows(rows, nextId, body, c),
                       if RegisterStatus(rows, body.email) == 201 then nextId + 1 else nextId)
  {
  }

  /** Registering the same email a second time is refused and changes nothing. */
  lemma RegisterTwiceConflicts(rows: seq<User>, nextId: int, first: Credentials, second: Credentials, c: Oracles)
    requires second.email == first.email
    ensures RegisterStatus(RegisteredRows(rows, nextId, first, c), second.email) == 400
    ensures RegisteredRows(RegisteredRows(rows, nextId, first, c), nextId + 1, second, c)
            == RegisteredRows(rows, nextId, first, c)
  {
    var after := RegisteredRows(rows, nextId, first, c);
    if RegisterStatus(rows, first.email) == 201 {
      assert after[|rows|].email == first.email;
    }
  }

  /** If a password matches its own hash, a user who registers and then logs in
      with the same password gets a token for the new row: its key and role 'user'. */
  lemma RegisterThenLogin(rows: seq<User>, nextId: int, body: Credentials, login: Credentials, c: Oracles)
    requires UsersValid(rows, nextId)
    requires HashSound(c)
    requires RegisterStatus(rows, body.email) == 201
    requires login.email == body.email && login.password == body.password
    ensures Login(RegisteredRows(rows, nextId, body, c), login, c)
            == LoginReply(200, Some(c.sign(Claims(nextId, UserRole))))
  {
    var after := RegisteredRows(rows, nextId, body, c);
    RegisterPreservesValid(rows, nextId, body, c);
    var u := after[|rows|];
    assert u in after;
    LoginAgainstRow(after, login, c, u);
  }
}
