/** The User table schema: record type, the role enumeration, creation defaults,
    the uniqueness constraints, and the `findOne({ where: { email } })` lookup. */
module UserModel {
  import opened JsValues

  /** The ENUM('user', 'admin') column. */
  datatype Role = UserRole | AdminRole

  /** The string the column stores for a role. */
  function RoleName(r: Role): string {
    match r
    case UserRole => "user"
    case AdminRole => "admin"
  }

  /** The column's check on a string: only the two enumerated names are accepted. */
  function ParseRole(s: string): (r: Option<Role>)
    ensures r.Some? <==> s == "user" || s == "admin"
    ensures r.Some? ==> RoleName(r.value) == s
  {
    if s == "user" then Some(UserRole)
    else if s == "admin" then Some(AdminRole)
    else None
  }

  /** The enumeration and its stored names are in one-to-one correspondence. */
  lemma RoleNameRoundTrip(r: Role)
    ensures ParseRole(RoleName(r)) == Some(r)
  {
  }

  /** A stored row; `password` holds whatever the registration stored (a hash). */
  datatype User = User(id: int, email: string, password: string, role: Role)

  /** Creation attributes: the key is assigned by the table, `role` may be omitted. */
  datatype UserCreation = UserCreation(email: string, password: string, role: Option<Role>)

  /** The row the table stores for `attrs` under the auto-increment key `id`. */
  function NewUser(id: int, attrs: UserCreation): (u: User)
    ensures u.id == id && u.email == attrs.email && u.password == attrs.password
    ensures attrs.role.None? ==> u.role == UserRole
    ensures attrs.role.Some? ==> u.role == attrs.role.value
  {
    var role := match attrs.role
      case None => UserRole
      case Some(r) => r;
    User(id, attrs.email, attrs.password, role)
  }

  /** The `unique: true` constraint on `email`. */
  ghost predicate UniqueEmails(rows: seq<User>) {
    forall i, j :: 0 <= i < j < |rows| ==> rows[i].email != rows[j].email
  }

  /** Table invariant: unique emails, and auto-increment primary keys that are
      distinct and below the next key to hand out. */
  ghost predicate UsersValid(rows: seq<User>, nextId: int) {
    && 1 <= nextId
    && UniqueEmails(rows)
    && (forall i, j :: 0 <= i < j < |rows| ==> rows[i].id != rows[j].id)
    && (forall i :: 0 <= i < |rows| ==> 1 <= rows[i].id < nextId)
  }

  /** `User.findOne({ where: { email } })`: the first row with that email, if any. */
  function FindByEmail(rows: seq<User>, email: string): (r: Option<User>)
    ensures r.None? <==> forall i :: 0 <= i < |rows| ==> rows[i].email != email
    ensures r.Some? ==> r.value in rows && r.value.email == email
  {
    if rows == [] then None
    else if rows[0].email == email then Some(rows[0])
    else FindByEmail(rows[1..], email)
  }

  /** With unique emails the lookup finds exactly the row that has the email. */
  lemma FindByEmailUnique(rows: seq<User>, u: User)
    requires UniqueEmails(rows)
    requires u in rows
    ensures FindByEmail(rows, u.email) == Some(u)
  {
  }
}
