/** The authentication handlers: registration with its role choice,
    login, and the current-user echo. Password hashing and comparison and
    token signing are parameters standing for bcrypt and the token
    library; the configured admin key is a parameter too. */
module AuthController {
  import opened Basics
  import opened Types
  import opened UserTable
  import opened Middleware

  const MSG_FIELDS_REQUIRED: string := "用户名和密码不能为空"
  const MSG_USERNAME_TAKEN: string := "用户名已存在"
  const MSG_BAD_ADMIN_KEY: string := "管理员注册密钥不正确"
  const MSG_BAD_CREDENTIALS: string := "用户名或密码错误"
  const MSG_NO_USER_INFO: string := "未找到用户信息"

  /** `{ id, username, role }`: what the token carries and what the
      handlers return as `user`. */
  datatype PublicUser = PublicUser(id: int, username: string, role: Role)

  /** A successful register or login: the signed token and the user. */
  datatype Session = Session(token: string, user: PublicUser)

  function PublicOf(row: UserRow): PublicUser {
    PublicUser(row.id, row.username, row.role)
  }

  // ---------------------------------------------------------------------
  // register

  /** The role a registration gets from its admin key ("" when the body has
      none): none gives a regular user, the configured key an admin, any
      other key nothing. */
  function RoleFor(adminSecretKey: string, configuredKey: string): (r: Option<Role>)
    ensures adminSecretKey == "" ==> r == Some(UserRole)
    ensures r == Some(AdminRole) <==> adminSecretKey != "" && adminSecretKey == configuredKey
    ensures r.None? <==> adminSecretKey != "" && adminSecretKey != configuredKey
  {
    if adminSecretKey == "" then Some(UserRole)
    else if adminSecretKey == configuredKey then Some(AdminRole)
    else None
  }

  /** register's guard chain: the role to insert, or the error. Absent or
      empty fields are "". */
  function RegisterDecision(username: string, password: string, adminSecretKey: string,
                            configuredKey: string, rows: seq<UserRow>): (r: Reply<Role>)
    ensures username == "" || password == "" ==> r == Fail(400, MSG_FIELDS_REQUIRED)
    ensures username != "" && password != "" && IndexOfName(rows, username).Some? ==>
              r == Fail(409, MSG_USERNAME_TAKEN)
    ensures r.Ok? <==> username != "" && password != "" && IndexOfName(rows, username).None? &&
                       RoleFor(adminSecretKey, configuredKey).Some?
    ensures r.Ok? ==> r.value == RoleFor(adminSecretKey, configuredKey).value
    ensures r.Fail? && r.status == 400 && username != "" && password != "" ==> r.message == MSG_BAD_ADMIN_KEY
    ensures (username != "" && password != "" && IndexOfName(rows, username).None? &&
            RoleFor(adminSecretKey, configuredKey).None?) ==> r == Fail(400, MSG_BAD_ADMIN_KEY)
  {
    if username == "" || password == "" then Fail(400, MSG_FIELDS_REQUIRED)
    else if IndexOfName(rows, username).Some? then Fail(409, MSG_USERNAME_TAKEN)
    else match RoleFor(adminSecretKey, configuredKey)
      case None => Fail(400, MSG_BAD_ADMIN_KEY)
      case Some(role) => Ok(role)
  }

  /** A taken name is answered with 409 whatever admin key comes with it:
      the name check runs first. */
  lemma TakenNameBeforeAdminKey(username: string, password: string, key1: string, key2: string,
                                configuredKey: string, rows: seq<UserRow>)
    requires username != "" && password != "" && IndexOfName(rows, username).Some?
    ensures RegisterDecision(username, password, key1, configuredKey, rows) ==
            RegisterDecision(username, password, key2, configuredKey, rows)
  {
  }

  /** The row an insert at the end is found at, by its unique name. */
  lemma {:induction false} InsertedRowFoundByName(rows: seq<UserRow>, row: UserRow)
    ensures IndexOfName(rows + [row], row.username) == Some(|rows|)
  {
  }

  /** register: on success one row is appended, with the next id, the
      hashed password, the chosen role and status active; the token and the
      returned user are built from the row read back by name. `hash` is the
      hash of `password`, `now` the insertion time. */
  method Register(table: UsersTable, username: string, password: string, adminSecretKey: string,
                  configuredKey: string, hash: string, now: string, sign: PublicUser -> string)
    returns (r: Reply<Session>)
    requires table.Valid()
    modifies table
    ensures table.Valid()
    ensures var d := RegisterDecision(username, password, adminSecretKey, configuredKey, old(table.rows));
            (d.Fail? ==> r == Fail(d.status, d.message) && table.rows == old(table.rows) &&
                         table.nextId == old(table.nextId)) &&
            (d.Ok? ==> table.rows == old(table.rows) + [UserRow(old(table.nextId), username, hash, d.value, Active, now)] &&
                       table.nextId == old(table.nextId) + 1 &&
                       r == Ok(Session(sign(PublicUser(old(table.nextId), username, d.value)),
                                       PublicUser(old(table.nextId), username, d.value))))
  {
    if username == "" || password == "" {
      return Fail(400, MSG_FIELDS_REQUIRED);
    }
    if IndexOfName(table.rows, username).Some? {
      return Fail(409, MSG_USERNAME_TAKEN);
    }
    var role := UserRole;
    if adminSecretKey != "" {
      if adminSecretKey == configuredKey {
        role := AdminRole;
      } else {
        return Fail(400, MSG_BAD_ADMIN_KEY);
      }
    }
    var row := UserRow(table.nextId, username, hash, role, Active, now);
    table.rows := table.rows + [row];
    table.nextId := table.nextId + 1;
    InsertedRowFoundByName(old(table.rows), row);
    var user := table.rows[IndexOfName(table.rows, username).value];
    r := Ok(Session(sign(PublicOf(user)), PublicOf(user)));
  }

  // ---------------------------------------------------------------------
  // login

  /** login: 400 without both fields; the same 401 for an unknown name and
      for a wrong password; else a token and the stored user. `matches`
      compares a password with a stored hash. */
  function Login(username: string, password: string, rows: seq<UserRow>,
                 matches: (string, string) -> bool, sign: PublicUser -> string): (r: Reply<Session>)
    ensures username == "" || password == "" ==> r == Fail(400, MSG_FIELDS_REQUIRED)
    ensures r.Fail? && r.status != 400 ==> r == Fail(401, MSG_BAD_CREDENTIALS)
    ensures username != "" && password != "" && r.Fail? ==> r == Fail(401, MSG_BAD_CREDENTIALS)
    ensures r.Ok? <==> username != "" && password != "" && IndexOfName(rows, username).Some? &&
                       matches(password, rows[IndexOfName(rows, username).value].password)
    ensures r.Ok? ==> r.value.user == PublicOf(rows[IndexOfName(rows, username).value]) &&
                      r.value.user.username == username && r.value.token == sign(r.value.user)
  {
    if username == "" || password == "" then Fail(400, MSG_FIELDS_REQUIRED)
    else match IndexOfName(rows, username)
      case None => Fail(401, MSG_BAD_CREDENTIALS)
      case Some(i) =>
        if !matches(password, rows[i].password) then Fail(401, MSG_BAD_CREDENTIALS)
        else Ok(Session(sign(PublicOf(rows[i])), PublicOf(rows[i])))
  }

  /** An unknown name and a wrong password for a known name get the same
      answer, so a caller cannot tell which names exist. */
  lemma LoginFailuresIndistinguishable(unknown: string, known: string, password: string, rows: seq<UserRow>,
                                       matches: (string, string) -> bool, sign: PublicUser -> string)
    requires unknown != "" && known != "" && password != ""
    requires IndexOfName(rows, unknown).None?
    requires IndexOfName(rows, known).Some? && !matches(password, rows[IndexOfName(rows, known).value].password)
    ensures Login(unknown, password, rows, matches, sign) == Login(known, password, rows, matches, sign)
    ensures Login(unknown, password, rows, matches, sign) == Fail(401, MSG_BAD_CREDENTIALS)
  {
  }

  /** login does not look at the account status: a banned user logs in
      exactly as an active one. */
  lemma LoginIgnoresStatus(username: string, password: string, rows: seq<UserRow>, i: nat,
                           matches: (string, string) -> bool, sign: PublicUser -> string)
    requires i < |rows|
    ensures Login(username, password, rows[i := rows[i].(status := Banned)], matches, sign) ==
            Login(username, password, rows[i := rows[i].(status := Active)], matches, sign)
  {
    var b, a := rows[i := rows[i].(status := Banned)], rows[i := rows[i].(status := Active)];
    IndexOfKeySameKeys(b, a, UserName, username);
  }


  /** With a token library whose verification returns the claims it
      signed, the token of a successful login passes the auth middleware
      with the stored user's id, name and role. */
  lemma LoginTokenAuthenticates(username: string, password: string, rows: seq<UserRow>,
                                matches: (string, string) -> bool, sign: PublicUser -> string,
                                verify: string -> Option<Payload>)
    requires Login(username, password, rows, matches, sign).Ok?
    requires forall u: PublicUser {:trigger sign(u)} :: verify(sign(u)).Some? &&
               verify(sign(u)).value.id == u.id && verify(sign(u)).value.username == u.username &&
               verify(sign(u)).value.role == u.role
    ensures var s := Login(username, password, rows, matches, sign).value;
            var d := AuthMiddleware(Some(BEARER + s.token), verify);
            d.Next? && d.user.id == rows[IndexOfName(rows, username).value].id &&
            d.user.username == username && d.user.role == rows[IndexOfName(rows, username).value].role
  {
    var s := Login(username, password, rows, matches, sign).value;
    BearerTokenOfPrefixed(s.token);
    assert verify(sign(s.user)).Some?;
  }

  // ---------------------------------------------------------------------
  // getCurrentUser

  /** getCurrentUser: 401 without `req.user`, else only its id, username
      and role. */
  function GetCurrentUser(user: Option<Payload>): (r: Reply<PublicUser>)
    ensures r.Fail? <==> user.None?
    ensures r.Fail? ==> r == Fail(401, MSG_NO_USER_INFO)
    ensures r.Ok? ==> r.value.id == user.value.id && r.value.username == user.value.username &&
                      r.value.role == user.value.role
  {
    match user
    case None => Fail(401, MSG_NO_USER_INFO)
    case Some(p) => Ok(PublicUser(p.id, p.username, p.role))
  }
}
