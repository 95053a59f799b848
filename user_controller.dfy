/** The user-management handlers: the admin listing with its statistics,
    lookup by id, account deletion, password reset, ban and unban. Each
    handler is a guard chain (a pure function giving the reply) and, where
    the handler writes the users table, a method that performs the write
    the chain allows. The caller is the payload the auth middleware put in
    `req.user`; the password check is a parameter standing for bcrypt. */
module UserController {
  import opened Basics
  import opened Types
  import opened UserTable

  const MSG_ADMIN_ONLY: string := "权限不足，仅管理员可以访问"
  const MSG_ADMIN_ONLY_OPERATION: string := "权限不足，仅管理员可以操作"
  const MSG_INVALID_ID: string := "无效的用户ID"
  const MSG_USER_NOT_FOUND: string := "用户不存在"
  const MSG_ONLY_SELF_DELETE: string := "权限不足，您只能注销自己的账号"
  const MSG_NO_DELETE_ADMIN: string := "管理员不能注销其他管理员账号"
  const MSG_CONFIRM_SELF_DELETE: string := "如需注销自己的账号,请确认操作"
  const MSG_ONLY_SELF_RESET: string := "您只能重置自己的密码"
  const MSG_PASSWORDS_REQUIRED: string := "旧密码和新密码不能为空"
  const MSG_PASSWORD_TOO_SHORT: string := "新密码长度至少为6位"
  const MSG_WRONG_OLD_PASSWORD: string := "旧密码错误"
  const MSG_NO_BAN_ADMIN: string := "不能封禁管理员账号"
  const MSG_NO_BAN_SELF: string := "不能封禁自己的账号"
  const MSG_ALREADY_BANNED: string := "该用户已被封禁"
  const MSG_NOT_BANNED: string := "该用户未被封禁"

  /** The shortest accepted new password. */
  const MIN_PASSWORD_LENGTH: int := 6

  /** A user row without its password hash, as the listing returns it. */
  datatype UserSummary = UserSummary(id: int, username: string, role: Role, status: UserStatus, createdAt: string)

  /** `{ id, username }` of the user a handler acted on. */
  datatype UserRef = UserRef(id: int, username: string)

  /** `{ id, username, status }` after a ban or an unban. */
  datatype StatusChange = StatusChange(id: int, username: string, status: UserStatus)

  datatype Statistics = Statistics(total: nat, admins: nat, regularUsers: nat, banned: nat)

  datatype UserList = UserList(users: seq<UserSummary>, statistics: Statistics)

  function SummaryOf(row: UserRow): UserSummary {
    UserSummary(row.id, row.username, row.role, row.status, row.createdAt)
  }

  predicate IsAdmin(caller: Option<Payload>) {
    caller.Some? && caller.value.role == AdminRole
  }

  // ---------------------------------------------------------------------
  // getUserList

  /** The rows newest first (`ORDER BY created_at DESC`, with rows created
      later having the later timestamp), without passwords. */
  function NewestFirst(rows: seq<UserRow>): (r: seq<UserSummary>)
    ensures |r| == |rows|
    ensures forall i :: 0 <= i < |rows| ==> r[i] == SummaryOf(rows[|rows| - 1 - i])
  {
    if rows == [] then []
    else [SummaryOf(rows[|rows| - 1])] + NewestFirst(rows[..|rows| - 1])
  }

  /** The roles of the users, in order. */
  function Roles(users: seq<UserSummary>): seq<Role> {
    seq(|users|, i requires 0 <= i < |users| => users[i].role)
  }

  /** The statuses of the users, in order. */
  function Statuses(users: seq<UserSummary>): seq<UserStatus> {
    seq(|users|, i requires 0 <= i < |users| => users[i].status)
  }

  /** `users.filter(user => user.role === role).length`: the number of
      users holding `role`. */
  function CountRole(users: seq<UserSummary>, role: Role): (n: nat)
    ensures n <= |users|
    ensures n == multiset(Roles(users))[role]
  {
    if users == [] then 0
    else
      assert Roles(users) == [users[0].role] + Roles(users[1..]);
      (if users[0].role == role then 1 else 0) + CountRole(users[1..], role)
  }

  /** `users.filter(user => user.status === 'banned').length`: the number
      of banned users. */
  function CountBanned(users: seq<UserSummary>): (n: nat)
    ensures n <= |users|
    ensures n == multiset(Statuses(users))[Banned]
  {
    if users == [] then 0
    else
      assert Statuses(users) == [users[0].status] + Statuses(users[1..]);
      (if users[0].status == Banned then 1 else 0) + CountBanned(users[1..])
  }

  /** Every user is counted exactly once as an admin or a regular user,
      because a role is one of the two. */
  lemma {:induction false} RoleCountsPartition(users: seq<UserSummary>)
    ensures CountRole(users, AdminRole) + CountRole(users, UserRole) == |users|
    decreases |users|
  {
    if users != [] {
      RoleCountsPartition(users[1..]);
    }
  }

  /** The statistics block of the listing. */
  function StatisticsOf(users: seq<UserSummary>): (s: Statistics)
    ensures s.total == |users|
    ensures s.admins + s.regularUsers == s.total
    ensures s.banned <= s.total
    ensures s.admins == CountRole(users, AdminRole) && s.regularUsers == CountRole(users, UserRole) &&
            s.banned == CountBanned(users)
  {
    RoleCountsPartition(users);
    Statistics(|users|, CountRole(users, AdminRole), CountRole(users, UserRole), CountBanned(users))
  }

  /** The roles of the table's rows, in table order. */
  function RowRoles(rows: seq<UserRow>): seq<Role> {
    seq(|rows|, i requires 0 <= i < |rows| => rows[i].role)
  }

  /** The statuses of the table's rows, in table order. */
  function RowStatuses(rows: seq<UserRow>): seq<UserStatus> {
    seq(|rows|, i requires 0 <= i < |rows| => rows[i].status)
  }

  /** Listing the rows newest first neither adds nor drops a role or a
      status. */
  lemma {:induction false} NewestFirstSameCounts(rows: seq<UserRow>)
    ensures multiset(Roles(NewestFirst(rows))) == multiset(RowRoles(rows))
    ensures multiset(Statuses(NewestFirst(rows))) == multiset(RowStatuses(rows))
    decreases |rows|
  {
    if rows != [] {
      var init := rows[..|rows| - 1];
      var last := rows[|rows| - 1];
      NewestFirstSameCounts(init);
      var users := NewestFirst(rows);
      assert users == [SummaryOf(last)] + NewestFirst(init);
      assert Roles(users) == [last.role] + Roles(NewestFirst(init));
      assert RowRoles(rows) == RowRoles(init) + [last.role];
      assert Statuses(users) == [last.status] + Statuses(NewestFirst(init));
      assert RowStatuses(rows) == RowStatuses(init) + [last.status];
    }
  }

  /** getUserList: 403 for a caller who is not an admin; otherwise every
      user, newest first, with the statistics: the number of admins,
      regular users and banned users of the table. */
  function GetUserList(caller: Option<Payload>, rows: seq<UserRow>): (r: Reply<UserList>)
    ensures r.Ok? <==> IsAdmin(caller)
    ensures r.Fail? ==> r == Fail(403, MSG_ADMIN_ONLY)
    ensures r.Ok? ==> r.value.users == NewestFirst(rows) && r.value.statistics == StatisticsOf(r.value.users)
    ensures r.Ok? ==> |r.value.users| == |rows| && r.value.statistics.total == |rows|
    ensures r.Ok? ==> r.value.statistics.admins + r.value.statistics.regularUsers == |rows|
    ensures r.Ok? ==> r.value.statistics.admins == multiset(RowRoles(rows))[AdminRole] &&
                      r.value.statistics.regularUsers == multiset(RowRoles(rows))[UserRole] &&
                      r.value.statistics.banned == multiset(RowStatuses(rows))[Banned]
    ensures r.Ok? ==> forall i :: 0 <= i < |rows| ==> r.value.users[i] == SummaryOf(rows[|rows| - 1 - i])
  {
    if !IsAdmin(caller) then Fail(403, MSG_ADMIN_ONLY)
    else
      var users := NewestFirst(rows);
      NewestFirstSameCounts(rows);
      Ok(UserList(users, StatisticsOf(users)))
  }

  // ---------------------------------------------------------------------
  // getUserById

  /** getUserById: 403 for a non-admin, 400 for an invalid id, 404 for an
      unknown one, else the user without the password. */
  function GetUserById(caller: Option<Payload>, id: Option<int>, rows: seq<UserRow>): (r: Reply<UserSummary>)
    ensures !IsAdmin(caller) ==> r == Fail(403, MSG_ADMIN_ONLY)
    ensures IsAdmin(caller) && !ValidId(id) ==> r == Fail(400, MSG_INVALID_ID)
    ensures IsAdmin(caller) && ValidId(id) && Lookup(rows, id.value).None? ==> r == Fail(404, MSG_USER_NOT_FOUND)
    ensures r.Ok? <==> IsAdmin(caller) && ValidId(id) && Lookup(rows, id.value).Some?
    ensures r.Ok? ==> r.value.id == id.value && r.value == SummaryOf(Lookup(rows, id.value).value)
  {
    if !IsAdmin(caller) then Fail(403, MSG_ADMIN_ONLY)
    else if !ValidId(id) then Fail(400, MSG_INVALID_ID)
    else match Lookup(rows, id.value)
      case None => Fail(404, MSG_USER_NOT_FOUND)
      case Some(user) => Ok(SummaryOf(user))
  }

  // ---------------------------------------------------------------------
  // deleteUser

  /** Who may delete whom: a regular user only themselves; an admin any
      regular user other than themselves. */
  predicate MayDelete(caller: Payload, target: UserRow) {
    if caller.role == UserRole then target.id == caller.id
    else target.role == UserRole && target.id != caller.id
  }

  /** deleteUser's guard chain. */
  function DeleteUserDecision(caller: Payload, id: Option<int>, rows: seq<UserRow>): (r: Reply<UserRef>)
    ensures !ValidId(id) ==> r == Fail(400, MSG_INVALID_ID)
    ensures ValidId(id) && Lookup(rows, id.value).None? ==> r == Fail(404, MSG_USER_NOT_FOUND)
    ensures r.Ok? <==> ValidId(id) && Lookup(rows, id.value).Some? && MayDelete(caller, Lookup(rows, id.value).value)
    ensures r.Ok? ==> r.value == UserRef(id.value, Lookup(rows, id.value).value.username)
    ensures ValidId(id) && Lookup(rows, id.value).Some? && caller.role == UserRole && id.value != caller.id ==>
              r == Fail(403, MSG_ONLY_SELF_DELETE)
    ensures (ValidId(id) && Lookup(rows, id.value).Some? && caller.role == AdminRole && id.value != caller.id &&
            Lookup(rows, id.value).value.role == AdminRole) ==>
              r == Fail(403, MSG_NO_DELETE_ADMIN)
    ensures ValidId(id) && Lookup(rows, id.value).Some? && caller.role == AdminRole && id.value == caller.id ==>
              r == Fail(400, MSG_CONFIRM_SELF_DELETE)
  {
    if !ValidId(id) then Fail(400, MSG_INVALID_ID)
    else match Lookup(rows, id.value)
      case None => Fail(404, MSG_USER_NOT_FOUND)
      case Some(user) =>
        if caller.role == UserRole && user.id != caller.id then Fail(403, MSG_ONLY_SELF_DELETE)
        else if caller.role == AdminRole && user.role == AdminRole && user.id != caller.id then Fail(403, MSG_NO_DELETE_ADMIN)
        else if caller.role == AdminRole && user.id == caller.id then Fail(400, MSG_CONFIRM_SELF_DELETE)
        else Ok(UserRef(user.id, user.username))
  }

  /** deleteUser: the row is removed exactly when the chain allows it. */
  method DeleteUser(table: UsersTable, caller: Payload, id: Option<int>) returns (r: Reply<UserRef>)
    requires table.Valid()
    modifies table
    ensures table.Valid() && table.nextId == old(table.nextId)
    ensures r == DeleteUserDecision(caller, id, old(table.rows))
    ensures r.Ok? ==> table.rows == Without(old(table.rows), IndexOfId(old(table.rows), id.value).value)
    ensures r.Fail? ==> table.rows == old(table.rows)
  {
    if !ValidId(id) {
      return Fail(400, MSG_INVALID_ID);
    }
    var found := IndexOfId(table.rows, id.value);
    if found.None? {
      return Fail(404, MSG_USER_NOT_FOUND);
    }
    var user := table.rows[found.value];
    if caller.role == UserRole {
      if user.id != caller.id {
        return Fail(403, MSG_ONLY_SELF_DELETE);
      }
    } else {
      if user.role == AdminRole && user.id != caller.id {
        return Fail(403, MSG_NO_DELETE_ADMIN);
      }
      if user.id == caller.id {
        return Fail(400, MSG_CONFIRM_SELF_DELETE);
      }
    }
    RemoveKeepsWellFormed(table.rows, table.nextId, found.value);
    table.rows := Without(table.rows, found.value);
    r := Ok(UserRef(user.id, user.username));
  }

  /** After a deletion no row carries the deleted id, and every other row
      is still there. */
  lemma DeletedUserIsGone(caller: Payload, id: Option<int>, rows: seq<UserRow>, nextId: int)
    requires WellFormed(rows, nextId)
    requires DeleteUserDecision(caller, id, rows).Ok?
    ensures Lookup(Without(rows, IndexOfId(rows, id.value).value), id.value).None?
    ensures forall j :: 0 <= j < |rows| && rows[j].id != id.value ==>
              rows[j] in Without(rows, IndexOfId(rows, id.value).value)
  {
    WithoutRemovesOnlyThatId(rows, nextId, IndexOfId(rows, id.value).value);
  }

  // ---------------------------------------------------------------------
  // resetPassword

  /** resetPassword's guard chain; an absent password is "". `matches`
      stands for comparing a password with a stored hash. */
  function ResetPasswordDecision(caller: Payload, id: Option<int>, oldPassword: string, newPassword: string,
                                 rows: seq<UserRow>, matches: (string, string) -> bool): (r: Reply<UserRef>)
    ensures !ValidId(id) ==> r == Fail(400, MSG_INVALID_ID)
    ensures ValidId(id) && id.value != caller.id ==> r == Fail(403, MSG_ONLY_SELF_RESET)
    ensures ValidId(id) && id.value == caller.id && (oldPassword == "" || newPassword == "") ==>
              r == Fail(400, MSG_PASSWORDS_REQUIRED)
    ensures (ValidId(id) && id.value == caller.id && oldPassword != "" && newPassword != "" &&
            |newPassword| < MIN_PASSWORD_LENGTH) ==>
              r == Fail(400, MSG_PASSWORD_TOO_SHORT)
    ensures (ValidId(id) && id.value == caller.id && oldPassword != "" && |newPassword| >= MIN_PASSWORD_LENGTH &&
            Lookup(rows, id.value).None?) ==>
              r == Fail(404, MSG_USER_NOT_FOUND)
    ensures r.Ok? <==> ValidId(id) && id.value == caller.id && oldPassword != "" &&
                       |newPassword| >= MIN_PASSWORD_LENGTH && Lookup(rows, id.value).Some? &&
                       matches(oldPassword, Lookup(rows, id.value).value.password)
    ensures r.Ok? ==> r.value == UserRef(caller.id, Lookup(rows, id.value).value.username)
    ensures r.Fail? && r.status == 401 ==> r.message == MSG_WRONG_OLD_PASSWORD
    ensures (ValidId(id) && id.value == caller.id && oldPassword != "" && |newPassword| >= MIN_PASSWORD_LENGTH &&
            Lookup(rows, id.value).Some? && !matches(oldPassword, Lookup(rows, id.value).value.password)) ==>
              r == Fail(401, MSG_WRONG_OLD_PASSWORD)
  {
    if !ValidId(id) then Fail(400, MSG_INVALID_ID)
    else if id.value != caller.id then Fail(403, MSG_ONLY_SELF_RESET)
    else if oldPassword == "" || newPassword == "" then Fail(400, MSG_PASSWORDS_REQUIRED)
    else if |newPassword| < MIN_PASSWORD_LENGTH then Fail(400, MSG_PASSWORD_TOO_SHORT)
    else match Lookup(rows, id.value)
      case None => Fail(404, MSG_USER_NOT_FOUND)
      case Some(user) =>
        if !matches(oldPassword, user.password) then Fail(401, MSG_WRONG_OLD_PASSWORD)
        else Ok(UserRef(user.id, user.username))
  }

  /** The rows with the password hash of row `i` replaced. */
  function WithPassword(rows: seq<UserRow>, i: nat, hash: string): (r: seq<UserRow>)
    requires i < |rows|
    ensures |r| == |rows| && r[i].password == hash
    ensures forall j :: 0 <= j < |rows| && j != i ==> r[j] == rows[j]
    ensures r[i] == rows[i].(password := hash)
  {
    rows[i := rows[i].(password := hash)]
  }

  /** resetPassword: only the password of the caller's own row changes,
      to `newHash` (the hash of the new password), and only when the
      chain allows it. */
  method ResetPassword(table: UsersTable, caller: Payload, id: Option<int>, oldPassword: string,
                       newPassword: string, matches: (string, string) -> bool, newHash: string)
    returns (r: Reply<UserRef>)
    requires table.Valid()
    modifies table
    ensures table.Valid() && table.nextId == old(table.nextId)
    ensures r == ResetPasswordDecision(caller, id, oldPassword, newPassword, old(table.rows), matches)
    ensures r.Ok? ==> table.rows == WithPassword(old(table.rows), IndexOfId(old(table.rows), id.value).value, newHash)
    ensures r.Fail? ==> table.rows == old(table.rows)
  {
    if !ValidId(id) {
      return Fail(400, MSG_INVALID_ID);
    }
    if id.value != caller.id {
      return Fail(403, MSG_ONLY_SELF_RESET);
    }
    if oldPassword == "" || newPassword == "" {
      return Fail(400, MSG_PASSWORDS_REQUIRED);
    }
    if |newPassword| < 6 {
      return Fail(400, MSG_PASSWORD_TOO_SHORT);
    }
    var found := IndexOfId(table.rows, id.value);
    if found.None? {
      return Fail(404, MSG_USER_NOT_FOUND);
    }
    var user := table.rows[found.value];
    if !matches(oldPassword, user.password) {
      return Fail(401, MSG_WRONG_OLD_PASSWORD);
    }
    ReplaceKeepsWellFormed(table.rows, table.nextId, found.value, user.(password := newHash));
    table.rows := WithPassword(table.rows, found.value, newHash);
    r := Ok(UserRef(user.id, user.username));
  }

  /** Once the password is reset to a new one whose hash `matches`
      recognises, the new password opens the next reset. */
  lemma ResetThenNewPasswordAccepted(caller: Payload, id: Option<int>, oldPassword: string, newPassword: string,
                                     next: string, rows: seq<UserRow>, matches: (string, string) -> bool,
                                     newHash: string)
    requires ResetPasswordDecision(caller, id, oldPassword, newPassword, rows, matches).Ok?
    requires matches(newPassword, newHash) && |next| >= MIN_PASSWORD_LENGTH
    ensures ResetPasswordDecision(caller, id, newPassword, next,
                                  WithPassword(rows, IndexOfId(rows, id.value).value, newHash), matches).Ok?
  {
    var i := IndexOfId(rows, id.value).value;
    var rows' := WithPassword(rows, i, newHash);
    IndexOfKeySameKeys(rows, rows', UserId, id.value);
  }

  // ---------------------------------------------------------------------
  // banUser and unbanUser

  /** banUser's guard chain. */
  function BanDecision(caller: Option<Payload>, id: Option<int>, rows: seq<UserRow>): (r: Reply<StatusChange>)
    ensures !IsAdmin(caller) ==> r == Fail(403, MSG_ADMIN_ONLY_OPERATION)
    ensures IsAdmin(caller) && !ValidId(id) ==> r == Fail(400, MSG_INVALID_ID)
    ensures IsAdmin(caller) && ValidId(id) && Lookup(rows, id.value).None? ==> r == Fail(404, MSG_USER_NOT_FOUND)
    ensures (IsAdmin(caller) && ValidId(id) && Lookup(rows, id.value).Some? &&
            Lookup(rows, id.value).value.role == AdminRole) ==>
              r == Fail(403, MSG_NO_BAN_ADMIN)
    ensures (IsAdmin(caller) && ValidId(id) && Lookup(rows, id.value).Some? &&
            Lookup(rows, id.value).value.role != AdminRole && id.value == caller.value.id) ==>
              r == Fail(400, MSG_NO_BAN_SELF)
    ensures (IsAdmin(caller) && ValidId(id) && Lookup(rows, id.value).Some? &&
            Lookup(rows, id.value).value.role != AdminRole && id.value != caller.value.id &&
            Lookup(rows, id.value).value.status == Banned) ==>
              r == Fail(400, MSG_ALREADY_BANNED)
    ensures r.Ok? <==> IsAdmin(caller) && ValidId(id) && Lookup(rows, id.value).Some? &&
                       Lookup(rows, id.value).value.role != AdminRole && id.value != caller.value.id &&
                       Lookup(rows, id.value).value.status != Banned
    ensures r.Ok? ==> r.value == StatusChange(id.value, Lookup(rows, id.value).value.username, Banned)
  {
    if !IsAdmin(caller) then Fail(403, MSG_ADMIN_ONLY_OPERATION)
    else if !ValidId(id) then Fail(400, MSG_INVALID_ID)
    else if Lookup(rows, id.value).None? then Fail(404, MSG_USER_NOT_FOUND)
    else
      var user := Lookup(rows, id.value).value;
      if user.role == AdminRole then Fail(403, MSG_NO_BAN_ADMIN)
      else if user.id == caller.value.id then Fail(400, MSG_NO_BAN_SELF)
      else if user.status == Banned then Fail(400, MSG_ALREADY_BANNED)
      else Ok(StatusChange(user.id, user.username, Banned))
  }

  /** unbanUser's guard chain: it does not look at the target's role or at
      who the caller is, only at the status. */
  function UnbanDecision(caller: Option<Payload>, id: Option<int>, rows: seq<UserRow>): (r: Reply<StatusChange>)
    ensures !IsAdmin(caller) ==> r == Fail(403, MSG_ADMIN_ONLY_OPERATION)
    ensures IsAdmin(caller) && !ValidId(id) ==> r == Fail(400, MSG_INVALID_ID)
    ensures IsAdmin(caller) && ValidId(id) && Lookup(rows, id.value).None? ==> r == Fail(404, MSG_USER_NOT_FOUND)
    ensures (IsAdmin(caller) && ValidId(id) && Lookup(rows, id.value).Some? &&
            Lookup(rows, id.value).value.status == Active) ==>
              r == Fail(400, MSG_NOT_BANNED)
    ensures r.Ok? <==> IsAdmin(caller) && ValidId(id) && Lookup(rows, id.value).Some? &&
                       Lookup(rows, id.value).value.status != Active
    ensures r.Ok? ==> r.value == StatusChange(id.value, Lookup(rows, id.value).value.username, Active)
  {
    if !IsAdmin(caller) then Fail(403, MSG_ADMIN_ONLY_OPERATION)
    else if !ValidId(id) then Fail(400, MSG_INVALID_ID)
    else if Lookup(rows, id.value).None? then Fail(404, MSG_USER_NOT_FOUND)
    else
      var user := Lookup(rows, id.value).value;
      if user.status == Active then Fail(400, MSG_NOT_BANNED)
      else Ok(StatusChange(user.id, user.username, Active))
  }

  /** The rows with the status of row `i` replaced. */
  function WithStatus(rows: seq<UserRow>, i: nat, status: UserStatus): (r: seq<UserRow>)
    requires i < |rows|
    ensures |r| == |rows| && r[i].status == status
    ensures forall j :: 0 <= j < |rows| && j != i ==> r[j] == rows[j]
    ensures r[i] == rows[i].(status := status)
  {
    rows[i := rows[i].(status := status)]
  }

  /** banUser: the target's status becomes banned, nothing else changes. */
  method BanUser(table: UsersTable, caller: Option<Payload>, id: Option<int>) returns (r: Reply<StatusChange>)
    requires table.Valid()
    modifies table
    ensures table.Valid() && table.nextId == old(table.nextId)
    ensures r == BanDecision(caller, id, old(table.rows))
    ensures r.Ok? ==> table.rows == WithStatus(old(table.rows), IndexOfId(old(table.rows), id.value).value, Banned)
    ensures r.Fail? ==> table.rows == old(table.rows)
  {
    if caller.None? || caller.value.role != AdminRole {
      return Fail(403, MSG_ADMIN_ONLY_OPERATION);
    }
    if !ValidId(id) {
      return Fail(400, MSG_INVALID_ID);
    }
    var found := IndexOfId(table.rows, id.value);
    if found.None? {
      return Fail(404, MSG_USER_NOT_FOUND);
    }
    var user := table.rows[found.value];
    if user.role == AdminRole {
      return Fail(403, MSG_NO_BAN_ADMIN);
    }
    if user.id == caller.value.id {
      return Fail(400, MSG_NO_BAN_SELF);
    }
    if user.status == Banned {
      return Fail(400, MSG_ALREADY_BANNED);
    }
    ReplaceKeepsWellFormed(table.rows, table.nextId, found.value, user.(status := Banned));
    table.rows := WithStatus(table.rows, found.value, Banned);
    r := Ok(StatusChange(user.id, user.username, Banned));
  }

  /** unbanUser: the target's status becomes active, nothing else changes. */
  method UnbanUser(table: UsersTable, caller: Option<Payload>, id: Option<int>) returns (r: Reply<StatusChange>)
    requires table.Valid()
    modifies table
    ensures table.Valid() && table.nextId == old(table.nextId)
    ensures r == UnbanDecision(caller, id, old(table.rows))
    ensures r.Ok? ==> table.rows == WithStatus(old(table.rows), IndexOfId(old(table.rows), id.value).value, Active)
    ensures r.Fail? ==> table.rows == old(table.rows)
  {
    if caller.None? || caller.value.role != AdminRole {
      return Fail(403, MSG_ADMIN_ONLY_OPERATION);
    }
    if !ValidId(id) {
      return Fail(400, MSG_INVALID_ID);
    }
    var found := IndexOfId(table.rows, id.value);
    if found.None? {
      return Fail(404, MSG_USER_NOT_FOUND);
    }
    var user := table.rows[found.value];
    if user.status == Active {
      return Fail(400, MSG_NOT_BANNED);
    }
    ReplaceKeepsWellFormed(table.rows, table.nextId, found.value, user.(status := Active));
    table.rows := WithStatus(table.rows, found.value, Active);
    r := Ok(StatusChange(user.id, user.username, Active));
  }

  /** A successful ban, then an unban by an admin, restores the table
      exactly; a second ban in between is rejected as already banned. */
  lemma BanThenUnbanRestores(caller: Option<Payload>, id: Option<int>, rows: seq<UserRow>)
    requires BanDecision(caller, id, rows).Ok?
    ensures var i := IndexOfId(rows, id.value).value;
            var banned := WithStatus(rows, i, Banned);
            BanDecision(caller, id, banned) == Fail(400, MSG_ALREADY_BANNED) &&
            UnbanDecision(caller, id, banned).Ok? &&
            WithStatus(banned, i, Active) == rows
  {
    var i := IndexOfId(rows, id.value).value;
    var banned := WithStatus(rows, i, Banned);
    IndexOfKeySameKeys(rows, banned, UserId, id.value);
    assert WithStatus(banned, i, Active) == rows;
  }

  /** An id of 0 or NaN is answered with 400 by every handler that takes
      one, before any lookup (for an admin where the handler requires it). */
  lemma InvalidIdRejected(admin: Payload, caller: Payload, id: Option<int>, rows: seq<UserRow>,
                          oldPassword: string, newPassword: string, matches: (string, string) -> bool)
    requires admin.role == AdminRole && !ValidId(id)
    ensures GetUserById(Some(admin), id, rows) == Fail(400, MSG_INVALID_ID)
    ensures DeleteUserDecision(caller, id, rows) == Fail(400, MSG_INVALID_ID)
    ensures ResetPasswordDecision(caller, id, oldPassword, newPassword, rows, matches) == Fail(400, MSG_INVALID_ID)
    ensures BanDecision(Some(admin), id, rows) == Fail(400, MSG_INVALID_ID)
    ensures UnbanDecision(Some(admin), id, rows) == Fail(400, MSG_INVALID_ID)
  {
  }
}
