/** The users table as the controllers see it: rows in insertion order,
    an AUTOINCREMENT id counter, and the schema's uniqueness of ids and
    usernames kept as an invariant. */
module UserTable {
  import opened Basics
  import opened Types

  function UserId(row: UserRow): int { row.id }

  function UserName(row: UserRow): string { row.username }

  /** The position of the row with id `id`. */
  function IndexOfId(rows: seq<UserRow>, id: int): Option<nat> {
    IndexOfKey(rows, UserId, id)
  }

  /** The position of the row with username `name`. */
  function IndexOfName(rows: seq<UserRow>, name: string): Option<nat> {
    IndexOfKey(rows, UserName, name)
  }

  /** The row with id `id` (`SELECT ... WHERE id = ?`). */
  function Lookup(rows: seq<UserRow>, id: int): (r: Option<UserRow>)
    ensures r.Some? ==> r.value in rows && r.value.id == id
    ensures r.None? <==> forall j :: 0 <= j < |rows| ==> rows[j].id != id
  {
    match IndexOfId(rows, id)
    case None => None
    case Some(i) => Some(rows[i])
  }


  /** `PRIMARY KEY` and `UNIQUE NOT NULL` on username: no two rows share
      either; ids are positive and below the AUTOINCREMENT counter. */
  ghost predicate WellFormed(rows: seq<UserRow>, nextId: int) {
    0 < nextId &&
    (forall j :: 0 <= j < |rows| ==> 0 < rows[j].id < nextId) &&
    (forall j, k :: 0 <= j < k < |rows| ==> rows[j].id != rows[k].id) &&
    (forall j, k :: 0 <= j < k < |rows| ==> rows[j].username != rows[k].username)
  }

  /** Replacing one row by a row with the same id and username keeps the
      table well formed. */
  lemma ReplaceKeepsWellFormed(rows: seq<UserRow>, nextId: int, i: nat, row: UserRow)
    requires WellFormed(rows, nextId) && i < |rows|
    requires row.id == rows[i].id && row.username == rows[i].username
    ensures WellFormed(rows[i := row], nextId)
  {
    var r' := rows[i := row];
    forall j, k | 0 <= j < k < |r'|
      ensures r'[j].id != r'[k].id && r'[j].username != r'[k].username
    {
      assert r'[j].id == rows[j].id && r'[j].username == rows[j].username;
      assert r'[k].id == rows[k].id && r'[k].username == rows[k].username;
    }
  }

  /** Removing one row keeps the table well formed. */
  lemma RemoveKeepsWellFormed(rows: seq<UserRow>, nextId: int, i: nat)
    requires WellFormed(rows, nextId) && i < |rows|
    ensures WellFormed(rows[..i] + rows[i + 1..], nextId)
  {
    var r' := rows[..i] + rows[i + 1..];
    assert forall j :: 0 <= j < |r'| ==> r'[j] == rows[if j < i then j else j + 1];
  }

  /** The rows with the row at `i` removed. */
  function Without(rows: seq<UserRow>, i: nat): seq<UserRow>
    requires i < |rows|
  {
    RemoveAt(rows, i)
  }

  /** A well-formed table: removing the row with some id leaves no row
      with that id and every other row in place. */
  lemma WithoutRemovesOnlyThatId(rows: seq<UserRow>, nextId: int, i: nat)
    requires WellFormed(rows, nextId) && i < |rows|
    ensures forall j :: 0 <= j < |Without(rows, i)| ==> Without(rows, i)[j].id != rows[i].id
    ensures forall j :: 0 <= j < |rows| && j != i ==> rows[j] in Without(rows, i)
  {
    var r := Without(rows, i);
    forall j | 0 <= j < |rows| && j != i
      ensures rows[j] in r
    {
      if j < i { assert r[j] == rows[j]; } else { assert r[j - 1] == rows[j]; }
    }
  }

  class UsersTable {
    var rows: seq<UserRow>
    /** The AUTOINCREMENT counter: the id the next insert gets. */
    var nextId: int

    ghost predicate Valid()
      reads this
    {
      WellFormed(rows, nextId)
    }

    constructor ()
      ensures Valid() && rows == [] && nextId == 1
    {
      rows := [];
      nextId := 1;
    }
  }
}
