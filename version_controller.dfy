/** The version registry: the update check against the latest release,
    and adding, deleting and looking up versions in a table whose version
    strings are unique. */
module VersionController {
  import opened Basics
  import opened Types

  const MSG_MISSING_VERSION: string := "缺少版本号"
  const MSG_NO_VERSION_INFO: string := "未找到版本信息"
  const MSG_UP_TO_DATE: string := "已是最新版本"
  const MSG_NEW_VERSION_PREFIX: string := "有新版本: "
  const MSG_VERSION_EXISTS: string := "版本号已存在"
  const MSG_INVALID_ID: string := "无效的 id"
  const MSG_VERSION_NOT_FOUND: string := "未找到该版本"
  const MSG_MISSING_VERSION_FIELD: string := "缺少 version 字段"
  const MSG_MISSING_VERSION_PARAM: string := "缺少版本号参数"
  const MSG_VERSION_INFO_NOT_FOUND: string := "未找到该版本信息"

  // ---------------------------------------------------------------------
  // The versions table

  function VersionId(row: VersionRow): int { row.id }

  function VersionName(row: VersionRow): string { row.version }

  /** The position of the row with id `id`. */
  function IndexOfVersionId(rows: seq<VersionRow>, id: int): Option<nat> {
    IndexOfKey(rows, VersionId, id)
  }

  /** The position of the row with version string `version`. */
  function IndexOfVersion(rows: seq<VersionRow>, version: string): Option<nat> {
    IndexOfKey(rows, VersionName, version)
  }

  /** `PRIMARY KEY AUTOINCREMENT` and `version TEXT UNIQUE NOT NULL`. */
  ghost predicate WellFormed(rows: seq<VersionRow>, nextId: int) {
    0 < nextId &&
    (forall j :: 0 <= j < |rows| ==> 0 < rows[j].id < nextId) &&
    (forall j, k :: 0 <= j < k < |rows| ==> rows[j].id != rows[k].id) &&
    (forall j, k :: 0 <= j < k < |rows| ==> rows[j].version != rows[k].version)
  }

  class VersionTable {
    var rows: seq<VersionRow>
    var nextId: int

    ghost predicate Valid()
      reads this
    {
      WellFormed(rows, nextId)
    }

    constructor ()
      ensures Valid() && rows == [] && nextId == 1
    {
      rows := [];
      nextId := 1;
    }
  }

  /** The rows without row `i`. */
  function WithoutVersion(rows: seq<VersionRow>, i: nat): seq<VersionRow>
    requires i < |rows|
  {
    RemoveAt(rows, i)
  }

  lemma RemoveKeepsWellFormed(rows: seq<VersionRow>, nextId: int, i: nat)
    requires WellFormed(rows, nextId) && i < |rows|
    ensures WellFormed(WithoutVersion(rows, i), nextId)
  {
  }

  /** In a well-formed table, removing a row leaves no row with its id or
      its version string. */
  lemma RemovedVersionIsGone(rows: seq<VersionRow>, nextId: int, i: nat)
    requires WellFormed(rows, nextId) && i < |rows|
    ensures IndexOfVersion(WithoutVersion(rows, i), rows[i].version).None?
    ensures IndexOfVersionId(WithoutVersion(rows, i), rows[i].id).None?
  {
    var r := WithoutVersion(rows, i);
    forall j | 0 <= j < |r|
      ensures r[j].version != rows[i].version && r[j].id != rows[i].id
    {
      assert r[j] == rows[if j < i then j else j + 1];
    }
  }

  // ---------------------------------------------------------------------
  // checkUpdate

  /** `ORDER BY datetime(release_date) DESC`: `a` sorts before `b`. A
      release date `datetime` cannot read is NULL and sorts last. */
  predicate Later(a: Option<int>, b: Option<int>) {
    a.Some? && (b.None? || a.value > b.value)
  }

  /** The row `LIMIT 1` picks: one with the greatest date, the earliest
      inserted among equal ones. `datetime` maps a release date to its
      instant, or None when it cannot be read. */
  function LatestIndex(rows: seq<VersionRow>, datetime: string -> Option<int>): (r: Option<nat>)
    ensures r.None? <==> rows == []
    ensures r.Some? ==> r.value < |rows|
    ensures r.Some? ==> forall j :: 0 <= j < |rows| ==>
                          !Later(datetime(rows[j].releaseDate), datetime(rows[r.value].releaseDate))
    ensures r.Some? ==> forall j :: 0 <= j < r.value ==>
                          Later(datetime(rows[r.value].releaseDate), datetime(rows[j].releaseDate))
  {
    if rows == [] then None
    else
      var init := rows[..|rows| - 1];
      var last := |rows| - 1;
      var i := LatestIndex(init, datetime);
      assert forall j :: 0 <= j < |init| ==> init[j] == rows[j];
      if i.None? then Some(last)
      else if Later(datetime(rows[last].releaseDate), datetime(rows[i.value].releaseDate)) then Some(last)
      else i
  }

  /** `notes || ""` for a nullable column. */
  function NotesText(notes: Option<string>): (t: string)
    ensures notes.None? ==> t == ""
    ensures notes.Some? ==> t == notes.value
  {
    if notes.Some? then notes.value else ""
  }

  /** The answer to an update check. */
  datatype UpdateCheck =
    | UpToDate(message: string, latest: string)
    | NewVersion(latest: string, releaseDate: string, notes: string, message: string)

  /** checkUpdate: 400 without a version, 404 on an empty table, "up to
      date" exactly when the client's string is the latest version,
      otherwise the latest release with its notes ("" for none). */
  function CheckUpdate(version: string, rows: seq<VersionRow>, datetime: string -> Option<int>): (r: Reply<UpdateCheck>)
    ensures version == "" ==> r == Fail(400, MSG_MISSING_VERSION)
    ensures version != "" && rows == [] ==> r == Fail(404, MSG_NO_VERSION_INFO)
    ensures r.Ok? <==> version != "" && rows != []
    ensures r.Ok? ==> var latest := rows[LatestIndex(rows, datetime).value];
                      r.value.latest == latest.version &&
                      (r.value.UpToDate? <==> version == latest.version) &&
                      (r.value.NewVersion? ==> r.value.releaseDate == latest.releaseDate &&
                                               r.value.notes == NotesText(latest.notes) &&
                                               r.value.message == MSG_NEW_VERSION_PREFIX + latest.version)
  {
    if version == "" then Fail(400, MSG_MISSING_VERSION)
    else if rows == [] then Fail(404, MSG_NO_VERSION_INFO)
    else
      var latest := rows[LatestIndex(rows, datetime).value];
      if version == latest.version then Ok(UpToDate(MSG_UP_TO_DATE, latest.version))
      else Ok(NewVersion(latest.version, latest.releaseDate, NotesText(latest.notes),
                         MSG_NEW_VERSION_PREFIX + latest.version))
  }

  /** The check compares strings only: a client that reports a version the
      table does not hold, even a "newer" one, is offered the latest. */
  lemma UnknownVersionIsOfferedLatest(version: string, rows: seq<VersionRow>, datetime: string -> Option<int>)
    requires version != "" && IndexOfVersion(rows, version).None? && rows != []
    ensures CheckUpdate(version, rows, datetime).Ok? && CheckUpdate(version, rows, datetime).value.NewVersion?
  {
    assert rows[LatestIndex(rows, datetime).value].version != version;
  }

  /** A client on the latest version is told so, with that version. */
  lemma LatestIsUpToDate(rows: seq<VersionRow>, datetime: string -> Option<int>)
    requires rows != [] && rows[LatestIndex(rows, datetime).value].version != ""
    ensures var v := rows[LatestIndex(rows, datetime).value].version;
            CheckUpdate(v, rows, datetime) == Ok(UpToDate(MSG_UP_TO_DATE, v))
  {
  }

  // ---------------------------------------------------------------------
  // addVersion

  /** addVersion: 400 without a version, 409 for a version already present
      (the UNIQUE constraint; nothing is inserted), otherwise one row with
      the next id, the release date or `now`, and the notes or null; the
      row read back by its id is returned. */
  method AddVersion(table: VersionTable, version: string, releaseDate: string, notes: string, now: string)
    returns (r: Reply<VersionRow>)
    requires table.Valid()
    modifies table
    ensures table.Valid()
    ensures version == "" ==> r == Fail(400, MSG_MISSING_VERSION)
    ensures version != "" && IndexOfVersion(old(table.rows), version).Some? ==> r == Fail(409, MSG_VERSION_EXISTS)
    ensures r.Fail? ==> table.rows == old(table.rows) && table.nextId == old(table.nextId)
    ensures r.Ok? <==> version != "" && IndexOfVersion(old(table.rows), version).None?
    ensures r.Ok? ==> r.value == VersionRow(old(table.nextId), version, OrElse(releaseDate, now),
                                            if notes == "" then None else Some(notes)) &&
                      table.rows == old(table.rows) + [r.value] && table.nextId == old(table.nextId) + 1
  {
    if version == "" {
      return Fail(400, MSG_MISSING_VERSION);
    }
    if IndexOfVersion(table.rows, version).Some? {
      return Fail(409, MSG_VERSION_EXISTS);
    }
    var row := VersionRow(table.nextId, version, OrElse(releaseDate, now),
                          if notes == "" then None else Some(notes));
    table.rows := table.rows + [row];
    table.nextId := table.nextId + 1;
    var inserted := IndexOfVersionId(table.rows, row.id);
    r := Ok(table.rows[inserted.value]);
  }

  // ---------------------------------------------------------------------
  // deleteVersionById, deleteVersionByName, getVersionByNumber

  /** deleteVersionById: 400 for a missing, zero or non-numeric id, 404
      when no row has it, otherwise exactly that row is removed. */
  method DeleteVersionById(table: VersionTable, id: Option<int>) returns (r: Reply<int>)
    requires table.Valid()
    modifies table
    ensures table.Valid() && table.nextId == old(table.nextId)
    ensures !ValidId(id) ==> r == Fail(400, MSG_INVALID_ID)
    ensures ValidId(id) && IndexOfVersionId(old(table.rows), id.value).None? ==> r == Fail(404, MSG_VERSION_NOT_FOUND)
    ensures r.Fail? ==> table.rows == old(table.rows)
    ensures r.Ok? <==> ValidId(id) && IndexOfVersionId(old(table.rows), id.value).Some?
    ensures r.Ok? ==> r.value == id.value &&
                      table.rows == WithoutVersion(old(table.rows), IndexOfVersionId(old(table.rows), id.value).value)
  {
    if !ValidId(id) {
      return Fail(400, MSG_INVALID_ID);
    }
    var found := IndexOfVersionId(table.rows, id.value);
    if found.None? {
      return Fail(404, MSG_VERSION_NOT_FOUND);
    }
    RemoveKeepsWellFormed(table.rows, table.nextId, found.value);
    table.rows := WithoutVersion(table.rows, found.value);
    r := Ok(id.value);
  }

  /** deleteVersionByName: 400 without a version, 404 when no row has it,
      otherwise exactly that row is removed. */
  method DeleteVersionByName(table: VersionTable, version: string) returns (r: Reply<string>)
    requires table.Valid()
    modifies table
    ensures table.Valid() && table.nextId == old(table.nextId)
    ensures version == "" ==> r == Fail(400, MSG_MISSING_VERSION_FIELD)
    ensures version != "" && IndexOfVersion(old(table.rows), version).None? ==> r == Fail(404, MSG_VERSION_NOT_FOUND)
    ensures r.Fail? ==> table.rows == old(table.rows)
    ensures r.Ok? <==> version != "" && IndexOfVersion(old(table.rows), version).Some?
    ensures r.Ok? ==> r.value == version &&
                      table.rows == WithoutVersion(old(table.rows), IndexOfVersion(old(table.rows), version).value)
  {
    if version == "" {
      return Fail(400, MSG_MISSING_VERSION_FIELD);
    }
    var found := IndexOfVersion(table.rows, version);
    if found.None? {
      return Fail(404, MSG_VERSION_NOT_FOUND);
    }
    RemoveKeepsWellFormed(table.rows, table.nextId, found.value);
    table.rows := WithoutVersion(table.rows, found.value);
    r := Ok(version);
  }

  /** getVersionByNumber: 400 without a version, 404 when no row has it,
      otherwise that row. */
  function GetVersionByNumber(version: string, rows: seq<VersionRow>): (r: Reply<VersionRow>)
    ensures version == "" ==> r == Fail(400, MSG_MISSING_VERSION_PARAM)
    ensures r.Ok? <==> version != "" && exists j :: 0 <= j < |rows| && rows[j].version == version
    ensures r.Ok? ==> r.value in rows && r.value.version == version
    ensures r.Fail? && version != "" ==> r == Fail(404, MSG_VERSION_INFO_NOT_FOUND)
  {
    if version == "" then Fail(400, MSG_MISSING_VERSION_PARAM)
    else match IndexOfVersion(rows, version)
      case None => Fail(404, MSG_VERSION_INFO_NOT_FOUND)
      case Some(i) => Ok(rows[i])
  }

  /** An added version is found by its number. */
  lemma AddedVersionIsFound(rows: seq<VersionRow>, row: VersionRow)
    requires row.version != ""
    ensures GetVersionByNumber(row.version, rows + [row]) == Ok(row)
  {
  }

  /** A version deleted by name is no longer found. */
  lemma DeletedVersionIsNotFound(rows: seq<VersionRow>, nextId: int, version: string)
    requires WellFormed(rows, nextId) && version != "" && IndexOfVersion(rows, version).Some?
    ensures GetVersionByNumber(version, WithoutVersion(rows, IndexOfVersion(rows, version).value)) ==
            Fail(404, MSG_VERSION_INFO_NOT_FOUND)
  {
    RemovedVersionIsGone(rows, nextId, IndexOfVersion(rows, version).value);
  }
}
