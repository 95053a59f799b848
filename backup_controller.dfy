/** The cloud backup handler: where a backup is stored and under which
    name. The directory creation and the file write are described by the
    value the handler returns; the base64 payload is carried undecoded. */
module BackupController {
  import opened Basics
  import opened Types

  const MSG_MISSING_FILE: string := "缺少文件数据"
  const MSG_BACKUP_SAVED: string := "备份保存成功"
  const DEFAULT_BACKUP_NAME: string := "backup.db"
  const ANONYMOUS: string := "anonymous"

  /** `[a-zA-Z0-9._-]` */
  predicate NameChar(c: char) {
    'a' <= c <= 'z' || 'A' <= c <= 'Z' || '0' <= c <= '9' || c == '.' || c == '_' || c == '-'
  }

  /** `replace(/[^a-zA-Z0-9._-]/g, "_")` */
  function Sanitize(name: string): (r: string)
    ensures |r| == |name|
    ensures forall i :: 0 <= i < |r| ==> NameChar(r[i])
    ensures forall i :: 0 <= i < |r| ==> (NameChar(name[i]) <==> r[i] == name[i])
    ensures forall i :: 0 <= i < |r| && !NameChar(name[i]) ==> r[i] == '_'
  {
    seq(|name|, i requires 0 <= i < |name| => if NameChar(name[i]) then name[i] else '_')
  }

  /** Sanitising a sanitised name changes nothing. */
  lemma SanitizeIdempotent(name: string)
    ensures Sanitize(Sanitize(name)) == Sanitize(name)
  {
  }

  /** The stored name: the sanitised file name, or "backup.db" when there
      is none. */
  function SafeName(filename: Option<string>): (r: string)
    ensures r != "" && '/' !in r && '\\' !in r
    ensures filename.None? || filename.value == "" ==> r == DEFAULT_BACKUP_NAME
    ensures filename.Some? && filename.value != "" ==> r == Sanitize(filename.value)
  {
    if filename.None? || filename.value == "" then DEFAULT_BACKUP_NAME
    else
      var r := Sanitize(filename.value);
      assert !NameChar('/') && !NameChar('\\');
      r
  }

  /** `toISOString().replace(/[:.]/g, "-")` on the ISO text of the clock. */
  function Timestamp(iso: string): (r: string)
    ensures |r| == |iso|
    ensures ':' !in r && '.' !in r
    ensures forall i :: 0 <= i < |r| ==> r[i] == (if iso[i] == ':' || iso[i] == '.' then '-' else iso[i])
  {
    seq(|iso|, i requires 0 <= i < |iso| => if iso[i] == ':' || iso[i] == '.' then '-' else iso[i])
  }

  /** The body field `userId`: absent, or a string or a number. */
  datatype UserIdField = NoUserId | TextId(text: string) | NumberId(number: int)

  /** `String(userId ?? req.user?.id ?? "anonymous")`: only an absent
      field falls through, so an empty string or 0 is used as given. */
  function BackupDir(userId: UserIdField, user: Option<Payload>): (r: string)
    ensures userId.TextId? ==> r == userId.text
    ensures userId.NumberId? ==> r == IntToString(userId.number)
    ensures userId.NoUserId? && user.Some? ==> r == IntToString(user.value.id)
    ensures userId.NoUserId? && user.None? ==> r == ANONYMOUS
  {
    match userId
    case TextId(t) => t
    case NumberId(n) => IntToString(n)
    case NoUserId => if user.Some? then IntToString(user.value.id) else ANONYMOUS
  }

  /** The write a successful backup performs: `data` into file `fileName`
      of directory `dir` under the backups directory. */
  datatype BackupWrite = BackupWrite(dir: string, fileName: string, data: string)

  /** cloudBackup: 400 without file data, before anything is written;
      otherwise the file named `<timestamp>_<safe name>` in the caller's
      directory. */
  function CloudBackup(userId: UserIdField, filename: Option<string>, file: string, user: Option<Payload>,
                       nowIso: string): (r: Reply<BackupWrite>)
    ensures r.Fail? <==> file == ""
    ensures r.Fail? ==> r == Fail(400, MSG_MISSING_FILE)
    ensures r.Ok? ==> r.value.dir == BackupDir(userId, user) && r.value.data == file &&
                      r.value.fileName == Timestamp(nowIso) + "_" + SafeName(filename)
    ensures r.Ok? ==> '/' !in r.value.fileName[|Timestamp(nowIso)|..]
  {
    if file == "" then Fail(400, MSG_MISSING_FILE)
    else
      var name := Timestamp(nowIso) + "_" + SafeName(filename);
      assert name[|Timestamp(nowIso)|..] == "_" + SafeName(filename);
      Ok(BackupWrite(BackupDir(userId, user), name, file))
  }
}
