/** The upload controller: file validation, generated object names,
    single and batch upload to object storage with a database insert per
    file, and single and batch deletion from object storage. Storage and
    database calls are given by their outcomes. */
module UploadController {
  import opened Basics

  const ALLOWED_MIME_TYPES: seq<string> :=
    ["image/jpeg", "image/jpg", "image/png", "image/gif", "image/webp", "image/svg+xml"]

  /** 10 MB */
  const MAX_FILE_SIZE: int := 10 * 1024 * 1024
  /** Files accepted by one batch upload. */
  const MAX_UPLOAD_BATCH: int := 10
  /** Names accepted by one batch delete. */
  const MAX_DELETE_BATCH: int := 100

  const MSG_UNSUPPORTED_TYPE: string := "不支持的文件类型"
  const MSG_TOO_LARGE: string := "文件过大(超过10MB)"
  const MSG_NOT_FOUND: string := "文件不存在"
  const MSG_NOT_CONFIGURED: string := "文件上传服务未配置"
  const MSG_NO_FILE: string := "未上传文件"
  const MSG_TOO_MANY: string := "文件数量过多"
  const MSG_UPLOAD_FAILED: string := "图片上传失败"
  const MSG_NO_FILE_NAME: string := "缺少文件名参数"
  const MSG_NOT_ARRAY: string := "缺少文件名参数或参数不是数组"
  const MSG_DELETE_FAILED: string := "图片删除失败"

  /** A file as the multipart parser hands it over. */
  datatype UploadedFile = UploadedFile(originalName: string, mimeType: string, size: int)

  /** `{ originalName, error }` */
  datatype UploadValidationError = UploadValidationError(originalName: string, error: string)

  /** The success record of one uploaded file. */
  datatype UploadRecord = UploadRecord(
    id: int,
    fileName: string,
    originalName: string,
    fileUrl: string,
    size: int,
    mimeType: string,
    tag: Option<string>,
    uploadedAt: string)

  /** Everything outside the controller that one file's upload meets: the
      clock (`Date.now()` and the ISO time), the 8 random bytes in hex, the
      storage upload (the object URL) and the database insert (the row id). */
  datatype FileEffects = FileEffects(
    timestamp: nat,
    hex: string,
    store: Outcome<string>,
    insert: Outcome<int>,
    uploadedAt: string)

  // ---------------------------------------------------------------------
  // validateFile

  /** validateFile: the type check first, then the size check. */
  function ValidateFile(file: UploadedFile): (err: Option<string>)
    ensures err == Some(MSG_UNSUPPORTED_TYPE) <==> file.mimeType !in ALLOWED_MIME_TYPES
    ensures err == Some(MSG_TOO_LARGE) <==> file.mimeType in ALLOWED_MIME_TYPES && file.size > MAX_FILE_SIZE
    ensures err.None? <==> file.mimeType in ALLOWED_MIME_TYPES && file.size <= MAX_FILE_SIZE
  {
    if file.mimeType !in ALLOWED_MIME_TYPES then Some(MSG_UNSUPPORTED_TYPE)
    else if file.size > MAX_FILE_SIZE then Some(MSG_TOO_LARGE)
    else None
  }

  lemma ExactlyTenMegabytesAccepted(name: string)
    ensures ValidateFile(UploadedFile(name, "image/png", 10 * 1024 * 1024)).None?
    ensures ValidateFile(UploadedFile(name, "image/png", 10 * 1024 * 1024 + 1)) == Some(MSG_TOO_LARGE)
    ensures ValidateFile(UploadedFile(name, "image/bmp", 0)) == Some(MSG_UNSUPPORTED_TYPE)
  {
    assert ALLOWED_MIME_TYPES[2] == "image/png";
    assert "image/bmp" != "image/jpeg";
  }

  // ---------------------------------------------------------------------
  // generateFileName

  /** The index of the last `c` in `s`. */
  function LastIndexOf(s: string, c: char): (r: Option<nat>)
    ensures r.Some? ==> r.value < |s| && s[r.value] == c &&
                        forall i :: r.value < i < |s| ==> s[i] != c
    ensures r.None? ==> forall i :: 0 <= i < |s| ==> s[i] != c
  {
    if s == [] then None
    else if s[|s| - 1] == c then Some(|s| - 1)
    else LastIndexOf(s[..|s| - 1], c)
  }

  /** `p` without its trailing '/' characters. */
  function StripTrailingSlashes(p: string): (r: string)
    ensures |r| <= |p| && r == p[..|r|]
    ensures r == [] || r[|r| - 1] != '/'
  {
    if p != [] && p[|p| - 1] == '/' then StripTrailingSlashes(p[..|p| - 1]) else p
  }

  /** The last path segment. */
  function Basename(p: string): (r: string)
    ensures forall i :: 0 <= i < |r| ==> r[i] != '/'
    ensures |r| <= |p| && r == p[|p| - |r|..]
  {
    match LastIndexOf(p, '/')
    case None => p
    case Some(k) => p[k + 1..]
  }

  /** `b` has a '.' somewhere after its first character. */
  predicate DotAfterStart(b: string) {
    exists d :: 0 < d < |b| && b[d] == '.'
  }

  /** The extension of one path segment `b`. */
  function SegmentExt(b: string): string {
    if b == ".." then ""
    else match LastIndexOf(b, '.')
      case None => ""
      case Some(d) => if d == 0 then "" else b[d..]
  }

  /** `path.extname` (POSIX): from the last '.' of the last segment (once
      trailing slashes are dropped) to its end, or "" when that segment
      has no '.', starts with its only leading '.', or is "..". */
  function ExtName(p: string): (r: string)
    ensures r == "" || (r[0] == '.' && forall i :: 1 <= i < |r| ==> r[i] != '.' && r[i] != '/')
  {
    SegmentExt(Basename(StripTrailingSlashes(p)))
  }

  /** The extension of a segment is a suffix of it, non-empty exactly when
      the segment is not ".." and has a '.' after its first character. */
  lemma SegmentExtFacts(b: string)
    ensures var r := SegmentExt(b);
            |r| <= |b| && r == b[|b| - |r|..] &&
            (r != "" <==> b != ".." && DotAfterStart(b))
  {
    if b != ".." {
      match LastIndexOf(b, '.')
      case None =>
        assert !DotAfterStart(b);
      case Some(d) =>
        if d == 0 {
          assert !DotAfterStart(b);
        } else {
          assert b[d] == '.';
        }
    }
  }

  /** The extension of a path is a suffix of its last segment, and it is
      non-empty exactly when that segment is not ".." and has a '.' after
      its first character. */
  lemma ExtNameOfLastSegment(p: string, b: string)
    requires b == Basename(StripTrailingSlashes(p))
    ensures |ExtName(p)| <= |b| && ExtName(p) == b[|b| - |ExtName(p)|..]
    ensures ExtName(p) != "" <==> b != ".." && DotAfterStart(b)
  {
    SegmentExtFacts(b);
  }

  /** Only '/' characters are stripped. */
  lemma {:induction false} StrippedAreSlashes(p: string)
    ensures var r := StripTrailingSlashes(p);
            forall i :: |r| <= i < |p| ==> p[i] == '/'
    decreases |p|
  {
    if p != [] && p[|p| - 1] == '/' {
      StrippedAreSlashes(p[..|p| - 1]);
    }
  }

  /** The basename is the longest '/'-free suffix: it is all of `p`, or a
      '/' stands right before it. */
  lemma BasenameIsLongest(p: string)
    ensures var r := Basename(p);
            r == p || p[|p| - |r| - 1] == '/'
  {
  }

  /** The last occurrence is pinned down by its position and the tail
      after it. */
  lemma LastIndexAt(s: string, c: char, k: nat)
    requires k < |s| && s[k] == c
    requires forall i :: k < i < |s| ==> s[i] != c
    ensures LastIndexOf(s, c) == Some(k)
  {
  }

  /** For a name without '/', the extension is taken from the name itself. */
  lemma ExtNameOfPlainName(p: string)
    requires p != "" && forall i :: 0 <= i < |p| ==> p[i] != '/'
    ensures Basename(StripTrailingSlashes(p)) == p
  {
    assert StripTrailingSlashes(p) == p;
    assert LastIndexOf(p, '/') == None;
  }

  /** The extension of an ordinary file name is its last dotted suffix. */
  lemma ExtNameOfPhoto()
    ensures ExtName("photo.png") == ".png"
  {
    ExtNameOfPlainName("photo.png");
    LastIndexAt("photo.png", '.', 5);
    assert "photo.png"[5..] == ".png";
  }

  /** Only the last suffix of a multi-dot name counts. */
  lemma ExtNameOfArchive()
    ensures ExtName("archive.tar.gz") == ".gz"
  {
    ExtNameOfPlainName("archive.tar.gz");
    LastIndexAt("archive.tar.gz", '.', 11);
    assert "archive.tar.gz"[11..] == ".gz";
  }

  /** A leading dot alone does not start an extension. */
  lemma ExtNameOfDotFile()
    ensures ExtName(".bashrc") == ""
  {
    ExtNameOfPlainName(".bashrc");
    LastIndexAt(".bashrc", '.', 0);
    assert ".bashrc" != "..";
  }

  const IMAGES_PREFIX: string := "images/"

  /** generateFileName: `images/<timestamp>-<hex><extname>`. */
  function GenerateFileName(originalName: string, timestamp: nat, hex: string): (r: string)
    ensures StartsWith(r, IMAGES_PREFIX)
    ensures |r| >= |ExtName(originalName)| && r[|r| - |ExtName(originalName)|..] == ExtName(originalName)
  {
    var r := IMAGES_PREFIX + (NatToString(timestamp) + "-" + (hex + ExtName(originalName)));
    assert r[..|IMAGES_PREFIX|] == IMAGES_PREFIX;
    r
  }

  /** The decimal rendering is one-to-one. */
  lemma {:induction false} NatToStringInjective(a: nat, b: nat)
    requires NatToString(a) == NatToString(b)
    ensures a == b
    decreases a
  {
    if a < 10 && b < 10 {
      assert NatToString(a)[0] == "0123456789"[a];
      assert NatToString(b)[0] == "0123456789"[b];
    } else if a >= 10 && b >= 10 {
      var sa, sb := NatToString(a), NatToString(b);
      assert sa[..|sa| - 1] == NatToString(a / 10);
      assert sb[..|sb| - 1] == NatToString(b / 10);
      NatToStringInjective(a / 10, b / 10);
      assert "0123456789"[a % 10] == "0123456789"[b % 10];
    } else {
      assert false;
    }
  }

  /** In digits + "-" + rest, no '-' comes before the dash. */
  lemma DashNotBefore(d: string, rest: string, k: nat)
    requires forall i :: 0 <= i < |d| ==> IsDigit(d[i])
    requires k < |d| + 1 + |rest| && (d + "-" + rest)[k] == '-'
    ensures k >= |d|
  {
    forall i | 0 <= i < |d|
      ensures (d + "-" + rest)[i] != '-'
    {
      assert (d + "-" + rest)[i] == d[i] && IsDigit(d[i]);
    }
  }

  /** A run of digits followed by '-' is determined by the string it
      starts, and so is the fixed-width part after the dash. */
  lemma DigitsDashUnique(d1: string, h1: string, e1: string, d2: string, h2: string, e2: string)
    requires forall i :: 0 <= i < |d1| ==> IsDigit(d1[i])
    requires forall i :: 0 <= i < |d2| ==> IsDigit(d2[i])
    requires |h1| == |h2|
    requires d1 + "-" + (h1 + e1) == d2 + "-" + (h2 + e2)
    ensures d1 == d2 && h1 == h2
  {
    var s := d1 + "-" + (h1 + e1);
    var t := d2 + "-" + (h2 + e2);
    assert s[|d1|] == '-';
    assert t[|d2|] == '-';
    DashNotBefore(d2, h2 + e2, |d1|);
    DashNotBefore(d1, h1 + e1, |d2|);
    assert d1 == s[..|d1|];
    assert d2 == t[..|d2|];
    assert h1 == s[|d1| + 1..|d1| + 1 + |h1|];
    assert h2 == t[|d2| + 1..|d2| + 1 + |h2|];
  }

  /** Equal object names with equal-width random parts come from the same
      clock reading and the same random bytes. */
  lemma GeneratedNamesEqual(n1: string, t1: nat, h1: string, n2: string, t2: nat, h2: string)
    requires |h1| == |h2|
    requires GenerateFileName(n1, t1, h1) == GenerateFileName(n2, t2, h2)
    ensures t1 == t2 && h1 == h2
  {
    var g1, g2 := GenerateFileName(n1, t1, h1), GenerateFileName(n2, t2, h2);
    var x1 := NatToString(t1) + "-" + (h1 + ExtName(n1));
    var x2 := NatToString(t2) + "-" + (h2 + ExtName(n2));
    assert g1 == IMAGES_PREFIX + x1;
    assert g2 == IMAGES_PREFIX + x2;
    assert x1 == g1[|IMAGES_PREFIX|..];
    assert x2 == g2[|IMAGES_PREFIX|..];
    DigitsDashUnique(NatToString(t1), h1, ExtName(n1), NatToString(t2), h2, ExtName(n2));
    NatToStringInjective(t1, t2);
  }

  /** Two uploads with different clock readings or different random bytes
      (16 hex digits each) get different object names, whatever their
      original names. */
  lemma GeneratedNamesDistinct(n1: string, t1: nat, h1: string, n2: string, t2: nat, h2: string)
    requires |h1| == 16 && |h2| == 16
    requires t1 != t2 || h1 != h2
    ensures GenerateFileName(n1, t1, h1) != GenerateFileName(n2, t2, h2)
  {
    if GenerateFileName(n1, t1, h1) == GenerateFileName(n2, t2, h2) {
      GeneratedNamesEqual(n1, t1, h1, n2, t2, h2);
    }
  }

  // ---------------------------------------------------------------------
  // processFileUpload

  /** The outcome of one file: its success record, or its error record. */
  datatype FileResult = Uploaded(record: UploadRecord) | Rejected(error: UploadValidationError)

  /** processFileUpload: validation first; a valid file is named, stored
      and inserted, and a throw in either call becomes an error record. */
  function ProcessFileUpload(file: UploadedFile, tag: Option<string>, fx: FileEffects): (r: FileResult)
    ensures r.Rejected? ==> r.error.originalName == file.originalName
    ensures ValidateFile(file).Some? ==> r == Rejected(UploadValidationError(file.originalName, ValidateFile(file).value))
    ensures r.Uploaded? <==> ValidateFile(file).None? && fx.store.Returns? && fx.insert.Returns?
    ensures r.Uploaded? ==> r.record == UploadRecord(fx.insert.value,
                                                       GenerateFileName(file.originalName, fx.timestamp, fx.hex),
                                                       file.originalName, fx.store.value, file.size,
                                                       file.mimeType, tag, fx.uploadedAt)
    ensures ValidateFile(file).None? && fx.store.Throws? ==>
              r == Rejected(UploadValidationError(file.originalName, ErrorText(fx.store.error)))
    ensures ValidateFile(file).None? && fx.store.Returns? && fx.insert.Throws? ==>
              r == Rejected(UploadValidationError(file.originalName, ErrorText(fx.insert.error)))
  {
    match ValidateFile(file)
    case Some(msg) => Rejected(UploadValidationError(file.originalName, msg))
    case None =>
      var fileName := GenerateFileName(file.originalName, fx.timestamp, fx.hex);
      match fx.store
      case Throws(e) => Rejected(UploadValidationError(file.originalName, ErrorText(e)))
      case Returns(fileUrl) =>
        match fx.insert
        case Throws(e) => Rejected(UploadValidationError(file.originalName, ErrorText(e)))
        case Returns(id) =>
          Uploaded(UploadRecord(id, fileName, file.originalName, fileUrl, file.size, file.mimeType, tag, fx.uploadedAt))
  }

  /** A file that fails validation never reaches storage or the database:
      its result does not depend on what those calls would have done. */
  lemma InvalidFileTouchesNothing(file: UploadedFile, tag: Option<string>, fx1: FileEffects, fx2: FileEffects)
    requires ValidateFile(file).Some?
    ensures ProcessFileUpload(file, tag, fx1) == ProcessFileUpload(file, tag, fx2)
  {
  }

  /** uploadImage: configuration, then presence of the file, then the
      file's own outcome: its record, or a 400 for a rejected file. */
  function UploadImage(configured: bool, file: Option<UploadedFile>, tag: string, fx: FileEffects): (r: Reply<UploadRecord>)
    ensures !configured ==> r == Fail(500, MSG_NOT_CONFIGURED)
    ensures configured && file.None? ==> r == Fail(400, MSG_NO_FILE)
    ensures r.Ok? <==> configured && file.Some? && ProcessFileUpload(file.value, if tag == "" then None else Some(tag), fx).Uploaded?
    ensures r.Ok? ==> r.value.tag == (if tag == "" then None else Some(tag))
    ensures r.Ok? ==> r.value == ProcessFileUpload(file.value, if tag == "" then None else Some(tag), fx).record
    ensures configured && file.Some? && r.Fail? ==> r == Fail(400, MSG_UPLOAD_FAILED)
  {
    if !configured then Fail(500, MSG_NOT_CONFIGURED)
    else if file.None? then Fail(400, MSG_NO_FILE)
    else
      match ProcessFileUpload(file.value, if tag == "" then None else Some(tag), fx)
      case Rejected(err) => Fail(400, MSG_UPLOAD_FAILED)
      case Uploaded(rec) => Ok(rec)
  }

  // ---------------------------------------------------------------------
  // uploadMultipleImages

  /** The per-file results of a batch, in input order; file `i` meets `fx(i)`. */
  function ProcessAll(files: seq<UploadedFile>, fx: nat -> FileEffects): (rs: seq<FileResult>)
    ensures |rs| == |files|
    ensures forall i :: 0 <= i < |files| ==> rs[i] == ProcessFileUpload(files[i], None, fx(i))
  {
    seq(|files|, i requires 0 <= i < |files| => ProcessFileUpload(files[i], None, fx(i)))
  }

  /** The success records of `rs`, in order. */
  function Successes(rs: seq<FileResult>): seq<UploadRecord> {
    if rs == [] then []
    else Successes(rs[..|rs| - 1]) + (if rs[|rs| - 1].Uploaded? then [rs[|rs| - 1].record] else [])
  }

  /** The error records of `rs`, in order. */
  function Failures(rs: seq<FileResult>): seq<UploadValidationError> {
    if rs == [] then []
    else Failures(rs[..|rs| - 1]) + (if rs[|rs| - 1].Rejected? then [rs[|rs| - 1].error] else [])
  }

  /** Every file lands in exactly one of the two lists. */
  lemma {:induction false} PartitionCounts(rs: seq<FileResult>)
    ensures |Successes(rs)| + |Failures(rs)| == |rs|
    decreases |rs|
  {
    if rs != [] {
      PartitionCounts(rs[..|rs| - 1]);
    }
  }

  /** One more result extends exactly one of the two lists. */
  lemma ListsStep(rs: seq<FileResult>, i: nat)
    requires i < |rs|
    ensures Successes(rs[..i + 1]) == Successes(rs[..i]) + (if rs[i].Uploaded? then [rs[i].record] else [])
    ensures Failures(rs[..i + 1]) == Failures(rs[..i]) + (if rs[i].Rejected? then [rs[i].error] else [])
  {
    assert rs[..i + 1][..i] == rs[..i];
  }

  datatype BatchUpload = BatchUpload(success: seq<UploadRecord>, errors: seq<UploadValidationError>)

  /** The loop of uploadMultipleImages: each file, in order, into the
      success list or the error list. */
  method UploadEach(files: seq<UploadedFile>, fx: nat -> FileEffects)
    returns (uploadResults: seq<UploadRecord>, uploadErrors: seq<UploadValidationError>)
    ensures uploadResults == Successes(ProcessAll(files, fx))
    ensures uploadErrors == Failures(ProcessAll(files, fx))
    ensures |uploadResults| + |uploadErrors| == |files|
  {
    uploadResults, uploadErrors := [], [];
    ghost var all := ProcessAll(files, fx);
    var i := 0;
    while i < |files|
      invariant 0 <= i <= |files|
      invariant uploadResults == Successes(all[..i])
      invariant uploadErrors == Failures(all[..i])
    {
      var result := ProcessFileUpload(files[i], None, fx(i));
      ListsStep(all, i);
      if result.Rejected? {
        uploadErrors := uploadErrors + [result.error];
      } else {
        uploadResults := uploadResults + [result.record];
      }
      i := i + 1;
    }
    assert all[..i] == all;
    PartitionCounts(all);
  }

  /** uploadMultipleImages: rejects an unconfigured service, an empty batch
      and a batch of more than ten before touching any file; then sorts each
      file, in order, into the success list or the error list. */
  method UploadMultipleImages(configured: bool, files: seq<UploadedFile>, fx: nat -> FileEffects)
    returns (r: Reply<BatchUpload>)
    ensures !configured ==> r == Fail(500, MSG_NOT_CONFIGURED)
    ensures configured && |files| == 0 ==> r == Fail(400, MSG_NO_FILE)
    ensures configured && |files| > MAX_UPLOAD_BATCH ==> r == Fail(400, MSG_TOO_MANY)
    ensures r.Ok? <==> configured && 0 < |files| <= MAX_UPLOAD_BATCH
    ensures r.Ok? ==> r.value.success == Successes(ProcessAll(files, fx)) &&
                      r.value.errors == Failures(ProcessAll(files, fx))
    ensures r.Ok? ==> |r.value.success| + |r.value.errors| == |files|
  {
    if !configured {
      return Fail(500, MSG_NOT_CONFIGURED);
    }
    if |files| == 0 {
      return Fail(400, MSG_NO_FILE);
    }
    if |files| > 10 {
      return Fail(400, MSG_TOO_MANY);
    }
    var uploadResults, uploadErrors := UploadEach(files, fx);
    r := Ok(BatchUpload(uploadResults, uploadErrors));
  }

  // ---------------------------------------------------------------------
  // deleteImage and deleteMultipleImages

  /** What one deletion meets: the existence check, the delete call and the
      clock. */
  datatype DeleteEffects = DeleteEffects(found: Outcome<bool>, delete: Outcome<()>, deletedAt: string)

  datatype DeleteResult = DeleteResult(fileName: string, deletedAt: string)
  datatype DeleteError = DeleteError(fileName: string, error: string)

  /** deleteImage: configuration, a file name, existence (404), then delete;
      a throw becomes a 500 with its message. */
  function DeleteImage(configured: bool, fileName: string, fx: DeleteEffects): (r: Reply<DeleteResult>)
    ensures r.Ok? <==> configured && fileName != "" && fx.found == Returns(true) && fx.delete.Returns?
    ensures configured && fileName != "" && fx.found == Returns(false) ==> r == Fail(404, MSG_NOT_FOUND)
    ensures r.Ok? ==> r.value == DeleteResult(fileName, fx.deletedAt)
    ensures !configured ==> r == Fail(500, MSG_NOT_CONFIGURED)
    ensures configured && fileName == "" ==> r == Fail(400, MSG_NO_FILE_NAME)
    ensures configured && fileName != "" && (fx.found.Throws? || (fx.found == Returns(true) && fx.delete.Throws?)) ==>
              r == Fail(500, MSG_DELETE_FAILED)
  {
    if !configured then Fail(500, MSG_NOT_CONFIGURED)
    else if fileName == "" then Fail(400, MSG_NO_FILE_NAME)
    else match fx.found
      case Throws(e) => Fail(500, MSG_DELETE_FAILED)
      case Returns(false) => Fail(404, MSG_NOT_FOUND)
      case Returns(true) =>
        match fx.delete
        case Throws(e) => Fail(500, MSG_DELETE_FAILED)
        case Returns(_) => Ok(DeleteResult(fileName, fx.deletedAt))
  }

  /** One iteration of the batch-delete loop: `calledDelete` says whether
      the storage delete was invoked for `fileName`. */
  datatype DeleteStep = DeleteStep(
    fileName: string,
    result: Option<DeleteResult>,
    error: Option<DeleteError>,
    calledDelete: bool)

  function DeleteOne(fileName: string, fx: DeleteEffects): (s: DeleteStep)
    ensures s.fileName == fileName
    ensures s.result.Some? != s.error.Some?
    ensures fx.found == Returns(false) ==> s.error == Some(DeleteError(fileName, MSG_NOT_FOUND))
    ensures s.calledDelete <==> fx.found == Returns(true)
    ensures s.result.Some? <==> fx.found == Returns(true) && fx.delete.Returns?
    ensures s.result.Some? ==> s.result.value == DeleteResult(fileName, fx.deletedAt)
    ensures s.error.Some? ==> s.error.value.fileName == fileName
  {
    match fx.found
    case Throws(e) => DeleteStep(fileName, None, Some(DeleteError(fileName, ErrorText(e))), false)
    case Returns(false) => DeleteStep(fileName, None, Some(DeleteError(fileName, MSG_NOT_FOUND)), false)
    case Returns(true) =>
      match fx.delete
      case Throws(e) => DeleteStep(fileName, None, Some(DeleteError(fileName, ErrorText(e))), true)
      case Returns(_) => DeleteStep(fileName, Some(DeleteResult(fileName, fx.deletedAt)), None, true)
  }

  /** The per-name steps of a batch, in order; name `i` meets `fx(i)`. */
  function DeleteAll(names: seq<string>, fx: nat -> DeleteEffects): (steps: seq<DeleteStep>)
    ensures |steps| == |names|
    ensures forall i :: 0 <= i < |names| ==> steps[i] == DeleteOne(names[i], fx(i))
  {
    seq(|names|, i requires 0 <= i < |names| => DeleteOne(names[i], fx(i)))
  }

  /** The names deleted, in order. */
  function Deleted(steps: seq<DeleteStep>): seq<DeleteResult> {
    if steps == [] then []
    else Deleted(steps[..|steps| - 1]) +
         (if steps[|steps| - 1].result.Some? then [steps[|steps| - 1].result.value] else [])
  }

  /** The per-name errors, in order. */
  function DeleteErrors(steps: seq<DeleteStep>): seq<DeleteError> {
    if steps == [] then []
    else DeleteErrors(steps[..|steps| - 1]) +
         (if steps[|steps| - 1].error.Some? then [steps[|steps| - 1].error.value] else [])
  }

  /** The names the storage delete is invoked for, in order. */
  function DeleteCalls(steps: seq<DeleteStep>): seq<string> {
    if steps == [] then []
    else DeleteCalls(steps[..|steps| - 1]) +
         (if steps[|steps| - 1].calledDelete then [steps[|steps| - 1].fileName] else [])
  }

  /** Every name lands in exactly one of the two lists. */
  lemma {:induction false} DeletePartitionCounts(steps: seq<DeleteStep>)
    requires forall i :: 0 <= i < |steps| ==> steps[i].result.Some? != steps[i].error.Some?
    ensures |Deleted(steps)| + |DeleteErrors(steps)| == |steps|
    decreases |steps|
  {
    if steps != [] {
      DeletePartitionCounts(steps[..|steps| - 1]);
    }
  }

  /** Every delete call comes from a step that made it. */
  lemma {:induction false} DeleteCallsFromSteps(steps: seq<DeleteStep>, n: string)
    requires n in DeleteCalls(steps)
    ensures exists i :: 0 <= i < |steps| && steps[i].calledDelete && steps[i].fileName == n
    decreases |steps|
  {
    var last := |steps| - 1;
    if !(steps[last].calledDelete && steps[last].fileName == n) {
      DeleteCallsFromSteps(steps[..last], n);
      var i :| 0 <= i < last && steps[..last][i].calledDelete && steps[..last][i].fileName == n;
      assert steps[i] == steps[..last][i];
    }
  }

  /** The storage delete is only ever invoked for a name of the batch whose
      existence check answered true. */
  lemma DeleteCallsOnlyExisting(names: seq<string>, fx: nat -> DeleteEffects, n: string)
    requires n in DeleteCalls(DeleteAll(names, fx))
    ensures exists i :: 0 <= i < |names| && names[i] == n && fx(i).found == Returns(true)
  {
    var steps := DeleteAll(names, fx);
    DeleteCallsFromSteps(steps, n);
    var i :| 0 <= i < |steps| && steps[i].calledDelete && steps[i].fileName == n;
    assert names[i] == n && fx(i).found == Returns(true);
  }

  datatype BatchDelete = BatchDelete(success: seq<DeleteResult>, errors: seq<DeleteError>)

  /** deleteMultipleImages: `fileNames` is `None` when the body field is not
      an array. Rejects a missing, empty or over-100 list first; then each
      name is checked and deleted on its own, a throw being recorded against
      that name while the loop goes on. `deleteCalls` lists the names the
      storage delete was invoked for. */
  method DeleteMultipleImages(configured: bool, fileNames: Option<seq<string>>, fx: nat -> DeleteEffects)
    returns (r: Reply<BatchDelete>, deleteCalls: seq<string>)
    ensures !configured ==> r == Fail(500, MSG_NOT_CONFIGURED)
    ensures configured && (fileNames.None? || |fileNames.value| == 0) ==> r == Fail(400, MSG_NOT_ARRAY)
    ensures configured && fileNames.Some? && |fileNames.value| > MAX_DELETE_BATCH ==> r == Fail(400, MSG_TOO_MANY)
    ensures r.Ok? <==> configured && fileNames.Some? && 0 < |fileNames.value| <= MAX_DELETE_BATCH
    ensures r.Fail? ==> deleteCalls == []
    ensures r.Ok? ==> r.value.success == Deleted(DeleteAll(fileNames.value, fx)) &&
                      r.value.errors == DeleteErrors(DeleteAll(fileNames.value, fx)) &&
                      deleteCalls == DeleteCalls(DeleteAll(fileNames.value, fx))
    ensures r.Ok? ==> |r.value.success| + |r.value.errors| == |fileNames.value|
  {
    deleteCalls := [];
    if !configured {
      return Fail(500, MSG_NOT_CONFIGURED), deleteCalls;
    }
    if fileNames.None? || |fileNames.value| == 0 {
      return Fail(400, MSG_NOT_ARRAY), deleteCalls;
    }
    var names := fileNames.value;
    if |names| > 100 {
      return Fail(400, MSG_TOO_MANY), deleteCalls;
    }
    var deleteResults: seq<DeleteResult> := [];
    var deleteErrors: seq<DeleteError> := [];
    ghost var all := DeleteAll(names, fx);
    var i := 0;
    while i < |names|
      invariant 0 <= i <= |names|
      invariant deleteResults == Deleted(all[..i])
      invariant deleteErrors == DeleteErrors(all[..i])
      invariant deleteCalls == DeleteCalls(all[..i])
    {
      var fileName := names[i];
      match fx(i).found {
        case Throws(e) =>
          deleteErrors := deleteErrors + [DeleteError(fileName, ErrorText(e))];
        case Returns(present) =>
          if !present {
            deleteErrors := deleteErrors + [DeleteError(fileName, MSG_NOT_FOUND)];
          } else {
            deleteCalls := deleteCalls + [fileName];
            match fx(i).delete {
              case Throws(e) =>
                deleteErrors := deleteErrors + [DeleteError(fileName, ErrorText(e))];
              case Returns(_) =>
                deleteResults := deleteResults + [DeleteResult(fileName, fx(i).deletedAt)];
            }
          }
      }
      assert all[..i + 1][..i] == all[..i];
      i := i + 1;
    }
    assert all[..i] == all;
    DeletePartitionCounts(all);
    r := Ok(BatchDelete(deleteResults, deleteErrors));
  }
}
