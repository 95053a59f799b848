/** The image-record handlers: saving a record, reading, re-tagging and
    deleting one under the owner-or-admin rule, the paginated listings of
    one's own images and of all images, and the per-tag counts. The
    caller is the payload the auth middleware put in `req.user`. */
module ImageController {
  import opened Basics
  import opened Types

  const MSG_MISSING_FIELDS: string := "缺少必需字段"
  const MSG_INVALID_IMAGE_ID: string := "无效的图片ID"
  const MSG_IMAGE_NOT_FOUND: string := "图片不存在"
  const MSG_NO_VIEW: string := "无权访问此图片"
  const MSG_NO_UPDATE: string := "无权修改此图片"
  const MSG_NO_DELETE: string := "无权删除此图片"
  const MSG_ADMIN_ONLY: string := "权限不足，仅管理员可访问"

  const DEFAULT_PAGE: int := 1
  const DEFAULT_LIMIT: int := 20

  // ---------------------------------------------------------------------
  // The images table

  function ImageId(row: ImageRow): int { row.id }

  /** The position of the image with id `id`. */
  function IndexOfImage(rows: seq<ImageRow>, id: int): Option<nat> {
    IndexOfKey(rows, ImageId, id)
  }

  /** Ids are positive, distinct and below the AUTOINCREMENT counter. */
  ghost predicate WellFormed(rows: seq<ImageRow>, nextId: int) {
    0 < nextId &&
    (forall j :: 0 <= j < |rows| ==> 0 < rows[j].id < nextId) &&
    (forall j, k :: 0 <= j < k < |rows| ==> rows[j].id != rows[k].id)
  }

  class ImageTable {
    var rows: seq<ImageRow>
    var nextId: int

    ghost predicate Valid()
      reads this
    {
      WellFormed(rows, nextId)
    }

    constructor ()
      ensures Valid() && rows == [] && nextId == 1
    {
      rows := [];
      nextId := 1;
    }
  }

  /** `tag || null` */
  function TagValue(tag: string): (t: Option<string>)
    ensures t.None? <==> tag == ""
    ensures t.Some? ==> t.value == tag
  {
    if tag == "" then None else Some(tag)
  }

  // ---------------------------------------------------------------------
  // saveImage

  /** The record fields of a save request; absent or falsy fields are ""
      or 0. */
  datatype SaveRequest = SaveRequest(
    fileName: string,
    originalName: string,
    fileUrl: string,
    size: int,
    mimeType: string,
    tag: string)

  /** `!fileName || !originalName || !fileUrl || !size || !mimeType` */
  predicate MissingField(req: SaveRequest) {
    req.fileName == "" || req.originalName == "" || req.fileUrl == "" || req.size == 0 || req.mimeType == ""
  }

  /** saveImage: 400 when a required field is missing; otherwise one row is
      appended for the caller with the next id and the normalised tag, and
      the row read back by that id is returned. */
  method SaveImage(table: ImageTable, caller: Payload, req: SaveRequest, now: string) returns (r: Reply<ImageRow>)
    requires table.Valid()
    modifies table
    ensures table.Valid()
    ensures r.Fail? <==> MissingField(req)
    ensures r.Fail? ==> r == Fail(400, MSG_MISSING_FIELDS) && table.rows == old(table.rows) &&
                        table.nextId == old(table.nextId)
    ensures r.Ok? ==> r.value == ImageRow(old(table.nextId), caller.id, req.fileName, req.originalName, req.fileUrl,
                                          req.size, req.mimeType, TagValue(req.tag), now) &&
                      table.rows == old(table.rows) + [r.value] && table.nextId == old(table.nextId) + 1
  {
    if req.fileName == "" || req.originalName == "" || req.fileUrl == "" || req.size == 0 || req.mimeType == "" {
      return Fail(400, MSG_MISSING_FIELDS);
    }
    var row := ImageRow(table.nextId, caller.id, req.fileName, req.originalName, req.fileUrl,
                        req.size, req.mimeType, TagValue(req.tag), now);
    table.rows := table.rows + [row];
    table.nextId := table.nextId + 1;
    var inserted := IndexOfImage(table.rows, row.id);
    r := Ok(table.rows[inserted.value]);
  }

  // ---------------------------------------------------------------------
  // getImageById, updateImage, deleteImage

  /** Owner or admin. */
  predicate CanAccess(caller: Payload, image: ImageRow) {
    image.userId == caller.id || caller.role == AdminRole
  }

  /** The chain the three single-image handlers share: 400 for an invalid
      id, 404 for an unknown one, then the owner-or-admin rule with the
      handler's own 403 message. */
  function AccessDecision(caller: Payload, id: Option<int>, rows: seq<ImageRow>, forbidden: string): (r: Reply<nat>)
    ensures !ValidId(id) ==> r == Fail(400, MSG_INVALID_IMAGE_ID)
    ensures ValidId(id) && IndexOfImage(rows, id.value).None? ==> r == Fail(404, MSG_IMAGE_NOT_FOUND)
    ensures (ValidId(id) && IndexOfImage(rows, id.value).Some? &&
            !CanAccess(caller, rows[IndexOfImage(rows, id.value).value])) ==> r == Fail(403, forbidden)
    ensures r.Ok? <==> ValidId(id) && IndexOfImage(rows, id.value).Some? &&
                       CanAccess(caller, rows[IndexOfImage(rows, id.value).value])
    ensures r.Ok? ==> r.value < |rows| && rows[r.value].id == id.value
  {
    if !ValidId(id) then Fail(400, MSG_INVALID_IMAGE_ID)
    else match IndexOfImage(rows, id.value)
      case None => Fail(404, MSG_IMAGE_NOT_FOUND)
      case Some(i) => if !CanAccess(caller, rows[i]) then Fail(403, forbidden) else Ok(i)
  }

  /** A missing image is reported as missing to everyone, before ownership
      is looked at. */
  lemma NotFoundBeforeForbidden(caller: Payload, other: Payload, id: Option<int>, rows: seq<ImageRow>, forbidden: string)
    requires ValidId(id) && IndexOfImage(rows, id.value).None?
    ensures AccessDecision(caller, id, rows, forbidden) == AccessDecision(other, id, rows, forbidden)
  {
  }

  /** getImageById */
  function GetImageById(caller: Payload, id: Option<int>, rows: seq<ImageRow>): (r: Reply<ImageRow>)
    ensures r.Ok? <==> AccessDecision(caller, id, rows, MSG_NO_VIEW).Ok?
    ensures r.Ok? ==> r.value in rows && r.value.id == id.value && CanAccess(caller, r.value)
    ensures r.Fail? ==> r == Fail(AccessDecision(caller, id, rows, MSG_NO_VIEW).status,
                                  AccessDecision(caller, id, rows, MSG_NO_VIEW).message)
  {
    match AccessDecision(caller, id, rows, MSG_NO_VIEW)
    case Fail(s, m) => Fail(s, m)
    case Ok(i) => Ok(rows[i])
  }

  /** The rows with the tag of row `i` replaced. */
  function Retagged(rows: seq<ImageRow>, i: nat, tag: Option<string>): (r: seq<ImageRow>)
    requires i < |rows|
    ensures |r| == |rows| && r[i] == rows[i].(tag := tag)
    ensures forall j :: 0 <= j < |rows| && j != i ==> r[j] == rows[j]
  {
    rows[i := rows[i].(tag := tag)]
  }

  /** updateImage: only the tag of the allowed image changes, a falsy tag
      to null; the updated row is returned. */
  method UpdateImage(table: ImageTable, caller: Payload, id: Option<int>, tag: string) returns (r: Reply<ImageRow>)
    requires table.Valid()
    modifies table
    ensures table.Valid() && table.nextId == old(table.nextId)
    ensures var d := AccessDecision(caller, id, old(table.rows), MSG_NO_UPDATE);
            (d.Fail? ==> r == Fail(d.status, d.message) && table.rows == old(table.rows)) &&
            (d.Ok? ==> table.rows == Retagged(old(table.rows), d.value, TagValue(tag)) &&
                       r == Ok(table.rows[d.value]))
  {
    if !ValidId(id) {
      return Fail(400, MSG_INVALID_IMAGE_ID);
    }
    var found := IndexOfImage(table.rows, id.value);
    if found.None? {
      return Fail(404, MSG_IMAGE_NOT_FOUND);
    }
    var image := table.rows[found.value];
    if image.userId != caller.id && caller.role != AdminRole {
      return Fail(403, MSG_NO_UPDATE);
    }
    table.rows := Retagged(table.rows, found.value, TagValue(tag));
    var updated := IndexOfImage(table.rows, id.value);
    IndexOfKeySameKeys(old(table.rows), table.rows, ImageId, id.value);
    r := Ok(table.rows[updated.value]);
  }


  /** `{ id, fileName }` of a deleted record. */
  datatype DeletedImage = DeletedImage(id: int, fileName: string)

  /** The rows without row `i`. */
  function WithoutImage(rows: seq<ImageRow>, i: nat): seq<ImageRow>
    requires i < |rows|
  {
    RemoveAt(rows, i)
  }

  /** deleteImage: the allowed row is removed, nothing else changes. */
  method DeleteImage(table: ImageTable, caller: Payload, id: Option<int>) returns (r: Reply<DeletedImage>)
    requires table.Valid()
    modifies table
    ensures table.Valid() && table.nextId == old(table.nextId)
    ensures var d := AccessDecision(caller, id, old(table.rows), MSG_NO_DELETE);
            (d.Fail? ==> r == Fail(d.status, d.message) && table.rows == old(table.rows)) &&
            (d.Ok? ==> table.rows == WithoutImage(old(table.rows), d.value) &&
                       r == Ok(DeletedImage(id.value, old(table.rows)[d.value].fileName)))
  {
    if !ValidId(id) {
      return Fail(400, MSG_INVALID_IMAGE_ID);
    }
    var found := IndexOfImage(table.rows, id.value);
    if found.None? {
      return Fail(404, MSG_IMAGE_NOT_FOUND);
    }
    var image := table.rows[found.value];
    if image.userId != caller.id && caller.role != AdminRole {
      return Fail(403, MSG_NO_DELETE);
    }
    table.rows := WithoutImage(table.rows, found.value);
    r := Ok(DeletedImage(id.value, image.fileName));
  }

  /** After a deletion no row carries the deleted id. */
  lemma DeletedImageIsGone(rows: seq<ImageRow>, nextId: int, i: nat)
    requires WellFormed(rows, nextId) && i < |rows|
    ensures IndexOfImage(WithoutImage(rows, i), rows[i].id).None?
  {
    var r := WithoutImage(rows, i);
    forall j | 0 <= j < |r|
      ensures r[j].id != rows[i].id
    {
      assert r[j] == rows[if j < i then j else j + 1];
    }
  }

  // ---------------------------------------------------------------------
  // Pagination

  /** `(page - 1) * limit` */
  function Offset(page: int, limit: int): int {
    (page - 1) * limit
  }

  /** `LIMIT limit OFFSET offset` on an ordered result: a negative offset
      counts as 0 and a negative limit as no limit. */
  function Window<T>(s: seq<T>, limit: int, offset: int): (w: seq<T>)
    ensures limit >= 0 ==> |w| <= limit
    ensures forall k :: 0 <= k < |w| ==> 0 <= (if offset < 0 then 0 else offset) + k < |s| &&
                                          w[k] == s[(if offset < 0 then 0 else offset) + k]
  {
    var start := if offset < 0 then 0 else offset;
    if start >= |s| then []
    else if limit < 0 || start + limit >= |s| then s[start..]
    else s[start..start + limit]
  }

  /** `Math.ceil(total / limit)`; `None` for a zero limit, where the
      quotient is not a finite number. */
  function TotalPages(total: nat, limit: int): (p: Option<int>)
    ensures p.None? <==> limit == 0
    ensures limit > 0 ==> p.value >= 0 && (p.value - 1) * limit < total <= p.value * limit
  {
    if limit == 0 then None
    else if limit > 0 then Some((total + limit - 1) / limit)
    else Some(-(total / -limit))
  }

  /** Inside the result, a window starting at `start` holds the item at
      `start + m` at position `m` for every `m` below the limit. */
  lemma WindowAt<T>(s: seq<T>, limit: int, start: int, m: int)
    requires 0 <= start && 0 <= m < limit && start + m < |s|
    ensures m < |Window(s, limit, start)| && Window(s, limit, start)[m] == s[start + m]
  {
  }

  /** `q * limit <= k < p * limit` puts `q` below `p`. */
  lemma QuotientBelow(q: int, p: int, limit: int, k: int)
    requires limit > 0 && q * limit <= k < p * limit
    ensures q < p
  {
    if q >= p {
      MulMonotone(p, q, limit);
    }
  }

  /** With a positive limit, the item at position k of the ordered result
      is item k % limit of page k / limit + 1, and that page is within the
      page count. */
  lemma ItemOnItsPage<T>(s: seq<T>, limit: int, k: nat)
    requires limit > 0 && k < |s|
    ensures var page := k / limit + 1;
            var w := Window(s, limit, Offset(page, limit));
            k % limit < |w| && w[k % limit] == s[k] &&
            1 <= page <= TotalPages(|s|, limit).value
  {
    var q, m := k / limit, k % limit;
    DivisionFacts(k, limit);
    assert Offset(q + 1, limit) == q * limit;
    WindowAt(s, limit, q * limit, m);
    QuotientBelow(q, TotalPages(|s|, limit).value, limit, k);
  }

  lemma DivisionFacts(k: nat, limit: int)
    requires limit > 0
    ensures k == (k / limit) * limit + k % limit && 0 <= k % limit < limit && 0 <= k / limit
  {
  }

  lemma MulMonotone(a: int, b: int, c: int)
    requires a <= b && c >= 0
    ensures a * c <= b * c
  {
  }

  /** The pagination block of a listing. */
  datatype Pagination = Pagination(page: int, limit: int, total: nat, totalPages: Option<int>)

  datatype ImagePage = ImagePage(images: seq<ImageRow>, pagination: Pagination)

  /** The rows newest first (`ORDER BY created_at DESC`, rows inserted
      later carrying the later timestamp). */
  function NewestFirst(rows: seq<ImageRow>): (r: seq<ImageRow>)
    ensures |r| == |rows|
    ensures forall i :: 0 <= i < |rows| ==> r[i] == rows[|rows| - 1 - i]
  {
    if rows == [] then [] else [rows[|rows| - 1]] + NewestFirst(rows[..|rows| - 1])
  }

  /** The rows that satisfy `keep`, in order. */
  function Filter(rows: seq<ImageRow>, keep: ImageRow -> bool): (r: seq<ImageRow>)
    ensures |r| <= |rows|
  {
    if rows == [] then []
    else Filter(rows[..|rows| - 1], keep) + (if keep(rows[|rows| - 1]) then [rows[|rows| - 1]] else [])
  }

  /** A row is among the matches exactly when it is in the table and
      satisfies `keep`. */
  lemma {:induction false} FilterMember(rows: seq<ImageRow>, keep: ImageRow -> bool, x: ImageRow)
    ensures x in Filter(rows, keep) <==> x in rows && keep(x)
    decreases |rows|
  {
    if rows != [] {
      var init := rows[..|rows| - 1];
      FilterMember(init, keep, x);
      assert rows == init + [rows[|rows| - 1]];
    }
  }

  /** Filtering keeps the order of the rows: the matches of `a + b` are
      the matches of `a` followed by those of `b`. */
  lemma {:induction false} FilterAppend(a: seq<ImageRow>, b: seq<ImageRow>, keep: ImageRow -> bool)
    ensures Filter(a + b, keep) == Filter(a, keep) + Filter(b, keep)
    decreases |b|
  {
    if b == [] {
      assert a + b == a;
    } else {
      var init, last := b[..|b| - 1], b[|b| - 1];
      var tail := if keep(last) then [last] else [];
      calc {
        Filter(a + b, keep);
      == { assert a + b == (a + init) + [last]; }
        Filter((a + init) + [last], keep);
      == { FilterSnoc(a + init, last, keep); }
        Filter(a + init, keep) + tail;
      == { FilterAppend(a, init, keep); }
        Filter(a, keep) + Filter(init, keep) + tail;
      == { FilterSnoc(init, last, keep); assert init + [last] == b; }
        Filter(a, keep) + Filter(b, keep);
      }
    }
  }

  /** One more row adds itself to the matches exactly when it is kept. */
  lemma FilterSnoc(rows: seq<ImageRow>, x: ImageRow, keep: ImageRow -> bool)
    ensures Filter(rows + [x], keep) == Filter(rows, keep) + (if keep(x) then [x] else [])
  {
    assert (rows + [x])[..|rows|] == rows;
  }

  /** One page of a filtered listing together with its pagination block:
      the page holds the matching rows, newest first, from offset
      `(page - 1) * limit`, at most `limit` of them. The count uses the
      same filter as the page. */
  function Listing(rows: seq<ImageRow>, keep: ImageRow -> bool, page: Option<int>, limit: Option<int>): (r: ImagePage)
    ensures var p := OrDefault(page, DEFAULT_PAGE);
            var l := OrDefault(limit, DEFAULT_LIMIT);
            r.pagination == Pagination(p, l, |Filter(rows, keep)|, TotalPages(|Filter(rows, keep)|, l)) &&
            r.images == Window(NewestFirst(Filter(rows, keep)), l, Offset(p, l))
    ensures forall x :: x in r.images ==> x in rows && keep(x)
    ensures OrDefault(limit, DEFAULT_LIMIT) >= 0 ==> |r.images| <= OrDefault(limit, DEFAULT_LIMIT)
  {
    var p := OrDefault(page, DEFAULT_PAGE);
    var l := OrDefault(limit, DEFAULT_LIMIT);
    var matching := Filter(rows, keep);
    var ordered := NewestFirst(matching);
    var images := Window(ordered, l, Offset(p, l));
    PageMembers(rows, keep, l, Offset(p, l));
    ImagePage(images, Pagination(p, l, |matching|, TotalPages(|matching|, l)))
  }

  /** A page holds only matching rows of the table. */
  lemma PageMembers(rows: seq<ImageRow>, keep: ImageRow -> bool, limit: int, offset: int)
    ensures forall x :: x in Window(NewestFirst(Filter(rows, keep)), limit, offset) ==> x in rows && keep(x)
  {
    var f := Filter(rows, keep);
    var ordered := NewestFirst(f);
    var w := Window(ordered, limit, offset);
    forall x | x in w
      ensures x in rows && keep(x)
    {
      WindowMember(ordered, limit, offset, x);
      NewestFirstMember(f, x);
      FilterMember(rows, keep, x);
    }
  }

  lemma WindowMember<T>(s: seq<T>, limit: int, offset: int, x: T)
    requires x in Window(s, limit, offset)
    ensures x in s
  {
    var w := Window(s, limit, offset);
    var k :| 0 <= k < |w| && w[k] == x;
    assert x == s[(if offset < 0 then 0 else offset) + k];
  }

  lemma NewestFirstMember(rows: seq<ImageRow>, x: ImageRow)
    requires x in NewestFirst(rows)
    ensures x in rows
  {
    var r := NewestFirst(rows);
    var k :| 0 <= k < |r| && r[k] == x;
    assert x == rows[|rows| - 1 - k];
  }

  /** With a positive limit, the k-th newest matching row is shown on page
      `k / limit + 1`, at position `k % limit`, and that page is within the
      page count the listing reports. */
  lemma MatchOnItsPage(rows: seq<ImageRow>, keep: ImageRow -> bool, limit: int, k: nat)
    requires limit > 0 && k < |Filter(rows, keep)|
    ensures var r := Listing(rows, keep, Some(k / limit + 1), Some(limit));
            k % limit < |r.images| &&
            r.images[k % limit] == NewestFirst(Filter(rows, keep))[k] &&
            1 <= r.pagination.page <= r.pagination.totalPages.value
  {
    ItemOnItsPage(NewestFirst(Filter(rows, keep)), limit, k);
  }

  function OrDefault(v: Option<int>, d: int): int {
    if v.Some? then v.value else d
  }

  /** The filter of getMyImages: the caller's rows, with the given tag
      when one is given. */
  predicate MineWithTag(callerId: int, tag: string, row: ImageRow) {
    row.userId == callerId && (tag == "" || row.tag == Some(tag))
  }

  /** getMyImages */
  function GetMyImages(caller: Payload, tag: string, page: Option<int>, limit: Option<int>, rows: seq<ImageRow>): (r: ImagePage)
    ensures forall x :: x in r.images ==> x in rows && x.userId == caller.id
    ensures tag != "" ==> forall x :: x in r.images ==> x.tag == Some(tag)
    ensures r.pagination.total == |Filter(rows, row => MineWithTag(caller.id, tag, row))|
    ensures r == Listing(rows, row => MineWithTag(caller.id, tag, row), page, limit)
  {
    Listing(rows, row => MineWithTag(caller.id, tag, row), page, limit)
  }

  /** The filter of getAllImages: the given tag and the given owner, each
      only when given. */
  predicate TagAndOwner(tag: string, userId: Option<int>, row: ImageRow) {
    (tag == "" || row.tag == Some(tag)) && (userId.None? || row.userId == userId.value)
  }

  /** getAllImages: admin only; the owner's username that the listing
      joins in is not part of the model. */
  function GetAllImages(caller: Payload, tag: string, userId: Option<int>, page: Option<int>, limit: Option<int>,
                        rows: seq<ImageRow>): (r: Reply<ImagePage>)
    ensures r.Fail? <==> caller.role != AdminRole
    ensures r.Fail? ==> r == Fail(403, MSG_ADMIN_ONLY)
    ensures r.Ok? ==> forall x :: x in r.value.images ==> x in rows && TagAndOwner(tag, userId, x)
    ensures r.Ok? ==> r.value.pagination.total == |Filter(rows, row => TagAndOwner(tag, userId, row))|
    ensures r.Ok? ==> r.value == Listing(rows, row => TagAndOwner(tag, userId, row), page, limit)
  {
    if caller.role != AdminRole then Fail(403, MSG_ADMIN_ONLY)
    else Ok(Listing(rows, row => TagAndOwner(tag, userId, row), page, limit))
  }

  // ---------------------------------------------------------------------
  // getMyTags

  datatype TagCount = TagCount(tag: string, count: nat)

  /** The number of the caller's rows tagged `tag`. */
  function CountTag(rows: seq<ImageRow>, callerId: int, tag: string): nat {
    if rows == [] then 0
    else CountTag(rows[..|rows| - 1], callerId, tag) +
         (if rows[|rows| - 1].userId == callerId && rows[|rows| - 1].tag == Some(tag) then 1 else 0)
  }

  lemma {:induction false} CountTagPositive(rows: seq<ImageRow>, callerId: int, tag: string)
    ensures CountTag(rows, callerId, tag) > 0 <==>
              exists j :: 0 <= j < |rows| && rows[j].userId == callerId && rows[j].tag == Some(tag)
    decreases |rows|
  {
    if rows != [] {
      var init := rows[..|rows| - 1];
      CountTagPositive(init, callerId, tag);
      assert forall j :: 0 <= j < |init| ==> init[j] == rows[j];
    }
  }

  /** The distinct non-null tags of the caller's rows, in first-use order. */
  function DistinctTags(rows: seq<ImageRow>, callerId: int): (ts: seq<string>)
    ensures forall i, j :: 0 <= i < j < |ts| ==> ts[i] != ts[j]
    ensures forall t :: t in ts <==> exists j :: 0 <= j < |rows| && rows[j].userId == callerId && rows[j].tag == Some(t)
  {
    if rows == [] then []
    else
      var init := rows[..|rows| - 1];
      var last := rows[|rows| - 1];
      var ts := DistinctTags(init, callerId);
      assert forall j :: 0 <= j < |init| ==> init[j] == rows[j];
      if last.userId == callerId && last.tag.Some? && last.tag.value !in ts then ts + [last.tag.value] else ts
  }

  /** One entry per tag, in first-use order. */
  function TagEntries(tags: seq<string>, rows: seq<ImageRow>, callerId: int): (es: seq<TagCount>)
    ensures |es| == |tags|
    ensures forall i :: 0 <= i < |tags| ==> es[i] == TagCount(tags[i], CountTag(rows, callerId, tags[i]))
  {
    if tags == [] then []
    else [TagCount(tags[0], CountTag(rows, callerId, tags[0]))] + TagEntries(tags[1..], rows, callerId)
  }

  /** Count descending. */
  predicate SortedByCountDesc(es: seq<TagCount>) {
    forall i, j :: 0 <= i < j < |es| ==> es[i].count >= es[j].count
  }

  /** Insert `e` before the first entry with a smaller count. */
  function InsertByCount(e: TagCount, es: seq<TagCount>): (r: seq<TagCount>)
    requires SortedByCountDesc(es)
    ensures SortedByCountDesc(r)
    ensures multiset(r) == multiset(es) + multiset{e}
  {
    if es == [] then [e]
    else if es[0].count >= e.count then
      var rest := InsertByCount(e, es[1..]);
      HeadAboveInserted(es, e, rest);
      [es[0]] + rest
    else
      HeadAboveAll(e, es);
      [e] + es
  }

  /** Keeping the head of a sorted sequence in front of the insertion
      into its tail keeps it sorted and counts every entry. */
  lemma HeadAboveInserted(es: seq<TagCount>, e: TagCount, rest: seq<TagCount>)
    requires es != [] && SortedByCountDesc(es) && es[0].count >= e.count
    requires SortedByCountDesc(rest) && multiset(rest) == multiset(es[1..]) + multiset{e}
    ensures SortedByCountDesc([es[0]] + rest)
    ensures multiset([es[0]] + rest) == multiset(es) + multiset{e}
  {
    assert es == [es[0]] + es[1..];
    forall j | 0 <= j < |rest|
      ensures rest[j].count <= es[0].count
    {
      assert rest[j] in multiset(rest);
      if rest[j] != e {
        assert rest[j] in es[1..];
      }
    }
    var r := [es[0]] + rest;
    forall i, j | 0 <= i < j < |r|
      ensures r[i].count >= r[j].count
    {
      assert r[j] == rest[j - 1];
      if i > 0 {
        assert r[i] == rest[i - 1];
      }
    }
  }

  /** An entry counted above the head of a sorted sequence can go first. */
  lemma HeadAboveAll(e: TagCount, es: seq<TagCount>)
    requires es != [] && SortedByCountDesc(es) && e.count > es[0].count
    ensures SortedByCountDesc([e] + es)
  {
    var r := [e] + es;
    forall i, j | 0 <= i < j < |r|
      ensures r[i].count >= r[j].count
    {
      assert r[j] == es[j - 1];
      if i > 0 {
        assert r[i] == es[i - 1];
      }
    }
  }

  /** Insertion sort by count, descending; among equal counts the later
      entries of `es` come first (ties are reversed, not kept stable). */
  function SortByCount(es: seq<TagCount>): (r: seq<TagCount>)
    ensures SortedByCountDesc(r)
    ensures multiset(r) == multiset(es)
  {
    if es == [] then []
    else
      assert es == [es[0]] + es[1..];
      InsertByCount(es[0], SortByCount(es[1..]))
  }

  /** Sequences with the same multiset have the same members. */
  lemma SameMembers<T>(a: seq<T>, b: seq<T>)
    requires multiset(a) == multiset(b)
    ensures |a| == |b|
    ensures forall x :: x in a <==> x in b
  {
    assert |multiset(a)| == |multiset(b)|;
    forall x
      ensures x in a <==> x in b
    {
      assert x in a <==> x in multiset(a);
      assert x in b <==> x in multiset(b);
    }
  }

  /** Some entry is for tag `t`. */
  predicate HasEntryFor(es: seq<TagCount>, t: string) {
    exists e :: e in es && e.tag == t
  }

  /** Whether an entry is for some tag depends only on the members. */
  lemma SameEntriesFor(a: seq<TagCount>, b: seq<TagCount>)
    requires forall x :: x in a <==> x in b
    ensures forall t :: HasEntryFor(a, t) <==> HasEntryFor(b, t)
  {
    forall t | HasEntryFor(a, t)
      ensures HasEntryFor(b, t)
    {
      var e :| e in a && e.tag == t;
      assert e in b;
    }
    forall t | HasEntryFor(b, t)
      ensures HasEntryFor(a, t)
    {
      var e :| e in b && e.tag == t;
      assert e in a;
    }
  }

  /** The entries before sorting: one per distinct tag, with its count,
      each positive. */
  lemma EntriesFacts(rows: seq<ImageRow>, callerId: int)
    ensures var entries := TagEntries(DistinctTags(rows, callerId), rows, callerId);
            (forall e :: e in entries ==> e.count == CountTag(rows, callerId, e.tag) && e.count > 0) &&
            (forall t :: HasEntryFor(entries, t) <==> t in DistinctTags(rows, callerId))
  {
    var tags := DistinctTags(rows, callerId);
    var entries := TagEntries(tags, rows, callerId);
    forall e | e in entries
      ensures e.count == CountTag(rows, callerId, e.tag) && e.count > 0
    {
      var i :| 0 <= i < |entries| && entries[i] == e;
      CountTagPositive(rows, callerId, tags[i]);
    }
    forall t | t in tags
      ensures HasEntryFor(entries, t)
    {
      var i :| 0 <= i < |tags| && tags[i] == t;
      assert entries[i] in entries;
    }
    forall t | HasEntryFor(entries, t)
      ensures t in tags
    {
      var e :| e in entries && e.tag == t;
      var i :| 0 <= i < |entries| && entries[i] == e;
    }
  }

  /** Entries with distinct tags occur at most once each. */
  lemma {:induction false} DistinctOnce(es: seq<TagCount>)
    requires forall i, j :: 0 <= i < j < |es| ==> es[i].tag != es[j].tag
    ensures forall x :: multiset(es)[x] <= 1
  {
    if es != [] {
      var init := es[..|es| - 1];
      DistinctOnce(init);
      assert es == init + [es[|es| - 1]];
      assert es[|es| - 1] !in init;
    }
  }

  /** An entry at two positions occurs at least twice. */
  lemma TwiceCounted(es: seq<TagCount>, i: nat, j: nat)
    requires i < j < |es| && es[i] == es[j]
    ensures multiset(es)[es[i]] >= 2
  {
    assert es == es[..j] + [es[j]] + es[j + 1..];
    assert es[i] in es[..j];
  }

  /** Sorting keeps tags distinct: a permutation of the entries holds each
      of them once. */
  lemma SortedTagsDistinct(rows: seq<ImageRow>, callerId: int, sorted: seq<TagCount>)
    requires multiset(sorted) == multiset(TagEntries(DistinctTags(rows, callerId), rows, callerId))
    ensures forall i, j :: 0 <= i < j < |sorted| ==> sorted[i].tag != sorted[j].tag
  {
    var entries := TagEntries(DistinctTags(rows, callerId), rows, callerId);
    DistinctOnce(entries);
    forall i, j | 0 <= i < j < |sorted|
      ensures sorted[i].tag != sorted[j].tag
    {
      if sorted[i].tag == sorted[j].tag {
        assert sorted[i] in multiset(entries) && sorted[j] in multiset(entries);
        TwiceCounted(sorted, i, j);
        assert false;
      }
    }
  }

  /** getMyTags: one `{ tag, count }` per distinct non-null tag of the
      caller, ordered by count, largest first. */
  function GetMyTags(caller: Payload, rows: seq<ImageRow>): (r: seq<TagCount>)
    ensures SortedByCountDesc(r)
    ensures forall e :: e in r ==> e.count == CountTag(rows, caller.id, e.tag) && e.count > 0
    ensures forall t :: HasEntryFor(r, t) <==>
                          exists j :: 0 <= j < |rows| && rows[j].userId == caller.id && rows[j].tag == Some(t)
    ensures |r| == |DistinctTags(rows, caller.id)|
    ensures forall i, j :: 0 <= i < j < |r| ==> r[i].tag != r[j].tag
  {
    var entries := TagEntries(DistinctTags(rows, caller.id), rows, caller.id);
    var sorted := SortByCount(entries);
    SameMembers(sorted, entries);
    SameEntriesFor(sorted, entries);
    EntriesFacts(rows, caller.id);
    SortedTagsDistinct(rows, caller.id, sorted);
    sorted
  }
}
