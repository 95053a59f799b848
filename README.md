# lopgameboxServer core, modelled in Dafny

lopgameboxServer is an Express backend for a game box client. It has:

- user accounts with JWT login, roles (`user`/`admin`) and a banned/active status, managed by admins;
- a version registry that clients query for updates;
- image records and image files kept in an object store (R2);
- a page-metadata scraper with an in-memory cache;
- a cloud-backup endpoint;
- a process-wide upload configuration.

This project models the decision logic and the state changes of those
handlers.

- **Tables and state.** The users, images and versions tables are classes
  holding their rows and their AUTOINCREMENT counter. Their schema
  constraints are kept as the `Valid()` invariant: positive, unique ids,
  unique usernames and unique version strings. The scrape cache and the
  upload configuration are classes too.
- **Guard chains.** Each handler's chain of 400/401/403/404/409 answers is a
  pure function returning `Reply<T>`: `Ok(value)` or `Fail(status, message)`,
  with the handler's own messages.
- **Mutating handlers.** Handlers that change a table are methods whose
  postconditions give the new rows as a function of the old ones.
- **Outside services.** Everything outside the process is a parameter:
  - the clock and random bytes;
  - bcrypt's `compare` and `hash`, and JWT `sign` and `verify`;
  - the object store's answers, and the browser run.

A few facts the model makes explicit:

- **Banned users can log in.** Login never looks at the account status
  (`AuthController.LoginIgnoresStatus`). The status only matters to the
  ban and unban handlers.
- **The upload controller ignores the upload configuration.** It checks
  against its own fixed 10 MB limit and batch limits of 10 files and 100
  names. The configurable limits in `src/config/uploadConfig.ts` are
  modelled on their own.
- **`checkUpdate` compares strings only.** Any string other than the
  latest version, including a "newer" one, is offered the latest version.
- **The backup directory is not sanitised.** It comes from the body's
  `userId` as given. Only the file name is reduced to `[A-Za-z0-9._-]`, so
  the name cannot leave the directory, but the directory itself can
  contain `/` or `..`.
- **The scraper always renders the page.** It uses the headless browser
  for every request, with a 30-second navigation timeout.
- **The schema is partly implicit.** The users table has no `status`
  column in `src/services/database.ts`; the status field comes from
  `src/types/user.d.ts`. The images table is not created there either;
  the model assumes it exists with the columns the queries use.

## Model

| member | source | states |
|---|---|---|
| Basics.IndexOfKey | src/controllers/userController.ts:63-65 | `WHERE <column> = ?`: a position whose row holds the key, or none exactly when no row does; used for users by id and name, images by id, and versions by id and version string |
| Basics.IndexOfKeySameKeys | src/controllers/userController.ts:184 | lookups depend only on the key column, so updating other columns leaves them unchanged |
| Basics.RemoveAt | src/controllers/userController.ts:118 | `DELETE ... WHERE id = ?` on one row: one row fewer, the others kept in order |
| Middleware.BearerToken | MiddleWare/authMiddleware.ts:10-14 | a token is extracted exactly when the header starts with "Bearer ", and the header is "Bearer " followed by it |
| Middleware.BearerTokenOfPrefixed | MiddleWare/authMiddleware.ts:11-14 | `slice(7)` gives back the token that was prefixed |
| Middleware.AuthMiddleware | MiddleWare/authMiddleware.ts:10-21 | 401 with "未登录或token缺失" without a bearer header; 401 with "token无效或已过期" when verification fails; otherwise the request continues with the verified payload as `req.user`, and only then |
| Middleware.AdminMiddleware | MiddleWare/adminMiddleware.ts:8-18 | 401 without a user, 403 for a non-admin; continues exactly for an admin, with the same user |
| Middleware.AdminChainReachedIff | MiddleWare/adminMiddleware.ts:8-18 | behind both middlewares, an admin route is reached if and only if the bearer token verifies to an admin payload; a verified non-admin gets 403 |
| ScrapePage.GetMetaContent | src/services/scrapeService.ts:166-172 | the content of the element matched by name; the property lookup is used only when no element has the name and a property is given; "" otherwise |
| ScrapePage.FirstNonEmpty | src/services/scrapeService.ts:203 | the result is "" exactly when every candidate is ""; otherwise it is the first non-empty candidate |
| ScrapePage.OrChainIsFirstNonEmpty | src/services/scrapeService.ts:203 | the `a \|\| b \|\| c \|\| ''` chain equals the first non-empty candidate |
| ScrapePage.GetTitle | src/services/scrapeService.ts:198-204 | title priority: og:title, then twitter:title, then the document title |
| ScrapePage.GetDescription | src/services/scrapeService.ts:207-213 | description priority: og:description, then twitter:description, then the description meta |
| ScrapePage.IconLink | src/services/scrapeService.ts:175-177 | the icon link is `rel="icon"`, else "shortcut icon", else "apple-touch-icon"; none exactly when all three are absent |
| ScrapePage.IconHref | src/services/scrapeService.ts:178 | the href is the first icon link's own href when that is non-empty, and "/favicon.ico" when there is no link or its href is empty |
| ScrapePage.ResolveHref | src/services/scrapeService.ts:181-194 | data: and http hrefs are kept; "//" gets the protocol; "/" gets the origin; anything else gets origin + "/" |
| ScrapePage.NotPrefixAt | src/services/scrapeService.ts:181-194 | a mismatch at one position rules a prefix out |
| ScrapePage.SlashIsNotDataOrHttp | src/services/scrapeService.ts:181-190 | an href starting with "/" reaches the path branches, not the data: or http branch |
| ScrapePage.GetFavicon | src/services/scrapeService.ts:174-195 | the favicon is the resolved href; a page without an icon link gets origin + "/favicon.ico" |
| ScrapePage.ProtocolRelativeFavicon | src/services/scrapeService.ts:188-189 | a protocol-relative icon is resolved with the page's protocol |
| ScrapePage.Extract | src/services/scrapeService.ts:215-241 | the metadata's title and description follow the priority chains over its own og and twitter fields; every field is the page's own value (each og, twitter, keywords, author, publisher and robots meta tag's content, the icon, the character set, the language); the favicon is non-empty; the url is the page's href |
| ScrapeService.Swept | src/services/scrapeService.ts:84-91 | after a sweep, exactly the fresh entries remain, unchanged |
| ScrapeService.CachedValue | src/services/scrapeService.ts:60-64 | a cached value is returned exactly for an entry younger than the 5-minute TTL |
| ScrapeService.AfterLookup | src/services/scrapeService.ts:65-67 | a lookup deletes only the looked-up entry, and only when it is stale |
| ScrapeService.LookupKeepsFreshEntries | src/services/scrapeService.ts:60-69 | a lookup keeps every fresh entry, and its answer is not changed by its own deletion |
| ScrapeService.WrittenEntrySurvivesSweep | src/services/scrapeService.ts:245-248 | an entry written at time t survives the sweep run right after it and is served at t |
| ScrapeService.ScrapeErrorMessage | src/services/scrapeService.ts:252-256 | an Error is reported as "抓取元数据失败: " + its message; any other thrown value gets the unknown-error text |
| ScrapeService.ScrapeReply | src/services/scrapeService.ts:111-256 | a loaded page yields its extracted metadata; a failed run yields the wrapped error |
| ScrapeService.ScrapeService.GetCachedMetadata | src/services/scrapeService.ts:60-69 | returns the fresh cached value, and the cache afterwards is the lookup's result |
| ScrapeService.ScrapeService.SetCachedMetadata | src/services/scrapeService.ts:74-79 | the entry for the url is replaced by the metadata stamped with now |
| ScrapeService.ScrapeService.CleanupCache | src/services/scrapeService.ts:84-91 | the loop leaves exactly the sweep of the old cache |
| ScrapeService.ScrapeService.GetMetadata | src/services/scrapeService.ts:99-263 | a fresh cache hit is returned without opening a page; otherwise the browser's outcome; with caching on, a success is written and swept; with caching off, the cache is untouched; every opened page is closed |
| ScrapeService.RepeatedCallHitsCache | src/services/scrapeService.ts:99-107 | a second call within the TTL returns the first call's metadata without opening a page |
| UploadConfig.PatchError | src/config/uploadConfig.ts:39-55 | a patch is rejected exactly when a given field is not in (0, 500 MB] or (0, 500]; the file size is checked first, and each of the four failures carries its own message |
| UploadConfig.Merge | src/config/uploadConfig.ts:58-61 | given fields override the current ones, and absent fields keep them |
| UploadConfig.Updated | src/config/uploadConfig.ts:37-64 | throws exactly on a rejected patch; otherwise returns the merge; within-bounds is preserved |
| UploadConfig.RunStaysWithinBounds | src/config/uploadConfig.ts:37-72 | any sequence of updates and resets keeps the configuration within bounds |
| UploadConfig.ReachableFromDefaultsWithinBounds | src/config/uploadConfig.ts:4-10 | every configuration reachable from the defaults is within bounds |
| UploadConfig.RunEndingInResetIsDefault | src/config/uploadConfig.ts:69-72 | a reset restores the defaults whatever came before |
| UploadConfig.UpperBoundsInclusive | src/config/uploadConfig.ts:43-53 | exactly 500 MB and 500 are accepted, and one more is rejected |
| UploadConfig.UploadConfigManager.GetConfig | src/config/uploadConfig.ts:16-18 | returns the current configuration, which is within bounds |
| UploadConfig.UploadConfigManager.GetMaxFileSize | src/config/uploadConfig.ts:23-25 | returns the current size limit, in (0, 500 MB] |
| UploadConfig.UploadConfigManager.GetMaxBatchCount | src/config/uploadConfig.ts:30-32 | returns the current batch limit, in (0, 500] |
| UploadConfig.UploadConfigManager.UpdateConfig | src/config/uploadConfig.ts:37-64 | a rejected patch leaves the configuration unchanged; an accepted one stores the merge and returns it |
| UploadConfig.UploadConfigManager.ResetConfig | src/config/uploadConfig.ts:69-72 | the configuration becomes the defaults |
| UploadController.ValidateFile | src/controllers/uploadController.ts:38-46 | type error exactly for a MIME type outside the six allowed; size error exactly for an allowed type over 10 MB; accepted otherwise |
| UploadController.ExactlyTenMegabytesAccepted | src/controllers/uploadController.ts:42 | the size limit is inclusive |
| UploadController.LastIndexOf | src/controllers/uploadController.ts:29 | the last occurrence, or none |
| UploadController.StripTrailingSlashes | src/controllers/uploadController.ts:29 | a prefix of the path without a trailing "/" |
| UploadController.StrippedAreSlashes | src/controllers/uploadController.ts:29 | every character dropped from the end is a "/" |
| UploadController.Basename | src/controllers/uploadController.ts:29 | a suffix of the path containing no "/" |
| UploadController.BasenameIsLongest | src/controllers/uploadController.ts:29 | the basename is the whole path or follows a "/", so it is the longest "/"-free suffix |
| UploadController.ExtName | src/controllers/uploadController.ts:29 | "" or "." followed by characters that are neither "." nor "/" |
| UploadController.SegmentExtFacts | src/controllers/uploadController.ts:29 | a segment's extension is a suffix of it, non-empty exactly when the segment is not ".." and has a "." after its first character |
| UploadController.ExtNameOfLastSegment | src/controllers/uploadController.ts:29 | `path.extname` is a suffix of the last segment after trailing slashes are dropped, non-empty exactly when that segment is not ".." and has a "." after its first character |
| UploadController.LastIndexAt | src/controllers/uploadController.ts:29 | the last index of a character is the position after which it no longer occurs |
| UploadController.ExtNameOfPlainName | src/controllers/uploadController.ts:29 | a name without "/" is its own basename |
| UploadController.ExtNameOfPhoto | src/controllers/uploadController.ts:29 | "photo.png" has extension ".png" |
| UploadController.ExtNameOfArchive | src/controllers/uploadController.ts:29 | "archive.tar.gz" has extension ".gz" |
| UploadController.ExtNameOfDotFile | src/controllers/uploadController.ts:29 | ".bashrc" has no extension |
| UploadController.GenerateFileName | src/controllers/uploadController.ts:28-33 | the name starts with "images/" and ends with the original's extension |
| UploadController.NatToStringInjective | src/controllers/uploadController.ts:30-32 | distinct timestamps have distinct decimal texts |
| UploadController.DashNotBefore | src/controllers/uploadController.ts:32 | the first "-" after the timestamp digits is the separator |
| UploadController.DigitsDashUnique | src/controllers/uploadController.ts:32 | timestamp and hex are recovered from the composed name |
| UploadController.GeneratedNamesEqual | src/controllers/uploadController.ts:28-33 | equal generated names have equal timestamps and random parts |
| UploadController.GeneratedNamesDistinct | src/controllers/uploadController.ts:28-33 | names differ whenever the timestamp or the 8 random bytes differ |
| UploadController.ProcessFileUpload | src/controllers/uploadController.ts:81-141 | an invalid file gives its validation error; a store or insert failure gives its error text; otherwise the record holds the generated name, the stored URL, the row id and the tag |
| UploadController.InvalidFileTouchesNothing | src/controllers/uploadController.ts:86-95 | an invalid file's result does not depend on the store or the database |
| UploadController.UploadImage | src/controllers/uploadController.ts:146-181 | 500 when storage is unconfigured; 400 without a file; success exactly when processing succeeds, returning that processing's record, with "" as no tag; otherwise the 400 upload-failed message |
| UploadController.ProcessAll | src/controllers/uploadController.ts:207-214 | each file is processed, in order, without a tag |
| UploadController.PartitionCounts | src/controllers/uploadController.ts:207-214 | every file lands in exactly one of the two lists |
| UploadController.ListsStep | src/controllers/uploadController.ts:203-214 | one more result extends exactly one of the two lists |
| UploadController.UploadEach | src/controllers/uploadController.ts:203-214 | the loop collects exactly the successes and the failures, in order |
| UploadController.UploadMultipleImages | src/controllers/uploadController.ts:186-234 | 500, then 400 for no files, then 400 for more than 10; otherwise the successes and errors of processing each file, which together number the files |
| UploadController.DeleteImage | src/controllers/uploadController.ts:239-274 | 500 when storage is unconfigured; 400 without a file name; 500 when the existence check or the delete throws; 404 for an absent file; succeeds exactly when configured, named and present, and the delete returns |
| UploadController.DeleteOne | src/controllers/uploadController.ts:300-321 | each name gets exactly one of a result or an error; the delete is called exactly for existing names |
| UploadController.DeleteAll | src/controllers/uploadController.ts:300-322 | each name is handled in order |
| UploadController.DeletePartitionCounts | src/controllers/uploadController.ts:300-322 | every name lands in exactly one of the two lists |
| UploadController.DeleteCallsFromSteps | src/controllers/uploadController.ts:302-311 | a deleted name comes from a step that called the delete |
| UploadController.DeleteCallsOnlyExisting | src/controllers/uploadController.ts:302-311 | the delete is only ever called for names the store reported present |
| UploadController.DeleteMultipleImages | src/controllers/uploadController.ts:279-343 | 500, then 400 for a missing or empty array, then 400 for more than 100; no delete is called on a rejected request; otherwise the per-name outcomes, covering every name |
| UserTable.Lookup | src/controllers/userController.ts:63-65 | `WHERE id = ?` finds a row with that id, or none exactly when there is none |
| UserTable.ReplaceKeepsWellFormed | src/services/database.ts:22-28 | an update that keeps id and username keeps both unique |
| UserTable.RemoveKeepsWellFormed | src/services/database.ts:22-28 | a deletion keeps the table well formed |
| UserTable.WithoutRemovesOnlyThatId | src/controllers/userController.ts:118 | the removed id is gone and every other row is still there |
| UserTable.UsersTable.constructor | src/services/database.ts:22-28 | an empty, well-formed table |
| UserController.NewestFirst | src/controllers/userController.ts:19-21 | all rows, newest first, without passwords |
| UserController.CountRole | src/controllers/userController.ts:25-26 | the number of listed users holding the role: its multiplicity among their roles |
| UserController.CountBanned | src/controllers/userController.ts:27 | the number of listed users whose status is banned: its multiplicity among their statuses |
| UserController.NewestFirstSameCounts | src/controllers/userController.ts:19-27 | listing the rows newest first keeps every role and status with its multiplicity |
| UserController.RoleCountsPartition | src/controllers/userController.ts:24-26 | admins plus regular users is the total |
| UserController.StatisticsOf | src/controllers/userController.ts:24-38 | the total, the role counts that add up to it, and the banned count |
| UserController.GetUserList | src/controllers/userController.ts:9-45 | 403 for a non-admin caller; otherwise every user newest first without the password, with the total, the number of admins, of regular users and of banned users of the table |
| UserController.GetUserById | src/controllers/userController.ts:48-79 | 403, then 400 for an invalid id, then 404; otherwise that user without a password |
| UserController.DeleteUserDecision | src/controllers/userController.ts:82-138 | 400, then 404; a regular user may delete only themself; an admin may not delete another admin and must not delete themself here |
| UserController.DeleteUser | src/controllers/userController.ts:82-138 | exactly the allowed row is removed; on any failure the table is unchanged |
| UserController.DeletedUserIsGone | src/controllers/userController.ts:118 | after the deletion the id is not found, and every other user remains |
| UserController.ResetPasswordDecision | src/controllers/userController.ts:141-200 | 400 for an invalid id; 403 for another user; 400 for a missing password or a new one shorter than 6; 404; 401 whenever all earlier checks pass and the old password does not match |
| UserController.WithPassword | src/controllers/userController.ts:184 | only that row's password changes |
| UserController.ResetPassword | src/controllers/userController.ts:141-200 | on success exactly that row's hash is replaced; otherwise nothing changes |
| UserController.ResetThenNewPasswordAccepted | src/controllers/userController.ts:174-184 | after a reset the new password is accepted as the old one |
| UserController.BanDecision | src/controllers/userController.ts:203-258 | 403 for a non-admin caller; 400 for an invalid id; 404; 403 for banning an admin; 400 for banning oneself; 400 for a user already banned; allowed exactly for an admin banning an existing non-admin, other than themself, who is not already banned |
| UserController.UnbanDecision | src/controllers/userController.ts:261-306 | allowed exactly for an admin unbanning an existing banned user |
| UserController.WithStatus | src/controllers/userController.ts:241 | only that row's status changes |
| UserController.BanUser | src/controllers/userController.ts:203-258 | on success exactly that row becomes banned; otherwise nothing changes |
| UserController.UnbanUser | src/controllers/userController.ts:261-306 | on success exactly that row becomes active; otherwise nothing changes |
| UserController.BanThenUnbanRestores | src/controllers/userController.ts:203-306 | a second ban is refused as already banned; unban then restores the original table |
| UserController.InvalidIdRejected | src/controllers/userController.ts:57-60 | an id of 0 or NaN is rejected with 400 before any lookup |
| AuthController.RoleFor | src/controllers/authController.ts:27-35 | no key gives a user; the configured key gives an admin; any other key is refused |
| AuthController.RegisterDecision | src/controllers/authController.ts:13-35 | 400 for missing fields, then 409 for a taken name, then 400 for a wrong admin key; otherwise the role |
| AuthController.TakenNameBeforeAdminKey | src/controllers/authController.ts:19-35 | a taken name gets 409 whatever key accompanies it |
| AuthController.InsertedRowFoundByName | src/controllers/authController.ts:42-51 | the inserted row is the one found by its name |
| AuthController.Register | src/controllers/authController.ts:10-68 | on success one active row with the next id, the hash and the role is appended, and the token and user describe it; otherwise the table is unchanged |
| AuthController.Login | src/controllers/authController.ts:71-109 | 400 for missing fields; with both fields given every failure is the same 401, for an unknown name or a wrong password; otherwise the stored user's token |
| AuthController.LoginFailuresIndistinguishable | src/controllers/authController.ts:86-95 | an unknown name and a wrong password get the same answer |
| AuthController.LoginIgnoresStatus | src/controllers/authController.ts:71-109 | a banned account logs in exactly as an active one |
| AuthController.LoginTokenAuthenticates | src/controllers/authController.ts:97-104 | a login token passes the auth middleware with the stored user's id, name and role |
| AuthController.GetCurrentUser | src/controllers/authController.ts:112-133 | 401 without a user; otherwise exactly its id, username and role |
| ImageController.TagValue | src/controllers/imageController.ts:34 | `tag \|\| null`: "" becomes null |
| ImageController.SaveImage | src/controllers/imageController.ts:10-54 | 400 exactly when a required field is missing; otherwise one row for the caller with the next id and the normalised tag, returned as read back |
| ImageController.AccessDecision | src/controllers/imageController.ts:115-133 | 400 for an invalid id, then 404, then 403 unless the caller owns the image or is an admin |
| ImageController.NotFoundBeforeForbidden | src/controllers/imageController.ts:126-133 | a missing image gets the same answer whoever asks |
| ImageController.GetImageById | src/controllers/imageController.ts:115-147 | the image, exactly when its owner or an admin asks |
| ImageController.Retagged | src/controllers/imageController.ts:174 | only that image's tag changes |
| ImageController.UpdateImage | src/controllers/imageController.ts:152-192 | on success only the tag changes, "" to null, and the updated row is returned; otherwise nothing changes |
| ImageController.DeleteImage | src/controllers/imageController.ts:197-237 | on success exactly that row is removed and its id and file name are returned; otherwise nothing changes |
| ImageController.DeletedImageIsGone | src/controllers/imageController.ts:218 | after the deletion no row has the id |
| ImageController.Window | src/controllers/imageController.ts:76 | `LIMIT ? OFFSET ?`: at most `limit` rows, taken consecutively from the offset |
| ImageController.TotalPages | src/controllers/imageController.ts:98 | `Math.ceil(total / limit)`: the smallest page count covering the total; not finite for a zero limit |
| ImageController.WindowAt | src/controllers/imageController.ts:76 | a row inside the window sits at its offset |
| ImageController.QuotientBelow | src/controllers/imageController.ts:98 | a position before the last page boundary lies on an earlier page |
| ImageController.ItemOnItsPage | src/controllers/imageController.ts:64-98 | every row of the filtered listing appears on exactly the page its position gives, and that page is within the page count |
| ImageController.NewestFirst | src/controllers/imageController.ts:76 | the rows in reverse insertion order |
| ImageController.Filter | src/controllers/imageController.ts:66-73 | no more rows than the table |
| ImageController.FilterMember | src/controllers/imageController.ts:66-73 | a row is a match exactly when it is in the table and satisfies the condition |
| ImageController.FilterSnoc | src/controllers/imageController.ts:66-73 | one more row joins the matches, at the end, exactly when it satisfies the condition |
| ImageController.FilterAppend | src/controllers/imageController.ts:66-73 | the matches of two concatenated tables are the matches of the first followed by those of the second, so the table order is kept |
| ImageController.Listing | src/controllers/imageController.ts:62-105 | the page is the matching rows newest first from offset (page - 1) * limit, at most `limit` of them; the total and page count use the same filter |
| ImageController.WindowMember | src/controllers/imageController.ts:75-81 | a page holds only rows of the ordered result |
| ImageController.NewestFirstMember | src/controllers/imageController.ts:75-81 | the newest-first order holds only rows of the table |
| ImageController.PageMembers | src/controllers/imageController.ts:62-81 | a page holds only matching rows of the table |
| ImageController.MatchOnItsPage | src/controllers/imageController.ts:62-105 | with a positive limit, the k-th newest match is row k % limit of page k / limit + 1 of the listing, and that page is within its reported page count |
| ImageController.GetMyImages | src/controllers/imageController.ts:59-110 | the listing of the caller's images, with the tag when one is given: the page is the offset window of those rows newest first, and the total counts them |
| ImageController.GetAllImages | src/controllers/imageController.ts:242-307 | 403 for a non-admin; otherwise the listing of images filtered by tag and owner when given, as the offset window of those rows newest first, with a total under the same filter |
| ImageController.CountTagPositive | src/controllers/imageController.ts:316-322 | a tag's count is positive exactly when the caller has an image with it |
| ImageController.DistinctTags | src/controllers/imageController.ts:316-322 | every non-null tag of the caller, each once |
| ImageController.TagEntries | src/controllers/imageController.ts:316-322 | one entry per tag, with its count |
| ImageController.InsertByCount | src/controllers/imageController.ts:321 | insertion keeps the count order and adds exactly the entry |
| ImageController.HeadAboveInserted | src/controllers/imageController.ts:321 | the head stays in front of an insertion below it |
| ImageController.HeadAboveAll | src/controllers/imageController.ts:321 | an entry with a higher count can go first |
| ImageController.SortByCount | src/controllers/imageController.ts:321 | `ORDER BY count DESC`: sorted and a permutation (ties are not in a fixed order) |
| ImageController.SameMembers | src/controllers/imageController.ts:321 | a permutation has the same members and length |
| ImageController.SameEntriesFor | src/controllers/imageController.ts:321 | a permutation has entries for the same tags |
| ImageController.EntriesFacts | src/controllers/imageController.ts:316-322 | each entry's count is the tag's positive count, with entries for exactly the distinct tags |
| ImageController.DistinctOnce | src/controllers/imageController.ts:319 | entries with distinct tags occur once each |
| ImageController.TwiceCounted | src/controllers/imageController.ts:319 | an entry at two positions occurs twice |
| ImageController.SortedTagsDistinct | src/controllers/imageController.ts:319-321 | sorting keeps tags distinct |
| ImageController.GetMyTags | src/controllers/imageController.ts:312-336 | one entry per distinct non-null tag of the caller, with its positive count, sorted by count descending, tags distinct |
| VersionController.RemoveKeepsWellFormed | src/services/database.ts:30-35 | a deletion keeps ids and version strings unique |
| VersionController.RemovedVersionIsGone | src/controllers/versionController.ts:86-108 | after a deletion neither the id nor the version string is found |
| VersionController.LatestIndex | src/controllers/versionController.ts:16-20 | the row with the greatest release date; unreadable dates sort last; among equal dates, the earliest inserted |
| VersionController.NotesText | src/controllers/versionController.ts:38 | null notes become "" |
| VersionController.CheckUpdate | src/controllers/versionController.ts:7-45 | 400 without a version; 404 on an empty table; up to date exactly when the string equals the latest version; otherwise the latest with its date, notes and message |
| VersionController.UnknownVersionIsOfferedLatest | src/controllers/versionController.ts:26-40 | a version the table does not hold is offered the latest |
| VersionController.LatestIsUpToDate | src/controllers/versionController.ts:26-32 | the latest version is told it is up to date |
| VersionController.AddVersion | src/controllers/versionController.ts:48-75 | 400 without a version; 409 for a duplicate, with the table unchanged; otherwise one row with the next id, the date or now, and the notes or null |
| VersionController.DeleteVersionById | src/controllers/versionController.ts:78-95 | 400 for an invalid id, then 404; otherwise exactly that row is removed |
| VersionController.DeleteVersionByName | src/controllers/versionController.ts:98-118 | 400 without a version, then 404; otherwise exactly that row is removed |
| VersionController.GetVersionByNumber | src/controllers/versionController.ts:121-145 | 400 without a version; the row exactly when one has that string; 404 otherwise |
| VersionController.AddedVersionIsFound | src/controllers/versionController.ts:56-65 | an added version is found by its number |
| VersionController.DeletedVersionIsNotFound | src/controllers/versionController.ts:106-112 | a version deleted by name is no longer found |
| BackupController.Sanitize | src/controllers/backupController.ts:27 | same length; every character in `[A-Za-z0-9._-]`; allowed characters kept in place, all others "_" |
| BackupController.SanitizeIdempotent | src/controllers/backupController.ts:27 | sanitising twice equals sanitising once |
| BackupController.SafeName | src/controllers/backupController.ts:26-28 | non-empty, with no path separator; "backup.db" for a missing or empty name |
| BackupController.Timestamp | src/controllers/backupController.ts:29 | same length, with ":" and "." replaced by "-" and nothing else changed |
| BackupController.BackupDir | src/controllers/backupController.ts:21-22 | the body's userId, else the caller's id, else "anonymous"; only an absent field falls through |
| BackupController.CloudBackup | src/controllers/backupController.ts:8-43 | 400 without file data, before any write; otherwise the data goes to `<timestamp>_<safe name>` in that directory, with no "/" after the timestamp |

## Left out

- **The browser.** Browser launch and reuse, the viewport, headers and
  waits of the page are not modelled. A browser run is a parameter that
  ends as failed before a page opened, failed after, or loaded with a
  document.
- UploadController.UploadImage: the `detail` field of the 400 response, which carries the processing error's text, is not modelled; the reply holds only the status and the message.
- UploadController.DeleteImage: the `detail` field of the 500 response, which carries the thrown error's text, is not modelled; the reply holds only the status and the message.
- ImageController.SortByCount: tags with equal counts come out with the later row first; the database gives no order among ties, so no tie order is stated.
- **The document.** The document is reduced to the meta, link and title
  lookups the extraction makes.
- **`new URL` validation.** It is one of the ways a run fails before a
  page opens.
- **Outside services and effects.** The object store, bcrypt, JWT signing
  and verification, the clock, random bytes, logging, and the filesystem
  writes of the backup are parameters or effect descriptions. Key
  generation, the base64 decoding and `path.join` are not modelled.
- **Concurrency.** Overlapping requests, and the `close` of the scraper,
  are not modelled.
- **The 500 answers.** They come from exceptions the database throws.
  Only the errors that the handlers answer with their own status are
  modelled; store and insert errors in the upload loops are modelled.
- **Query parsing.** JavaScript's `Number()` on request parameters, NaN,
  non-integer ids and non-numeric page or limit values are reduced to
  `Option<int>`. Absent, zero and unparseable ids are `None` or 0.
- **Request bodies.** They are taken as the strings and numbers the
  handlers expect.
- **`ORDER BY created_at DESC`** is modelled as reverse insertion order.
  Rows with equal timestamps, and timestamps out of insertion order, are
  not modelled.
- **VersionController.LatestIndex:** of several rows with the same
  release date it picks the earliest inserted. SQL leaves that choice
  open.
- **GetAllImages and GetMyImages:** the joined owner username and the
  exact SQL text are not modelled. Of the pagination block, the page,
  limit, total and page count are kept.
- **The upload handlers:** `getServiceStatus`, `generateUploadUrl`
  (presigning) and `getFormattedConfig` (`toFixed` formatting) are not
  modelled, because they only format or delegate to the store.
- **Response texts.** Success texts that interpolate counts or roles are
  not modelled: the "注册成功" role text, the batch summary texts, and
  the "成功" messages.
- **String length.** JavaScript counts UTF-16 units, while the model
  counts characters. A character outside the Basic Multilingual Plane
  counts twice in the source's password length check and once here; the
  same units also change the backup file name, as the next line says.
- BackupController.Sanitize: the source's `replace(/[^a-zA-Z0-9._-]/g, "_")`
  has no `u` flag, so it replaces each character outside the Basic
  Multilingual Plane with two "_", one per UTF-16 unit. The model writes
  one "_" per character.
- **Routes.** Route wiring, CORS, the server start and the legacy
  `index.ts` entry point are not modelled. The handlers some routes name
  but the controllers lack are not part of this model.
- **The image records.** The images table's schema is not part of this
  model; its columns are taken from the queries.
- UploadController.ProcessFileUpload: the `INSERT INTO images` of an upload
  is given by its outcome (the new id or a thrown error). It adds no row
  to `ImageController.ImageTable`, so the model does not show an uploaded
  image in `GetMyImages`, `GetAllImages` or `GetMyTags`.
- UploadConfig.RunStaysWithinBounds: the bounds are proved for integer
  patches with each field given or absent. The source accepts two more
  cases that break them. `updateConfig({maxFileSize: NaN})` passes both
  checks, because `NaN <= 0` and `NaN > 500MB` are both false
  (src/config/uploadConfig.ts:40-45), and NaN is stored. A field given as
  `undefined` skips validation (src/config/uploadConfig.ts:39), but the
  spread at src/config/uploadConfig.ts:58-61 still overwrites the field
  with `undefined`. Neither value is expressible in the model.
