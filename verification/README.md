# Multimedia backend: sessions, file metadata and pagination in Dafny

This project models the logic at the centre of a NestJS/Prisma media-storage
backend. Users sign up, log in, refresh and log out. They upload files, tag
them, search them, download them and view them. Paginated listings are built
on top.

The model covers five pieces. Each is written as pure functions over immutable
state, returning what the call answered or threw together with the state
afterwards.

- **Session manager** (`AuthService`, `auth_service.dfy`). The `User` table is
  a map from id to `{email, password digest, refresh-token digest or null}`.
  `signup`, `login`, `logout` and `refreshToken` are transitions `Step(result, users)`.
  bcrypt and the JWT signer are an abstract `Provider` (`crypto.dfy`): four
  function values for hash, compare, sign and decode. The laws the proofs rely
  on are predicates that appear only as hypotheses:
  - `HashLaw`: a digest accepts the data it was computed from;
  - `SignLaw`: a token decodes to the claims it was signed with;
  - `WholeInputHash`: a digest accepts nothing else;
  - `Prefix72Hash`: bcrypt reads only the first 72 bytes of its input.

  Salts and the issue time are explicit inputs (`Entropy`).
- **Refresh-token extraction** (`RefreshStrategy`, `refresh_strategy.dfy`).
  `validate` removes the first `"Bearer "` from the `Authorization` header,
  trims the rest and adds it to the decoded payload as `refreshToken`.
- **File metadata store** (`FileService`, `file_service.dfy`). The `File`
  table is a map from id to record. The blobs on disk are a set of paths
  relative to the working directory. The operations are create, tag
  replacement, owner-scoped search, view counting and delete.
- **File endpoints** (`FileController`, `file_controller.dfy`):
  - the multer destination and file name, the upload URL, and the three
    derived paths (written, read, deleted), which always agree;
  - upload validation (size, type) and comma-split tags;
  - which endpoints count a view, and when each one answers NotFound.
- **Pagination** (`Pagination`, `pagination.dfy`):
  - `skip`/`take`;
  - the `OR` list of the search, and how it merges into the caller's `where`;
  - `Math.ceil(count / limit)` with its `Infinity`/`NaN` cases;
  - the `meta` flags.

String operations are modelled in `strings.dfy`:
- `String.prototype.replace` with a string pattern (`ReplaceFirst`);
- `trim` over the WhiteSpace and LineTerminator sets of section 12.2 and 12.3
  of ECMA-262 (`Trim`);
- `split` and `join` on one character;
- an ASCII lower-casing for Prisma's `mode: 'insensitive'`.

`scenarios.dfy` holds properties that span several calls.

## Model

| member | source | states |
|---|---|---|
| AuthService.FindByEmail | src/auth/auth.service.ts:50-52 | With unique emails, the lookup yields the user holding the email, or reports that no user holds it |
| AuthService.GetTokens | src/auth/auth.service.ts:98-122 | Both tokens carry the same `{userId, email}` claims, each under its own signing class |
| AuthService.UpdateRefreshTokenHash | src/auth/auth.service.ts:41-47 | Only that user's refresh digest changes; the new digest accepts the token and the email index stays unique |
| AuthService.Signup | src/auth/auth.service.ts:21-39 | A taken email is a Conflict("User already exists") and the table is unchanged. Otherwise exactly one user is added, holding the email and `hash(password)`; its stored refresh digest accepts the returned refresh token, and both returned tokens carry the new id and the email |
| AuthService.Login | src/auth/auth.service.ts:49-66 | Succeeds exactly when a user has the email and the password matches. Unknown email and wrong password give the same Unauthorized("Invalid email or password") with the table unchanged. On success only that user's refresh digest changes; it accepts the new refresh token, and both tokens carry that user's id and the submitted email |
| AuthService.Logout | src/auth/auth.service.ts:68-73 | An existing user's refresh digest becomes null whatever it was, and nothing else changes; an unknown id makes Prisma's update throw |
| AuthService.Refresh | src/auth/auth.service.ts:75-92 | Unknown id and a rejected token give Unauthorized("Invalid refresh token"); a null digest throws from the comparison; every failure leaves the table unchanged. Success happens exactly when the stored digest accepts the token; then the digest rotates to the new refresh token, and both new tokens carry the id and the stored email |
| AuthService.LogoutIdempotent | src/auth/auth.service.ts:68-73 | Two logouts in a row give the same result and table as one |
| AuthService.RefreshRevokesPresentedToken | src/auth/auth.service.ts:89-91 | When digests accept only their own input, and the new token differs, the presented token no longer verifies after a refresh, and a second refresh with it is Unauthorized |
| AuthService.RefreshReplayWithPrefix72Hash | src/auth/auth.service.ts:82-90 | When compare reads only 72 characters and the new token shares its first 72 with the old one, the old token refreshes again after rotation |
| AuthService.Truncating | src/auth/auth.service.ts:94-96 | A provider digesting only the first 72 characters satisfies the hash law and the 72-character law, yet accepts data other than its input |
| RefreshStrategy.ExtractToken | src/auth/strategies/refresh.strategy.ts:21-24 | The result is the header with its first `"Bearer "` removed, less exactly the whitespace at its two ends: it has none at either end and is surrounded by whitespace only. Without `"Bearer "` it is the trimmed header. For `"Bearer " + t` with `t` already trimmed, it is `t` |
| RefreshStrategy.Validate | src/auth/strategies/refresh.strategy.ts:20-29 | Every payload field is kept, and `refreshToken` is added; it overrides any payload field of that name with the extracted token |
| RefreshStrategy.LowercaseSchemeKept | src/auth/strategies/refresh.strategy.ts:21-24 | The `"Bearer "` match is case-sensitive: a trimmed `"bearer " + t` header is kept whole as the token |
| FileService.Create | src/file/file.service.ts:10-35 | Exactly one record is added: the original name, url, owner, tags (`[]` when absent), no mime type and 0 views; every other record is kept |
| FileService.UpdateTags | src/file/file.service.ts:37-44 | A missing id is an error with nothing changed. Otherwise the tag list is replaced wholesale (left as is when absent), and no other field or record changes |
| FileService.FindAll | src/file/file.service.ts:46-61 | Without a non-empty query: exactly the owner's files. With one: exactly the owner's files whose name contains it case-insensitively or whose tags hold it as an element |
| FileService.SearchWithinOwnerFiles | src/file/file.service.ts:46-61 | A searched result is a sub-map of the unfiltered owner listing |
| FileService.FindOne | src/file/file.service.ts:85-89 | Yields the record exactly when the id is present |
| FileService.UpdateViews | src/file/file.service.ts:91-96 | A missing id is an error with nothing changed; otherwise that record's views rise by exactly 1 and nothing else changes |
| FileService.Delete | src/file/file.service.ts:63-83 | An absent id returns nothing and changes neither rows nor disk. A present id returns its row, removes exactly that row, and removes the blob `file/` + url-without-first-`/file/` from the disk |
| FileService.DeleteIdempotent | src/file/file.service.ts:63-83 | Deleting twice leaves the store as deleting once, and the second call returns nothing |
| FileController.DestinationIsDottedUrl | src/file/file.controller.ts:35-44 | Multer's destination joined with the original name is `"."` followed by the upload url |
| FileController.ReadPathOfUpload | src/file/file.controller.ts:123 | The path the read endpoints open for an uploaded url is the path multer wrote |
| FileController.BlobPathOfUpload | src/file/file.controller.ts:81 | The path `delete` removes for an uploaded url is the path multer wrote |
| FileController.UploadPathsAgree | src/file/file.controller.ts:32-46 | The written, read and deleted paths of an upload coincide |
| FileController.ParseTags | src/file/file.controller.ts:79-90 | Splitting the `tags` field (`''` when absent) on commas gives one more part than there are commas, none containing a comma, and joining them with commas gives the field back; an absent field gives `[""]` |
| FileController.UploadFile | src/file/file.controller.ts:60-92 | A request without a file part is rejected with nothing written. With one, the blob is on disk whatever the outcome, and the upload is accepted exactly when size < 15 MiB and the mimetype contains `image`, `video` or `application/pdf` anywhere. A rejected upload adds no row; an accepted one adds exactly one row, with url `/file/{user}/{name}`, the split tags, no mime type and 0 views |
| FileController.UpdateTags | src/file/file.controller.ts:94-100 | The row's tags are replaced and the blob set kept; a missing id throws with nothing changed |
| FileController.DeleteFile | src/file/file.controller.ts:102-107 | For any caller: an absent id returns nothing and changes nothing; a present id returns its row, and the store loses exactly that row and the blob derived from its url |
| FileController.DownloadFile | src/file/file.controller.ts:109-133 | Never changes the store, views included. NotFound("File not found") for a missing row, NotFound("File not found on disk") for a missing blob, otherwise an octet-stream attachment named after the file |
| FileController.GetFile | src/file/file.controller.ts:135-152 | NotFound for a missing row with nothing changed; otherwise the stored views rise by 1, and the row returned is the one read before the increment |
| FileController.GetFileCounted | src/file/file.controller.ts:143-151 | The same transition as `GetFile`, but it returns the row as stored after the increment |
| FileController.ContentType | src/file/file.controller.ts:171 | The stored mime type when it is non-null and non-empty, `application/octet-stream` otherwise |
| FileController.ServeFile | src/file/file.controller.ts:154-174 | NotFound("File not found") exactly for a missing row, with nothing changed. For a present row the view is counted first, so it counts even when NotFound("File not found on disk") follows. Otherwise the blob is served inline under `ContentType` |
| FileController.WritesKeepViewsMonotone | src/file/file.controller.ts:60-107 | Upload, tag update and delete never lower a surviving record's view count |
| FileController.ReadsKeepViewsMonotone | src/file/file.controller.ts:109-174 | Download, get and view never lower a record's view count |
| FileController.NoOwnershipCheck | src/file/file.controller.ts:98-143 | Tag update, delete, download and get answer every caller identically |
| FileController.UploadThenDownloadAndDelete | src/file/file.controller.ts:81-128 | An accepted upload can be downloaded at once, and deleting it removes the blob multer wrote |
| FileController.UploadedFilesServedAsOctetStream | src/file/file.controller.ts:82-91 | The mime type is passed to `create` but never stored, so an uploaded file is always served as `application/octet-stream` |
| Pagination.SkipWholePages | src/prisma/pagination/pagination.service.ts:21-22 | For page ≥ 1 and limit ≥ 1, `skip` is non-negative, a multiple of the limit, and skips page − 1 whole pages |
| Pagination.OrClauses | src/prisma/pagination/pagination.service.ts:32-51 | The list is as long as the field list, less the number of `id` fields when the query does not parse. Each clause is an `id` equality on the parsed query or a `contains` of the query on a listed non-`id` field |
| Pagination.OrClausesSingleton | src/prisma/pagination/pagination.service.ts:34-50 | A single field gives its own clause: an `id` equality on the parsed query (nothing when it does not parse), or a `contains` of the query |
| Pagination.OrClausesAppend | src/prisma/pagination/pagination.service.ts:33-51 | The list follows the fields in `forEach` order: the list for `a + b` is the list for `a` followed by the list for `b` |
| Pagination.OrClausesCoverFields | src/prisma/pagination/pagination.service.ts:33-51 | Every non-`id` field's `contains` clause is in the list, and so is the `id` equality of every `id` field when the query parses |
| Pagination.BuildOr | src/prisma/pagination/pagination.service.ts:32-51 | The `forEach` loop builds the `OrClauses` list; it is never longer than the field list, and as long as it when the query parses |
| Pagination.MergeOr | src/prisma/pagination/pagination.service.ts:52-55 | The merged `where` has the caller's keys plus `OR`; `OR` is the search list and every other caller key keeps its value |
| Pagination.TotalPages | src/prisma/pagination/pagination.service.ts:63 | For limit > 0, the least `n` with `n * limit ≥ count` (0 for no rows). For limit 0 it is `NaN` with no rows and `Infinity` otherwise |
| Pagination.MetaFor | src/prisma/pagination/pagination.service.ts:64-74 | The meta echoes page, limit and count. `hasPreviousPage` holds exactly when page > 1. For limit > 0, `hasNextPage` holds exactly when rows remain after this page; for limit 0 (`Infinity` or `NaN` pages) exactly when there are rows |
| Pagination.NextPageMeansMoreRows | src/prisma/pagination/pagination.service.ts:63-71 | `page < ceil(count / limit)` exactly when `skip + limit < count` |
| Pagination.RowOnOnePage | src/prisma/pagination/pagination.service.ts:21-22 | Every row below the count lies on exactly one page, and that page is not after the last |
| Pagination.GetPaginatedItems | src/prisma/pagination/pagination.service.ts:9-75 | Page and limit default to 1 and 10. The query carries skip/take and passes `orderBy` through. It passes `where` through unchanged unless there is a non-empty query and a non-empty field list; then `where` becomes `MergeOr` of the OR list. The meta is `MetaFor` of the count |
| Strings.ReplaceFirst | src/auth/strategies/refresh.strategy.ts:23 | Without an occurrence the string is returned as is. Otherwise only the first occurrence is replaced, and the text around it is kept |
| Strings.Trim | src/auth/strategies/refresh.strategy.ts:24 | The result has no surrounding whitespace, is the input with only whitespace removed at the two ends, and leaves an already trimmed string alone |
| Strings.Split | src/file/file.controller.ts:90 | The result has one more part than the separator count, and no part contains the separator |
| Strings.JoinSplit | src/file/file.controller.ts:90 | Joining the parts of a split with the separator gives the input back |
| Strings.SplitJoin | src/file/file.controller.ts:90 | Splitting the join of non-empty-list, separator-free parts gives the parts back |
| Scenarios.SignupThenLogin | src/auth/auth.service.ts:21-66 | Under the hash and sign laws, signing up with a fresh email and then logging in with the same password succeeds, with an access token for the new id |
| Scenarios.LogoutThenRefreshFails | src/auth/auth.service.ts:68-88 | After a logout every refresh throws from the comparison, and the table stays as logout left it |
| Scenarios.LoginThenBearerRefresh | src/auth/strategies/refresh.strategy.ts:20-29 | The refresh token of a login, sent as `Bearer <token>`, is extracted intact and accepted by the refresh that follows |
| Scenarios.GetFileReportsStaleViews | src/file/file.controller.ts:143-151 | As written, `getFile` right after an upload reports 0 views while 1 is stored, and the next call reports 1 |
| Scenarios.GetFileCountedReportsViews | src/file/file.controller.ts:143-151 | With the corrected return, the two calls report 1 and 2 |
| Scenarios.SearchByNameOrExactTag | src/file/file.service.ts:46-61 | With "cat.png" tagged "pet" and "dog.png" tagged "wild", searching "cat" or "pet" finds only the first file |

## Left out

- Input and output. Prisma's execution and `$transaction` are replaced by maps. `existsSync`, `mkdirSync`, `unlinkSync`, `createReadStream` and multer's disk write are replaced by a set of paths. The `mkdir` of upload directories is not modelled.
- Path normalisation. Paths are relative strings with a leading `./` dropped. Separators, `..` segments and absolute working-directory prefixes are not normalised.
- bcrypt and JWT internals: salting, cost factor, signature algorithm and expiry. They are the abstract `Provider`; salts and the clock are parameters.
- Concurrency. `Promise.all` in `getTokens` is sequential here, and two refreshes racing on one user are not modelled.
- The unique index on `email` is a precondition (`UniqueEmails`), which every transition preserves. The database's enforcement of it is not modelled.
- The foreign key from `File.userId` to `User` is not modelled, and neither are ids generated by the database: new ids are parameters.
- Case folding is ASCII only. Prisma's `mode: 'insensitive'` folds more of Unicode. Its `%`/`_` handling in `contains` is also not modelled.
- `parseInt` is a parameter of the pagination functions. Digit parsing is not modelled.
- Pagination's page and limit are integers. A fractional page or limit, which JavaScript would accept, is not modelled.
- The `items` that `findMany` returns are not modelled. Only the query sent and the meta computed from `count` are.
- `FileTypeValidator`'s optional magic-number check of file contents is not modelled. Only the mimetype match is.
- A request without an `Authorization` header never reaches `validate`: the JWT guard rejects it first. `ExtractToken` therefore takes a string.
- `getFiles` (src/file/file.controller.ts:53-58) only delegates to `findAll`, which is modelled.
- Status codes. `ParseFilePipe` rejections are `ValidationFailed`, which the framework answers with 400. Exceptions the code does not classify are `Internal` (500).
- Decorators, modules, bootstrap and configuration loading have no logic of their own and are not modelled.

Behaviour the model keeps as the code has it:
- A refresh against a null digest makes `bcrypt.compare` throw, which gives 500.
- `downloadFile` never counts a view.
- Upload rejections, a missing file part included, are 400 from `ParseFilePipe`.
- `getFile` right after an upload reports 0 views.

## Findings

| source | as written | input that shows it | evidently intended | confidence | as-written member | corrected member |
|---|---|---|---|---|---|---|
| src/file/file.controller.ts:143-151 | `getFile` returns the row read before `updateViews`, so the count it reports leaves out the view it has just recorded | upload a file, then `GET /file/:id`: the response says `views: 0` while the table holds 1 | return the row `updateViews` wrote (the view counted by this request included) | not executed; follows from the order of the two awaits | Scenarios.GetFileReportsStaleViews | FileController.GetFileCounted |
| src/auth/auth.service.ts:82-90 | The refresh token is stored as a bcrypt digest, and bcrypt reads only the first 72 bytes. Two refresh tokens of one user share the 36-character JWT header, the dot and the start of the payload's `{"userId":"<id>` | refresh with token A, obtaining B: A's and B's first 72 characters agree, so the stored digest of B also accepts A, and A refreshes again | rotation revokes the presented token (digest the whole token, e.g. a SHA-256 pre-hash) | not executed; assumes HS256 tokens and user ids of at least 15 characters | AuthService.RefreshReplayWithPrefix72Hash | AuthService.RefreshRevokesPresentedToken |
