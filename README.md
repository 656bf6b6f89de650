# eventstore: a verified model of the service core

eventstore is a small Node.js back end that stores signed events in MongoDB.
It has services for events, comments, likes, users and permissions. A
WebSocket dispatcher routes `[command, id, event]` frames to those services,
and a separate HTTP server serves static files. This project models the
following in Dafny:

- the admission checks of every service;
- how each service changes its collections;
- the dispatcher's routing table and its one reply frame;
- the static server's path mapping, containment check and `Content-Type` table.

Properties about each part are proved alongside the model.

Layout, one module per file:

| file | module | models |
|---|---|---|
| json.dfy | `Json` | JavaScript values, truthiness, loose `== 0`, `trim()` whitespace, `new Date(x)` validity, tag pairs with MongoDB `$all` / `$in` |
| query.dfy | `Query` | MongoDB `find` / `skip` / `limit` / `findOne` over a collection held as a sequence |
| documents.dfy | `Documents` | the stored documents and the `Database` class holding the five collections, with the unique `pubkey` index as its invariant |
| events.dfy | `Events` | `EventService` (src/db/events.js) |
| comments.dfy | `Comments` | `CommentService` (src/db/comments.js) |
| likes.dfy | `Likes` | `LikeService` (src/db/likes.js) |
| users.dfy | `Users` | `UserService` (src/db/users.js) |
| permissions.dfy | `Permissions` | `PermissionService` (src/db/permissions.js) |
| server.dfy | `Server` | `WebSocketServer.handleMessage` / `handleResp` (src/server.js) |
| httpfile.dfy | `HttpFile` | the request handler and `getContentType` (src/httpfile.js) |

How the model is built:

- Each service is a class over the shared `Database`. Its methods change only
  the collection they write (each `modifies` clause names one field of `db`).
- Each method is tied to a specification function of the old state. For
  example, `ToggleLike` ensures `(db.likes, status) == Toggle(old(db.likes), ...)`.
  The properties the source promises are proved as lemmas about those
  functions.
- Things the code cannot see become parameters:
  - signature checks (`verifyEvent`, the elliptic-curve check of the admin key) are a function-typed parameter;
  - the clock is an integer `now`, in milliseconds.
- The error paths are modelled as values: a thrown error becomes an `Err` or
  error-status result, and a returned `{code, message}` becomes a status whose
  `Code` is the source's number.

Behaviour modelled as the code has it (these are not corrected):

- `createEvent` and `toggleLike` compare a difference in seconds against
  `5*60*1000`, so they accept up to 300000 seconds of skew. `createComment`
  uses milliseconds on both sides. A missing or invalid `created_at` yields NaN,
  which never exceeds the bound.
- `createEvent` tests the stored `permissions` by equality with
  `CREATE_EVENTS`, not as a bit mask.
- `createUser` looks up `userData.user.pubkey`, which is `undefined` and is sent
  as `null`. That lookup finds only user documents without a `pubkey`, so
  pubkeys are never checked for duplicates there. A duplicate is caught only
  by the unique index when the document is inserted.
- `updateUser` drops `pubkey` / `email` from the update only when the value
  is truthy, so an empty or falsy email is written.
- `assignPermission` / `revokePermission` always `$set` `updatedAt`, so
  `modifiedCount` is 1 even when the id list did not change.
- `createComment` stores no `isDeleted` field. Update, delete and like look
  comments up with `isDeleted: false`, so they never find such a comment.
- In the dispatcher:
  - C/203 calls the undefined `this.eventServer` and always fails;
  - C/300 passes the whole event as `userId` with no permission name or signature;
  - `handleDisconnect` does nothing.

## Model

| member | source | states |
|---|---|---|
| Query.Matching | src/db/events.js:65-66 | a `find` returns only documents of the collection that match, never more than there are |
| Query.MatchingComplete | src/db/events.js:65-66 | every matching document of the collection is returned by `find` |
| Query.Take | src/db/events.js:68 | the limited result is a prefix of the input of exactly min(n, limit) elements |
| Query.Window | src/db/comments.js:99-104 | `find().skip().limit()` returns at most `limit` matching documents of the collection |
| Query.Find | src/db/comments.js:99-104 | the cursor loop collects exactly the skip/limit window of the matches |
| Query.WindowOfPrefix | src/db/comments.js:99-104 | the window is complete once the scanned prefix has filled it, so the loop may stop early |
| Query.MatchingPrefix | src/db/comments.js:99-104 | matches of a prefix of the collection are a prefix of all matches (the cursor keeps collection order) |
| Query.FirstIndex | src/db/users.js:95-98 | `findOne` picks the first matching document: it matches and no earlier one does, or none matches |
| Query.FindOne | src/db/users.js:95-98 | `findOne` returns a document iff one matches, and what it returns is a matching document of the collection |
| Documents.ReplaceKeepsUnique | src/db/client.js:34 | replacing a user document by one with the same pubkey keeps the unique pubkey index satisfied |
| Documents.PermissionRecord | src/db/events.js:38 | the permission lookup by pubkey returns a record with that pubkey, and nothing iff there is none |
| Events.Stamped | src/db/events.js:55 | the stored event is the input with `servertimestamp` set and nothing else changed |
| Events.EventService.CreateEvent | src/db/events.js:24-60 | on admission exactly the stamped event is appended and returned; on any failure nothing is inserted and the first failing check is reported |
| Events.EventService.ReadEvents | src/db/events.js:63-70 | the skip-free window of matching events: at most `limit` of them, at most 1000 when no limit is passed, all from the collection and matching the filter |
| Events.EventService.GetEventsByTags | src/db/events.js:73-75 | every returned event carries at least one of the given tags (`$in`) |
| Events.TimeCheckRejectsIff | src/db/events.js:31-35 | the time check rejects iff the date is valid and abs(floor(now/1000) − created_at) > 300000 |
| Events.TimeBoundary | src/db/events.js:31-35 | a difference of exactly 300000 passes, 300001 fails |
| Events.SecondsAgainstMillisecondConstant | src/db/events.js:32-33 | a day-old event in seconds passes, while a millisecond timestamp fails, because seconds are compared with a millisecond constant |
| Events.MissingCreatedAtPassesTimeCheck | src/db/events.js:31-35 | a missing `created_at` gives NaN and never fails the time check |
| Events.UnknownAuthorRejected | src/db/events.js:38-41 | an author with no permission record is rejected |
| Events.PermissionIsEquality | src/db/events.js:43-45 | a non-admin is refused iff its `permissions` value differs from `CREATE_EVENTS` |
| Events.AdminSkipsPermission | src/db/events.js:43 | the admin pubkey is never refused for lack of permission |
| Events.BadSignatureRejected | src/db/events.js:48-52 | once the earlier checks pass, a failed signature rejects the event |
| Events.AdmittedIff | src/db/events.js:31-52 | an event is admitted iff time, user, permission and signature checks all pass |
| Comments.Live | src/db/comments.js:124-127 | the `{id, isDeleted: false}` lookup finds a comment with that id and `isDeleted` false, and nothing iff there is none |
| Comments.Target | src/db/comments.js:150-151 | `updateOne({id})` targets the first comment with that id |
| Comments.PageOffset | src/db/comments.js:86-90 | the offset is never negative and a given non-negative offset is used as is |
| Comments.CommentService.CreateComment | src/db/comments.js:23-69 | the status follows the check chain; on success exactly the comment plus `servertimestamp` is appended and its id returned; otherwise nothing changes |
| Comments.CommentService.ReadComments | src/db/comments.js:76-112 | the result is the skip/limit window of comments matching user and all tags |
| Comments.CommentService.UpdateComment | src/db/comments.js:119-162 | only on success the first comment with the id gets the new content, `updateTime` and `updated_at`; otherwise nothing changes |
| Comments.CommentService.DeleteComment | src/db/comments.js:169-214 | only on success the comment is marked deleted, and its live direct children too when the admin asks for a cascade |
| Comments.CommentService.MarkReplies | src/db/comments.js:206-211 | the cascade loop leaves exactly the `Cascaded` collection |
| Comments.CommentService.UpdateLikeCount | src/db/comments.js:221-252 | a missing comment gives 404 and no change; otherwise `likeCount` moves by +1 or −1 and the new count is returned |
| Comments.CommentService.Counts | src/db/comments.js:259-267 | the count is the number of matching comments and is non-zero when one matches |
| Comments.LastById | src/db/comments.js:279-281 | the id map has one entry per distinct comment id, and each id maps to the last comment with that id (a later `set` overwrites an earlier one) |
| Comments.BuildNestedComments | src/db/comments.js:274-295 | the roots and reply lists are exactly `RootIds` / `ReplyIds` of the input |
| Comments.IndexComments | src/db/comments.js:279-281 | the first loop maps every id to its (last) comment with an empty reply list |
| Comments.LinkReplies | src/db/comments.js:284-292 | the second loop collects roots and replies in input order |
| Comments.LinksStep | src/db/comments.js:285-290 | one comment adds itself to its parent's replies when nested, and changes nothing otherwise |
| Comments.RootListIff | src/db/comments.js:285-291 | a comment id is listed as a root iff some such comment is not nested |
| Comments.ReplyListIff | src/db/comments.js:285-287 | an id is listed under a parent iff such a comment is nested under that parent |
| Comments.RootIff | src/db/comments.js:285-291 | a comment is a root iff it has no `parentId` or its parent is not in the input |
| Comments.ReplyIff | src/db/comments.js:285-287 | a comment is a reply of `p` iff its `parentId` is `p` and `p` is in the input |
| Comments.MutualParentsLeaveNoRoot | src/db/comments.js:285-291 | two comments that name each other as parent yield no root at all |
| Comments.CreateOrder | src/db/comments.js:28-57 | checks run time (500), user (500), signature (500), empty text (400), and only 200/400/500 occur |
| Comments.CreateTimeBoundary | src/db/comments.js:29-33 | 300000 ms of skew passes and 300001 ms fails |
| Comments.WhitespaceCommentRefused | src/db/comments.js:55-57 | a comment of whitespace only is refused with 400 |
| Comments.AccessGates | src/db/comments.js:124-136 | 404 iff no live comment has the id; 403 iff the caller is neither its author nor the admin |
| Comments.UnflaggedCommentIsUnreachable | src/db/comments.js:60-67 | a new comment without `isDeleted` cannot later be found for update or delete |
| Comments.TargetIsLiveWhenIdsUnique | src/db/comments.js:124-151 | with unique ids the updated document is the one that was looked up |
| Comments.CascadeOnlyDirectChildren | src/db/comments.js:207-210 | the cascade marks live direct children and touches nothing that is not a child |
| Comments.LikeMovesByOne | src/db/comments.js:236-243 | a like adds exactly one and an unlike then restores the count |
| Comments.PagingDefaults | src/db/comments.js:85-104 | without a limit or a positive offset the query reads the first 100 matching comments (all when fewer); a negative offset reads the same page as no offset |
| Comments.FilterIff | src/db/comments.js:81-82 | a comment matches iff it has the user and all tags; an empty tag list matches nothing |
| Likes.SetTagsValue | src/db/likes.js:56-65 | the loop overwrites only the first tag with the key, reports whether it found one, and changes nothing when not |
| Likes.FirstIndexAt | src/db/likes.js:58-63 | the first index with the key is the one the loop stops at |
| Likes.LikeService.ToggleLike | src/db/likes.js:24-106 | the new likes collection and the status are those of `Toggle` on the old collection |
| Likes.LikeService.ReadLikes | src/db/likes.js:113-135 | 400 iff the code is not 603, otherwise exactly the matching like records |
| Likes.LikeService.Counts | src/db/likes.js:142-150 | the count is the number of matching likes, zero iff none matches |
| Likes.CodeGateFirst | src/db/likes.js:31-33 | a code other than 600 gets 400 before any other check and changes nothing |
| Likes.CheckOrder | src/db/likes.js:36-48 | after the code, time then user then signature are checked, each failing with 500 and no change |
| Likes.TagValueFirst | src/db/likes.js:51-54 | the first tag with the key decides the value |
| Likes.SetThenGet | src/db/likes.js:56-65 | after setting, reading gives the new value, and every other tag is unchanged |
| Likes.SetWithoutKey | src/db/likes.js:56-65 | without the key, setting yields `undefined` and reading gives '' |
| Likes.FlipValues | src/db/likes.js:78-82 | on sample values: 0, `''`, `"0"` and `false` become 1, while 1, 7, `null` and `true` become 0 |
| Likes.ExistingLikeIff | src/db/likes.js:67-72 | a record is an existing like iff it has the same user and contains all the request's tags |
| Likes.FirstLikeInserted | src/db/likes.js:95-104 | with no existing like the event is inserted with `['liked',1]` appended, and liked is 1 |
| Likes.FirstLikeKeepsEarlierLikedTag | src/db/likes.js:97 | a request that already carries `liked` keeps that value first, so the pushed tag is shadowed |
| Likes.FirstLikeWithoutTagsThrows | src/db/likes.js:97 | a first like without tags throws and inserts nothing |
| Likes.TagsSurviveSet | src/db/likes.js:83 | rewriting `liked` keeps every requested tag that is not `liked` |
| Likes.ToggleExisting | src/db/likes.js:75-94 | an existing like gets its first `liked` tag flipped and `updateTime` set, and the reply reports the new value |
| Likes.SetLikedTwice | src/db/likes.js:78-83 | setting `liked` to 1−b and back to b restores the tag list |
| Likes.StillFirst | src/db/likes.js:67-88 | after the update the same record is still the first existing like |
| Likes.ToggleTwiceRestores | src/db/likes.js:75-94 | for a request whose tags carry no `liked` key: toggling twice on a record whose liked is 0 or 1 restores its tags, changing only `updateTime` |
| Likes.ToggleTwiceWithPinnedLiked | src/db/likes.js:67-104 | for a request carrying `["liked", b]`: the first toggle flips the stored like to 1−b, after which nothing matches, so the second toggle inserts a new like with liked 1 |
| Users.EmailPatternIff | src/db/users.js:33 | the email test holds iff some substring matches `\S+@\S+\.\S+` |
| Users.EmailExamples | src/db/users.js:33 | `a@b.c` and an address inside text pass; `a@b` and `@b.c` fail |
| Users.Stripped | src/db/users.js:111-112 | `pubkey` and `email` are removed exactly when truthy; every other field is kept as is |
| Users.UserService.CreateUser | src/db/users.js:22-80 | a failed check reports its error and inserts nothing; otherwise exactly the new document is inserted, and the unique index still holds |
| Users.UserService.ReadUsers | src/db/users.js:81-92 | at most `limit` (default 1000) users, all matching the filter |
| Users.UserService.GetUserByPubkey | src/db/users.js:95-98 | a user is returned iff one has the pubkey, and it is a stored user with that pubkey |
| Users.UserService.UpdateUser | src/db/users.js:107-129 | the new users and the result are those of `Update`, and the unique index still holds |
| Users.UserService.DeleteUser | src/db/users.js:132-138 | the first user with the pubkey gets the tombstone, no record is removed, and the counts report match and change |
| Users.TombstoneKeepsKeys | src/db/users.js:134-137 | a logical delete keeps the pubkey and the unique index |
| Users.RequiredFieldOrder | src/db/users.js:28-35 | missing pubkey, then missing email, then missing signature, then an invalid email, in that order |
| Users.SignatureBeforeLookups | src/db/users.js:40-43 | a bad signature fails before any lookup, whatever the collection holds |
| Users.DuplicatesRefused | src/db/users.js:46-76 | a registration that passes never duplicates an email or a pubkey |
| Users.DuplicateEmailRefused | src/db/users.js:52-55 | a registered email is refused |
| Users.KeylessUserBlocksRegistration | src/db/users.js:46-49 | one stored user without a pubkey makes every registration fail as "pubkey taken" |
| Users.NewUserShape | src/db/users.js:58-63 | the stored document holds exactly pubkey, email and two timestamps, and no signature |
| Users.RegistrationKeepsKeysUnique | src/db/users.js:66-67 | inserting the new user keeps pubkeys unique |
| Users.UpdateKeepsTruthyKeys | src/db/users.js:111-112 | a truthy new pubkey or email is never written |
| Users.FalsyEmailIsWritten | src/db/users.js:112 | an empty email in the update does overwrite the stored email |
| Users.EmptyUpdateWritesNothing | src/db/users.js:115-117 | with nothing left to set, nothing is written and the current user is returned |
| Users.OnlyKeysIsEmpty | src/db/users.js:111-115 | an update of truthy pubkey and email leaves nothing to set |
| Users.UpdateKeepsKeysUnique | src/db/users.js:120-126 | every update keeps pubkeys unique |
| Users.DeleteIsLogical | src/db/users.js:134-137 | delete sets `status` to 'deleted' and `updatedAt` and keeps every other field |
| Permissions.Without | src/db/permissions.js:177 | `$pull` removes every occurrence of the id and keeps all other ids |
| Permissions.PermissionService.VerifyAdminSignature | src/db/permissions.js:22-45 | accepts iff the admin is a registered user and the signature verifies; it never throws |
| Permissions.PermissionService.InitDefaultPermissions | src/db/permissions.js:48-99 | the new collection and result are those of `Init` |
| Permissions.PermissionService.AssignPermission | src/db/permissions.js:102-145 | the users and result are those of `Assigned`, and the unique index still holds |
| Permissions.PermissionService.RevokePermission | src/db/permissions.js:148-191 | the users and result are those of `Revoked`, and the unique index still holds |
| Permissions.PermissionService.GetUserPermissions | src/db/permissions.js:194-225 | the result is `UserPermissions` of the collections |
| Permissions.PermissionService.HasPermission | src/db/permissions.js:228-238 | true iff some permission of the user has the name; a failed lookup is rethrown |
| Permissions.RewriteKeepsKeys | src/db/permissions.js:128-134 | rewriting the permission list keeps pubkeys unique |
| Permissions.AdminNeverAcceptedAsWritten | src/db/permissions.js:22-45 | as written, even a registered admin with a valid signature is refused |
| Permissions.UnregisteredAdminRefused | src/db/permissions.js:25-28 | an admin key not in the users collection is refused |
| Permissions.InitOnce | src/db/permissions.js:53-94 | a bad signature, then an existing record, fail; success inserts exactly admin, user and guest into an empty collection, and a second init fails |
| Permissions.AssignIsSetAdd | src/db/permissions.js:131 | `$addToSet` adds the id, keeps every other id and introduces no duplicate |
| Permissions.ReassignKeepsList | src/db/permissions.js:131 | re-assigning a held permission leaves the list unchanged |
| Permissions.ReassignStillModifies | src/db/permissions.js:128-139 | re-assigning still reports one modified document because `updatedAt` changes |
| Permissions.RevokeRemoves | src/db/permissions.js:177 | revoke removes the id and nothing else; revoking one the user lacks changes nothing |
| Permissions.WithoutAbsent | src/db/permissions.js:177 | pulling an absent id leaves the list as it was |
| Permissions.AssignThenRevokeRestores | src/db/permissions.js:128-180 | assigning a new permission and revoking it restores the list |
| Permissions.UnknownNameBeforeSignature | src/db/permissions.js:102-158 | an unknown permission name fails before the signature check and changes nothing |
| Permissions.UserPermissionsExact | src/db/permissions.js:216-218 | the result holds exactly the permission records whose `_id` is in the user's list |
| Permissions.UserPermissionsEdges | src/db/permissions.js:200-213 | an unknown user fails; a missing or empty list gives [] |
| Server.EventObject | src/server.js:82 | the event passed as `userId` is a plain object carrying the event's id |
| Server.SafePayload | src/server.js:151-157 | `undefined` and `null` become an empty list and a list is sent unchanged |
| Server.WebSocketServer.constructor | src/server.js:9-15 | the dispatcher creates its three services over one shared database |
| Server.WebSocketServer.HandleResp | src/server.js:149-161 | exactly one `["RESP", id, payload]` frame is sent |
| Server.WebSocketServer.HandleMessage | src/server.js:50-147 | the routed service call runs with its stated effect; only R/203 sends a frame; every failure is absorbed |
| Server.FormatCheckedFirst | src/server.js:56-58 | a message without `ops` or with a missing or zero `code` fails before routing |
| Server.RoutingTable | src/server.js:63-135 | C/100, C/200, C/300, R/103, R/203, U/101 and D/102 reach their services |
| Server.AlwaysFailing | src/server.js:77-133 | U/201 and D/202 fail as not implemented; C/203 fails on the undefined service |
| Server.UnlistedCodes | src/server.js:63-137 | an unknown `ops` fails; an unlisted code of a known `ops` calls nothing |
| Server.OnlyEventReadReplies | src/server.js:95-100 | a reply is sent iff the message is R/203 |
| Server.AssignFromDispatcherChangesNoUser | src/server.js:82 | C/300 never changes a user, because no stored key equals the event object |
| HttpFile.Normalize | src/httpfile.js:16 | `path.normalize` of an absolute path is absolute |
| HttpFile.NormalizeIdempotent | src/httpfile.js:15-19 | normalising a normalised path changes nothing |
| HttpFile.ContainmentIff | src/httpfile.js:15-23 | the check passes iff the resolved path lies below `STATIC_DIR`, so a `..` escape gets 403 |
| HttpFile.RenderPrefixIff | src/httpfile.js:19 | `startsWith` on normalised paths is a segment-prefix test |
| HttpFile.PrefixJoin | src/httpfile.js:19 | a directory string with trailing `/` prefixes a path iff its segments prefix the path's segments |
| HttpFile.PlainRequestServed | src/httpfile.js:12-19 | an ordinary `/a/b/c` is served from `STATIC_DIR` + `a/b/c` |
| HttpFile.RootServesIndex | src/httpfile.js:12 | `/` serves `index.html` |
| HttpFile.ParentRefused | src/httpfile.js:15-23 | `/..` gets 403 |
| HttpFile.RootDirServesAll | src/httpfile.js:8-23 | when `__dirname` lies one level below `/`, `STATIC_DIR` is `/` and every request passes the containment check, `/..` included |
| HttpFile.ScanIsPlain | src/httpfile.js:16 | normalisation yields only non-empty segments other than `.` and `..` |
| HttpFile.Extname | src/httpfile.js:78 | the extension is empty or a `.` followed by no further `.` or `/` |
| HttpFile.ExtnameOfName | src/httpfile.js:78 | `stem.ext` has extension `.ext` |
| HttpFile.NoDotNoExtension | src/httpfile.js:78 | a name without a dot has no extension |
| HttpFile.DotFileNoExtension | src/httpfile.js:78 | a dot file has no extension |
| HttpFile.ContentTypeIgnoresCase | src/httpfile.js:78 | extensions that agree up to case give the same type |
| HttpFile.MimeTable | src/httpfile.js:79-92 | exactly the eleven listed extensions have their own type; `.jpg` and `.jpeg` share `image/jpeg` |
| HttpFile.NoExtensionType | src/httpfile.js:91 | a name without an extension is served as `application/octet-stream` |

## Left out

- I/O and lifecycle: the MongoDB connection and index creation, except the
  unique pubkey index (src/db/client.js:34), which is kept as `Database.Valid`.
  Also left out are WebSocket `start`, `handleConnection`, `close` and signal
  handling, `fs.statSync`, the directory check and file streaming, the 404 and
  500 answers of `serveFile`, and logging.
- Cryptography: `verifyEvent` and the SHA-256 plus secp256k1 check of
  `verifyAdminSignature` are a function-typed parameter. src/utils/key.js is
  not part of this model.
- The clock is a parameter `now` (milliseconds), read once per operation.
  The source reads it again for each `new Date()`.
- The error message strings; only error kinds and numeric codes are modelled.
- `getUserByEmail` is not part of the modelled core.
- Query.Window: the result order of `sort` is not modelled; results keep collection order.
- Events.EventService.ReadEvents: does not model the descending `timestamp` sort.
- Events.EventService.CreateEvent: does not model the unique index on `eventId` that `initDatabase` creates (src/db/client.js:28). No modelled code calls `initDatabase` or sets `eventId`. With that index in place, every event after the first would collide on a null `eventId` and `insertOne` would throw a duplicate-key error. The unique `pubkey` index is kept because `createUser` handles its duplicate-key error (src/db/users.js:66-79).
- Events.EventService.CreateEvent: returns the stamped event without the `_id` that `insertOne` adds to the object.
- Comments.CommentService.UpdateComment: like DeleteComment and UpdateLikeCount, takes the comment id as a string, and every stored comment has a string `id`. The source checks neither. A request without `commentId` queries `{ id: null }`, which matches a stored comment without an `id`; that case is not represented.
- Users.UserService.CreateUser: returns the stored document, while the source returns the result of `insertOne` (`acknowledged` and `insertedId`).
- Users.EmailAccepted: an array `email` such as `["a@b.c"]` is not accepted, while the source stringifies it to `a@b.c`, accepts it and stores the array.
- Likes.ToggleTwiceRestores: holds only for requests whose tags carry no `liked` key. When the request carries `["liked", b]`, as the documented request shape does (src/db/likes.js:21), the round trip does not happen. `Likes.ToggleTwiceWithPinnedLiked` states what happens instead.
- Likes.FlipValues: states the flip on sample values; the rule for every value is the definition of `Flip` through `Json.LooselyZero`.
- `Event.createdAt` holds an integer or nothing. A string or fractional `created_at`, which `new Date` also accepts, is not represented.
- Comments.CommentService.ReadComments: does not model the `created_at` / `likeCount` sort or `parseInt` of a string offset; the offset is an integer.
- Users.UserService.UpdateUser: assumes the driver's `findOneAndUpdate` honours `returnOriginal: false` and answers with `{value}`, so the updated document is returned.
- Json.LooselyZero: an array with elements (`[0] == 0` is true in JavaScript) counts as non-zero, and `Number()` numerals such as `0x0`, `0.0` or `0e1` are not recognised as 0.
- Server.Route: `code` is an integer. A string code such as `"100"` passes the range tests but fails `===`; that case is not modelled.
- HttpFile.ToLower: only ASCII letters are lower-cased, while `toLowerCase` maps all of Unicode.
- HttpFile.Handle: `url.parse` is taken as given (the pathname is the input). `__dirname` is an absolute POSIX path; Windows paths are not modelled.
- Non-array `tags` fields and tags that are not `[key, value]` pairs are not represented; tags are a sequence of pairs.
- `Event.code` holds an integer or nothing; values of other JSON types are not represented.

## Findings

| source | as written | input that shows it | evidently intended | confidence | as-written member | corrected member |
|---|---|---|---|---|---|---|
| src/db/permissions.js:6-25 | `require('./users')` yields the `UserService` class, which has no static `getUserByPubkey`, so the lookup throws and the `catch` returns false | a registered admin key with a valid signature on any admin action | accept when the admin is a registered user and the signature verifies | not executed | Permissions.AdminAcceptsAsWritten | Permissions.AdminAccepts |

The lemma `Permissions.AdminNeverAcceptedAsWritten` exhibits the refusal. As written, `initDefaultPermissions`, `assignPermission` and
`revokePermission` can never get past their signature check. The rest of the
model uses the intended check, so those operations have behaviour worth
stating.
