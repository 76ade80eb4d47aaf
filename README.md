# Users-and-posts CRUD service: a Dafny model

This project models the two cores of a small CRUD application that manages
users and their posts.

- **The client-side entity store** (`packages/store/src/index.ts`) holds two
  lists, `users` and `posts`, and eight actions. `add*` appends a record,
  `update*` merges partial fields into every record with a given id,
  `delete*` drops every record with that id, and `set*` replaces a list.
  Here it is the class `Store.StoreState` with two `seq` fields and one
  method per action. `set*` assigns the given list and `add*` the old list
  with the record appended; `update*` and `delete*` assign the result of a
  pure transform from `ListOps`.
- **The REST handlers** (`apps/backend-api/src/index.ts`) over the database
  tables of `packages/database/schema.ts`. GET/POST `/users` and `/posts`,
  PUT/DELETE `/users/:id` and `/posts/:id`, and the startup seeding
  `addSampleUserIfNeeded` are methods of `BackendApi`. They run over
  `Persistence.Database`, an in-memory pair of tables with one serial
  sequence per table. Every database call takes a `Fault` parameter that
  injects a thrown `Error` (with its message) or a thrown non-`Error` value.
  The POST and PUT handlers read the body and validate it; every handler
  then runs one statement and picks a `Response(status, body)`. Its catch block is `BackendApi.CatchResponse`:
  a validation error answers 400, any other `Error` answers 500 with its
  message, and anything else answers 500 with the operation's fixed message.

Modules:

- `Wrappers`: `Option` and `Result`.
- `ListOps`: generic update-where, delete-where, select-where and lookup over
  a list with a key function, plus their lemmas. These are used by both the
  store and the database.
- `Schema`: the row types, partial rows and object-spread merge, and the table
  invariants. `TablesValid` says that ids are serial keys (positive, below the
  sequence, unique) and that `posts.user_id` references `users.id`.
- `Store`: the entity store.
- `Validation`: JSON bodies and the insert and partial-insert shapes.
- `Persistence`: the database.
- `BackendApi`: the handlers.

Non-null columns are plain fields of the row datatypes, so a null is not
representable. `name` is `text not null` (`schema.ts:7`), so the model
accepts the empty string as a name.

The foreign key in `schema.ts:16-18` has no `onDelete` action. The database
therefore refuses to delete a user that posts still name. The model answers
that case with a 500 and keeps the user.

A failed post insert still spends the serial value drawn for the row, because
sequences are not transactional. Updating posts with an unknown `userId` fails
only when some row matches, since the constraint is checked only on updated
rows.

Validation follows the generated insert schemas of `zod-schema.ts`: every
column of the table is checked when supplied, and the columns without a
default are required. A `timestamp` column accepts only a date object, which
a parsed JSON body never holds, so any body that supplies `createdAt` is
refused with 400. An update whose validated patch sets no column is refused
by the query builder with the `Error` "No values to set", answered 500.

## Model

| member | source | states |
|---|---|---|
| ListOps.UpdateWhere | packages/store/src/index.ts:32-42 | the mapped list has the old length; each element whose id matches is the merge of the old element with the patch; every other element is unchanged |
| ListOps.UpdateWhereAbsent | packages/store/src/index.ts:32-42 | updating with an id no element has leaves the list equal to the old one |
| ListOps.RemoveWhere | packages/store/src/index.ts:44-50 | an element survives the filter iff it was in the list and its id differs; the list never grows |
| ListOps.RemoveWhereAppend | packages/store/src/index.ts:44-50 | the filter distributes over concatenation, so survivors keep their original relative order |
| ListOps.RemoveWhereIdempotent | packages/store/src/index.ts:44-50 | deleting an id twice gives the same list as deleting it once |
| ListOps.RemoveWhereAbsent | apps/backend-api/src/index.ts:129 | deleting an id no row has leaves the list unchanged |
| ListOps.PartitionByKey | packages/store/src/index.ts:44-46 | the removed elements (those with the id) and the survivors together are exactly the old list as a multiset, so exactly the matching elements are removed |
| ListOps.Where | apps/backend-api/src/index.ts:108-112 | the rows selected by id are exactly the rows with that id |
| ListOps.Find | packages/database/schema.ts:22-27 | the lookup finds a row iff some row has the key, and a found row is in the list with that key |
| ListOps.WhereUnique | packages/database/schema.ts:6 | under a primary key, selecting by id gives at most one row, the one the lookup finds |
| ListOps.UpdatedRows | apps/backend-api/src/index.ts:108-113 | under a primary key and a patch that keeps ids, the rows the update returns are the matching row merged with the patch, or none |
| ListOps.UpdateWhereKeys | packages/database/schema.ts:6 | a key-preserving update keeps the set of keys, their uniqueness and their range |
| ListOps.RemoveWhereKeys | packages/database/schema.ts:6 | a delete keeps keys unique and in range, and keeps every key other than the deleted one |
| ListOps.AppendKeys | packages/database/schema.ts:6 | appending a row whose id is the next serial value keeps ids unique and below the advanced sequence, and that id was unused |
| ListOps.UniqueDetermines | packages/database/schema.ts:6 | under a primary key two rows with the same id are the same row |
| Schema.MergeUser | packages/store/src/index.ts:34 | each field of the merge is the patch's value when the patch supplies it and the old row's value otherwise |
| Schema.MergePost | packages/store/src/index.ts:40 | the same for every field of a post |
| Schema.MergeUserLaws | packages/store/src/index.ts:34 | merging an empty patch is the identity and a full patch replaces every field; a patch without id keeps the id; merging twice is merging once |
| Schema.MergePostLaws | packages/store/src/index.ts:40 | the same laws for posts |
| Schema.TitleOnlyPatch | apps/backend-api/src/index.ts:144-149 | a patch supplying only a title leaves content, userId, id and createdAt unchanged |
| Schema.Author | packages/database/schema.ts:22-27 | the author of a post is found iff some user has the post's userId, and it is that user |
| Schema.ExactlyOneAuthor | packages/database/schema.ts:16-27 | under the table invariants every stored post has an author, and every user whose id equals its userId is that author |
| Schema.InsertUserValid | packages/database/schema.ts:5-9 | inserting a user with the next serial id keeps the table invariants, and that id was unused |
| Schema.InsertPostValid | packages/database/schema.ts:11-18 | inserting a post with the next serial id and an existing author keeps the invariants (serial keys and the foreign key) |
| Schema.SkipPostIdValid | packages/database/schema.ts:12 | spending a serial value without inserting keeps the invariants |
| Schema.UpdateUsersValid | packages/database/schema.ts:5-18 | an update of users that supplies no id keeps keys and every post's author |
| Schema.UpdatePostsValid | packages/database/schema.ts:16-18 | an update of posts that supplies no id keeps the invariants when a supplied userId exists or no row matches |
| Schema.DeletePostsValid | packages/database/schema.ts:11-18 | deleting posts keeps the invariants |
| Schema.DeleteUsersValid | packages/database/schema.ts:16-18 | deleting a user no post names keeps every post's author |
| Store.StoreState.constructor | packages/store/src/index.ts:17-19 | the store starts with both lists empty |
| Store.StoreState.SetUsers | packages/store/src/index.ts:21 | users becomes exactly the given list; posts unchanged |
| Store.StoreState.SetPosts | packages/store/src/index.ts:22 | posts becomes exactly the given list; users unchanged |
| Store.StoreState.AddUser | packages/store/src/index.ts:24-26 | users is the old list followed by the user: one longer, old prefix intact; posts unchanged |
| Store.StoreState.AddPost | packages/store/src/index.ts:28-30 | posts is the old list followed by the post; users unchanged |
| Store.StoreState.UpdateUser | packages/store/src/index.ts:32-36 | same length; matching users take supplied fields and keep the rest; others unchanged; an unknown id changes nothing; posts unchanged |
| Store.StoreState.UpdatePost | packages/store/src/index.ts:38-42 | the same for posts; users unchanged |
| Store.StoreState.DeleteUser | packages/store/src/index.ts:44-46 | exactly the users with the id are removed, the rest stay in order, a second delete changes nothing; posts unchanged |
| Store.StoreState.DeletePost | packages/store/src/index.ts:48-50 | the same for posts; users unchanged |
| Store.DeleteUserTwice | packages/store/src/index.ts:44-46 | two deletes of one id leave the list of a single delete |
| Validation.ShapeIssues | packages/database/zod-schema.ts:5-8 | no issue iff every column of the shape conforms, and a field is flagged iff its column does not conform |
| Validation.ValidateNewUser | apps/backend-api/src/index.ts:57 | the body passes iff it is an object with a string name, an integer id if any, and no createdAt, and then yields that name; a non-object body is one root issue; otherwise exactly the offending fields are flagged; a failure carries at least one issue |
| Validation.ValidateNewPost | apps/backend-api/src/index.ts:88 | the body passes iff it is an object with string title and content, an integer userId, an integer id if any, and no createdAt; a non-object body is one root issue; otherwise exactly the offending fields are flagged |
| Validation.ValidateUserPatch | apps/backend-api/src/index.ts:107 | the body passes iff it is an object whose id and name, if present, are an integer and a string, without createdAt; the patch supplies name exactly when the body does, and never id or createdAt; exactly the offending fields are flagged, a non-object body is one root issue |
| Validation.ValidatePostPatch | apps/backend-api/src/index.ts:144 | the same for title, content and userId |
| Validation.NewUserRoundTrip | apps/backend-api/src/index.ts:56-57 | validating the JSON encoding of a new user gives it back |
| Validation.NewPostRoundTrip | apps/backend-api/src/index.ts:87-88 | validating the JSON encoding of a new post gives it back |
| Validation.UserPatchRoundTrip | apps/backend-api/src/index.ts:106-107 | validating the encoding of a patch without id and createdAt gives it back |
| Validation.PostPatchRoundTrip | apps/backend-api/src/index.ts:143-144 | the same for post patches |
| Validation.InsertShapeIsPartial | apps/backend-api/src/index.ts:88 | a body that passes the insert shape passes the partial shape and supplies every field |
| Persistence.Database.constructor | packages/database/schema.ts:5-19 | empty tables, both sequences at 1, invariants hold |
| Persistence.Database.SelectUsers | apps/backend-api/src/index.ts:43 | returns all user rows, or throws what the fault injects |
| Persistence.Database.SelectPosts | apps/backend-api/src/index.ts:74 | returns all post rows, or throws what the fault injects |
| Persistence.Database.InsertUser | apps/backend-api/src/index.ts:58 | a healthy insert appends one row with the next serial id and the insertion time and returns it; a failing one changes nothing |
| Persistence.Database.InsertPost | apps/backend-api/src/index.ts:89 | as InsertUser; an unknown userId throws the foreign-key error, stores nothing and spends the serial value |
| Persistence.Database.UpdateUsers | apps/backend-api/src/index.ts:108-112 | an empty patch throws "No values to set" and changes nothing; otherwise a healthy update merges the patch into the row with the id and returns the updated rows (the merged row or none) |
| Persistence.Database.UpdatePosts | apps/backend-api/src/index.ts:145-149 | as UpdateUsers; a supplied userId naming no user throws the foreign-key error when a row matches |
| Persistence.BreaksAuthor | packages/database/schema.ts:16-18 | on tables whose foreign key holds, an update of posts breaks it exactly when this holds: a row matches and the patch names a missing user |
| Persistence.Database.DeleteUsers | apps/backend-api/src/index.ts:129 | removes the rows with the id; a user still named by a post is kept and the foreign-key error thrown |
| Persistence.Database.DeletePosts | apps/backend-api/src/index.ts:166 | removes the rows with the id |
| BackendApi.CatchResponse | apps/backend-api/src/index.ts:60-67 | 400 with the issues iff a validation error; 500 with the message for an Error; 500 with the fixed message otherwise |
| BackendApi.ReadJson | apps/backend-api/src/index.ts:56 | a well-formed body is read as its JSON value; a malformed one throws an Error with the parser's message |
| BackendApi.Validated | apps/backend-api/src/index.ts:56-57 | a malformed body becomes an Error, an invalid one a validation failure, a valid one its parsed value |
| BackendApi.GetUsers | apps/backend-api/src/index.ts:41-51 | 200 with all users iff the select succeeds; otherwise 500 with the error's message or "Failed to fetch users"; never 400 |
| BackendApi.GetPosts | apps/backend-api/src/index.ts:72-82 | the same for posts with "Failed to fetch posts" |
| BackendApi.CreateUser | apps/backend-api/src/index.ts:54-69 | 201 iff valid and the insert succeeds, with the inserted row, which is the one row appended; 400 with the issues and no change on invalid input; 500 otherwise with no change |
| BackendApi.CreatePost | apps/backend-api/src/index.ts:85-100 | as CreateUser; an unknown author answers 500 with the foreign-key message and no post is stored; the post sequence advances iff the body is valid and the database is reachable |
| BackendApi.FirstUser | apps/backend-api/src/index.ts:113 | `updated[0]` is undefined iff no row was returned, and otherwise the first returned row |
| BackendApi.FirstPost | apps/backend-api/src/index.ts:150 | the same for posts |
| BackendApi.UpdateUser | apps/backend-api/src/index.ts:103-123 | 200 iff the body is valid, the patch sets some field and the database is healthy; only supplied fields of the matching row change and that row is returned, or undefined with no change if no row matches; an empty patch answers 500 "No values to set"; 400 or 500 with no change |
| BackendApi.UpdatePost | apps/backend-api/src/index.ts:140-160 | as UpdateUser; a supplied userId naming no user answers 500 with the foreign-key message when a row matches |
| BackendApi.DeleteUser | apps/backend-api/src/index.ts:126-137 | success whether or not a row had the id; 500 only on a thrown error (including the foreign-key refusal); never 400 |
| BackendApi.DeletePost | apps/backend-api/src/index.ts:163-174 | success whether or not a row had the id; 500 with the message or "Failed to delete post" on a thrown error; never 400 |
| BackendApi.AddSampleUserIfNeeded | apps/backend-api/src/index.ts:190-198 | inserts exactly one user named "Sample User" iff the table is empty; otherwise changes nothing; errors pass through |
| BackendApi.CreateThenListUsers | apps/backend-api/src/index.ts:41-59 | after creating a user, listing contains the created row with its name, a positive id and the insertion time |
| BackendApi.DeleteUserTwice | apps/backend-api/src/index.ts:126-137 | deleting an unreferenced user twice succeeds both times and leaves no row with the id |

## Left out

- Frontend pages, theme and data-fetching providers, the SWR hooks, the form hook and the fetch-based API client are not part of this model. They render UI or wrap foreign libraries.
- Connection pool, migrations and the drizzle configuration are left out. They are environment and I/O.
- Server startup, the connection test, `process.exit`, the HTTP listener and the logger, timing, pretty-JSON and CORS middleware are left out as I/O. The root route `/` only returns a fixed text.
- The clock and the database's own failures are parameters: `now` for `defaultNow()`, and `Fault` for each call. Timestamps are abstract naturals.
- `:id` is modelled as an already-parsed integer. `Number(...)` and `NaN` are floating-point parsing.
- JSON numbers are integers in the model. Fractional numbers and the integer-column bounds are not modelled.
- Validation.ValidateNewUser: a numeric `id` passes validation, as in the generated schema, but the model then drops it; the insert would use a client-chosen id, which is not modelled.
- Validation.ValidateNewPost: the same dropping of a validated `id` applies.
- Validation.ValidateUserPatch: the same dropping of a validated `id` applies, so a body that supplies only `id` is an empty patch in the model, while the ORM would set the id.
- Validation.ValidatePostPatch: the same dropping of a validated `id` applies.
- Issue messages from the validation library are reduced to a field path and a code (`Required`, `InvalidType`). The library's wording is not shown in the repository.
- Persistence.Database.UpdateUsers: requires a patch without an id, which validation guarantees. A primary-key change and its unique-violation path are not modelled.
- Persistence.Database.UpdatePosts: the same requirement of a patch without an id applies.
- The "No values to set" message of an empty update comes from the ORM's query builder. It does not appear in the repository.
- `select * from users` and `select * from posts` have no `order by`, so the database does not promise any order. The model returns rows in insertion order.
- The foreign-key messages reproduce PostgreSQL's wording with the ORM's default constraint name. They do not appear in the repository.
- JavaScript's object spread also copies properties explicitly set to `undefined`. A patch is a record of options here, so that case is not modelled.
- The 32-bit range of `serial` ids is not modelled; ids are unbounded integers.
