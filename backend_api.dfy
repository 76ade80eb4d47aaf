/**
 * The REST handlers of the backend: each reads its request body, validates
 * it, runs one statement against the database and answers with a status
 * and a JSON body. Every handler wraps its steps in one try/catch: a
 * validation error answers 400 with the issues, any other `Error` answers
 * 500 with its message, and a thrown value that is not an `Error` answers
 * 500 with a fixed message naming the operation.
 */
module BackendApi {
  import opened Wrappers
  import opened Schema
  import opened Validation
  import opened Persistence
  import ListOps

  /** The JSON a handler answers with. */
  datatype Body =
    | UserJson(user: User)
    | PostJson(post: Post)
    | UserListJson(users: seq<User>)
    | PostListJson(posts: seq<Post>)
    | UndefinedJson                      // `updated[0]` when the update touched no row
    | SuccessJson                        // `{ success: true }`
    | ErrorJson(message: string)         // `{ error: message }`
    | ValidationErrorJson(issues: seq<Issue>)  // `{ error: zodError }`

  datatype Response = Response(status: int, body: Body)

  /** The outcome of reading the request body: malformed JSON throws a `SyntaxError`. */
  datatype RequestBody = Malformed(message: string) | Parsed(value: Json)

  /** What reaches a handler's catch block. */
  datatype Caught = Invalid(issues: seq<Issue>) | Raised(thrown: Thrown)

  const FetchUsersFailed := "Failed to fetch users"
  const CreateUserFailed := "Failed to create user"
  const FetchPostsFailed := "Failed to fetch posts"
  const CreatePostFailed := "Failed to create post"
  const UpdateUserFailed := "Failed to update user"
  const DeleteUserFailed := "Failed to delete user"
  const UpdatePostFailed := "Failed to update post"
  const DeletePostFailed := "Failed to delete post"

  const SampleUserName := "Sample User"

  /** The catch block: the three kinds of failure and their answers. */
  function CatchResponse(c: Caught, fallback: string): (r: Response)
    ensures r.status == 400 <==> c.Invalid?
    ensures r.status == 500 <==> c.Raised?
    ensures c.Invalid? ==> r.body == ValidationErrorJson(c.issues)
    ensures c.Raised? && c.thrown.ErrorObject? ==> r.body == ErrorJson(c.thrown.message)
    ensures c.Raised? && c.thrown.NonErrorValue? ==> r.body == ErrorJson(fallback)
  {
    match c
    case Invalid(issues) => Response(400, ValidationErrorJson(issues))
    case Raised(ErrorObject(message)) => Response(500, ErrorJson(message))
    case Raised(NonErrorValue) => Response(500, ErrorJson(fallback))
  }

  /** The body read as JSON, or the error `c.req.json()` throws. */
  function ReadJson(body: RequestBody): (r: Result<Json, Thrown>)
    ensures body.Parsed? <==> r.Success?
    ensures body.Parsed? ==> r.value == body.value
    ensures body.Malformed? ==> r.error == ErrorObject(body.message)
  {
    match body
    case Parsed(v) => Success(v)
    case Malformed(m) => Failure(ErrorObject(m))
  }

  /** The validated body of a create or update, in the order the handler reaches it. */
  function Validated<T>(body: RequestBody, validate: Json -> Result<T, seq<Issue>>): (r: Result<T, Caught>)
    ensures body.Malformed? ==> r == Failure(Raised(ErrorObject(body.message)))
    ensures body.Parsed? && validate(body.value).Failure? ==> r == Failure(Invalid(validate(body.value).error))
    ensures body.Parsed? && validate(body.value).Success? ==> r == Success(validate(body.value).value)
  {
    match body
    case Malformed(m) => Failure(Raised(ErrorObject(m)))
    case Parsed(v) =>
      match validate(v)
      case Failure(issues) => Failure(Invalid(issues))
      case Success(x) => Success(x)
  }

  /** `updated[0]`: the first returned row, or undefined. */
  function FirstUser(rows: seq<User>): (r: Body)
    ensures r.UndefinedJson? <==> rows == []
    ensures rows != [] ==> r == UserJson(rows[0])
  {
    if rows == [] then UndefinedJson else UserJson(rows[0])
  }

  function FirstPost(rows: seq<Post>): (r: Body)
    ensures r.UndefinedJson? <==> rows == []
    ensures rows != [] ==> r == PostJson(rows[0])
  {
    if rows == [] then UndefinedJson else PostJson(rows[0])
  }

  /** GET /users: all rows, or 500; never 400. */
  method GetUsers(db: Database, fault: Fault) returns (resp: Response)
    ensures resp.status == 200 || resp.status == 500
    ensures resp.status == 200 <==> fault.Healthy?
    ensures fault.Healthy? ==> resp.body == UserListJson(db.users)
    ensures fault.Throws? ==> resp == CatchResponse(Raised(fault.thrown), FetchUsersFailed)
  {
    var rows := db.SelectUsers(fault);
    match rows
    case Success(all) => resp := Response(200, UserListJson(all));
    case Failure(t) => resp := CatchResponse(Raised(t), FetchUsersFailed);
  }

  /** GET /posts: all rows, or 500; never 400. */
  method GetPosts(db: Database, fault: Fault) returns (resp: Response)
    ensures resp.status == 200 || resp.status == 500
    ensures resp.status == 200 <==> fault.Healthy?
    ensures fault.Healthy? ==> resp.body == PostListJson(db.posts)
    ensures fault.Throws? ==> resp == CatchResponse(Raised(fault.thrown), FetchPostsFailed)
  {
    var rows := db.SelectPosts(fault);
    match rows
    case Success(all) => resp := Response(200, PostListJson(all));
    case Failure(t) => resp := CatchResponse(Raised(t), FetchPostsFailed);
  }

  /** POST /users: validate, insert one row, answer 201 with it. */
  method CreateUser(db: Database, body: RequestBody, now: nat, fault: Fault) returns (resp: Response)
    requires db.Valid()
    modifies db
    ensures db.Valid()
    ensures db.posts == old(db.posts) && db.nextPostId == old(db.nextPostId)
    ensures resp.status == 201 || resp.status == 400 || resp.status == 500
    ensures var v := Validated(body, ValidateNewUser);
      && (v.Failure? ==> resp == CatchResponse(v.error, CreateUserFailed))
      && (v.Success? && fault.Throws? ==> resp == CatchResponse(Raised(fault.thrown), CreateUserFailed))
      && (resp.status == 201 <==> v.Success? && fault.Healthy?)
      && (resp.status == 201 ==>
            && resp.body == UserJson(UserRow(old(db.nextUserId), v.value, now))
            && db.users == old(db.users) + [UserRow(old(db.nextUserId), v.value, now)]
            && db.nextUserId == old(db.nextUserId) + 1)
    ensures resp.status != 201 ==> db.users == old(db.users) && db.nextUserId == old(db.nextUserId)
  {
    var v := Validated(body, ValidateNewUser);
    if v.Failure? {
      return CatchResponse(v.error, CreateUserFailed);
    }
    var inserted := db.InsertUser(v.value, now, fault);
    match inserted
    case Success(row) => resp := Response(201, UserJson(row));
    case Failure(t) => resp := CatchResponse(Raised(t), CreateUserFailed);
  }

  /**
   * POST /posts: validate, insert one row, answer 201 with it. An unknown
   * author is the database's foreign-key error, answered 500; no row is
   * stored.
   */
  method CreatePost(db: Database, body: RequestBody, now: nat, fault: Fault) returns (resp: Response)
    requires db.Valid()
    modifies db
    ensures db.Valid()
    ensures db.users == old(db.users) && db.nextUserId == old(db.nextUserId)
    ensures resp.status == 201 || resp.status == 400 || resp.status == 500
    ensures var v := Validated(body, ValidateNewPost);
      && (v.Failure? ==> resp == CatchResponse(v.error, CreatePostFailed))
      && (v.Success? && fault.Throws? ==> resp == CatchResponse(Raised(fault.thrown), CreatePostFailed))
      && (v.Success? && fault.Healthy? && !ListOps.HasKey(old(db.users), UserKey, v.value.userId) ==>
            resp == Response(500, ErrorJson(ForeignKeyInsertMessage)))
      && (resp.status == 201 <==> v.Success? && fault.Healthy? && ListOps.HasKey(old(db.users), UserKey, v.value.userId))
      && (resp.status == 201 ==>
            && resp.body == PostJson(PostRow(old(db.nextPostId), v.value, now))
            && db.posts == old(db.posts) + [PostRow(old(db.nextPostId), v.value, now)])
      && (v.Failure? || fault.Throws? ==> db.nextPostId == old(db.nextPostId))
      && (v.Success? && fault.Healthy? ==> db.nextPostId == old(db.nextPostId) + 1)
    ensures resp.status != 201 ==> db.posts == old(db.posts)
  {
    var v := Validated(body, ValidateNewPost);
    if v.Failure? {
      return CatchResponse(v.error, CreatePostFailed);
    }
    var inserted := db.InsertPost(v.value, now, fault);
    match inserted
    case Success(row) => resp := Response(201, PostJson(row));
    case Failure(t) => resp := CatchResponse(Raised(t), CreatePostFailed);
  }

  /**
   * PUT /users/:id: validate the partial body, merge the supplied fields
   * into the row with that id, answer with that row, or with undefined when
   * no row has the id.
   */
  method UpdateUser(db: Database, id: int, body: RequestBody, fault: Fault) returns (resp: Response)
    requires db.Valid()
    modifies db
    ensures db.Valid()
    ensures db.posts == old(db.posts) && db.nextUserId == old(db.nextUserId) && db.nextPostId == old(db.nextPostId)
    ensures resp.status == 200 || resp.status == 400 || resp.status == 500
    ensures var v := Validated(body, ValidateUserPatch);
      && (v.Failure? ==> resp == CatchResponse(v.error, UpdateUserFailed))
      && (v.Success? && v.value == NoUserChange ==> resp == Response(500, ErrorJson(NoValuesToSetMessage)))
      && (v.Success? && v.value != NoUserChange && fault.Throws? ==>
            resp == CatchResponse(Raised(fault.thrown), UpdateUserFailed))
      && (resp.status == 200 <==> v.Success? && v.value != NoUserChange && fault.Healthy?)
      && (resp.status == 200 ==>
            && db.users == ListOps.UpdateWhere(old(db.users), UserKey, id, MergeUser, v.value)
            && resp.body == match ListOps.Find(old(db.users), UserKey, id)
                            case Some(u) => UserJson(MergeUser(u, v.value))
                            case None => UndefinedJson)
    ensures resp.status != 200 || !ListOps.HasKey(old(db.users), UserKey, id) ==> db.users == old(db.users)
  {
    var v := Validated(body, ValidateUserPatch);
    if v.Failure? {
      return CatchResponse(v.error, UpdateUserFailed);
    }
    if !ListOps.HasKey(db.users, UserKey, id) {
      ListOps.UpdateWhereAbsent(db.users, UserKey, id, MergeUser, v.value);
    }
    var updated := db.UpdateUsers(id, v.value, fault);
    match updated
    case Success(rows) => resp := Response(200, FirstUser(rows));
    case Failure(t) => resp := CatchResponse(Raised(t), UpdateUserFailed);
  }

  /**
   * PUT /posts/:id: as PUT /users/:id; a supplied userId naming no user is
   * the database's foreign-key error, answered 500, when a row matches.
   */
  method UpdatePost(db: Database, id: int, body: RequestBody, fault: Fault) returns (resp: Response)
    requires db.Valid()
    modifies db
    ensures db.Valid()
    ensures db.users == old(db.users) && db.nextUserId == old(db.nextUserId) && db.nextPostId == old(db.nextPostId)
    ensures resp.status == 200 || resp.status == 400 || resp.status == 500
    ensures var v := Validated(body, ValidatePostPatch);
      && (v.Failure? ==> resp == CatchResponse(v.error, UpdatePostFailed))
      && (v.Success? && v.value == NoPostChange ==> resp == Response(500, ErrorJson(NoValuesToSetMessage)))
      && (v.Success? && v.value != NoPostChange && fault.Throws? ==>
            resp == CatchResponse(Raised(fault.thrown), UpdatePostFailed))
      && (v.Success? && v.value != NoPostChange && fault.Healthy? && BreaksAuthor(old(db.users), old(db.posts), id, v.value) ==>
            resp == Response(500, ErrorJson(ForeignKeyInsertMessage)))
      && (resp.status == 200 <==>
            v.Success? && v.value != NoPostChange && fault.Healthy? && !BreaksAuthor(old(db.users), old(db.posts), id, v.value))
      && (resp.status == 200 ==>
            && db.posts == ListOps.UpdateWhere(old(db.posts), PostKey, id, MergePost, v.value)
            && resp.body == match ListOps.Find(old(db.posts), PostKey, id)
                            case Some(p) => PostJson(MergePost(p, v.value))
                            case None => UndefinedJson)
    ensures resp.status != 200 || !ListOps.HasKey(old(db.posts), PostKey, id) ==> db.posts == old(db.posts)
  {
    var v := Validated(body, ValidatePostPatch);
    if v.Failure? {
      return CatchResponse(v.error, UpdatePostFailed);
    }
    if !ListOps.HasKey(db.posts, PostKey, id) {
      ListOps.UpdateWhereAbsent(db.posts, PostKey, id, MergePost, v.value);
    }
    var updated := db.UpdatePosts(id, v.value, fault);
    match updated
    case Success(rows) => resp := Response(200, FirstPost(rows));
    case Failure(t) => resp := CatchResponse(Raised(t), UpdatePostFailed);
  }

  /**
   * DELETE /users/:id: success whether or not a row had the id; never 400.
   * A user still named by a post is kept and the database's foreign-key
   * error is answered 500.
   */
  method DeleteUser(db: Database, id: int, fault: Fault) returns (resp: Response)
    requires db.Valid()
    modifies db
    ensures db.Valid()
    ensures db.posts == old(db.posts) && db.nextUserId == old(db.nextUserId) && db.nextPostId == old(db.nextPostId)
    ensures resp.status == 200 || resp.status == 500
    ensures resp.status == 200 <==> fault.Healthy? && !ListOps.HasKey(old(db.posts), AuthorKey, id)
    ensures resp.status == 200 ==> resp.body == SuccessJson && db.users == ListOps.RemoveWhere(old(db.users), UserKey, id)
    ensures resp.status == 500 ==> db.users == old(db.users)
    ensures fault.Throws? ==> resp == CatchResponse(Raised(fault.thrown), DeleteUserFailed)
    ensures fault.Healthy? && ListOps.HasKey(old(db.posts), AuthorKey, id) ==>
              resp == Response(500, ErrorJson(ForeignKeyDeleteMessage))
  {
    var deleted := db.DeleteUsers(id, fault);
    match deleted
    case Success(_) => resp := Response(200, SuccessJson);
    case Failure(t) => resp := CatchResponse(Raised(t), DeleteUserFailed);
  }

  /** DELETE /posts/:id: success whether or not a row had the id; never 400. */
  method DeletePost(db: Database, id: int, fault: Fault) returns (resp: Response)
    requires db.Valid()
    modifies db
    ensures db.Valid()
    ensures db.users == old(db.users) && db.nextUserId == old(db.nextUserId) && db.nextPostId == old(db.nextPostId)
    ensures resp.status == 200 || resp.status == 500
    ensures resp.status == 200 <==> fault.Healthy?
    ensures resp.status == 200 ==> resp.body == SuccessJson && db.posts == ListOps.RemoveWhere(old(db.posts), PostKey, id)
    ensures resp.status == 500 ==> db.posts == old(db.posts)
    ensures fault.Throws? ==> resp == CatchResponse(Raised(fault.thrown), DeletePostFailed)
  {
    var deleted := db.DeletePosts(id, fault);
    match deleted
    case Success(_) => resp := Response(200, SuccessJson);
    case Failure(t) => resp := CatchResponse(Raised(t), DeletePostFailed);
  }

  /**
   * Startup seeding: when the users table is empty, insert one user named
   * "Sample User"; otherwise change nothing. Nothing here catches, so a
   * failing call's error is passed on.
   */
  method AddSampleUserIfNeeded(db: Database, now: nat, selectFault: Fault, insertFault: Fault)
    returns (r: Result<(), Thrown>)
    requires db.Valid()
    modifies db
    ensures db.Valid()
    ensures db.posts == old(db.posts) && db.nextPostId == old(db.nextPostId)
    ensures selectFault.Throws? ==> r == Failure(selectFault.thrown)
    ensures selectFault.Healthy? && |old(db.users)| == 0 && insertFault.Throws? ==> r == Failure(insertFault.thrown)
    ensures selectFault.Healthy? && |old(db.users)| == 0 && insertFault.Healthy? ==>
              && r == Success(())
              && db.users == [UserRow(old(db.nextUserId), NewUser(SampleUserName), now)]
              && db.nextUserId == old(db.nextUserId) + 1
    ensures selectFault.Healthy? && |old(db.users)| > 0 ==> r == Success(())
    ensures r.Failure? || |old(db.users)| > 0 ==> db.users == old(db.users) && db.nextUserId == old(db.nextUserId)
  {
    var existing := db.SelectUsers(selectFault);
    if existing.Failure? {
      return Failure(existing.error);
    }
    if |existing.value| == 0 {
      var inserted := db.InsertUser(NewUser(SampleUserName), now, insertFault);
      if inserted.Failure? {
        return Failure(inserted.error);
      }
    }
    r := Success(());
  }

  /** Creating a user and then listing yields a row with that name, a positive id and the insertion time. */
  method CreateThenListUsers(db: Database, name: string, now: nat) returns (created: Response, listed: Response)
    requires db.Valid()
    modifies db
    ensures created.status == 201 && listed.status == 200
    ensures created.body.UserJson? && listed.body.UserListJson? && created.body.user in listed.body.users
    ensures created.body.user.name == name && created.body.user.id >= 1 && created.body.user.createdAt == now
  {
    NewUserRoundTrip(NewUser(name));
    created := CreateUser(db, Parsed(EncodeNewUser(NewUser(name))), now, Healthy);
    listed := GetUsers(db, Healthy);
    assert created.body.user == db.users[|db.users| - 1];
  }

  /** Deleting the same unreferenced user twice succeeds both times. */
  method DeleteUserTwice(db: Database, id: int) returns (first: Response, second: Response)
    requires db.Valid()
    requires !ListOps.HasKey(db.posts, AuthorKey, id)
    modifies db
    ensures first == Response(200, SuccessJson) && second == Response(200, SuccessJson)
    ensures db.users == ListOps.RemoveWhere(old(db.users), UserKey, id) && !ListOps.HasKey(db.users, UserKey, id)
  {
    first := DeleteUser(db, id, Healthy);
    second := DeleteUser(db, id, Healthy);
    ListOps.RemoveWhereIdempotent(old(db.users), UserKey, id);
    ListOps.RemoveWhereKeys(old(db.users), UserKey, id, id);
  }
}
