/**
 * The database the handlers talk to, as an in-memory pair of tables with a
 * serial sequence per table. Each statement is one method; a `Fault`
 * parameter stands for the failure of the call that the model cannot see
 * (a lost connection, a driver error): a failing call throws and changes
 * nothing. The foreign key `posts.user_id -> users.id` is checked by the
 * statements themselves, as the database does.
 */
module Persistence {
  import opened Wrappers
  import opened Schema
  import ListOps

  /** What a call throws: an `Error` object with its message, or a value that is not an `Error`. */
  datatype Thrown = ErrorObject(message: string) | NonErrorValue

  /** The injected outcome of one database call. */
  datatype Fault = Healthy | Throws(thrown: Thrown)

  /** The database's messages for the two ways of breaking `posts.user_id -> users.id`. */
  const ForeignKeyInsertMessage: string :=
    "insert or update on table \"posts\" violates foreign key constraint \"posts_user_id_users_id_fk\""
  const ForeignKeyDeleteMessage: string :=
    "update or delete on table \"users\" violates foreign key constraint \"posts_user_id_users_id_fk\" on table \"posts\""

  /** What the query builder throws for an update whose patch sets no column. */
  const NoValuesToSetMessage: string := "No values to set"

  class Database {
    var users: seq<User>
    var posts: seq<Post>
    /** The next value of each table's serial sequence. */
    var nextUserId: int
    var nextPostId: int

    ghost predicate Valid()
      reads this
    {
      TablesValid(users, posts, nextUserId, nextPostId)
    }

    /** Empty tables, both sequences at 1. */
    constructor ()
      ensures Valid()
      ensures users == [] && posts == [] && nextUserId == 1 && nextPostId == 1
    {
      users, posts := [], [];
      nextUserId, nextPostId := 1, 1;
    }

    /** `select * from users`. */
    method SelectUsers(fault: Fault) returns (r: Result<seq<User>, Thrown>)
      ensures fault.Healthy? ==> r == Success(users)
      ensures fault.Throws? ==> r == Failure(fault.thrown)
    {
      if fault.Throws? {
        return Failure(fault.thrown);
      }
      r := Success(users);
    }

    /** `select * from posts`. */
    method SelectPosts(fault: Fault) returns (r: Result<seq<Post>, Thrown>)
      ensures fault.Healthy? ==> r == Success(posts)
      ensures fault.Throws? ==> r == Failure(fault.thrown)
    {
      if fault.Throws? {
        return Failure(fault.thrown);
      }
      r := Success(posts);
    }

    /** `insert into users ... returning *`: the id comes from the sequence, created_at from the clock. */
    method InsertUser(u: NewUser, now: nat, fault: Fault) returns (r: Result<User, Thrown>)
      requires Valid()
      modifies this
      ensures Valid()
      ensures posts == old(posts) && nextPostId == old(nextPostId)
      ensures fault.Throws? ==> r == Failure(fault.thrown) && users == old(users) && nextUserId == old(nextUserId)
      ensures fault.Healthy? ==>
                && r == Success(UserRow(old(nextUserId), u, now))
                && users == old(users) + [r.value]
                && nextUserId == old(nextUserId) + 1
      ensures r.Success? ==> r.value.id >= 1 && !ListOps.HasKey(old(users), UserKey, r.value.id)
    {
      if fault.Throws? {
        return Failure(fault.thrown);
      }
      var row := UserRow(nextUserId, u, now);
      InsertUserValid(users, posts, nextUserId, nextPostId, u, now);
      users := users + [row];
      nextUserId := nextUserId + 1;
      r := Success(row);
    }

    /**
     * `insert into posts ... returning *`. A user_id naming no user is a
     * foreign-key violation: nothing is inserted, but the serial value drawn
     * for the row is spent.
     */
    method InsertPost(p: NewPost, now: nat, fault: Fault) returns (r: Result<Post, Thrown>)
      requires Valid()
      modifies this
      ensures Valid()
      ensures users == old(users) && nextUserId == old(nextUserId)
      ensures fault.Throws? ==> r == Failure(fault.thrown) && posts == old(posts) && nextPostId == old(nextPostId)
      ensures fault.Healthy? && !ListOps.HasKey(old(users), UserKey, p.userId) ==>
                && r == Failure(ErrorObject(ForeignKeyInsertMessage))
                && posts == old(posts)
                && nextPostId == old(nextPostId) + 1
      ensures fault.Healthy? && ListOps.HasKey(old(users), UserKey, p.userId) ==>
                && r == Success(PostRow(old(nextPostId), p, now))
                && posts == old(posts) + [r.value]
                && nextPostId == old(nextPostId) + 1
      ensures r.Success? ==> r.value.id >= 1 && !ListOps.HasKey(old(posts), PostKey, r.value.id)
    {
      if fault.Throws? {
        return Failure(fault.thrown);
      }
      var id := nextPostId;
      SkipPostIdValid(users, posts, nextUserId, nextPostId);
      nextPostId := nextPostId + 1;
      if !ListOps.HasKey(users, UserKey, p.userId) {
        return Failure(ErrorObject(ForeignKeyInsertMessage));
      }
      var row := PostRow(id, p, now);
      InsertPostValid(users, posts, nextUserId, id, p, now);
      posts := posts + [row];
      r := Success(row);
    }

    /**
     * `update users set ... where id = :id returning *`: the rows returned are
     * the updated ones. A patch that sets nothing is refused before any
     * statement is sent.
     */
    method UpdateUsers(id: int, patch: UserPatch, fault: Fault) returns (r: Result<seq<User>, Thrown>)
      requires Valid()
      requires patch.id.None?
      modifies this
      ensures Valid()
      ensures posts == old(posts) && nextUserId == old(nextUserId) && nextPostId == old(nextPostId)
      ensures patch == NoUserChange ==> r == Failure(ErrorObject(NoValuesToSetMessage)) && users == old(users)
      ensures patch != NoUserChange && fault.Throws? ==> r == Failure(fault.thrown) && users == old(users)
      ensures patch != NoUserChange && fault.Healthy? ==>
                && users == ListOps.UpdateWhere(old(users), UserKey, id, MergeUser, patch)
                && r == Success(ListOps.Where(users, UserKey, id))
                && r.value == match ListOps.Find(old(users), UserKey, id)
                              case Some(u) => [MergeUser(u, patch)]
                              case None => []
    {
      if patch == NoUserChange {
        return Failure(ErrorObject(NoValuesToSetMessage));
      }
      if fault.Throws? {
        return Failure(fault.thrown);
      }
      UpdateUsersValid(users, posts, nextUserId, nextPostId, id, patch);
      UserPatchKeepsKey(patch);
      ListOps.UpdatedRows(users, UserKey, id, MergeUser, patch);
      users := ListOps.UpdateWhere(users, UserKey, id, MergeUser, patch);
      r := Success(ListOps.Where(users, UserKey, id));
    }

    /**
     * `update posts set ... where id = :id returning *`. A supplied user_id
     * naming no user violates the foreign key, but only when a row is
     * actually updated. A patch that sets nothing is refused before any
     * statement is sent.
     */
    method UpdatePosts(id: int, patch: PostPatch, fault: Fault) returns (r: Result<seq<Post>, Thrown>)
      requires Valid()
      requires patch.id.None?
      modifies this
      ensures Valid()
      ensures users == old(users) && nextUserId == old(nextUserId) && nextPostId == old(nextPostId)
      ensures patch == NoPostChange ==> r == Failure(ErrorObject(NoValuesToSetMessage)) && posts == old(posts)
      ensures patch != NoPostChange && fault.Throws? ==> r == Failure(fault.thrown) && posts == old(posts)
      ensures patch != NoPostChange && fault.Healthy? && BreaksAuthor(old(users), old(posts), id, patch) ==>
                r == Failure(ErrorObject(ForeignKeyInsertMessage)) && posts == old(posts)
      ensures patch != NoPostChange && fault.Healthy? && !BreaksAuthor(old(users), old(posts), id, patch) ==>
                && posts == ListOps.UpdateWhere(old(posts), PostKey, id, MergePost, patch)
                && r == Success(ListOps.Where(posts, PostKey, id))
                && r.value == match ListOps.Find(old(posts), PostKey, id)
                              case Some(p) => [MergePost(p, patch)]
                              case None => []
    {
      if patch == NoPostChange {
        return Failure(ErrorObject(NoValuesToSetMessage));
      }
      if fault.Throws? {
        return Failure(fault.thrown);
      }
      if BreaksAuthor(users, posts, id, patch) {
        return Failure(ErrorObject(ForeignKeyInsertMessage));
      }
      UpdatePostsValid(users, posts, nextUserId, nextPostId, id, patch);
      PostPatchKeepsKey(patch);
      ListOps.UpdatedRows(posts, PostKey, id, MergePost, patch);
      posts := ListOps.UpdateWhere(posts, PostKey, id, MergePost, patch);
      r := Success(ListOps.Where(posts, PostKey, id));
    }

    /**
     * `delete from users where id = :id`. With posts still naming the user
     * the foreign key (no ON DELETE action) rejects the statement.
     */
    method DeleteUsers(id: int, fault: Fault) returns (r: Result<(), Thrown>)
      requires Valid()
      modifies this
      ensures Valid()
      ensures posts == old(posts) && nextUserId == old(nextUserId) && nextPostId == old(nextPostId)
      ensures fault.Throws? ==> r == Failure(fault.thrown) && users == old(users)
      ensures fault.Healthy? && ListOps.HasKey(old(posts), AuthorKey, id) ==>
                r == Failure(ErrorObject(ForeignKeyDeleteMessage)) && users == old(users)
      ensures fault.Healthy? && !ListOps.HasKey(old(posts), AuthorKey, id) ==>
                r == Success(()) && users == ListOps.RemoveWhere(old(users), UserKey, id)
    {
      if fault.Throws? {
        return Failure(fault.thrown);
      }
      if ListOps.HasKey(posts, AuthorKey, id) {
        return Failure(ErrorObject(ForeignKeyDeleteMessage));
      }
      DeleteUsersValid(users, posts, nextUserId, nextPostId, id);
      users := ListOps.RemoveWhere(users, UserKey, id);
      r := Success(());
    }

    /** `delete from posts where id = :id`. */
    method DeletePosts(id: int, fault: Fault) returns (r: Result<(), Thrown>)
      requires Valid()
      modifies this
      ensures Valid()
      ensures users == old(users) && nextUserId == old(nextUserId) && nextPostId == old(nextPostId)
      ensures fault.Throws? ==> r == Failure(fault.thrown) && posts == old(posts)
      ensures fault.Healthy? ==> r == Success(()) && posts == ListOps.RemoveWhere(old(posts), PostKey, id)
    {
      if fault.Throws? {
        return Failure(fault.thrown);
      }
      DeletePostsValid(users, posts, nextUserId, nextPostId, id);
      posts := ListOps.RemoveWhere(posts, PostKey, id);
      r := Success(());
    }
  }

  /**
   * Updating post `id` with `patch` would leave a row naming a user that does
   * not exist: on tables whose foreign key holds, exactly the updates the
   * foreign key rejects.
   */
  predicate BreaksAuthor(users: seq<User>, posts: seq<Post>, id: int, patch: PostPatch): (r: bool)
    ensures ForeignKeysHold(users, posts) ==>
              (r <==> !ForeignKeysHold(users, ListOps.UpdateWhere(posts, PostKey, id, MergePost, patch)))
  {
    UpdateBreaksExactly(users, posts, id, patch);
    ListOps.HasKey(posts, PostKey, id) && patch.userId.Some? && !ListOps.HasKey(users, UserKey, patch.userId.value)
  }

  lemma UpdateBreaksExactly(users: seq<User>, posts: seq<Post>, id: int, patch: PostPatch)
    ensures ForeignKeysHold(users, posts) ==>
              (!ForeignKeysHold(users, ListOps.UpdateWhere(posts, PostKey, id, MergePost, patch)) <==>
               ListOps.HasKey(posts, PostKey, id) && patch.userId.Some? && !ListOps.HasKey(users, UserKey, patch.userId.value))
  {
    if !ForeignKeysHold(users, posts) { return; }
    var r := ListOps.UpdateWhere(posts, PostKey, id, MergePost, patch);
    if ListOps.HasKey(posts, PostKey, id) && patch.userId.Some? && !ListOps.HasKey(users, UserKey, patch.userId.value) {
      var j :| 0 <= j < |posts| && PostKey(posts[j]) == id;
      assert r[j].userId == patch.userId.value;
    }
    if !ForeignKeysHold(users, r) {
      var i :| 0 <= i < |r| && !ListOps.HasKey(users, UserKey, r[i].userId);
      assert PostKey(posts[i]) == id;
    }
  }
}
