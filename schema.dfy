/**
 * The two tables of the database and the row shapes derived from them:
 * `users(id serial primary key, name text not null, created_at timestamp
 * default now() not null)` and `posts(id serial primary key, title text not
 * null, content text not null, created_at timestamp default now() not null,
 * user_id integer not null references users(id))`.
 *
 * Non-null columns are plain (non-Option) fields, so no row can hold a null.
 * Timestamps are abstract natural numbers.
 */
module Schema {
  import opened Wrappers
  import ListOps

  /** A `users` row (the select model). */
  datatype User = User(id: int, name: string, createdAt: nat)

  /** A `posts` row (the select model). */
  datatype Post = Post(id: int, title: string, content: string, createdAt: nat, userId: int)

  /** The columns a client supplies on insert: everything without a server default. */
  datatype NewUser = NewUser(name: string)
  datatype NewPost = NewPost(title: string, content: string, userId: int)

  /** `Partial<User>` and `Partial<Post>`: every column optional. */
  datatype UserPatch = UserPatch(id: Option<int>, name: Option<string>, createdAt: Option<nat>)
  datatype PostPatch = PostPatch(id: Option<int>, title: Option<string>, content: Option<string>,
                                 createdAt: Option<nat>, userId: Option<int>)

  /** The primary key of each table, and the foreign-key column of `posts`. */
  function UserKey(u: User): int { u.id }
  function PostKey(p: Post): int { p.id }
  function AuthorKey(p: Post): int { p.userId }

  /** The row a successful insert stores: the id from the serial sequence, created_at from the clock. */
  function UserRow(id: int, u: NewUser, now: nat): User
  {
    User(id, u.name, now)
  }

  function PostRow(id: int, p: NewPost, now: nat): Post
  {
    Post(id, p.title, p.content, now, p.userId)
  }

  /** Object spread `{ ...user, ...patch }`: a supplied field wins, an absent one keeps its old value. */
  function MergeUser(u: User, patch: UserPatch): (r: User)
    ensures patch.id.Some? ==> r.id == patch.id.value
    ensures patch.id.None? ==> r.id == u.id
    ensures patch.name.Some? ==> r.name == patch.name.value
    ensures patch.name.None? ==> r.name == u.name
    ensures patch.createdAt.Some? ==> r.createdAt == patch.createdAt.value
    ensures patch.createdAt.None? ==> r.createdAt == u.createdAt
  {
    User(patch.id.GetOr(u.id), patch.name.GetOr(u.name), patch.createdAt.GetOr(u.createdAt))
  }

  function MergePost(p: Post, patch: PostPatch): (r: Post)
    ensures patch.id.Some? ==> r.id == patch.id.value
    ensures patch.id.None? ==> r.id == p.id
    ensures patch.title.Some? ==> r.title == patch.title.value
    ensures patch.title.None? ==> r.title == p.title
    ensures patch.content.Some? ==> r.content == patch.content.value
    ensures patch.content.None? ==> r.content == p.content
    ensures patch.createdAt.Some? ==> r.createdAt == patch.createdAt.value
    ensures patch.createdAt.None? ==> r.createdAt == p.createdAt
    ensures patch.userId.Some? ==> r.userId == patch.userId.value
    ensures patch.userId.None? ==> r.userId == p.userId
  {
    Post(patch.id.GetOr(p.id), patch.title.GetOr(p.title), patch.content.GetOr(p.content),
         patch.createdAt.GetOr(p.createdAt), patch.userId.GetOr(p.userId))
  }

  /** A patch that supplies every field of `u`. */
  function FullUserPatch(u: User): UserPatch
  {
    UserPatch(Some(u.id), Some(u.name), Some(u.createdAt))
  }

  function FullPostPatch(p: Post): PostPatch
  {
    PostPatch(Some(p.id), Some(p.title), Some(p.content), Some(p.createdAt), Some(p.userId))
  }

  const NoUserChange := UserPatch(None, None, None)
  const NoPostChange := PostPatch(None, None, None, None, None)

  /** An empty patch changes nothing; a full patch replaces every field; a patch without an id keeps the key. */
  lemma MergeUserLaws(u: User, v: User, patch: UserPatch)
    ensures MergeUser(u, NoUserChange) == u
    ensures MergeUser(u, FullUserPatch(v)) == v
    ensures patch.id.None? ==> MergeUser(u, patch).id == u.id
    ensures MergeUser(MergeUser(u, patch), patch) == MergeUser(u, patch)
  {
  }

  lemma MergePostLaws(p: Post, q: Post, patch: PostPatch)
    ensures MergePost(p, NoPostChange) == p
    ensures MergePost(p, FullPostPatch(q)) == q
    ensures patch.id.None? ==> MergePost(p, patch).id == p.id
    ensures MergePost(MergePost(p, patch), patch) == MergePost(p, patch)
  {
  }

  /** A patch that supplies only a title changes the title and nothing else. */
  lemma TitleOnlyPatch(p: Post, title: string)
    ensures MergePost(p, NoPostChange.(title := Some(title))) == p.(title := title)
  {
  }

  lemma UserPatchKeepsKey(patch: UserPatch)
    requires patch.id.None?
    ensures ListOps.PreservesKey(UserKey, MergeUser, patch)
  {
  }

  lemma PostPatchKeepsKey(patch: PostPatch)
    requires patch.id.None?
    ensures ListOps.PreservesKey(PostKey, MergePost, patch)
  {
  }

  /**
   * A serial primary key: every id was drawn from the sequence before
   * `nextId` (which starts at 1), and no two rows share one.
   */
  ghost predicate SerialKey<T(!new)>(s: seq<T>, key: T -> int, nextId: int)
  {
    1 <= nextId && ListOps.KeysIn(s, key, 1, nextId) && ListOps.UniqueKeys(s, key)
  }

  /** `posts.user_id references users.id`: every post names an existing user. */
  ghost predicate ForeignKeysHold(users: seq<User>, posts: seq<Post>)
  {
    forall i | 0 <= i < |posts| :: ListOps.HasKey(users, UserKey, posts[i].userId)
  }

  /** The table invariants of the whole database. */
  ghost predicate TablesValid(users: seq<User>, posts: seq<Post>, nextUserId: int, nextPostId: int)
  {
    SerialKey(users, UserKey, nextUserId) && SerialKey(posts, PostKey, nextPostId) && ForeignKeysHold(users, posts)
  }

  /** The `author` relation: the user whose id is the post's user_id. */
  function Author(users: seq<User>, post: Post): (r: Option<User>)
    ensures r.Some? <==> ListOps.HasKey(users, UserKey, post.userId)
    ensures r.Some? ==> r.value in users && r.value.id == post.userId
  {
    ListOps.Find(users, UserKey, post.userId)
  }

  /** Under the table invariants every stored post has exactly one author. */
  lemma ExactlyOneAuthor(users: seq<User>, posts: seq<Post>, nextUserId: int, nextPostId: int, i: nat)
    requires TablesValid(users, posts, nextUserId, nextPostId)
    requires i < |posts|
    ensures Author(users, posts[i]).Some?
    ensures forall u | u in users && u.id == posts[i].userId :: u == Author(users, posts[i]).value
  {
    var a := Author(users, posts[i]).value;
    forall u | u in users && u.id == posts[i].userId ensures u == a {
      ListOps.UniqueDetermines(users, UserKey, u, a);
    }
  }

  /** Inserting a user with the next serial id keeps the invariants, and that id was not in use. */
  lemma InsertUserValid(users: seq<User>, posts: seq<Post>, nextUserId: int, nextPostId: int, u: NewUser, now: nat)
    requires TablesValid(users, posts, nextUserId, nextPostId)
    ensures TablesValid(users + [UserRow(nextUserId, u, now)], posts, nextUserId + 1, nextPostId)
    ensures !ListOps.HasKey(users, UserKey, nextUserId)
  {
    var row := UserRow(nextUserId, u, now);
    ListOps.AppendKeys(users, row, UserKey, 1, nextUserId);
    forall i | 0 <= i < |posts| ensures ListOps.HasKey(users + [row], UserKey, posts[i].userId) {
      assert ListOps.HasKey(users, UserKey, posts[i].userId);
      var j :| 0 <= j < |users| && UserKey(users[j]) == posts[i].userId;
      assert (users + [row])[j] == users[j];
    }
  }

  /** Inserting a post with the next serial id and an existing author keeps the invariants. */
  lemma InsertPostValid(users: seq<User>, posts: seq<Post>, nextUserId: int, nextPostId: int, p: NewPost, now: nat)
    requires TablesValid(users, posts, nextUserId, nextPostId)
    requires ListOps.HasKey(users, UserKey, p.userId)
    ensures TablesValid(users, posts + [PostRow(nextPostId, p, now)], nextUserId, nextPostId + 1)
    ensures !ListOps.HasKey(posts, PostKey, nextPostId)
  {
    var row := PostRow(nextPostId, p, now);
    ListOps.AppendKeys(posts, row, PostKey, 1, nextPostId);
    var t := posts + [row];
    forall i | 0 <= i < |t| ensures ListOps.HasKey(users, UserKey, t[i].userId) {
      if i < |posts| { assert t[i] == posts[i]; }
    }
  }

  /** Drawing a serial value without inserting a row (a failed insert) keeps the invariants. */
  lemma SkipPostIdValid(users: seq<User>, posts: seq<Post>, nextUserId: int, nextPostId: int)
    requires TablesValid(users, posts, nextUserId, nextPostId)
    ensures TablesValid(users, posts, nextUserId, nextPostId + 1)
  {
  }

  /** An update that supplies no id keeps the invariants. */
  lemma UpdateUsersValid(users: seq<User>, posts: seq<Post>, nextUserId: int, nextPostId: int, id: int, patch: UserPatch)
    requires TablesValid(users, posts, nextUserId, nextPostId)
    requires patch.id.None?
    ensures TablesValid(ListOps.UpdateWhere(users, UserKey, id, MergeUser, patch), posts, nextUserId, nextPostId)
  {
    var r := ListOps.UpdateWhere(users, UserKey, id, MergeUser, patch);
    UserPatchKeepsKey(patch);
    ListOps.UpdateWhereKeys(users, UserKey, id, MergeUser, patch, 0);
    forall i | 0 <= i < |posts| ensures ListOps.HasKey(r, UserKey, posts[i].userId) {
      ListOps.UpdateWhereKeys(users, UserKey, id, MergeUser, patch, posts[i].userId);
    }
  }

  /**
   * An update of posts that supplies no id keeps the invariants when a
   * supplied user_id names an existing user or no row is touched.
   */
  lemma UpdatePostsValid(users: seq<User>, posts: seq<Post>, nextUserId: int, nextPostId: int, id: int, patch: PostPatch)
    requires TablesValid(users, posts, nextUserId, nextPostId)
    requires patch.id.None?
    requires patch.userId.Some? && ListOps.HasKey(posts, PostKey, id) ==> ListOps.HasKey(users, UserKey, patch.userId.value)
    ensures TablesValid(users, ListOps.UpdateWhere(posts, PostKey, id, MergePost, patch), nextUserId, nextPostId)
  {
    var r := ListOps.UpdateWhere(posts, PostKey, id, MergePost, patch);
    PostPatchKeepsKey(patch);
    ListOps.UpdateWhereKeys(posts, PostKey, id, MergePost, patch, 0);
    forall i | 0 <= i < |r| ensures ListOps.HasKey(users, UserKey, r[i].userId) {
      if posts[i].id == id {
        assert ListOps.HasKey(posts, PostKey, id);
      }
    }
  }

  /** Deleting posts keeps the invariants. */
  lemma DeletePostsValid(users: seq<User>, posts: seq<Post>, nextUserId: int, nextPostId: int, id: int)
    requires TablesValid(users, posts, nextUserId, nextPostId)
    ensures TablesValid(users, ListOps.RemoveWhere(posts, PostKey, id), nextUserId, nextPostId)
  {
    var r := ListOps.RemoveWhere(posts, PostKey, id);
    ListOps.RemoveWhereKeys(posts, PostKey, id, 0);
    forall i | 0 <= i < |r| ensures ListOps.HasKey(users, UserKey, r[i].userId) {
      assert r[i] in posts;
      var j :| 0 <= j < |posts| && posts[j] == r[i];
    }
  }

  /** Deleting a user no post refers to keeps the invariants. */
  lemma DeleteUsersValid(users: seq<User>, posts: seq<Post>, nextUserId: int, nextPostId: int, id: int)
    requires TablesValid(users, posts, nextUserId, nextPostId)
    requires !ListOps.HasKey(posts, AuthorKey, id)
    ensures TablesValid(ListOps.RemoveWhere(users, UserKey, id), posts, nextUserId, nextPostId)
  {
    var r := ListOps.RemoveWhere(users, UserKey, id);
    ListOps.RemoveWhereKeys(users, UserKey, id, 0);
    forall i | 0 <= i < |posts| ensures ListOps.HasKey(r, UserKey, posts[i].userId) {
      assert AuthorKey(posts[i]) != id;
      ListOps.RemoveWhereKeys(users, UserKey, id, posts[i].userId);
    }
  }
}
