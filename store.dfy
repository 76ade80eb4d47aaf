/**
 * The client-side entity store: two lists, `users` and `posts`, and the
 * actions that replace them. Each action computes the new list from the
 * old one with a pure transform and assigns it to its field; the other
 * list is never touched.
 */
module Store {
  import opened Wrappers
  import opened Schema
  import ListOps

  class StoreState {
    var users: seq<User>
    var posts: seq<Post>

    /** The store starts with both lists empty. */
    constructor ()
      ensures users == [] && posts == []
    {
      users := [];
      posts := [];
    }

    /** `setUsers(xs)`: the list becomes `xs` exactly. */
    method SetUsers(xs: seq<User>)
      modifies this
      ensures users == xs && posts == old(posts)
    {
      users := xs;
    }

    /** `setPosts(xs)`: the list becomes `xs` exactly. */
    method SetPosts(xs: seq<Post>)
      modifies this
      ensures posts == xs && users == old(users)
    {
      posts := xs;
    }

    /** `addUser(u)`: the old list followed by `u`. */
    method AddUser(u: User)
      modifies this
      ensures users == old(users) + [u] && posts == old(posts)
      ensures |users| == |old(users)| + 1 && users[..|old(users)|] == old(users) && users[|old(users)|] == u
    {
      users := users + [u];
    }

    /** `addPost(p)`: the old list followed by `p`. */
    method AddPost(p: Post)
      modifies this
      ensures posts == old(posts) + [p] && users == old(users)
      ensures |posts| == |old(posts)| + 1 && posts[..|old(posts)|] == old(posts) && posts[|old(posts)|] == p
    {
      posts := posts + [p];
    }

    /**
     * `updateUser(id, d)`: every user whose id is `id` takes the fields `d`
     * supplies and keeps the others; every other user is unchanged.
     */
    method UpdateUser(id: int, d: UserPatch)
      modifies this
      ensures users == ListOps.UpdateWhere(old(users), UserKey, id, MergeUser, d) && posts == old(posts)
      ensures |users| == |old(users)|
      ensures forall i | 0 <= i < |users| ::
        users[i] == if old(users)[i].id == id then MergeUser(old(users)[i], d) else old(users)[i]
      ensures !ListOps.HasKey(old(users), UserKey, id) ==> users == old(users)
    {
      if !ListOps.HasKey(users, UserKey, id) {
        ListOps.UpdateWhereAbsent(users, UserKey, id, MergeUser, d);
      }
      users := ListOps.UpdateWhere(users, UserKey, id, MergeUser, d);
    }

    /** `updatePost(id, d)`: as `updateUser`, on the posts. */
    method UpdatePost(id: int, d: PostPatch)
      modifies this
      ensures posts == ListOps.UpdateWhere(old(posts), PostKey, id, MergePost, d) && users == old(users)
      ensures |posts| == |old(posts)|
      ensures forall i | 0 <= i < |posts| ::
        posts[i] == if old(posts)[i].id == id then MergePost(old(posts)[i], d) else old(posts)[i]
      ensures !ListOps.HasKey(old(posts), PostKey, id) ==> posts == old(posts)
    {
      if !ListOps.HasKey(posts, PostKey, id) {
        ListOps.UpdateWhereAbsent(posts, PostKey, id, MergePost, d);
      }
      posts := ListOps.UpdateWhere(posts, PostKey, id, MergePost, d);
    }

    /**
     * `deleteUser(id)`: exactly the users with that id are removed, the
     * rest keep their order, and a second call changes nothing.
     */
    method DeleteUser(id: int)
      modifies this
      ensures users == ListOps.RemoveWhere(old(users), UserKey, id) && posts == old(posts)
      ensures forall u :: u in users <==> u in old(users) && u.id != id
      ensures ListOps.RemoveWhere(users, UserKey, id) == users
    {
      users := ListOps.RemoveWhere(users, UserKey, id);
      ListOps.RemoveWhereIdempotent(old(users), UserKey, id);
    }

    /** `deletePost(id)`: as `deleteUser`, on the posts. */
    method DeletePost(id: int)
      modifies this
      ensures posts == ListOps.RemoveWhere(old(posts), PostKey, id) && users == old(users)
      ensures forall p :: p in posts <==> p in old(posts) && p.id != id
      ensures ListOps.RemoveWhere(posts, PostKey, id) == posts
    {
      posts := ListOps.RemoveWhere(posts, PostKey, id);
      ListOps.RemoveWhereIdempotent(old(posts), PostKey, id);
    }
  }

  /** Deleting twice leaves the same list as deleting once, and the second call removes nothing. */
  method DeleteUserTwice(s: StoreState, id: int)
    modifies s
    ensures s.users == ListOps.RemoveWhere(old(s.users), UserKey, id) && s.posts == old(s.posts)
  {
    s.DeleteUser(id);
    s.DeleteUser(id);
  }
}
