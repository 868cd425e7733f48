/** The relational store the routes talk to through the ORM. Each table is
    a sequence of rows; the order of rows carries no meaning, so properties
    about a table are stated over `multiset(rows)`. Ids come from one
    auto-increment counter per table. */
module Store {
  import opened Common
  import opened Seqs

  datatype User = User(
    id: int, name: string, email: string, password: string,
    bio: Option<string>, image: Option<string>)

  datatype Post = Post(
    id: int, slug: string, title: string, description: string, content: string,
    tags: seq<string>, userId: int, createdAt: int)

  datatype Comment = Comment(id: int, postId: int, userId: int, content: string, createdAt: int)

  /** A row of the Favourite join table: user `userId` favourited post `postId`. */
  datatype Favourite = Favourite(postId: int, userId: int)

  /** A row of the Follow join table: `followerId` follows `followingId`. */
  datatype Follow = Follow(followerId: int, followingId: int)

  /** `findUnique({where: {id}})` on the User table. */
  function FindUser(users: seq<User>, id: int): (r: Option<User>)
    ensures r.Some? ==> r.value in users && r.value.id == id
    ensures r.None? ==> forall u :: u in users ==> u.id != id
  {
    if users == [] then None
    else if users[0].id == id then Some(users[0])
    else FindUser(users[1..], id)
  }

  /** `findUnique({where: {email}})` on the User table. */
  function FindUserByEmail(users: seq<User>, email: string): (r: Option<User>)
    ensures r.Some? ==> r.value in users && r.value.email == email
    ensures r.None? ==> forall u :: u in users ==> u.email != email
  {
    if users == [] then None
    else if users[0].email == email then Some(users[0])
    else FindUserByEmail(users[1..], email)
  }

  /** `findUnique({where: {slug}})` on the Post table. */
  function FindPostBySlug(posts: seq<Post>, slug: string): (r: Option<Post>)
    ensures r.Some? ==> r.value in posts && r.value.slug == slug
    ensures r.None? ==> forall p :: p in posts ==> p.slug != slug
  {
    if posts == [] then None
    else if posts[0].slug == slug then Some(posts[0])
    else FindPostBySlug(posts[1..], slug)
  }

  /** `user.exists({email})`: some row has this email. */
  predicate EmailTaken(users: seq<User>, email: string) {
    exists u :: u in users && u.email == email
  }

  /** Two rows of a table with a unique email column that share an email
      are the same row. */
  lemma SameEmailSameUser(users: seq<User>, a: User, b: User)
    requires UniqueEmails(users)
    requires a in users && b in users && a.email == b.email
    ensures a == b
  {
    var i :| 0 <= i < |users| && users[i] == a;
    var j :| 0 <= j < |users| && users[j] == b;
    assert !(i < j) && !(j < i);
  }

  /** `post.exists({slug})`: some row has this slug. */
  predicate SlugTaken(posts: seq<Post>, slug: string) {
    exists p :: p in posts && p.slug == slug
  }

  predicate HasComment(comments: seq<Comment>, id: int) {
    exists c :: c in comments && c.id == id
  }

  /** The comments left after `DELETE … WHERE id = id`, in their order. */
  function DropComment(comments: seq<Comment>, id: int): (r: seq<Comment>)
    ensures multiset(r) <= multiset(comments)
    ensures forall c :: c in r <==> c in comments && c.id != id
  {
    if comments == [] then []
    else
      assert comments == [comments[0]] + comments[1..];
      (if comments[0].id == id then [] else [comments[0]]) + DropComment(comments[1..], id)
  }

  /** `WHERE postId = postId` on the Comment table (the `comments`
      relation of a post), in table order. */
  function OfPost(comments: seq<Comment>, postId: int): (r: seq<Comment>)
    ensures forall c :: c in r ==> c.postId == postId
    ensures forall c :: multiset(r)[c] == if c.postId == postId then multiset(comments)[c] else 0
  {
    var keep := (x: Comment) => x.postId == postId;
    assert forall c :: multiset(Filter(comments, keep))[c] == if c.postId == postId then multiset(comments)[c] else 0 by {
      forall c { FilterCount(comments, keep, c); }
    }
    Filter(comments, keep)
  }

  function HasCommentWithId(comments: seq<Comment>, id: int): (b: bool)
    ensures b <==> HasComment(comments, id)
  {
    if comments == [] then false
    else
      assert comments == [comments[0]] + comments[1..];
      comments[0].id == id || HasCommentWithId(comments[1..], id)
  }

  ghost predicate UniqueUserIds(users: seq<User>) {
    forall i, j :: 0 <= i < j < |users| ==> users[i].id != users[j].id
  }

  /** The email column is unique. */
  ghost predicate UniqueEmails(users: seq<User>) {
    forall i, j :: 0 <= i < j < |users| ==> users[i].email != users[j].email
  }

  ghost predicate UniquePosts(posts: seq<Post>) {
    forall i, j :: 0 <= i < j < |posts| ==> posts[i].id != posts[j].id && posts[i].slug != posts[j].slug
  }

  ghost predicate UniqueCommentIds(comments: seq<Comment>) {
    forall i, j :: 0 <= i < j < |comments| ==> comments[i].id != comments[j].id
  }

  /** `deleteMany({where: key})` on a join table. */
  function RemoveAll<K(!new,==)>(rows: seq<K>, key: K): (r: seq<K>)
    ensures key !in r
  {
    FilterMember(rows, k => k != key, key);
    Filter(rows, k => k != key)
  }

  lemma RemoveAllCount<K(!new)>(rows: seq<K>, key: K, k: K)
    ensures multiset(RemoveAll(rows, key))[k] == if k == key then 0 else multiset(rows)[k]
  {
    FilterCount(rows, x => x != key, k);
  }

  /** The toggle both join-table actions perform: if some row matches, every
      matching row is deleted; otherwise exactly one is created. All other
      rows are kept, as often as they were there. */
  function Toggled<K(!new,==)>(rows: seq<K>, key: K): (r: seq<K>)
    ensures key in rows ==> key !in r
    ensures key !in rows ==> multiset(r)[key] == 1
    ensures forall k :: k != key ==> multiset(r)[k] == multiset(rows)[k]
  {
    if key in rows then
      assert forall k :: k != key ==> multiset(RemoveAll(rows, key))[k] == multiset(rows)[k] by {
        forall k | k != key { RemoveAllCount(rows, key, k); }
      }
      RemoveAll(rows, key)
    else
      rows + [key]
  }

  /** With at most one matching row to start with, toggling twice gives back
      the same rows. */
  lemma ToggleTwiceRestores<K(!new)>(rows: seq<K>, key: K)
    requires multiset(rows)[key] <= 1
    ensures multiset(Toggled(Toggled(rows, key), key)) == multiset(rows)
  {
    var once := Toggled(rows, key);
    var twice := Toggled(once, key);
    forall k ensures multiset(twice)[k] == multiset(rows)[k] {
      if k == key {
        if key in rows {
          assert key !in once;
          assert multiset(twice)[k] == 1;
        } else {
          assert key in once;
          assert key !in twice;
        }
      }
    }
  }

  /** Toggling keeps the table free of duplicate rows. */
  lemma ToggleKeepsRowsUnique<K(!new)>(rows: seq<K>, key: K)
    requires forall k :: multiset(rows)[k] <= 1
    ensures forall k :: multiset(Toggled(rows, key))[k] <= 1
  {
  }

  /** Unique ids below the next id to hand out, and unique emails. */
  ghost predicate UsersValid(users: seq<User>, nextId: int) {
    UniqueUserIds(users) && UniqueEmails(users) && forall u :: u in users ==> u.id < nextId
  }

  /** Unique ids below the next id to hand out, and unique slugs. */
  ghost predicate PostsValid(posts: seq<Post>, nextId: int) {
    UniquePosts(posts) && forall p :: p in posts ==> p.id < nextId
  }

  ghost predicate CommentsValid(comments: seq<Comment>, nextId: int) {
    UniqueCommentIds(comments) && forall c :: c in comments ==> c.id < nextId
  }

  /** Appending a row whose id is the next one and whose email is new keeps
      the table valid under the incremented counter. */
  lemma AppendKeepsUsersValid(users: seq<User>, u: User, next: int)
    requires UsersValid(users, next)
    requires u.id == next && !EmailTaken(users, u.email)
    ensures UsersValid(users + [u], next + 1)
  {
    var s := users + [u];
    forall i, j | 0 <= i < j < |s| ensures s[i].id != s[j].id && s[i].email != s[j].email {
      if j == |users| {
        assert s[i] in users;
      }
    }
  }

  /** A new post row with the next id and a fresh slug keeps the table valid. */
  lemma AppendKeepsPostsValid(posts: seq<Post>, p: Post, next: int)
    requires PostsValid(posts, next)
    requires p.id == next && !SlugTaken(posts, p.slug)
    ensures PostsValid(posts + [p], next + 1)
  {
    var s := posts + [p];
    forall i, j | 0 <= i < j < |s| ensures s[i].id != s[j].id && s[i].slug != s[j].slug {
      if j == |posts| {
        assert s[i] in posts;
      }
    }
  }

  lemma AppendKeepsCommentsValid(comments: seq<Comment>, c: Comment, next: int)
    requires CommentsValid(comments, next)
    requires c.id == next
    ensures CommentsValid(comments + [c], next + 1)
  {
    var s := comments + [c];
    forall i, j | 0 <= i < j < |s| ensures s[i].id != s[j].id {
      if j == |comments| {
        assert s[i] in comments;
      }
    }
  }

  /** Removing rows keeps comment ids unique: two rows of the result with
      one id would be two rows of the original with one id. */
  lemma SubTableKeepsCommentsValid(comments: seq<Comment>, r: seq<Comment>, next: int)
    requires CommentsValid(comments, next)
    requires multiset(r) <= multiset(comments)
    ensures CommentsValid(r, next)
  {
    forall c | c in r ensures c.id < next {
      assert c in multiset(r);
    }
    forall i, j | 0 <= i < j < |r| ensures r[i].id != r[j].id {
      if r[i] == r[j] {
        TwoIndicesCount(r, i, j);
        RepeatedHasTwoIndices(comments, r[i]);
      } else {
        assert r[i] in multiset(r) && r[j] in multiset(r);
      }
    }
  }

  /** The whole store. Users, posts and comments have unique ids below the
      table's counter; user emails and post slugs are unique columns. */
  class Db {
    var users: seq<User>
    var posts: seq<Post>
    var comments: seq<Comment>
    var favourites: seq<Favourite>
    var follows: seq<Follow>
    var nextUserId: int
    var nextPostId: int
    var nextCommentId: int

    ghost predicate Valid()
      reads this
    {
      UsersValid(users, nextUserId) && PostsValid(posts, nextPostId) && CommentsValid(comments, nextCommentId)
    }

    constructor ()
      ensures Valid()
      ensures users == [] && posts == [] && comments == [] && favourites == [] && follows == []
    {
      users, posts, comments, favourites, follows := [], [], [], [], [];
      nextUserId, nextPostId, nextCommentId := 1, 1, 1;
    }

    /** `user.create`: inserts a row under the next id, unless the email is
        taken, in which case the unique constraint makes it fail and nothing
        changes. */
    method CreateUser(name: string, email: string, password: string) returns (id: Option<int>)
      modifies this`users, this`nextUserId
      ensures EmailTaken(old(users), email) ==>
        id.None? && users == old(users) && nextUserId == old(nextUserId)
      ensures !EmailTaken(old(users), email) ==>
        && id == Some(old(nextUserId))
        && users == old(users) + [User(old(nextUserId), name, email, password, None, None)]
        && nextUserId == old(nextUserId) + 1
      ensures old(Valid()) ==> Valid()
    {
      if FindUserByEmail(users, email).Some? {
        return None;
      }
      var row := User(nextUserId, name, email, password, None, None);
      if Valid() {
        AppendKeepsUsersValid(users, row, nextUserId);
      }
      users := users + [row];
      id := Some(nextUserId);
      nextUserId := nextUserId + 1;
    }

    /** `post.create`: inserts a row under the next id, unless the slug is
        taken, in which case the unique constraint makes it fail and nothing
        changes. */
    method CreatePost(slug: string, title: string, description: string, content: string,
                      tags: seq<string>, userId: int, createdAt: int) returns (id: Option<int>)
      modifies this`posts, this`nextPostId
      ensures SlugTaken(old(posts), slug) ==>
        id.None? && posts == old(posts) && nextPostId == old(nextPostId)
      ensures !SlugTaken(old(posts), slug) ==>
        && id == Some(old(nextPostId))
        && posts == old(posts) + [Post(old(nextPostId), slug, title, description, content, tags, userId, createdAt)]
        && nextPostId == old(nextPostId) + 1
      ensures old(Valid()) ==> Valid()
    {
      if FindPostBySlug(posts, slug).Some? {
        return None;
      }
      var row := Post(nextPostId, slug, title, description, content, tags, userId, createdAt);
      if Valid() {
        AppendKeepsPostsValid(posts, row, nextPostId);
      }
      posts := posts + [row];
      id := Some(nextPostId);
      nextPostId := nextPostId + 1;
    }

    /** `comment.create`: inserts a row under the next id. */
    method CreateComment(postId: int, userId: int, content: string, createdAt: int) returns (id: int)
      modifies this`comments, this`nextCommentId
      ensures id == old(nextCommentId)
      ensures comments == old(comments) + [Comment(id, postId, userId, content, createdAt)]
      ensures nextCommentId == old(nextCommentId) + 1
      ensures old(Valid()) ==> Valid()
    {
      var row := Comment(nextCommentId, postId, userId, content, createdAt);
      if Valid() {
        AppendKeepsCommentsValid(comments, row, nextCommentId);
      }
      comments := comments + [row];
      id := nextCommentId;
      nextCommentId := nextCommentId + 1;
    }

    /** `user.update`: the User table becomes `rows`, which keep ids and
        emails unique when the store was consistent. */
    method SetUsers(rows: seq<User>)
      modifies this`users
      requires Valid() ==> UsersValid(rows, nextUserId)
      ensures users == rows
      ensures old(Valid()) ==> Valid()
    {
      users := rows;
    }

    /** `comment.delete({where: {id}})`: fails, changing nothing, when no
        row has the id; otherwise removes it. */
    method DeleteComment(id: int) returns (deleted: bool)
      modifies this`comments
      ensures deleted <==> HasComment(old(comments), id)
      ensures comments == if deleted then DropComment(old(comments), id) else old(comments)
      ensures old(Valid()) ==> Valid()
    {
      deleted := HasCommentWithId(comments, id);
      if deleted {
        if Valid() {
          SubTableKeepsCommentsValid(comments, DropComment(comments, id), nextCommentId);
        }
        comments := DropComment(comments, id);
      }
    }
  }
}
