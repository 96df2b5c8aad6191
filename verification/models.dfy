/**
 * The records of the content store (posts/models.py): users, groups, posts,
 * comments and follow edges; the consistency every stored state keeps
 * (unique keys, unique group slugs, "newest first" orderings, references that
 * resolve); the queries the handlers use to find a record; and the
 * `on_delete` cascades as transitions from one stored state to the next.
 */
module Models {
  import opened Seqs

  datatype Option<T> = None | Some(value: T)

  type UserId = nat
  type GroupId = nat
  type PostId = nat
  type CommentId = nat

  /**
   * Stands for `pub_date` / `created` (auto_now_add). The store hands out
   * strictly increasing stamps, so "newest first" is a total order.
   */
  type Stamp = nat

  /** A user account; accounts belong to the authentication framework. */
  datatype User = User(id: UserId, username: string)

  datatype Group = Group(id: GroupId, title: string, slug: string, description: string)

  /**
   * An uploaded file, kept as its name and raw bytes. Whether it passes the
   * image field's checks (a non-empty file, a name of at most 100 characters,
   * an image extension, Pillow opening it) is decided outside the model.
   */
  datatype Upload = Upload(name: string, content: seq<bv8>)

  datatype Post = Post(
    id: PostId,
    text: string,
    pubDate: Stamp,
    author: UserId,
    group: Option<GroupId>,
    image: Option<Upload>)

  datatype Comment = Comment(id: CommentId, author: UserId, post: PostId, text: string, created: Stamp)

  /** `user` follows `author`. */
  datatype Follow = Follow(user: UserId, author: UserId)

  /** The tables of the store. Posts and comments are kept in their model's `ordering`. */
  datatype Db = Db(
    users: seq<User>,
    groups: seq<Group>,
    posts: seq<Post>,
    comments: seq<Comment>,
    follows: seq<Follow>)

  // Keys by which the tables are unique or ordered.
  function UserKey(u: User): UserId { u.id }
  function Username(u: User): string { u.username }
  function GroupKey(g: Group): GroupId { g.id }
  function Slug(g: Group): string { g.slug }
  function PostKey(p: Post): PostId { p.id }
  function PubDate(p: Post): int { p.pubDate }
  function CommentKey(c: Comment): CommentId { c.id }
  function Created(c: Comment): int { c.created }
  function Pair(f: Follow): (UserId, UserId) { (f.user, f.author) }

  function UserIds(users: seq<User>): set<UserId> { set u | u in users :: u.id }
  function GroupIds(groups: seq<Group>): set<GroupId> { set g | g in groups :: g.id }
  function PostIds(posts: seq<Post>): set<PostId> { set p | p in posts :: p.id }

  /** Post ordering `-pub_date`: newest first. */
  predicate PostsNewestFirst(posts: seq<Post>) { Descending(posts, PubDate) }

  /** Comment ordering `-created`: newest first. */
  predicate CommentsNewestFirst(comments: seq<Comment>) { Descending(comments, Created) }

  predicate UsersOk(users: seq<User>)
  {
    UniqueBy(users, UserKey) && UniqueBy(users, Username)
  }

  /** Group keys are unique and so are slugs (`unique=True`). */
  predicate GroupsOk(groups: seq<Group>)
  {
    UniqueBy(groups, GroupKey) && UniqueBy(groups, Slug)
  }

  predicate PostRefsOk(p: Post, users: seq<User>, groups: seq<Group>)
  {
    p.author in UserIds(users) && (p.group.Some? ==> p.group.value in GroupIds(groups))
  }

  predicate PostsOk(posts: seq<Post>, users: seq<User>, groups: seq<Group>)
  {
    && UniqueBy(posts, PostKey)
    && PostsNewestFirst(posts)
    && forall p | p in posts :: PostRefsOk(p, users, groups)
  }

  predicate CommentRefsOk(c: Comment, users: seq<User>, posts: seq<Post>)
  {
    c.author in UserIds(users) && c.post in PostIds(posts)
  }

  predicate CommentsOk(comments: seq<Comment>, users: seq<User>, posts: seq<Post>)
  {
    && UniqueBy(comments, CommentKey)
    && CommentsNewestFirst(comments)
    && forall c | c in comments :: CommentRefsOk(c, users, posts)
  }

  /** The follow graph has no self-edge and no duplicate edge. */
  predicate FollowGraphOk(follows: seq<Follow>)
  {
    UniqueBy(follows, Pair) && forall f | f in follows :: f.user != f.author
  }

  predicate FollowsOk(follows: seq<Follow>, users: seq<User>)
  {
    && FollowGraphOk(follows)
    && forall f | f in follows :: f.user in UserIds(users) && f.author in UserIds(users)
  }

  /** What every stored state satisfies. */
  predicate Consistent(db: Db)
  {
    && UsersOk(db.users)
    && GroupsOk(db.groups)
    && PostsOk(db.posts, db.users, db.groups)
    && CommentsOk(db.comments, db.users, db.posts)
    && FollowsOk(db.follows, db.users)
  }

  // ---------------------------------------------------------------------------
  // Lookups (`get_object_or_404`)
  // ---------------------------------------------------------------------------

  /** The user with this username, if any. */
  function FindUser(users: seq<User>, name: string): (r: Option<User>)
    ensures r.Some? ==> r.value in users && r.value.username == name
    ensures r.None? ==> forall u | u in users :: u.username != name
  {
    if users == [] then None
    else if users[0].username == name then Some(users[0])
    else
      assert users == [users[0]] + users[1..];
      FindUser(users[1..], name)
  }

  /** The group with this slug, if any. */
  function FindGroup(groups: seq<Group>, slug: string): (r: Option<Group>)
    ensures r.Some? ==> r.value in groups && r.value.slug == slug
    ensures r.None? ==> forall g | g in groups :: g.slug != slug
  {
    if groups == [] then None
    else if groups[0].slug == slug then Some(groups[0])
    else
      assert groups == [groups[0]] + groups[1..];
      FindGroup(groups[1..], slug)
  }

  /** The post with key `id` written by `author`, if any. */
  function FindPost(posts: seq<Post>, id: PostId, author: UserId): (r: Option<Post>)
    ensures r.Some? ==> r.value in posts && r.value.id == id && r.value.author == author
    ensures r.None? ==> forall p | p in posts :: p.id != id || p.author != author
  {
    if posts == [] then None
    else if posts[0].id == id && posts[0].author == author then Some(posts[0])
    else
      assert posts == [posts[0]] + posts[1..];
      FindPost(posts[1..], id, author)
  }

  /** The post with key `id` whose author has this username (`author__username=..., id=...`). */
  function LookupPost(db: Db, username: string, id: PostId): (r: Option<Post>)
    ensures r.Some? ==> r.value in db.posts && r.value.id == id
    ensures r.Some? ==> exists u | u in db.users :: u.id == r.value.author && u.username == username
  {
    match FindUser(db.users, username)
    case None => None
    case Some(u) => FindPost(db.posts, id, u.id)
  }

  /** A stored user is found by their username. */
  lemma FindUserFinds(users: seq<User>, u: User)
    requires UsersOk(users) && u in users
    ensures FindUser(users, u.username) == Some(u)
  {
    var r := FindUser(users, u.username);
    assert r.Some?;
    UniqueByMembers(users, Username, r.value, u);
  }

  /** A username names at most one stored user. */
  lemma UsernameNamesOne(users: seq<User>, name: string)
    requires UsersOk(users)
    ensures forall u, v | u in users && v in users && u.username == name && v.username == name :: u == v
  {
    forall u, v | u in users && v in users && u.username == name && v.username == name ensures u == v {
      UniqueByMembers(users, Username, u, v);
    }
  }

  /** A stored group is found by its slug. */
  lemma FindGroupFinds(groups: seq<Group>, g: Group)
    requires GroupsOk(groups) && g in groups
    ensures FindGroup(groups, g.slug) == Some(g)
  {
    var r := FindGroup(groups, g.slug);
    assert r.Some?;
    UniqueByMembers(groups, Slug, r.value, g);
  }

  /**
   * A stored post is found by its author's username and its key, and a
   * lookup comes back empty exactly when no such post is stored.
   */
  lemma LookupPostFinds(db: Db, p: Post, u: User)
    requires Consistent(db) && p in db.posts && u in db.users && u.id == p.author
    ensures LookupPost(db, u.username, p.id) == Some(p)
  {
    FindUserFinds(db.users, u);
    var r := FindPost(db.posts, p.id, u.id);
    assert r.Some?;
    UniqueByMembers(db.posts, PostKey, r.value, p);
  }

  // ---------------------------------------------------------------------------
  // Creating and updating rows
  // ---------------------------------------------------------------------------

  /**
   * `save()` on an existing post: the row with the same key is replaced, in
   * place, and every other row is kept; with no such row nothing changes.
   */
  function ReplacePost(posts: seq<Post>, q: Post): (r: seq<Post>)
    ensures |r| == |posts|
    ensures forall i | 0 <= i < |posts| :: r[i] == (if posts[i].id == q.id then q else posts[i])
    ensures forall x: Post | x.id != q.id :: x in r <==> x in posts
    ensures q.id in PostIds(posts) ==> q in r && PostIds(r) == PostIds(posts)
    ensures q.id !in PostIds(posts) ==> r == posts
  {
    if posts == [] then []
    else [if posts[0].id == q.id then q else posts[0]] + ReplacePost(posts[1..], q)
  }

  lemma AddUserKeepsConsistent(db: Db, u: User)
    requires Consistent(db)
    requires u.id !in UserIds(db.users)
    requires forall v | v in db.users :: v.username != u.username
    ensures Consistent(db.(users := db.users + [u]))
  {
    var users := db.users + [u];
    assert forall v | v in db.users :: v.id != u.id;
    SnocUnique(db.users, u, UserKey);
    SnocUnique(db.users, u, Username);
    assert forall v | v in db.users :: v in users;
    assert UserIds(db.users) <= UserIds(users);
  }

  lemma AddGroupKeepsConsistent(db: Db, g: Group)
    requires Consistent(db)
    requires g.id !in GroupIds(db.groups)
    requires forall h | h in db.groups :: h.slug != g.slug
    ensures Consistent(db.(groups := db.groups + [g]))
  {
    var groups := db.groups + [g];
    assert forall h | h in db.groups :: h.id != g.id;
    SnocUnique(db.groups, g, GroupKey);
    SnocUnique(db.groups, g, Slug);
    assert forall h | h in db.groups :: h in groups;
    assert GroupIds(db.groups) <= GroupIds(groups);
  }

  /** A new post, newer than every stored one and with a fresh key, goes in front. */
  lemma AddPostKeepsConsistent(db: Db, p: Post)
    requires Consistent(db)
    requires PostRefsOk(p, db.users, db.groups)
    requires forall q | q in db.posts :: q.id < p.id && q.pubDate < p.pubDate
    ensures Consistent(db.(posts := [p] + db.posts))
  {
    var posts := [p] + db.posts;
    ConsUnique(p, db.posts, PostKey);
    ConsDescending(p, db.posts, PubDate);
    assert forall q | q in db.posts :: q in posts;
    assert PostIds(db.posts) <= PostIds(posts);
  }

  /** A new comment, newer than every stored one and with a fresh key, goes in front. */
  lemma AddCommentKeepsConsistent(db: Db, c: Comment)
    requires Consistent(db)
    requires CommentRefsOk(c, db.users, db.posts)
    requires forall d | d in db.comments :: d.id < c.id && d.created < c.created
    ensures Consistent(db.(comments := [c] + db.comments))
  {
    ConsUnique(c, db.comments, CommentKey);
    ConsDescending(c, db.comments, Created);
  }

  /** Saving a post under its own key, with its stamp unchanged, keeps the store consistent. */
  lemma ReplacePostKeepsConsistent(db: Db, p: Post, q: Post)
    requires Consistent(db)
    requires p in db.posts && q.id == p.id && q.pubDate == p.pubDate
    requires PostRefsOk(q, db.users, db.groups)
    ensures Consistent(db.(posts := ReplacePost(db.posts, q)))
  {
    var posts := ReplacePost(db.posts, q);
    forall i | 0 <= i < |posts| ensures posts[i].id == db.posts[i].id && posts[i].pubDate == db.posts[i].pubDate {
      if db.posts[i].id == q.id {
        UniqueByMembers(db.posts, PostKey, db.posts[i], p);
      }
    }
    assert UniqueBy(posts, PostKey) by {
      forall i, j | 0 <= i < j < |posts| ensures PostKey(posts[i]) != PostKey(posts[j]) {
        assert PostKey(db.posts[i]) != PostKey(db.posts[j]);
      }
    }
    assert Descending(posts, PubDate) by {
      forall i, j | 0 <= i < j < |posts| ensures PubDate(posts[i]) > PubDate(posts[j]) {
        assert PubDate(db.posts[i]) > PubDate(db.posts[j]);
      }
    }
    assert p.id in PostIds(db.posts);
    forall x | x in posts ensures PostRefsOk(x, db.users, db.groups) {
      if x.id != q.id {
        assert x in db.posts;
      }
    }
  }

  // ---------------------------------------------------------------------------
  // on_delete cascades
  // ---------------------------------------------------------------------------

  function GroupIsNot(g: GroupId): Group -> bool { (x: Group) => x.id != g }
  function PostIsNot(id: PostId): Post -> bool { (p: Post) => p.id != id }
  function NotOnPost(id: PostId): Comment -> bool { (c: Comment) => c.post != id }
  function UserIsNot(u: UserId): User -> bool { (x: User) => x.id != u }
  function NotAuthoredBy(u: UserId): Post -> bool { (p: Post) => p.author != u }
  function EdgeAvoids(u: UserId): Follow -> bool { (f: Follow) => f.user != u && f.author != u }
  function CommentSurvives(u: UserId, live: set<PostId>): Comment -> bool
  {
    (c: Comment) => c.author != u && c.post in live
  }

  /** `on_delete=SET_NULL`: a post that was in group `g` is kept, outside any group. */
  function Detach(p: Post, g: GroupId): Post
  {
    if p.group == Some(g) then p.(group := None) else p
  }

  /** Deleting group `g`: its posts stay, with their group set to none. */
  function DeleteGroupCascade(db: Db, g: GroupId): (r: Db)
    ensures forall h :: h in r.groups <==> h in db.groups && h.id != g
    ensures |r.posts| == |db.posts|
    ensures forall i | 0 <= i < |db.posts| ::
      && r.posts[i].group == (if db.posts[i].group == Some(g) then None else db.posts[i].group)
      && r.posts[i] == db.posts[i].(group := r.posts[i].group)
    ensures r.users == db.users && r.comments == db.comments && r.follows == db.follows
  {
    db.(groups := Filter(db.groups, GroupIsNot(g)),
        posts := seq(|db.posts|, i requires 0 <= i < |db.posts| => Detach(db.posts[i], g)))
  }

  /** Deleting post `id`: its comments go with it (`on_delete=CASCADE` on `Comment.post`). */
  function DeletePostCascade(db: Db, id: PostId): (r: Db)
    ensures forall p :: p in r.posts <==> p in db.posts && p.id != id
    ensures forall c :: c in r.comments <==> c in db.comments && c.post != id
    ensures r.users == db.users && r.groups == db.groups && r.follows == db.follows
  {
    db.(posts := Filter(db.posts, PostIsNot(id)),
        comments := Filter(db.comments, NotOnPost(id)))
  }

  /**
   * Deleting user `u`: their posts, the comments on those posts, their own
   * comments and every follow edge they are an end of go with them.
   */
  function DeleteUserCascade(db: Db, u: UserId): (r: Db)
    ensures forall v :: v in r.users <==> v in db.users && v.id != u
    ensures r.groups == db.groups
    ensures forall p :: p in r.posts <==> p in db.posts && p.author != u
    ensures forall c :: c in r.comments <==> c in db.comments && c.author != u && c.post in PostIds(r.posts)
    ensures forall f :: f in r.follows <==> f in db.follows && f.user != u && f.author != u
  {
    var posts := Filter(db.posts, NotAuthoredBy(u));
    Db(Filter(db.users, UserIsNot(u)),
       db.groups,
       posts,
       Filter(db.comments, CommentSurvives(u, PostIds(posts))),
       Filter(db.follows, EdgeAvoids(u)))
  }

  lemma DeleteGroupSetsNull(db: Db, g: GroupId)
    requires Consistent(db)
    ensures var r := DeleteGroupCascade(db, g);
      && Consistent(r)
      && g !in GroupIds(r.groups)
      && forall p | p in r.posts :: p.group != Some(g)
  {
    var r := DeleteGroupCascade(db, g);
    FilterUnique(db.groups, GroupIsNot(g), GroupKey);
    FilterUnique(db.groups, GroupIsNot(g), Slug);
    assert UniqueBy(r.posts, PostKey) by {
      forall i, j | 0 <= i < j < |r.posts| ensures r.posts[i].id != r.posts[j].id {
        assert PostKey(db.posts[i]) != PostKey(db.posts[j]);
      }
    }
    assert PostsNewestFirst(r.posts) by {
      forall i, j | 0 <= i < j < |r.posts| ensures PubDate(r.posts[i]) > PubDate(r.posts[j]) {
        assert PubDate(db.posts[i]) > PubDate(db.posts[j]);
      }
    }
    forall p | p in r.posts ensures PostRefsOk(p, r.users, r.groups) {
      var i :| 0 <= i < |r.posts| && r.posts[i] == p;
      var q := db.posts[i];
      assert q in db.posts && PostRefsOk(q, db.users, db.groups);
      if p.group.Some? {
        var h :| h in db.groups && h.id == p.group.value;
        assert h in r.groups;
      }
    }
    assert PostIds(r.posts) == PostIds(db.posts) by {
      forall id | id in PostIds(db.posts) ensures id in PostIds(r.posts) {
        var i :| 0 <= i < |db.posts| && db.posts[i].id == id;
        assert r.posts[i] in r.posts;
      }
      forall id | id in PostIds(r.posts) ensures id in PostIds(db.posts) {
        var i :| 0 <= i < |r.posts| && r.posts[i].id == id;
        assert db.posts[i] in db.posts;
      }
    }
  }

  lemma DeletePostCascades(db: Db, id: PostId)
    requires Consistent(db)
    ensures var r := DeletePostCascade(db, id);
      && Consistent(r)
      && id !in PostIds(r.posts)
      && forall c | c in r.comments :: c.post != id
  {
    var r := DeletePostCascade(db, id);
    FilterUnique(db.posts, PostIsNot(id), PostKey);
    FilterDescending(db.posts, PostIsNot(id), PubDate);
    FilterUnique(db.comments, NotOnPost(id), CommentKey);
    FilterDescending(db.comments, NotOnPost(id), Created);
    forall c | c in r.comments ensures c.post in PostIds(r.posts) {
      var p :| p in db.posts && p.id == c.post;
      assert p in r.posts;
    }
  }

  lemma DeleteUserCascades(db: Db, u: UserId)
    requires Consistent(db)
    ensures var r := DeleteUserCascade(db, u);
      && Consistent(r)
      && u !in UserIds(r.users)
      && (forall c :: c in r.comments <==>
            c in db.comments && c.author != u
            && forall p | p in db.posts && p.id == c.post :: p.author != u)
  {
    var r := DeleteUserCascade(db, u);
    FilterUnique(db.users, UserIsNot(u), UserKey);
    FilterUnique(db.users, UserIsNot(u), Username);
    FilterUnique(db.posts, NotAuthoredBy(u), PostKey);
    FilterDescending(db.posts, NotAuthoredBy(u), PubDate);
    FilterUnique(db.comments, CommentSurvives(u, PostIds(r.posts)), CommentKey);
    FilterDescending(db.comments, CommentSurvives(u, PostIds(r.posts)), Created);
    FilterUnique(db.follows, EdgeAvoids(u), Pair);
    forall p | p in r.posts ensures PostRefsOk(p, r.users, r.groups) {
      var v :| v in db.users && v.id == p.author;
      assert v in r.users;
    }
    forall c | c in r.comments ensures CommentRefsOk(c, r.users, r.posts) {
      var v :| v in db.users && v.id == c.author;
      assert v in r.users;
    }
    forall f | f in r.follows ensures f.user in UserIds(r.users) && f.author in UserIds(r.users) {
      var v :| v in db.users && v.id == f.user;
      var w :| w in db.users && w.id == f.author;
      assert v in r.users && w in r.users;
    }
    forall c ensures c in r.comments <==>
        c in db.comments && c.author != u && forall p | p in db.posts && p.id == c.post :: p.author != u
    {
      if c in r.comments {
        var q :| q in r.posts && q.id == c.post;
        forall p | p in db.posts && p.id == c.post ensures p.author != u {
          UniqueByMembers(db.posts, PostKey, p, q);
        }
      }
      if c in db.comments && c.author != u && forall p | p in db.posts && p.id == c.post :: p.author != u {
        var q :| q in db.posts && q.id == c.post;
        assert q in r.posts;
      }
    }
  }
}
