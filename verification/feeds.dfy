/**
 * The read handlers of posts/views.py: `index`, `group_posts`, `profile`,
 * `post_view` and `follow_index`. Each selects posts from the store, keeps
 * the store's newest-first order, and cuts the selection into pages of ten.
 */
module Feeds {
  import opened Seqs
  import opened Models

  /** Posts per page (`Paginator(..., 10)`). */
  const PageSize: nat := 10

  /** Who is asking (`request.user`). */
  datatype Caller = Anonymous | Authenticated(id: UserId)

  /** The `page` query parameter: missing, a whole number, or anything else. */
  datatype PageParam = NoPageParam | PageNumber(n: int) | NotANumber

  /** One page of a feed, with the paginator's page count and item count. */
  datatype FeedPage = FeedPage(items: seq<Post>, number: nat, numPages: nat, count: nat)

  /** A read handler renders a value, or answers 404, or sends the caller to log in. */
  datatype Response<T> = Ok(value: T) | NotFound | LoginRequired

  datatype GroupPage = GroupPage(group: Group, page: FeedPage)

  /** `following` is whether the viewer follows the profile's owner. */
  datatype ProfilePage = ProfilePage(pageUser: User, page: FeedPage, firstPost: Option<Post>, following: bool)

  datatype PostPage = PostPage(pageUser: User, post: Post, comments: seq<Comment>)

  // ---------------------------------------------------------------------------
  // Paginator
  // ---------------------------------------------------------------------------

  /** The paginator's page count; an empty list still has one (empty) page. */
  function NumPages(count: nat): (n: nat)
    ensures 1 <= n
    ensures count <= n * PageSize
    ensures n == 1 || (n - 1) * PageSize < count
  {
    if count == 0 then 1 else (count + PageSize - 1) / PageSize
  }

  /**
   * `Paginator.get_page`: a missing or non-numeric page is page 1, a number
   * outside 1..NumPages is the last page.
   */
  function ResolvePage(param: PageParam, count: nat): (k: nat)
    ensures 1 <= k <= NumPages(count)
    ensures param.PageNumber? && 1 <= param.n <= NumPages(count) ==> k == param.n
    ensures param.PageNumber? && !(1 <= param.n <= NumPages(count)) ==> k == NumPages(count)
    ensures !param.PageNumber? ==> k == 1
  {
    match param
    case PageNumber(n) => if 1 <= n <= NumPages(count) then n else NumPages(count)
    case _ => 1
  }

  /** The requested page of `items`. */
  function PageOf(items: seq<Post>, param: PageParam): (r: FeedPage)
    ensures r.count == |items| && r.numPages == NumPages(|items|)
    ensures 1 <= r.number <= r.numPages
    ensures |r.items| <= PageSize
    ensures r.number == ResolvePage(param, |items|)
    ensures r.number < r.numPages ==> |r.items| == PageSize
    ensures r.number == r.numPages ==> |r.items| == |items| - (r.number - 1) * PageSize
    ensures forall i | 0 <= i < |r.items| ::
      (r.number - 1) * PageSize + i < |items| && r.items[i] == items[(r.number - 1) * PageSize + i]
    ensures forall x | x in r.items :: x in items
  {
    var k := ResolvePage(param, |items|);
    var lo := (k - 1) * PageSize;
    var hi := if lo + PageSize < |items| then lo + PageSize else |items|;
    FeedPage(items[lo..hi], k, NumPages(|items|), |items|)
  }

  /** Every item sits on exactly the page its position says: item `i` is entry `i % 10` of page `i / 10 + 1`. */
  lemma PageCovers(items: seq<Post>, i: nat)
    requires i < |items|
    ensures var r := PageOf(items, PageNumber(i / PageSize + 1));
      && r.number == i / PageSize + 1
      && i % PageSize < |r.items|
      && r.items[i % PageSize] == items[i]
  {
    var k := i / PageSize + 1;
    var n := NumPages(|items|);
    assert (k - 1) * PageSize <= i;
    assert k <= n;
  }

  /** Page 1 (the page shown without a `page` parameter) starts with the first item. */
  lemma FirstPageStartsWithFirst(items: seq<Post>)
    requires items != []
    ensures var r := PageOf(items, NoPageParam); r.number == 1 && r.items != [] && r.items[0] == items[0]
  {
  }

  // ---------------------------------------------------------------------------
  // Selections
  // ---------------------------------------------------------------------------

  function InGroup(g: GroupId): Post -> bool { (p: Post) => p.group == Some(g) }
  function ByAuthor(u: UserId): Post -> bool { (p: Post) => p.author == u }
  function ByAnyOf(authors: set<UserId>): Post -> bool { (p: Post) => p.author in authors }
  function OnPost(id: PostId): Comment -> bool { (c: Comment) => c.post == id }

  /** The authors `viewer` follows (`User.objects.filter(following__user=viewer)`). */
  function Followings(follows: seq<Follow>, viewer: UserId): (r: set<UserId>)
    ensures forall a :: a in r <==> Follow(viewer, a) in follows
  {
    set f | f in follows && f.user == viewer :: f.author
  }

  /** `group.posts_group.all()`: the stored posts in group `g`, in stored order. */
  function GroupFeed(db: Db, g: GroupId): (r: seq<Post>)
    ensures forall p :: p in r <==> p in db.posts && p.group == Some(g)
    ensures Subseq(r, db.posts)
  {
    FilterIsSubseq(db.posts, InGroup(g));
    Filter(db.posts, InGroup(g))
  }

  /** `page_user.posts.all()`: the stored posts by `u`, in stored order. */
  function AuthorFeed(db: Db, u: UserId): (r: seq<Post>)
    ensures forall p :: p in r <==> p in db.posts && p.author == u
    ensures Subseq(r, db.posts)
  {
    FilterIsSubseq(db.posts, ByAuthor(u));
    Filter(db.posts, ByAuthor(u))
  }

  /**
   * `Post.objects.filter(author__in=followings)`: the stored posts whose
   * author `viewer` follows, in stored order.
   */
  function FollowFeed(db: Db, viewer: UserId): (r: seq<Post>)
    ensures forall p :: p in r <==> p in db.posts && Follow(viewer, p.author) in db.follows
    ensures Subseq(r, db.posts)
  {
    FilterIsSubseq(db.posts, ByAnyOf(Followings(db.follows, viewer)));
    Filter(db.posts, ByAnyOf(Followings(db.follows, viewer)))
  }

  /** `post.comments.all()`: the stored comments on post `id`, in stored order. */
  function PostComments(db: Db, id: PostId): (r: seq<Comment>)
    ensures forall c :: c in r <==> c in db.comments && c.post == id
    ensures Subseq(r, db.comments)
  {
    FilterIsSubseq(db.comments, OnPost(id));
    Filter(db.comments, OnPost(id))
  }

  // ---------------------------------------------------------------------------
  // Handlers
  // ---------------------------------------------------------------------------

  /** `index`: a page of all posts. */
  function Index(db: Db, page: PageParam): (r: FeedPage)
    ensures r.count == |db.posts| && |r.items| <= PageSize
    ensures forall p | p in r.items :: p in db.posts
    ensures r == PageOf(db.posts, page)
  {
    PageOf(db.posts, page)
  }

  /** `group_posts`: 404 for an unknown slug, else a page of the group's posts. */
  function GroupPosts(db: Db, slug: string, page: PageParam): (r: Response<GroupPage>)
    ensures !r.LoginRequired?
    ensures r.NotFound? <==> forall g | g in db.groups :: g.slug != slug
    ensures r.Ok? ==> r.value.group in db.groups && r.value.group.slug == slug
    ensures r.Ok? ==> forall p | p in r.value.page.items :: p in db.posts && p.group == Some(r.value.group.id)
    ensures r.Ok? ==> r.value.page == PageOf(GroupFeed(db, r.value.group.id), page)
  {
    match FindGroup(db.groups, slug)
    case None => NotFound
    case Some(g) => Ok(GroupPage(g, PageOf(GroupFeed(db, g.id), page)))
  }

  /**
   * `profile`: 404 for an unknown username, else a page of the user's posts,
   * their newest post, and whether a logged-in viewer follows them.
   */
  function Profile(db: Db, viewer: Caller, username: string, page: PageParam): (r: Response<ProfilePage>)
    ensures !r.LoginRequired?
    ensures r.NotFound? <==> forall u | u in db.users :: u.username != username
    ensures r.Ok? ==> r.value.pageUser in db.users && r.value.pageUser.username == username
    ensures r.Ok? ==> forall p | p in r.value.page.items :: p in db.posts && p.author == r.value.pageUser.id
    ensures r.Ok? ==> r.value.page == PageOf(AuthorFeed(db, r.value.pageUser.id), page)
    ensures r.Ok? ==> (r.value.following <==>
      viewer.Authenticated? && Follow(viewer.id, r.value.pageUser.id) in db.follows)
    ensures r.Ok? ==> (r.value.firstPost.None? <==> forall p | p in db.posts :: p.author != r.value.pageUser.id)
    ensures r.Ok? && r.value.firstPost.Some? ==>
      r.value.firstPost.value in db.posts && r.value.firstPost.value.author == r.value.pageUser.id
  {
    match FindUser(db.users, username)
    case None => NotFound
    case Some(u) =>
      var posts := AuthorFeed(db, u.id);
      Ok(ProfilePage(
        u,
        PageOf(posts, page),
        if posts == [] then None else Some(posts[0]),
        viewer.Authenticated? && Follow(viewer.id, u.id) in db.follows))
  }

  /** `post_view`: 404 unless the post with this key is by the user with this username. */
  function PostView(db: Db, username: string, id: PostId): (r: Response<PostPage>)
    requires UsersOk(db.users)
    ensures !r.LoginRequired?
    ensures r.Ok? ==> && r.value.post in db.posts && r.value.post.id == id
                      && r.value.pageUser in db.users && r.value.pageUser.username == username
                      && r.value.post.author == r.value.pageUser.id
    ensures r.Ok? ==> forall c :: c in r.value.comments <==> c in db.comments && c.post == id
    ensures r.Ok? ==> r.value.comments == PostComments(db, id)
    ensures r.NotFound? ==> forall u, p | u in db.users && p in db.posts ::
      !(u.username == username && p.id == id && p.author == u.id)
  {
    UsernameNamesOne(db.users, username);
    match FindUser(db.users, username)
    case None => NotFound
    case Some(u) =>
      match FindPost(db.posts, id, u.id)
      case None => NotFound
      case Some(p) => Ok(PostPage(u, p, PostComments(db, p.id)))
  }

  /** Login required; for a logged-in viewer, the posts of the authors they follow. */
  function FollowIndex(db: Db, viewer: Caller, page: PageParam): (r: Response<FeedPage>)
    ensures !r.NotFound?
    ensures r.LoginRequired? <==> viewer.Anonymous?
    ensures r.Ok? ==> forall p | p in r.value.items :: p in db.posts && Follow(viewer.id, p.author) in db.follows
    ensures r.Ok? ==> r.value == PageOf(FollowFeed(db, viewer.id), page)
  {
    match viewer
    case Anonymous => LoginRequired
    case Authenticated(v) =>
      Ok(PageOf(FollowFeed(db, v), page))
  }

  // ---------------------------------------------------------------------------
  // Properties
  // ---------------------------------------------------------------------------

  /** A selection is an order-preserving filter of the store's posts, so it is newest first too. */
  lemma SelectionKeepsOrder(db: Db, f: Post -> bool)
    requires Consistent(db)
    ensures Subseq(Filter(db.posts, f), db.posts)
    ensures PostsNewestFirst(Filter(db.posts, f))
  {
    FilterIsSubseq(db.posts, f);
    FilterDescending(db.posts, f, PubDate);
  }

  /** In a consistent store the group, author and follow feeds are newest first. */
  lemma FeedsAreOrderedFilters(db: Db, g: GroupId, u: UserId, viewer: UserId)
    requires Consistent(db)
    ensures PostsNewestFirst(GroupFeed(db, g))
    ensures PostsNewestFirst(AuthorFeed(db, u))
    ensures PostsNewestFirst(FollowFeed(db, viewer))
  {
    SelectionKeepsOrder(db, InGroup(g));
    SelectionKeepsOrder(db, ByAuthor(u));
    SelectionKeepsOrder(db, ByAnyOf(Followings(db.follows, viewer)));
  }

  /** A viewer who follows no one gets an empty feed of one empty page, not an error. */
  lemma FollowIndexEmptyWithoutFollowing(db: Db, viewer: UserId, page: PageParam)
    requires forall f | f in db.follows :: f.user != viewer
    ensures FollowIndex(db, Authenticated(viewer), page) == Ok(FeedPage([], 1, 1, 0))
  {
    assert Followings(db.follows, viewer) == {};
    FilterKeepsNone(db.posts, ByAnyOf(Followings(db.follows, viewer)));
  }

  /** The comments shown with a post are exactly its comments, newest first. */
  lemma PostCommentsNewestFirst(db: Db, id: PostId)
    requires Consistent(db)
    ensures CommentsNewestFirst(PostComments(db, id))
    ensures forall c :: c in PostComments(db, id) <==> c in db.comments && c.post == id
  {
    FilterDescending(db.comments, OnPost(id), Created);
  }

  /** In a consistent store the profile's `post` (`page_user.posts.first()`) is the user's newest post. */
  lemma ProfileFirstPostIsNewest(db: Db, viewer: Caller, username: string, page: PageParam)
    requires Consistent(db)
    ensures var r := Profile(db, viewer, username, page);
      r.Ok? && r.value.firstPost.Some? ==>
        forall p | p in db.posts && p.author == r.value.pageUser.id :: p.pubDate <= r.value.firstPost.value.pubDate
  {
    var r := Profile(db, viewer, username, page);
    if r.Ok? && r.value.firstPost.Some? {
      var u := r.value.pageUser;
      var feed := AuthorFeed(db, u.id);
      SelectionKeepsOrder(db, ByAuthor(u.id));
      assert r.value.firstPost.value == feed[0];
      forall p | p in db.posts && p.author == u.id ensures p.pubDate <= feed[0].pubDate {
        assert p in feed;
        var i :| 0 <= i < |feed| && feed[i] == p;
        if i > 0 {
          assert PubDate(feed[0]) > PubDate(feed[i]);
        }
      }
    }
  }

  /**
   * The newest post of the store is first on page 1 of the index, of its
   * author's profile (and is the profile's `post`), of its group's feed and
   * of every follower's feed, and is the post shown at its own address.
   */
  lemma NewestPostLeadsFeeds(db: Db, viewer: Caller, author: User)
    requires Consistent(db) && db.posts != []
    requires author in db.users && author.id == db.posts[0].author
    ensures Index(db, NoPageParam).items != [] && Index(db, NoPageParam).items[0] == db.posts[0]
    ensures var r := Profile(db, viewer, author.username, NoPageParam);
      && r.Ok? && r.value.pageUser == author
      && r.value.page.items != [] && r.value.page.items[0] == db.posts[0]
      && r.value.firstPost == Some(db.posts[0])
    ensures PostView(db, author.username, db.posts[0].id).Ok?
      && PostView(db, author.username, db.posts[0].id).value.post == db.posts[0]
    ensures forall g | g in db.groups && db.posts[0].group == Some(g.id) ::
      var r := GroupPosts(db, g.slug, NoPageParam);
      && r.Ok? && r.value.group == g
      && r.value.page.items != [] && r.value.page.items[0] == db.posts[0]
    ensures forall v | Follow(v, db.posts[0].author) in db.follows ::
      var r := FollowIndex(db, Authenticated(v), NoPageParam);
      r.Ok? && r.value.items != [] && r.value.items[0] == db.posts[0]
  {
    var p := db.posts[0];
    FirstPageStartsWithFirst(db.posts);
    FindUserFinds(db.users, author);
    assert AuthorFeed(db, author.id)[0] == p;
    FirstPageStartsWithFirst(AuthorFeed(db, author.id));
    LookupPostFinds(db, p, author);
    forall g | g in db.groups && p.group == Some(g.id)
      ensures var r := GroupPosts(db, g.slug, NoPageParam);
        && r.Ok? && r.value.group == g
        && r.value.page.items != [] && r.value.page.items[0] == p
    {
      FindGroupFinds(db.groups, g);
      assert GroupFeed(db, g.id)[0] == p;
      FirstPageStartsWithFirst(GroupFeed(db, g.id));
    }
    forall v | Follow(v, p.author) in db.follows
      ensures var r := FollowIndex(db, Authenticated(v), NoPageParam);
        r.Ok? && r.value.items != [] && r.value.items[0] == p
    {
      assert FollowFeed(db, v)[0] == p;
      FirstPageStartsWithFirst(FollowFeed(db, v));
    }
  }
}
