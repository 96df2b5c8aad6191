/**
 * The write handlers of posts/views.py as methods of the store they change:
 * `new_post`, `post_edit`, `add_comment`, `profile_follow` and
 * `profile_unfollow`, with the follow graph's state machine as functions.
 * The store also carries the account and group creation paths and the
 * deletions whose cascades posts/models.py declares.
 */
module Handlers {
  import opened Seqs
  import opened Models
  import opened Forms
  import opened Feeds

  datatype RequestMethod = GetRequest | PostRequest

  /** What a write handler answers. */
  datatype Outcome =
    | RedirectToLogin
    | RedirectToIndex
    | RedirectToPostView(username: string, postId: PostId)
    | RedirectToProfile(username: string)
    | ShowForm(errors: set<FieldError>)
    | NotFoundPage
    | ServerError

  // ---------------------------------------------------------------------------
  // The follow graph
  // ---------------------------------------------------------------------------

  function EdgeIsNot(e: Follow): Follow -> bool { (f: Follow) => f != e }

  /** `profile_follow`: adds the edge unless it is a self-follow or already there. */
  function AfterFollow(follows: seq<Follow>, viewer: UserId, author: UserId): (r: seq<Follow>)
    ensures forall f | f in r :: f in follows || (f == Follow(viewer, author) && viewer != author)
    ensures forall f | f in follows :: f in r
    ensures viewer != author ==> Follow(viewer, author) in r
    ensures |r| == |follows| + (if viewer == author || Follow(viewer, author) in follows then 0 else 1)
  {
    if viewer == author || Follow(viewer, author) in follows then follows
    else follows + [Follow(viewer, author)]
  }

  /** `profile_unfollow`: removes the edge when it is there and is not a self-follow. */
  function AfterUnfollow(follows: seq<Follow>, viewer: UserId, author: UserId): (r: seq<Follow>)
    ensures forall f | f in r :: f in follows && (f != Follow(viewer, author) || viewer == author)
    ensures forall f | f in follows && (f != Follow(viewer, author) || viewer == author) :: f in r
  {
    if viewer == author || Follow(viewer, author) !in follows then follows
    else Filter(follows, EdgeIsNot(Follow(viewer, author)))
  }

  /** Following never creates a self-edge or a duplicate edge. */
  lemma FollowKeepsGraphOk(follows: seq<Follow>, viewer: UserId, author: UserId)
    requires FollowGraphOk(follows)
    ensures FollowGraphOk(AfterFollow(follows, viewer, author))
  {
    if viewer != author && Follow(viewer, author) !in follows {
      SnocUnique(follows, Follow(viewer, author), Pair);
    }
  }

  lemma UnfollowKeepsGraphOk(follows: seq<Follow>, viewer: UserId, author: UserId)
    requires FollowGraphOk(follows)
    ensures FollowGraphOk(AfterUnfollow(follows, viewer, author))
  {
    FilterUnique(follows, EdgeIsNot(Follow(viewer, author)), Pair);
  }

  /** Following an author one did not follow, then unfollowing, restores the follow table exactly. */
  lemma FollowUnfollowRoundTrip(follows: seq<Follow>, viewer: UserId, author: UserId)
    requires viewer != author && Follow(viewer, author) !in follows
    ensures AfterUnfollow(AfterFollow(follows, viewer, author), viewer, author) == follows
  {
    var e := Follow(viewer, author);
    FilterAppend(follows, [e], EdgeIsNot(e));
    FilterKeepsAll(follows, EdgeIsNot(e));
    assert Filter([e], EdgeIsNot(e)) == [];
  }

  /** Repeating a follow or an unfollow changes nothing more. */
  lemma FollowUnfollowIdempotent(follows: seq<Follow>, viewer: UserId, author: UserId)
    ensures AfterFollow(AfterFollow(follows, viewer, author), viewer, author) == AfterFollow(follows, viewer, author)
    ensures AfterUnfollow(AfterUnfollow(follows, viewer, author), viewer, author) == AfterUnfollow(follows, viewer, author)
  {
  }

  /** After following an author, each of their posts is in the follower's feed. */
  lemma FollowedPostsReachFeed(db: Db, viewer: UserId, author: UserId)
    requires viewer != author
    ensures forall p | p in db.posts && p.author == author ::
      p in FollowFeed(db.(follows := AfterFollow(db.follows, viewer, author)), viewer)
  {
  }

  /** After unfollowing an author, the feed loses exactly that author's posts. */
  lemma UnfollowedPostsLeaveFeed(db: Db, viewer: UserId, author: UserId)
    requires viewer != author
    ensures forall p :: p in FollowFeed(db.(follows := AfterUnfollow(db.follows, viewer, author)), viewer) <==>
      p in FollowFeed(db, viewer) && p.author != author
  {
  }

  // ---------------------------------------------------------------------------
  // What the write handlers' results look like to the read handlers
  // ---------------------------------------------------------------------------

  /** After a valid edit the post's own page shows the saved post, under its author. */
  lemma EditedPostIsShown(db: Db, p: Post, input: PostInput, author: User)
    requires Consistent(db) && p in db.posts && author in db.users && author.id == p.author
    requires input.group.None? || input.group.value in GroupIds(db.groups)
    ensures var q := SavePostForm(p, input);
      var edited := db.(posts := ReplacePost(db.posts, q));
      && Consistent(edited)
      && PostView(edited, author.username, p.id) == Ok(PostPage(author, q, PostComments(edited, p.id)))
  {
    var q := SavePostForm(p, input);
    var edited := db.(posts := ReplacePost(db.posts, q));
    ReplacePostKeepsConsistent(db, p, q);
    assert p.id in PostIds(db.posts);
    assert q in edited.posts;
    FindUserFinds(edited.users, author);
    LookupPostFinds(edited, q, author);
  }

  /** An edit keeps the post's stamp, so if it was the newest post it still leads the index. */
  lemma EditedPostLeadsIndex(db: Db, p: Post, input: PostInput)
    requires |db.posts| > 0 && db.posts[0] == p
    ensures var q := SavePostForm(p, input);
      var edited := db.(posts := ReplacePost(db.posts, q));
      Index(edited, NoPageParam).items != [] && Index(edited, NoPageParam).items[0] == q
  {
    var q := SavePostForm(p, input);
    var edited := db.(posts := ReplacePost(db.posts, q));
    assert edited.posts[0] == q;
    FirstPageStartsWithFirst(edited.posts);
  }

  /** A new comment is shown first among its post's comments, ahead of the older ones. */
  lemma NewCommentShownFirst(db: Db, c: Comment)
    ensures PostComments(db.(comments := [c] + db.comments), c.post) == [c] + PostComments(db, c.post)
  {
    assert ([c] + db.comments)[1..] == db.comments;
  }

  /**
   * What a POST to `add_comment` on an existing post answers. The handler's
   * guard tests the bound method `form.is_valid` instead of calling it, so
   * the guard always holds and `form.save()` runs, which raises on a form
   * with errors; its final redirect is never reached.
   */
  function CommentPostOutcome(username: string, id: PostId, text: string): (out: Outcome)
    ensures out == ServerError <==> Blank(text)
    ensures out != ServerError ==> out == RedirectToPostView(username, id)
  {
    if CommentFormErrors(text) == {} then RedirectToPostView(username, id) else ServerError
  }

  /**
   * Any whitespace-only comment is a server error, not the redirect the
   * handler's last line would give; `" "` is one such comment. The general
   * clause is a corollary of `CommentPostOutcome`'s contract, spelled out
   * with a concrete instance.
   */
  lemma BlankCommentIsServerError(username: string, id: PostId, text: string)
    requires Blank(text)
    ensures CommentPostOutcome(username, id, text) == ServerError
    ensures CommentPostOutcome(username, id, " ") == ServerError
  {
    assert Blank(" ");
  }

  // ---------------------------------------------------------------------------
  // The store
  // ---------------------------------------------------------------------------

  /**
   * The instance `new_post` starts from (`Post(author=request.user)`), stamped
   * on save: whatever the form submits, the saved post has the caller as its
   * author, the next key and the current stamp, and an image only if one was sent.
   */
  function UnsavedPost(id: PostId, stamp: Stamp, author: UserId): (r: Post)
    ensures forall input :: SavePostForm(r, input) == Post(id, Strip(input.text), stamp, author, input.group, input.image)
  {
    Post(id, "", stamp, author, None, None)
  }

  /**
   * The instance `add_comment` starts from (`Comment(author=viewer, post=post)`),
   * stamped on save: the form supplies only the text.
   */
  function UnsavedComment(id: CommentId, stamp: Stamp, author: UserId, post: PostId): (r: Comment)
    ensures forall text :: SaveCommentForm(r, text) == Comment(id, author, post, Strip(text), stamp)
  {
    Comment(id, author, post, "", stamp)
  }

  /** Every stored id is below the counter that issued it, and every stamp below the clock. */
  predicate Issued(db: Db, nextUser: nat, nextGroup: nat, nextPost: nat, nextComment: nat, clock: nat)
  {
    && (forall u | u in db.users :: u.id < nextUser)
    && (forall g | g in db.groups :: g.id < nextGroup)
    && (forall p | p in db.posts :: p.id < nextPost && p.pubDate < clock)
    && (forall c | c in db.comments :: c.id < nextComment && c.created < clock)
  }

  /** What the store keeps between requests: consistent rows and fresh counters. */
  predicate StoreInvariant(db: Db, nextUser: nat, nextGroup: nat, nextPost: nat, nextComment: nat, clock: nat)
  {
    Consistent(db) && Issued(db, nextUser, nextGroup, nextPost, nextComment, clock)
  }

  lemma AddUserKeepsInvariant(db: Db, u: User, nu: nat, ng: nat, np: nat, nc: nat, clock: nat)
    requires StoreInvariant(db, nu, ng, np, nc, clock)
    requires u.id == nu && forall v | v in db.users :: v.username != u.username
    ensures StoreInvariant(db.(users := db.users + [u]), nu + 1, ng, np, nc, clock)
  {
    AddUserKeepsConsistent(db, u);
  }

  lemma AddGroupKeepsInvariant(db: Db, g: Group, nu: nat, ng: nat, np: nat, nc: nat, clock: nat)
    requires StoreInvariant(db, nu, ng, np, nc, clock)
    requires g.id == ng && forall h | h in db.groups :: h.slug != g.slug
    ensures StoreInvariant(db.(groups := db.groups + [g]), nu, ng + 1, np, nc, clock)
  {
    AddGroupKeepsConsistent(db, g);
  }

  lemma AddPostKeepsInvariant(db: Db, p: Post, nu: nat, ng: nat, np: nat, nc: nat, clock: nat)
    requires StoreInvariant(db, nu, ng, np, nc, clock)
    requires p.id == np && p.pubDate == clock && PostRefsOk(p, db.users, db.groups)
    ensures StoreInvariant(db.(posts := [p] + db.posts), nu, ng, np + 1, nc, clock + 1)
  {
    AddPostKeepsConsistent(db, p);
  }

  lemma AddCommentKeepsInvariant(db: Db, c: Comment, nu: nat, ng: nat, np: nat, nc: nat, clock: nat)
    requires StoreInvariant(db, nu, ng, np, nc, clock)
    requires c.id == nc && c.created == clock && CommentRefsOk(c, db.users, db.posts)
    ensures StoreInvariant(db.(comments := [c] + db.comments), nu, ng, np, nc + 1, clock + 1)
  {
    AddCommentKeepsConsistent(db, c);
  }

  lemma DeleteGroupKeepsInvariant(db: Db, g: GroupId, nu: nat, ng: nat, np: nat, nc: nat, clock: nat)
    requires StoreInvariant(db, nu, ng, np, nc, clock)
    ensures StoreInvariant(DeleteGroupCascade(db, g), nu, ng, np, nc, clock)
  {
    DeleteGroupSetsNull(db, g);
    var r := DeleteGroupCascade(db, g);
    forall x | x in r.posts ensures x.id < np && x.pubDate < clock {
      var i :| 0 <= i < |r.posts| && r.posts[i] == x;
      assert db.posts[i] in db.posts;
    }
  }

  lemma DeletePostKeepsInvariant(db: Db, id: PostId, nu: nat, ng: nat, np: nat, nc: nat, clock: nat)
    requires StoreInvariant(db, nu, ng, np, nc, clock)
    ensures StoreInvariant(DeletePostCascade(db, id), nu, ng, np, nc, clock)
  {
    DeletePostCascades(db, id);
  }

  lemma DeleteUserKeepsInvariant(db: Db, u: UserId, nu: nat, ng: nat, np: nat, nc: nat, clock: nat)
    requires StoreInvariant(db, nu, ng, np, nc, clock)
    ensures StoreInvariant(DeleteUserCascade(db, u), nu, ng, np, nc, clock)
  {
    DeleteUserCascades(db, u);
    var posts := Filter(db.posts, NotAuthoredBy(u));
    assert DeleteUserCascade(db, u).comments == Filter(db.comments, CommentSurvives(u, PostIds(posts)));
  }

  lemma ReplacePostKeepsInvariant(db: Db, p: Post, q: Post, nu: nat, ng: nat, np: nat, nc: nat, clock: nat)
    requires StoreInvariant(db, nu, ng, np, nc, clock)
    requires p in db.posts && q.id == p.id && q.pubDate == p.pubDate
    requires PostRefsOk(q, db.users, db.groups)
    ensures StoreInvariant(db.(posts := ReplacePost(db.posts, q)), nu, ng, np, nc, clock)
  {
    ReplacePostKeepsConsistent(db, p, q);
    var posts := ReplacePost(db.posts, q);
    forall x | x in posts ensures x.id < np && x.pubDate < clock {
      if x.id != q.id {
        assert x in db.posts;
      } else {
        var i :| 0 <= i < |posts| && posts[i] == x;
        assert x == q;
      }
    }
  }

  class Store {
    /** Whether an upload passes the image field's checks (not empty, name length, image extension, Pillow opens it). */
    const decodes: Upload -> bool

    var users: seq<User>
    var groups: seq<Group>
    var posts: seq<Post>
    var comments: seq<Comment>
    var follows: seq<Follow>

    /** The next creation stamp; every stored stamp is below it. */
    var clock: Stamp
    var nextUserId: UserId
    var nextGroupId: GroupId
    var nextPostId: PostId
    var nextCommentId: CommentId

    function State(): Db
      reads this
    {
      Db(users, groups, posts, comments, follows)
    }

    ghost predicate Valid()
      reads this
    {
      StoreInvariant(State(), nextUserId, nextGroupId, nextPostId, nextCommentId, clock)
    }

    /** An authenticated caller is a stored account. */
    predicate Knows(caller: Caller)
      reads this
    {
      caller.Authenticated? ==> caller.id in UserIds(users)
    }

    constructor (decodes: Upload -> bool)
      ensures Valid() && this.decodes == decodes
      ensures State() == Db([], [], [], [], [])
    {
      this.decodes := decodes;
      users, groups, posts, comments, follows := [], [], [], [], [];
      clock := 0;
      nextUserId, nextGroupId, nextPostId, nextCommentId := 0, 0, 0, 0;
    }

    /** A new account; refused when the username is taken. */
    method CreateUser(username: string) returns (r: Option<UserId>)
      requires Valid()
      modifies this
      ensures Valid()
      ensures FindUser(old(users), username).Some? ==> r == None && unchanged(this)
      ensures FindUser(old(users), username).None? ==>
        && r == Some(old(nextUserId))
        && users == old(users) + [User(old(nextUserId), username)]
        && nextUserId == old(nextUserId) + 1
      ensures unchanged(this`groups, this`posts, this`comments, this`follows, this`clock)
      ensures unchanged(this`nextGroupId, this`nextPostId, this`nextCommentId)
    {
      if FindUser(users, username).Some? {
        return None;
      }
      var u := User(nextUserId, username);
      AddUserKeepsInvariant(State(), u, nextUserId, nextGroupId, nextPostId, nextCommentId, clock);
      users := users + [u];
      nextUserId := nextUserId + 1;
      r := Some(u.id);
    }

    /** A new group; refused when the slug is taken (`unique=True`). */
    method CreateGroup(title: string, slug: string, description: string) returns (r: Option<GroupId>)
      requires Valid()
      modifies this
      ensures Valid()
      ensures FindGroup(old(groups), slug).Some? ==> r == None && unchanged(this)
      ensures FindGroup(old(groups), slug).None? ==>
        && r == Some(old(nextGroupId))
        && groups == old(groups) + [Group(old(nextGroupId), title, slug, description)]
        && nextGroupId == old(nextGroupId) + 1
      ensures unchanged(this`users, this`posts, this`comments, this`follows, this`clock)
      ensures unchanged(this`nextUserId, this`nextPostId, this`nextCommentId)
    {
      if FindGroup(groups, slug).Some? {
        return None;
      }
      var g := Group(nextGroupId, title, slug, description);
      AddGroupKeepsInvariant(State(), g, nextUserId, nextGroupId, nextPostId, nextCommentId, clock);
      groups := groups + [g];
      nextGroupId := nextGroupId + 1;
      r := Some(g.id);
    }

    /** `new_post`. */
    method NewPost(caller: Caller, verb: RequestMethod, input: PostInput) returns (out: Outcome)
      requires Valid() && Knows(caller)
      modifies this
      ensures Valid()
      ensures caller.Anonymous? ==> out == RedirectToLogin && unchanged(this)
      ensures caller.Authenticated? && verb == GetRequest ==> out == ShowForm({}) && unchanged(this)
      ensures caller.Authenticated? && verb == PostRequest ==>
        var errors := PostFormErrors(input, old(groups), decodes);
        if errors != {} then out == ShowForm(errors) && unchanged(this)
        else
          && out == RedirectToIndex
          && posts == [SavePostForm(UnsavedPost(old(nextPostId), old(clock), caller.id), input)] + old(posts)
          && clock == old(clock) + 1
          && nextPostId == old(nextPostId) + 1
      ensures unchanged(this`users, this`groups, this`comments, this`follows)
      ensures unchanged(this`nextUserId, this`nextGroupId, this`nextCommentId)
    {
      if caller.Anonymous? {
        return RedirectToLogin;
      }
      if verb == GetRequest {
        return ShowForm({});
      }
      var errors := PostFormErrors(input, groups, decodes);
      if errors != {} {
        return ShowForm(errors);
      }
      var p := SavePostForm(UnsavedPost(nextPostId, clock, caller.id), input);
      AddPostKeepsInvariant(State(), p, nextUserId, nextGroupId, nextPostId, nextCommentId, clock);
      posts := [p] + posts;
      clock := clock + 1;
      nextPostId := nextPostId + 1;
      out := RedirectToIndex;
    }

    /** `post_edit`. */
    method PostEdit(caller: Caller, verb: RequestMethod, username: string, id: PostId, input: PostInput)
      returns (out: Outcome)
      requires Valid() && Knows(caller)
      modifies this
      ensures Valid()
      ensures caller.Anonymous? ==> out == RedirectToLogin && posts == old(posts)
      ensures caller.Authenticated? ==>
        match LookupPost(old(State()), username, id)
        case None => out == NotFoundPage && posts == old(posts)
        case Some(p) =>
          if p.author != caller.id then out == RedirectToPostView(username, p.id) && posts == old(posts)
          else if verb == GetRequest then out == ShowForm({}) && posts == old(posts)
          else if PostFormErrors(input, old(groups), decodes) != {} then
            out == ShowForm(PostFormErrors(input, old(groups), decodes)) && posts == old(posts)
          else out == RedirectToPostView(username, id) && posts == ReplacePost(old(posts), SavePostForm(p, input))
      ensures unchanged(this`users, this`groups, this`comments, this`follows, this`clock)
      ensures unchanged(this`nextUserId, this`nextGroupId, this`nextPostId, this`nextCommentId)
    {
      if caller.Anonymous? {
        return RedirectToLogin;
      }
      var found := LookupPost(State(), username, id);
      if found.None? {
        return NotFoundPage;
      }
      var p := found.value;
      if p.author != caller.id {
        return RedirectToPostView(username, p.id);
      }
      if verb == GetRequest {
        return ShowForm({});
      }
      var errors := PostFormErrors(input, groups, decodes);
      if errors != {} {
        return ShowForm(errors);
      }
      var q := SavePostForm(p, input);
      ReplacePostKeepsInvariant(State(), p, q, nextUserId, nextGroupId, nextPostId, nextCommentId, clock);
      posts := ReplacePost(posts, q);
      out := RedirectToPostView(username, id);
    }

    /** `add_comment`. */
    method AddComment(caller: Caller, verb: RequestMethod, username: string, id: PostId, text: string)
      returns (out: Outcome)
      requires Valid() && Knows(caller)
      modifies this
      ensures Valid()
      ensures caller.Anonymous? ==> out == RedirectToLogin && unchanged(this)
      ensures caller.Authenticated? ==>
        match LookupPost(old(State()), username, id)
        case None => out == NotFoundPage && unchanged(this)
        case Some(p) =>
          if verb == GetRequest then out == RedirectToPostView(username, id) && unchanged(this)
          else if Blank(text) then out == ServerError && unchanged(this)
          else
            && out == RedirectToPostView(username, id)
            && comments == [SaveCommentForm(UnsavedComment(old(nextCommentId), old(clock), caller.id, p.id), text)]
                           + old(comments)
            && clock == old(clock) + 1
            && nextCommentId == old(nextCommentId) + 1
      ensures unchanged(this`users, this`groups, this`posts, this`follows)
      ensures unchanged(this`nextUserId, this`nextGroupId, this`nextPostId)
    {
      if caller.Anonymous? {
        return RedirectToLogin;
      }
      var found := LookupPost(State(), username, id);
      if found.None? {
        return NotFoundPage;
      }
      var p := found.value;
      if verb == GetRequest {
        return RedirectToPostView(username, id);
      }
      out := CommentPostOutcome(username, id, text);
      if out == ServerError {
        return;
      }
      var c := SaveCommentForm(UnsavedComment(nextCommentId, clock, caller.id, p.id), text);
      assert p.id in PostIds(posts);
      AddCommentKeepsInvariant(State(), c, nextUserId, nextGroupId, nextPostId, nextCommentId, clock);
      comments := [c] + comments;
      clock := clock + 1;
      nextCommentId := nextCommentId + 1;
    }

    /** `profile_follow`. */
    method ProfileFollow(caller: Caller, username: string) returns (out: Outcome)
      requires Valid() && Knows(caller)
      modifies this
      ensures Valid()
      ensures caller.Anonymous? ==> out == RedirectToLogin && follows == old(follows)
      ensures caller.Authenticated? ==>
        match FindUser(old(users), username)
        case None => out == NotFoundPage && follows == old(follows)
        case Some(a) => out == RedirectToProfile(username) && follows == AfterFollow(old(follows), caller.id, a.id)
      ensures unchanged(this`users, this`groups, this`posts, this`comments, this`clock)
      ensures unchanged(this`nextUserId, this`nextGroupId, this`nextPostId, this`nextCommentId)
    {
      if caller.Anonymous? {
        return RedirectToLogin;
      }
      var author := FindUser(users, username);
      if author.None? {
        return NotFoundPage;
      }
      var a := author.value;
      if caller.id == a.id || Follow(caller.id, a.id) in follows {
        return RedirectToProfile(username);
      }
      FollowKeepsGraphOk(follows, caller.id, a.id);
      follows := follows + [Follow(caller.id, a.id)];
      out := RedirectToProfile(username);
    }

    /** `profile_unfollow`. */
    method ProfileUnfollow(caller: Caller, username: string) returns (out: Outcome)
      requires Valid() && Knows(caller)
      modifies this
      ensures Valid()
      ensures caller.Anonymous? ==> out == RedirectToLogin && follows == old(follows)
      ensures caller.Authenticated? ==>
        match FindUser(old(users), username)
        case None => out == NotFoundPage && follows == old(follows)
        case Some(a) => out == RedirectToProfile(username) && follows == AfterUnfollow(old(follows), caller.id, a.id)
      ensures unchanged(this`users, this`groups, this`posts, this`comments, this`clock)
      ensures unchanged(this`nextUserId, this`nextGroupId, this`nextPostId, this`nextCommentId)
    {
      if caller.Anonymous? {
        return RedirectToLogin;
      }
      var author := FindUser(users, username);
      if author.None? {
        return NotFoundPage;
      }
      var a := author.value;
      if caller.id == a.id || Follow(caller.id, a.id) !in follows {
        return RedirectToProfile(username);
      }
      UnfollowKeepsGraphOk(follows, caller.id, a.id);
      follows := Filter(follows, EdgeIsNot(Follow(caller.id, a.id)));
      out := RedirectToProfile(username);
    }

    /** Deleting a group (`on_delete=SET_NULL` on `Post.group`). */
    method DeleteGroup(g: GroupId)
      requires Valid()
      modifies this
      ensures Valid()
      ensures State() == DeleteGroupCascade(old(State()), g)
      ensures unchanged(this`clock, this`nextUserId, this`nextGroupId, this`nextPostId, this`nextCommentId)
    {
      var r := DeleteGroupCascade(State(), g);
      DeleteGroupKeepsInvariant(State(), g, nextUserId, nextGroupId, nextPostId, nextCommentId, clock);
      groups, posts := r.groups, r.posts;
      assert State() == r;
    }

    /** Deleting a post (`on_delete=CASCADE` on `Comment.post`). */
    method DeletePost(id: PostId)
      requires Valid()
      modifies this
      ensures Valid()
      ensures State() == DeletePostCascade(old(State()), id)
      ensures unchanged(this`clock, this`nextUserId, this`nextGroupId, this`nextPostId, this`nextCommentId)
    {
      var r := DeletePostCascade(State(), id);
      DeletePostKeepsInvariant(State(), id, nextUserId, nextGroupId, nextPostId, nextCommentId, clock);
      posts, comments := r.posts, r.comments;
      assert State() == r;
    }

    /** Deleting an account (`on_delete=CASCADE` on every user reference). */
    method DeleteUser(u: UserId)
      requires Valid()
      modifies this
      ensures Valid()
      ensures State() == DeleteUserCascade(old(State()), u)
      ensures unchanged(this`clock, this`nextUserId, this`nextGroupId, this`nextPostId, this`nextCommentId)
    {
      var r := DeleteUserCascade(State(), u);
      DeleteUserKeepsInvariant(State(), u, nextUserId, nextGroupId, nextPostId, nextCommentId, clock);
      users, posts, comments, follows := r.users, r.posts, r.comments, r.follows;
      assert State() == r;
    }
  }
}
