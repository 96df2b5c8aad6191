# Yatube posts app, modelled in Dafny

This project models the `posts` application of a small Django blogging site.
Users write posts, optionally in a group and with an image. They comment on
posts and follow other authors. Each feed shows posts newest first, ten to a
page.

The model has five modules:

- `Seqs` (`seqs.dfy`): the order-preserving `Filter` that every feed and
  cascade is built from. It also has the two orderings the store keeps: a
  strictly decreasing key ("newest first") and a unique key.
- `Models` (`models.dfy`): the model classes of `posts/models.py` as
  datatypes.
  - A store value `Db` holds the five tables.
  - `Consistent` is the invariant every stored state satisfies: unique keys,
    unique usernames and slugs, posts and comments newest first, every
    foreign key resolving, and no self-follow or duplicate follow.
  - `get_object_or_404` becomes the lookups.
  - The `on_delete` rules become store-to-store cascades.
- `Forms` (`forms.dfy`): `PostForm` and `CommentForm` as the set of fields
  each may write, plus the validity rules.
  - Text is stripped the way Python's `str.strip` does, and it is required.
  - A group key must name a group.
  - An upload must pass the image field's checks: a non-empty file, a name
    of at most 100 characters, an image extension, and Pillow opening it.
- `Feeds` (`feeds.dfy`): the read handlers `index`, `group_posts`,
  `profile`, `post_view` and `follow_index` as functions of the store. It
  also models the paginator's `get_page`.
- `Handlers` (`handlers.dfy`): the write handlers as methods of a `Store`
  class: `new_post`, `post_edit`, `add_comment`, `profile_follow` and
  `profile_unfollow`. The store also creates accounts and groups and runs
  the deletions. The follow graph's two transitions are functions the
  methods are proved against.

The creation stamps `pub_date` and `created` come from one store clock that
increases with every post or comment saved. "Newest first" is therefore a
strict order, and no tie-break is needed. Whether an upload passes the
image field's checks is a parameter of the store (`decodes`).

`add_comment` tests `form.is_valid` without calling it (posts/views.py:95).
The bound method is always true, so the form is only validated inside
`form.save()`. That call raises on a whitespace-only comment, which gives a
server error, and the handler's last line (posts/views.py:101) is never
reached. The model keeps this behaviour: `CommentPostOutcome` answers
`ServerError` for blank text, and `Store.AddComment` leaves the store
unchanged in that case.

Three points where the code is followed rather than a plain reading of the
site's intent:

- Self-follow is a silent no-op that redirects to the profile. There is no
  error.
- Posts with equal stamps have no tie-break.
- The paginator turns a page number below 1, or above the last page, into
  the last page. It turns a missing or non-numeric page into page 1.

## Model

| member | source | states |
|---|---|---|
| Seqs.Filter | posts/views.py:124-125 | a selection keeps exactly the elements meeting the condition and adds nothing |
| Seqs.FilterIsSubseq | posts/views.py:21 | a selection never reorders what it keeps |
| Seqs.FilterAppend | posts/views.py:155-156 | selecting from a concatenation selects from each part |
| Models.FindUser | posts/views.py:52 | 404 lookup by username: a hit is a stored user with that name; a miss means no stored user has it |
| Models.FindGroup | posts/views.py:20 | 404 lookup by slug: a hit is a stored group with that slug; a miss means none has it |
| Models.FindPost | posts/views.py:74 | a hit is a stored post with that key and author; a miss means there is none |
| Models.LookupPost | posts/views.py:106 | a hit is a stored post with that key whose author has that username |
| Models.FindUserFinds | posts/views.py:138 | every stored user is found by their username |
| Models.UsernameNamesOne | posts/views.py:52 | a username names at most one stored user |
| Models.FindGroupFinds | posts/models.py:10 | with unique slugs, every stored group is found by its slug |
| Models.LookupPostFinds | posts/views.py:74 | every stored post is found under its author's username and its key |
| Models.ReplacePost | posts/views.py:115 | saving under a stored key puts the saved post in the list and keeps the set of keys; every post with another key is there after exactly when it was there before; each position keeps its place; with no post under that key nothing changes |
| Models.AddUserKeepsConsistent | posts/models.py:4 | adding a user with a fresh key and a fresh username keeps the store consistent |
| Models.AddGroupKeepsConsistent | posts/models.py:10 | adding a group with a fresh key and a fresh slug keeps slugs unique and the store consistent |
| Models.AddPostKeepsConsistent | posts/models.py:38 | a new post with the newest stamp, put first, keeps posts newest first and the store consistent |
| Models.AddCommentKeepsConsistent | posts/models.py:56 | a new comment with the newest stamp, put first, keeps comments newest first and the store consistent |
| Models.ReplacePostKeepsConsistent | posts/views.py:113-116 | an edit that keeps the key and the stamp keeps the store consistent |
| Models.DeleteGroupCascade | posts/models.py:25-30 | deleting a group removes exactly that group, keeps every post in its place with all fields but the group unchanged, and clears the group only of that group's posts; users, comments and follows are unchanged |
| Models.DeletePostCascade | posts/models.py:45-47 | deleting a post removes exactly that post and exactly the comments on it; users, groups and follows are unchanged |
| Models.DeleteUserCascade | posts/models.py:21-66 | deleting a user removes exactly that user, their posts, every follow edge with them at either end, and every comment that is theirs or on a post that went; groups are unchanged |
| Models.DeleteGroupSetsNull | posts/models.py:25-30 | in a consistent store, the group cascade keeps the store consistent and leaves no post pointing at the deleted group |
| Models.DeletePostCascades | posts/models.py:45-47 | in a consistent store, the post cascade keeps the store consistent and leaves no comment on the deleted post |
| Models.DeleteUserCascades | posts/models.py:21-66 | in a consistent store, the user cascade keeps the store consistent, and a comment survives exactly when it is not the user's own and its post was not by the user |
| Forms.TrimStart | posts/forms.py:14-15 | what is left is no longer and does not start with whitespace |
| Forms.TrimEnd | posts/forms.py:14-15 | what is left is no longer and does not end with whitespace |
| Forms.TrimStartDropsSpace | posts/forms.py:14-15 | trimming the start removes a prefix made only of whitespace and keeps the rest as it was |
| Forms.TrimEndDropsSpace | posts/forms.py:14-15 | trimming the end removes a suffix made only of whitespace and keeps the rest as it was |
| Forms.Strip | posts/forms.py:14-15 | stripped text is no longer than the input and neither starts nor ends with whitespace |
| Forms.StripCutsWhitespace | posts/forms.py:14-15 | stripped text is a contiguous middle part of the input, and everything cut off before and after it is whitespace |
| Forms.StripEmptyIff | posts/forms.py:14-15 | stripping leaves nothing exactly when the text is empty or whitespace only |
| Forms.ValidText | posts/forms.py:14-15 | text is accepted exactly when it is not empty and not all whitespace |
| Forms.StripIdempotent | posts/forms.py:14-15 | stripping again changes nothing |
| Forms.PostFormErrors | posts/forms.py:5-16 | the form reports missing text exactly when the text is blank, a bad group choice exactly when a group key is given that no stored group has, and a bad image exactly when an upload fails the image checks |
| Forms.PostFormValidIff | posts/forms.py:5-16 | a post form is valid exactly when the text is not blank, the group (if any) exists and the upload (if any) is an image |
| Forms.SavePostForm | posts/forms.py:9 | a post form writes only group, text and image; key, stamp and author are kept; with no upload the old image stays |
| Forms.CommentFormErrors | posts/forms.py:25-26 | a comment form has no errors exactly when the text is not blank, and its only possible error is missing text |
| Forms.SaveCommentForm | posts/forms.py:23 | a comment form writes only the text |
| Feeds.NumPages | posts/views.py:10 | the page count is the least positive number of ten-post pages that hold every post, so an empty list has exactly one page |
| Feeds.ResolvePage | posts/views.py:11-12 | the page shown is in range; it is the page asked for when that exists, the last page for a number out of range, and page 1 when no number or a non-number was given |
| Feeds.PageOf | posts/views.py:10-12 | a page holds at most ten posts, a page before the last is full, the last page holds the rest of the list, the page shown is the one `ResolvePage` picks for the parameter, and entry i of page k is post 10(k-1)+i of the list |
| Feeds.PageCovers | posts/views.py:10-12 | every post of a feed appears on the page its position says |
| Feeds.FirstPageStartsWithFirst | posts/views.py:11-12 | without a page parameter the first post of a feed is first on the page |
| Feeds.Followings | posts/views.py:124 | an author is among the viewer's followings exactly when the (viewer, author) edge is stored |
| Feeds.GroupFeed | posts/views.py:21 | a post is in the group feed exactly when it is stored and in that group; the feed keeps the store's order |
| Feeds.AuthorFeed | posts/views.py:53 | a post is in the author feed exactly when it is stored and by that author; the feed keeps the store's order |
| Feeds.FollowFeed | posts/views.py:124-125 | a post is in the follow feed exactly when it is stored and the viewer follows its author; the feed keeps the store's order |
| Feeds.PostComments | posts/views.py:75 | a comment is shown on a post exactly when it is stored and on that post; the list keeps the store's order |
| Feeds.Index | posts/views.py:8-16 | the index shows the requested page of all stored posts, ten to a page, in the store's order |
| Feeds.GroupPosts | posts/views.py:19-29 | 404 exactly when no group has the slug; otherwise the stored group with that slug and the requested page of its feed |
| Feeds.Profile | posts/views.py:50-69 | 404 exactly when no user has the name; otherwise the requested page of that user's feed, `following` holds exactly when a logged-in viewer has an edge to them, and the first post is a stored post of theirs, absent exactly when they have none |
| Feeds.ProfileFirstPostIsNewest | posts/views.py:54 | in a consistent store the profile's first post is the user's newest: no post of theirs has a later stamp |
| Feeds.PostView | posts/views.py:72-84 | 404 unless the post with that key is by the user with that name; the comments shown are that post's feed of comments, exactly its own, in the store's newest-first order |
| Feeds.FollowIndex | posts/views.py:121-132 | login is required exactly for anonymous viewers; otherwise the requested page of the feed of posts by authors the viewer follows |
| Feeds.SelectionKeepsOrder | posts/models.py:38 | any selection of posts keeps the store's newest-first order |
| Feeds.FeedsAreOrderedFilters | posts/views.py:21-22 | in a consistent store the group, author and follow feeds are newest first |
| Feeds.FollowIndexEmptyWithoutFollowing | posts/views.py:124-128 | a viewer who follows no one gets one empty page, not an error |
| Feeds.PostCommentsNewestFirst | posts/models.py:56 | a post's comments are exactly its comments, newest first |
| Feeds.NewestPostLeadsFeeds | posts/tests/test_views.py:25-44 | the newest post is first on the index, its author's profile, its group's page and every follower's follow feed, and is shown at its own address |
| Handlers.AfterFollow | posts/views.py:140-143 | following adds exactly the (viewer, author) edge, unless it is a self-follow or already there |
| Handlers.AfterUnfollow | posts/views.py:152-156 | unfollowing removes exactly the (viewer, author) edge, and only when it is not a self-edge |
| Handlers.FollowKeepsGraphOk | posts/views.py:140-143 | following never creates a self-edge or a duplicate edge |
| Handlers.UnfollowKeepsGraphOk | posts/views.py:152-156 | unfollowing keeps the graph free of self-edges and duplicates |
| Handlers.FollowUnfollowRoundTrip | posts/tests/test_views.py:121-140 | following an author one did not follow and then unfollowing restores the follow table exactly |
| Handlers.FollowUnfollowIdempotent | posts/views.py:140-141 | a repeated follow or unfollow changes nothing more |
| Handlers.FollowedPostsReachFeed | posts/tests/test_views.py:142-158 | after a follow, every post of that author is in the follower's feed |
| Handlers.UnfollowedPostsLeaveFeed | posts/tests/test_views.py:142-158 | after an unfollow, the feed loses exactly that author's posts |
| Handlers.EditedPostIsShown | posts/tests/test_views.py:46-76 | after a valid edit the store stays consistent and the post's page, under its author's username, shows the saved post |
| Handlers.EditedPostLeadsIndex | posts/tests/test_views.py:46-76 | an edit keeps the stamp, so if the edited post was the newest it is still first on the index |
| Handlers.NewCommentShownFirst | posts/tests/test_views.py:160-179 | a new comment is the first of its post's comments, ahead of the older ones |
| Handlers.CommentPostOutcome | posts/views.py:93-101 | posting a comment redirects to the post, except that blank text is a server error |
| Handlers.BlankCommentIsServerError | posts/views.py:95-101 | every empty or whitespace-only comment, `" "` among them, is a server error, not a redirect (a corollary of `CommentPostOutcome`, with a concrete instance) |
| Handlers.UnsavedPost | posts/views.py:41-44 | whatever the form submits, the new post has the next key, the current stamp and the caller as author; its text is the stripped text, and its group and image are exactly what was sent |
| Handlers.UnsavedComment | posts/views.py:96-98 | whatever the form submits, the new comment has the next key, the current stamp, the caller as author and the given post; only the stripped text comes from the form |
| Handlers.AddUserKeepsInvariant | posts/models.py:4 | adding a user with the next key and a fresh username keeps the store invariant, with the user counter advanced |
| Handlers.AddGroupKeepsInvariant | posts/models.py:10 | adding a group with the next key and a fresh slug keeps the store invariant, with the group counter advanced |
| Handlers.AddPostKeepsInvariant | posts/views.py:41-44 | saving a new post with the next key and stamp keeps the store invariant, with the post counter and clock advanced |
| Handlers.AddCommentKeepsInvariant | posts/views.py:96-98 | saving a new comment with the next key and stamp keeps the store invariant, with the comment counter and clock advanced |
| Handlers.ReplacePostKeepsInvariant | posts/views.py:113-116 | an edit that keeps the key and the stamp keeps the store invariant with the counters unchanged |
| Handlers.DeleteGroupKeepsInvariant | posts/models.py:25-30 | the group cascade keeps the store invariant with the counters unchanged |
| Handlers.DeletePostKeepsInvariant | posts/models.py:45-47 | the post cascade keeps the store invariant with the counters unchanged |
| Handlers.DeleteUserKeepsInvariant | posts/models.py:21-66 | the user cascade keeps the store invariant with the counters unchanged |
| Handlers.Store.constructor | posts/models.py:4 | a new store is empty and consistent |
| Handlers.Store.CreateUser | posts/tests/test_views.py:18-19 | an account is added with a fresh key unless the username is taken; nothing else changes |
| Handlers.Store.CreateGroup | posts/models.py:10 | a group is added with a fresh key unless the slug is taken; nothing else changes |
| Handlers.Store.NewPost | posts/views.py:32-47 | anonymous: login redirect, store unchanged. GET: empty form. Invalid input: the errors, store unchanged. Valid input: exactly one new post, first in the list, by the caller, with the next stamp |
| Handlers.Store.PostEdit | posts/views.py:104-118 | 404 for a key/username mismatch. A non-author is redirected with every post unchanged. Valid input by the author replaces that post, in place, with only text, group and image rewritten. Other tables never change |
| Handlers.Store.AddComment | posts/views.py:87-101 | anonymous: login redirect; 404 for a mismatch; GET: redirect. Blank text: server error, store unchanged. Otherwise exactly one new comment by the caller on that post, first in the list |
| Handlers.Store.ProfileFollow | posts/views.py:135-144 | 404 for an unknown username; otherwise the follow table becomes `AfterFollow` of the old one; the store stays valid |
| Handlers.Store.ProfileUnfollow | posts/views.py:147-157 | 404 for an unknown username; otherwise the follow table becomes `AfterUnfollow` of the old one; the store stays valid |
| Handlers.Store.DeleteGroup | posts/models.py:25-30 | the store becomes the group cascade of its old state and stays valid |
| Handlers.Store.DeletePost | posts/models.py:45-47 | the store becomes the post cascade of its old state and stays valid |
| Handlers.Store.DeleteUser | posts/models.py:21-66 | the store becomes the user cascade of its old state and stays valid |

## Left out

- Templates, HTML rendering, the admin screens and the 404 and 500 pages are left out. They are presentation only.
- The login redirect is left out: an anonymous caller on a protected handler is modelled as `RedirectToLogin` with the store unchanged, and the `?next=` address is not modelled.
- Index caching is not modelled. It is time-based, and no cache code is in this part of the repository.
- The upload checks of `ImageField` are not modelled one by one. The store parameter `decodes` stands for all of them together: the file is not empty, its name is at most 100 characters, its extension is an image extension, and Pillow can open it. `InvalidImage` is the one error for any of these failing.
- The image-clear checkbox of a model form's file field is not modelled. An edit either keeps the old image or replaces it.
- Storage of uploaded files under `posts/` is not modelled. An image is the upload value itself.
- Django's null-character validator on text fields is not modelled.
- Real clocks are not modelled. Creation times are one store counter that increases with each post or comment.
- Concurrency is not modelled. Concurrent follows could race past the duplicate check, because `Follow` has no unique constraint.
- Handlers.Store.PostEdit: a POST with an empty body, which Django renders as an unbound form without errors, is modelled like any other submitted input.
- Feeds.ResolvePage: the paginator's clamping is library behaviour. It is taken from Django's documented `get_page`, not from code in this repository.
- Handlers.Store.CreateUser: account creation belongs to Django's auth application, which is not part of this model. It is reduced to a fresh key and a unique username.
- The authenticated caller of a write handler is assumed to be a stored account (`Knows`). Django resolves the session to a user before the view runs.
