/**
  The request handlers of the posts app, over the store. Read-only views
  (`index`, `group_posts`, `profile`, `post_detail`, `follow_index`) are
  functions of the store; the write views (`post_create`, `post_edit`,
  `add_comment`, `profile_follow`, `profile_unfollow`) are methods that
  change it. The logged-in user is `caller` (None for an anonymous visitor);
  a view behind `login_required` sends an anonymous visitor to the login page
  with the view's own path as `next`.
*/
module Views {
  import opened Wrappers
  import opened Seqs
  import opened Models
  import opened Forms
  import opened Paging
  import opened Db

  /** The paths a login redirect can carry back. */
  datatype Path =
    | CreatePath
    | EditPath(postId: nat)
    | CommentPath(postId: nat)
    | FollowIndexPath
    | FollowPath(username: UserName)
    | UnfollowPath(username: UserName)

  /** What a rendered template is given. */
  datatype Context =
    | ListPage(page: Page<Post>)
    | GroupPage(group: Group, page: Page<Post>)
    | ProfilePage(author: UserName, page: Page<Post>, following: bool)
    | DetailPage(post: Post, comments: seq<Comment>)
    | PostFormPage(errors: seq<FormError>, isEdit: bool)

  datatype Response =
    | Render(context: Context)
    | RedirectDetail(postId: nat)
    | RedirectProfile(username: UserName)
    | RedirectLogin(next: Path)
    | NotFound
    | Error

  // ---------------------------------------------------------------------------
  // Lookups (`get_object_or_404`, `get_post`)

  function FindGroup(groups: seq<Group>, slug: string): (r: Option<Group>)
    ensures r.Some? ==> r.value in groups && r.value.slug == slug
    ensures r.None? <==> slug !in GroupSlugs(groups)
  {
    if groups == [] then None
    else if groups[0].slug == slug then Some(groups[0])
    else
      assert groups == [groups[0]] + groups[1..];
      FindGroup(groups[1..], slug)
  }

  /** The position of the post with id `id`. */
  function FindPost(posts: seq<Post>, id: nat): (r: Option<nat>)
    ensures r.Some? ==> r.value < |posts| && posts[r.value].id == id
    ensures r.None? <==> id !in PostIds(posts)
  {
    if posts == [] then None
    else if posts[0].id == id then Some(0)
    else
      assert posts == [posts[0]] + posts[1..];
      match FindPost(posts[1..], id)
      case None => None
      case Some(k) => Some(k + 1)
  }

  // ---------------------------------------------------------------------------
  // The follow relation and the feed

  /** `user.follower.values_list('author', flat=True)`. */
  function FollowedAuthors(follows: seq<Follow>, user: UserName): (r: set<UserName>)
    ensures forall a :: a in r <==> Followed(follows, user, a)
  {
    set f | f in follows && f.user == user :: f.author
  }

  /** `Post.objects.filter(author__in=authors)`: the posts of the authors `user` follows. */
  function Feed(posts: seq<Post>, follows: seq<Follow>, user: UserName): (r: seq<Post>)
    ensures forall p :: p in r <==> p in posts && Followed(follows, user, p.author)
  {
    var authors := FollowedAuthors(follows, user);
    Filter(posts, (p: Post) => p.author in authors)
  }

  /** The feed keeps the listing's newest-first order. */
  lemma FeedNewestFirst(posts: seq<Post>, follows: seq<Follow>, user: UserName)
    requires Pairwise(posts, NewerPost)
    ensures Pairwise(Feed(posts, follows, user), NewerPost)
  {
    var authors := FollowedAuthors(follows, user);
    FilterPairwise(posts, (p: Post) => p.author in authors, NewerPost);
  }

  /**
    A new post heads the feed of every user who follows its author and
    leaves every other feed as it was.
  */
  lemma FeedAfterNewPost(p: Post, posts: seq<Post>, follows: seq<Follow>, user: UserName)
    ensures Followed(follows, user, p.author) ==>
      Feed([p] + posts, follows, user) == [p] + Feed(posts, follows, user)
    ensures !Followed(follows, user, p.author) ==>
      Feed([p] + posts, follows, user) == Feed(posts, follows, user)
    ensures |Feed([p] + posts, follows, user)| ==
      |Feed(posts, follows, user)| + (if Followed(follows, user, p.author) then 1 else 0)
  {
    var authors := FollowedAuthors(follows, user);
    assert p.author in authors <==> Followed(follows, user, p.author) by {
      if Followed(follows, user, p.author) {
        assert Follow(user, p.author) in follows;
      }
    }
    FilterCons(p, posts, (q: Post) => q.author in authors);
  }

  /** `profile_follow`'s effect: the pair is added unless it is a self-follow or already there. */
  function FollowStep(follows: seq<Follow>, user: UserName, author: UserName): (r: seq<Follow>)
    ensures forall f :: f in r <==> f in follows || (f == Follow(user, author) && user != author)
    ensures |r| == |follows| + (if user != author && !Followed(follows, user, author) then 1 else 0)
    ensures |follows| <= |r| && r[..|follows|] == follows
  {
    if user == author || Followed(follows, user, author) then follows
    else follows + [Follow(user, author)]
  }

  /** Following twice is following once. */
  lemma FollowTwiceIsOnce(follows: seq<Follow>, user: UserName, author: UserName)
    ensures FollowStep(FollowStep(follows, user, author), user, author) == FollowStep(follows, user, author)
  {
  }

  /** Following keeps the follow table free of self-follows and of repeated pairs. */
  lemma FollowKeepsFollowsOk(follows: seq<Follow>, users: set<UserName>, user: UserName, author: UserName)
    requires FollowsOk(follows, users)
    requires user in users && author in users
    ensures FollowsOk(FollowStep(follows, user, author), users)
  {
    if user != author && !Followed(follows, user, author) {
      AppendFollowKeepsFollowsOk(follows, users, user, author);
    }
  }

  /** Unfollowing an author one does not follow changes nothing. */
  lemma UnfollowWhenNotFollowing(follows: seq<Follow>, user: UserName, author: UserName)
    requires !Followed(follows, user, author)
    ensures WithoutPair(follows, user, author) == follows
  {
    FilterKeepsAll(follows, (f: Follow) => f != Follow(user, author));
  }

  /** Unfollowing right after a follow that added the pair restores the table exactly. */
  lemma UnfollowUndoesFollow(follows: seq<Follow>, user: UserName, author: UserName)
    requires !Followed(follows, user, author)
    ensures WithoutPair(FollowStep(follows, user, author), user, author) == follows
  {
    var keep := (f: Follow) => f != Follow(user, author);
    FilterKeepsAll(follows, keep);
    if user != author {
      FilterConcat(follows, [Follow(user, author)], keep);
      assert Filter([Follow(user, author)], keep) == [];
    }
  }

  /** After a follow the profile shows "following" (unless it was the viewer's own profile); after an unfollow it does not. */
  lemma FollowingFlagAfterSteps(follows: seq<Follow>, user: UserName, author: UserName)
    ensures Followed(FollowStep(follows, user, author), user, author) <==>
      user != author || Followed(follows, user, author)
    ensures !Followed(WithoutPair(follows, user, author), user, author)
    ensures forall a :: a != author ==>
      (Followed(WithoutPair(follows, user, author), user, a) <==> Followed(follows, user, a))
  {
  }

  /** After an unfollow the feed holds exactly the former feed's posts by other authors. */
  lemma FeedAfterUnfollow(posts: seq<Post>, follows: seq<Follow>, user: UserName, author: UserName)
    ensures forall p :: p in Feed(posts, WithoutPair(follows, user, author), user) <==>
      p in Feed(posts, follows, user) && p.author != author
  {
  }

  // ---------------------------------------------------------------------------
  // Listings (`group.posts.all()`, `author.posts.all()`)

  /** The posts of group `gid`, in the store's newest-first order. */
  function GroupListing(posts: seq<Post>, gid: nat): (r: seq<Post>)
    ensures forall p :: p in r <==> p in posts && p.group == Some(gid)
  {
    Filter(posts, (p: Post) => p.group == Some(gid))
  }

  /** The posts by `author`, in the store's newest-first order. */
  function AuthorListing(posts: seq<Post>, author: UserName): (r: seq<Post>)
    ensures forall p :: p in r <==> p in posts && p.author == author
  {
    Filter(posts, (p: Post) => p.author == author)
  }

  /** The comments on post `postId` (`post.comments.all()`), in the store's newest-first order. */
  function PostComments(comments: seq<Comment>, postId: nat): (r: seq<Comment>)
    ensures forall c :: c in r <==> c in comments && c.post == postId
  {
    Filter(comments, (c: Comment) => c.post == postId)
  }

  // ---------------------------------------------------------------------------
  // Read-only views

  /** `index`: every post, newest first, one page of it. */
  function Index(db: Store, page: Option<int>): (r: Response)
    reads db
    ensures r.Render? && r.context.ListPage?
    ensures r.context.page == Paginate(db.posts, page)
    ensures r.context.page.numPages == NumPages(|db.posts|)
    ensures forall p :: p in r.context.page.items ==> p in db.posts
  {
    Render(ListPage(Paginate(db.posts, page)))
  }

  /**
    A page of the index, of a group, of a profile or of the feed is newest
    first, like the store, and so are the comments of a post's page.
  */
  lemma ListingsNewestFirst(
    db: Store, viewer: Option<UserName>, slug: string, username: UserName, postId: nat, page: Option<int>)
    requires db.Valid()
    ensures Pairwise(Index(db, page).context.page.items, NewerPost)
    ensures GroupPosts(db, slug, page).Render? ==> Pairwise(GroupPosts(db, slug, page).context.page.items, NewerPost)
    ensures Profile(db, viewer, username, page).Render? ==>
      Pairwise(Profile(db, viewer, username, page).context.page.items, NewerPost)
    ensures FollowIndex(db, viewer, page).Render? ==>
      Pairwise(FollowIndex(db, viewer, page).context.page.items, NewerPost)
    ensures PostDetail(db, postId).Render? ==> Pairwise(PostDetail(db, postId).context.comments, NewerComment)
  {
    FilterPairwise(db.comments, (c: Comment) => c.post == postId, NewerComment);
    PageKeepsOrder(db.posts, page, NewerPost);
    var g := FindGroup(db.groups, slug);
    if g.Some? {
      FilterPairwise(db.posts, (p: Post) => p.group == Some(g.value.id), NewerPost);
      PageKeepsOrder(GroupListing(db.posts, g.value.id), page, NewerPost);
    }
    FilterPairwise(db.posts, (p: Post) => p.author == username, NewerPost);
    PageKeepsOrder(AuthorListing(db.posts, username), page, NewerPost);
    if viewer.Some? {
      FeedNewestFirst(db.posts, db.follows, viewer.value);
      PageKeepsOrder(Feed(db.posts, db.follows, viewer.value), page, NewerPost);
    }
  }

  /** Every post is on the index: post `k` of the store is item `k % PostsPerPage` of page `k / PostsPerPage + 1`. */
  lemma IndexShowsEveryPost(db: Store, k: nat)
    requires k < |db.posts|
    ensures k % PostsPerPage < |Index(db, Some(k / PostsPerPage + 1)).context.page.items|
    ensures Index(db, Some(k / PostsPerPage + 1)).context.page.items[k % PostsPerPage] == db.posts[k]
  {
    EveryItemOnItsPage(db.posts, k);
  }

  /** `group_posts`: the posts of the group with this slug, or 404. */
  function GroupPosts(db: Store, slug: string, page: Option<int>): (r: Response)
    reads db
    ensures r.NotFound? <==> slug !in GroupSlugs(db.groups)
    ensures !r.NotFound? ==> r.Render? && r.context.GroupPage?
    ensures r.Render? ==>
      && r.context.group in db.groups && r.context.group.slug == slug
      && r.context.page == Paginate(GroupListing(db.posts, r.context.group.id), page)
      && forall p :: p in r.context.page.items ==> p in db.posts && p.group == Some(r.context.group.id)
  {
    match FindGroup(db.groups, slug)
    case None => NotFound
    case Some(g) => Render(GroupPage(g, Paginate(GroupListing(db.posts, g.id), page)))
  }

  /**
    `profile`: the author's posts, with `following` true exactly when the
    viewer is logged in and follows the author; 404 for an unknown username.
  */
  function Profile(db: Store, viewer: Option<UserName>, username: UserName, page: Option<int>): (r: Response)
    reads db
    ensures r.NotFound? <==> username !in db.users
    ensures !r.NotFound? ==> r.Render? && r.context.ProfilePage? && r.context.author == username
    ensures r.Render? ==> (r.context.following <==> viewer.Some? && Followed(db.follows, viewer.value, username))
    ensures r.Render? ==> r.context.page == Paginate(AuthorListing(db.posts, username), page)
    ensures r.Render? ==> forall p :: p in r.context.page.items ==> p in db.posts && p.author == username
  {
    if username !in db.users then NotFound
    else
      var following := match viewer case None => false case Some(u) => Followed(db.follows, u, username);
      Render(ProfilePage(username, Paginate(AuthorListing(db.posts, username), page), following))
  }

  /** `post_detail`: the post and exactly its comments, newest first; 404 for an unknown id. */
  function PostDetail(db: Store, postId: nat): (r: Response)
    reads db
    ensures r.NotFound? <==> postId !in PostIds(db.posts)
    ensures !r.NotFound? ==> r.Render? && r.context.DetailPage?
    ensures r.Render? ==> r.context.post in db.posts && r.context.post.id == postId
    ensures r.Render? ==> forall c :: c in r.context.comments <==> c in db.comments && c.post == postId
  {
    match FindPost(db.posts, postId)
    case None => NotFound
    case Some(i) => Render(DetailPage(db.posts[i], PostComments(db.comments, postId)))
  }

  /** `follow_index`: a page of the feed; anonymous visitors are sent to log in. */
  function FollowIndex(db: Store, viewer: Option<UserName>, page: Option<int>): (r: Response)
    reads db
    ensures viewer.None? ==> r == RedirectLogin(FollowIndexPath)
    ensures viewer.Some? ==> r.Render? && r.context.ListPage?
    ensures viewer.Some? ==> r.context.page == Paginate(Feed(db.posts, db.follows, viewer.value), page)
    ensures viewer.Some? ==> forall p :: p in r.context.page.items ==>
      p in db.posts && Followed(db.follows, viewer.value, p.author)
  {
    match viewer
    case None => RedirectLogin(FollowIndexPath)
    case Some(u) => Render(ListPage(Paginate(Feed(db.posts, db.follows, u), page)))
  }

  // ---------------------------------------------------------------------------
  // Write views

  /** What a valid edit form does to a post: author, id and publication time never change; an absent upload keeps the image. */
  function EditedPost(post: Post, d: PostInput): (r: Post)
    ensures r.id == post.id && r.author == post.author && r.pubDate == post.pubDate
    ensures r.text == d.text && r.group == d.group
    ensures d.image.Some? ==> r.image == d.image
    ensures d.image.None? ==> r.image == post.image
  {
    post.(text := d.text, group := d.group, image := if d.image.Some? then d.image else post.image)
  }

  /**
    `post_create`: a valid form saves one new post, authored by the caller
    and stamped with the current time, and redirects to the caller's profile;
    an unbound or invalid form renders the form again and saves nothing.
  */
  method PostCreate(db: Store, caller: Option<UserName>, form: Option<PostInput>) returns (resp: Response)
    requires db.Valid()
    requires caller.Some? ==> caller.value in db.users
    modifies db
    ensures db.Valid()
    ensures caller.None? ==> resp == RedirectLogin(CreatePath) && unchanged(db)
    ensures caller.Some? && form.None? ==> resp == Render(PostFormPage([], false)) && unchanged(db)
    ensures caller.Some? && form.Some? && PostFormClean(form.value, GroupIds(old(db.groups))).Err? ==>
      && resp == Render(PostFormPage(PostFormClean(form.value, GroupIds(old(db.groups))).error, false))
      && unchanged(db)
    ensures caller.Some? && form.Some? && PostFormClean(form.value, GroupIds(old(db.groups))).Ok? ==>
      var d := PostFormClean(form.value, GroupIds(old(db.groups))).value;
      && db.posts == [Post(old(db.nextPostId), d.text, old(db.clock), caller.value, d.group, d.image)] + old(db.posts)
      && db.clock == old(db.clock) + 1
      && db.nextPostId == old(db.nextPostId) + 1
      && unchanged(db`users, db`groups, db`comments, db`follows, db`nextGroupId)
      && resp == RedirectProfile(caller.value)
  {
    if caller.None? {
      return RedirectLogin(CreatePath);
    }
    if form.None? {
      return Render(PostFormPage([], false));
    }
    var cleaned := PostFormClean(form.value, GroupIds(db.groups));
    if cleaned.Err? {
      return Render(PostFormPage(cleaned.error, false));
    }
    var d := cleaned.value;
    var post := db.CreatePost(caller.value, d.text, d.group, d.image);
    resp := RedirectProfile(post.author);
  }

  /**
    `post_edit`: only the author may edit. Anyone else is redirected to the
    post's page and the post stays as it was; a valid form from the author
    saves the new text, group and image and redirects to the post's page.
  */
  method PostEdit(db: Store, caller: Option<UserName>, postId: nat, form: Option<PostInput>) returns (resp: Response)
    requires db.Valid()
    requires caller.Some? ==> caller.value in db.users
    modifies db
    ensures db.Valid()
    ensures caller.None? ==> resp == RedirectLogin(EditPath(postId)) && unchanged(db)
    ensures caller.Some? && postId !in PostIds(old(db.posts)) ==> resp == NotFound && unchanged(db)
    ensures caller.Some? && FindPost(old(db.posts), postId).Some? ==>
      var i := FindPost(old(db.posts), postId).value;
      var post := old(db.posts)[i];
      && (post.author != caller.value ==> resp == RedirectDetail(postId) && unchanged(db))
      && (post.author == caller.value && form.None? ==> resp == Render(PostFormPage([], true)) && unchanged(db))
      && (post.author == caller.value && form.Some? && PostFormClean(form.value, GroupIds(old(db.groups))).Err? ==>
            && resp == Render(PostFormPage(PostFormClean(form.value, GroupIds(old(db.groups))).error, true))
            && unchanged(db))
      && (post.author == caller.value && form.Some? && PostFormClean(form.value, GroupIds(old(db.groups))).Ok? ==>
            && db.posts == old(db.posts)[i := EditedPost(post, PostFormClean(form.value, GroupIds(old(db.groups))).value)]
            && unchanged(db`users, db`groups, db`comments, db`follows, db`clock, db`nextGroupId, db`nextPostId)
            && resp == RedirectDetail(postId))
  {
    if caller.None? {
      return RedirectLogin(EditPath(postId));
    }
    var found := FindPost(db.posts, postId);
    if found.None? {
      return NotFound;
    }
    var i := found.value;
    var post := db.posts[i];
    if caller.value != post.author {
      return RedirectDetail(post.id);
    }
    if form.None? {
      return Render(PostFormPage([], true));
    }
    var cleaned := PostFormClean(form.value, GroupIds(db.groups));
    if cleaned.Err? {
      return Render(PostFormPage(cleaned.error, true));
    }
    db.UpdatePost(i, EditedPost(post, cleaned.value));
    resp := RedirectDetail(post.id);
  }

  /**
    `add_comment`: a valid form saves one comment by the caller on the post;
    an unbound or invalid form saves nothing. Both redirect to the post's page.
  */
  method AddComment(db: Store, caller: Option<UserName>, postId: nat, text: Option<string>) returns (resp: Response)
    requires db.Valid()
    requires caller.Some? ==> caller.value in db.users
    modifies db
    ensures db.Valid()
    ensures caller.None? ==> resp == RedirectLogin(CommentPath(postId)) && unchanged(db)
    ensures caller.Some? && (text.None? || CommentFormClean(text.value).Err?) ==>
      resp == RedirectDetail(postId) && unchanged(db)
    ensures caller.Some? && text.Some? && CommentFormClean(text.value).Ok? && postId !in PostIds(old(db.posts)) ==>
      resp == NotFound && unchanged(db)
    ensures caller.Some? && text.Some? && CommentFormClean(text.value).Ok? && postId in PostIds(old(db.posts)) ==>
      && db.comments == [Comment(postId, caller.value, CommentFormClean(text.value).value, old(db.clock))] + old(db.comments)
      && db.clock == old(db.clock) + 1
      && unchanged(db`users, db`groups, db`posts, db`follows, db`nextGroupId, db`nextPostId)
      && resp == RedirectDetail(postId)
  {
    if caller.None? {
      return RedirectLogin(CommentPath(postId));
    }
    if text.Some? && CommentFormClean(text.value).Ok? {
      if FindPost(db.posts, postId).None? {
        return NotFound;
      }
      var _ := db.CreateComment(postId, caller.value, CommentFormClean(text.value).value);
    }
    resp := RedirectDetail(postId);
  }

  /**
    `profile_follow`: adds the pair `(caller, username)` unless it is the
    caller's own name or the pair exists; a name of no user raises (Error).
  */
  method ProfileFollow(db: Store, caller: Option<UserName>, username: UserName) returns (resp: Response)
    requires db.Valid()
    requires caller.Some? ==> caller.value in db.users
    modifies db
    ensures db.Valid()
    ensures caller.None? ==> resp == RedirectLogin(FollowPath(username)) && unchanged(db)
    ensures caller.Some? && username == caller.value ==> resp == RedirectProfile(username) && unchanged(db)
    ensures caller.Some? && username != caller.value && username !in old(db.users) ==>
      resp == Error && unchanged(db)
    ensures caller.Some? && username != caller.value && username in old(db.users) ==>
      && db.follows == FollowStep(old(db.follows), caller.value, username)
      && unchanged(db`users, db`groups, db`posts, db`comments, db`clock, db`nextGroupId, db`nextPostId)
      && resp == RedirectProfile(username)
  {
    if caller.None? {
      return RedirectLogin(FollowPath(username));
    }
    var user := caller.value;
    if username != user {
      if username !in db.users {
        return Error;
      }
      if !Followed(db.follows, user, username) {
        db.CreateFollow(user, username);
      }
    }
    resp := RedirectProfile(username);
  }

  /** `profile_unfollow`: removes every `(caller, username)` pair; 404 for a name of no user. */
  method ProfileUnfollow(db: Store, caller: Option<UserName>, username: UserName) returns (resp: Response)
    requires db.Valid()
    modifies db
    ensures db.Valid()
    ensures caller.None? ==> resp == RedirectLogin(UnfollowPath(username)) && unchanged(db)
    ensures caller.Some? && username !in old(db.users) ==> resp == NotFound && unchanged(db)
    ensures caller.Some? && username in old(db.users) ==>
      && db.follows == WithoutPair(old(db.follows), caller.value, username)
      && unchanged(db`users, db`groups, db`posts, db`comments, db`clock, db`nextGroupId, db`nextPostId)
      && resp == RedirectProfile(username)
  {
    if caller.None? {
      return RedirectLogin(UnfollowPath(username));
    }
    if username !in db.users {
      return NotFound;
    }
    db.DeleteFollow(caller.value, username);
    resp := RedirectProfile(username);
  }
}
