/**
  The database as an in-memory store: one sequence per table, each kept in
  its model's listing order, and the rules the models declare: referential
  integrity of every foreign key, the group field bounds and slug
  uniqueness, and what deleting a user, a group or a post does to the rows
  that point at it (`CASCADE` or `SET_NULL`). Timestamps come from a
  monotone `clock`; ids from per-table counters.
*/
module Db {
  import opened Wrappers
  import opened Seqs
  import opened Models

  ghost predicate GroupsOk(groups: seq<Group>, nextGroupId: nat)
  {
    && Pairwise(groups, TitleOrder)
    && Pairwise(groups, DistinctGroups)
    && forall g :: g in groups ==>
         |g.title| <= TitleMaxLength && |g.slug| <= SlugMaxLength && g.id < nextGroupId
  }

  ghost predicate PostsOk(posts: seq<Post>, users: set<UserName>, groups: seq<Group>, clock: nat, nextPostId: nat)
  {
    && Pairwise(posts, NewerPost)
    && forall p :: p in posts ==>
         && p.author in users
         && p.pubDate < clock
         && p.id < nextPostId
         && (p.group.Some? ==> p.group.value in GroupIds(groups))
  }

  ghost predicate CommentsOk(comments: seq<Comment>, posts: seq<Post>, users: set<UserName>, clock: nat)
  {
    && Pairwise(comments, NewerComment)
    && forall c :: c in comments ==> c.author in users && c.post in PostIds(posts) && c.created < clock
  }

  /** Follow pairs name existing users, are never a self-follow and never repeat. */
  ghost predicate FollowsOk(follows: seq<Follow>, users: set<UserName>)
  {
    && Pairwise(follows, DistinctFollows)
    && forall f :: f in follows ==> f.user in users && f.author in users && f.user != f.author
  }

  lemma PostIdsCons(p: Post, posts: seq<Post>)
    ensures PostIds([p] + posts) == {p.id} + PostIds(posts)
  {
  }

  lemma GroupIdsFilter(groups: seq<Group>, gid: nat)
    requires Pairwise(groups, DistinctGroups)
    ensures GroupIds(Filter(groups, (g: Group) => g.id != gid)) == GroupIds(groups) - {gid}
  {
  }

  /** Replacing a post by one with the same id, author and publication time keeps the post rules and the set of ids. */
  lemma ReplacePostKeepsPostsOk(
    posts: seq<Post>, users: set<UserName>, groups: seq<Group>, clock: nat, nextPostId: nat, i: nat, x: Post)
    requires PostsOk(posts, users, groups, clock, nextPostId)
    requires i < |posts|
    requires x.id == posts[i].id && x.author == posts[i].author && x.pubDate == posts[i].pubDate
    requires x.group.Some? ==> x.group.value in GroupIds(groups)
    ensures PostsOk(posts[i := x], users, groups, clock, nextPostId)
    ensures PostIds(posts[i := x]) == PostIds(posts)
  {
    var r := posts[i := x];
    forall a, b | 0 <= a < b < |r| ensures NewerPost(r[a], r[b]) {
      assert NewerPost(posts[a], posts[b]);
    }
    forall p | p in r
      ensures p.author in users && p.pubDate < clock && p.id < nextPostId
      ensures p.group.Some? ==> p.group.value in GroupIds(groups)
    {
      var k :| 0 <= k < |r| && r[k] == p;
      assert posts[k] in posts;
    }
    forall id | id in PostIds(posts) ensures id in PostIds(r) {
      var p :| p in posts && p.id == id;
      var k :| 0 <= k < |posts| && posts[k] == p;
      assert r[k].id == id;
    }
  }

  /** Saving a new post (fresh id, current time) at the head of the listing keeps the post and comment rules. */
  lemma PrependPostKeepsRules(
    posts: seq<Post>, comments: seq<Comment>, users: set<UserName>, groups: seq<Group>,
    clock: nat, nextPostId: nat, p: Post)
    requires PostsOk(posts, users, groups, clock, nextPostId)
    requires CommentsOk(comments, posts, users, clock)
    requires p.id == nextPostId && p.pubDate == clock && p.author in users
    requires p.group.Some? ==> p.group.value in GroupIds(groups)
    ensures PostsOk([p] + posts, users, groups, clock + 1, nextPostId + 1)
    ensures CommentsOk(comments, [p] + posts, users, clock + 1)
  {
    PairwiseCons(p, posts, NewerPost);
    PostIdsCons(p, posts);
  }

  /** Saving a new comment (current time) at the head of the listing keeps the post and comment rules. */
  lemma PrependCommentKeepsRules(
    posts: seq<Post>, comments: seq<Comment>, users: set<UserName>, groups: seq<Group>,
    clock: nat, nextPostId: nat, c: Comment)
    requires PostsOk(posts, users, groups, clock, nextPostId)
    requires CommentsOk(comments, posts, users, clock)
    requires c.created == clock && c.author in users && c.post in PostIds(posts)
    ensures PostsOk(posts, users, groups, clock + 1, nextPostId)
    ensures CommentsOk([c] + comments, posts, users, clock + 1)
  {
    PairwiseCons(c, comments, NewerComment);
  }

  /** The posts left once `name`'s posts are deleted. */
  function PostsNotBy(posts: seq<Post>, name: UserName): (r: seq<Post>)
    ensures forall p :: p in r <==> p in posts && p.author != name
  {
    Filter(posts, (p: Post) => p.author != name)
  }

  /** The comments left once `name`'s comments and the comments on posts outside `kept` are deleted. */
  function CommentsKept(comments: seq<Comment>, name: UserName, kept: set<nat>): (r: seq<Comment>)
    ensures forall c :: c in r <==> c in comments && c.author != name && c.post in kept
  {
    Filter(comments, (c: Comment) => c.author != name && c.post in kept)
  }

  /** The follow pairs left once every pair naming `name`, in either role, is deleted. */
  function FollowsNotNaming(follows: seq<Follow>, name: UserName): (r: seq<Follow>)
    ensures forall f :: f in r <==> f in follows && f.user != name && f.author != name
  {
    Filter(follows, (f: Follow) => f.user != name && f.author != name)
  }

  /** Removing a user together with their posts, the comments that hang on them and their follow pairs keeps the table rules. */
  lemma RemoveUserKeepsRules(posts: seq<Post>, comments: seq<Comment>, follows: seq<Follow>, users: set<UserName>,
                             groups: seq<Group>, clock: nat, nextPostId: nat, name: UserName)
    requires PostsOk(posts, users, groups, clock, nextPostId)
    requires CommentsOk(comments, posts, users, clock)
    requires FollowsOk(follows, users)
    ensures PostsOk(PostsNotBy(posts, name), users - {name}, groups, clock, nextPostId)
    ensures CommentsOk(CommentsKept(comments, name, PostIds(PostsNotBy(posts, name))),
                       PostsNotBy(posts, name), users - {name}, clock)
    ensures FollowsOk(FollowsNotNaming(follows, name), users - {name})
  {
    var newPosts := PostsNotBy(posts, name);
    FilterPairwise(posts, (p: Post) => p.author != name, NewerPost);
    FilterPairwise(comments, (c: Comment) => c.author != name && c.post in PostIds(newPosts), NewerComment);
    FilterPairwise(follows, (f: Follow) => f.user != name && f.author != name, DistinctFollows);
  }

  lemma AppendFollowKeepsFollowsOk(follows: seq<Follow>, users: set<UserName>, user: UserName, author: UserName)
    requires FollowsOk(follows, users)
    requires user in users && author in users
    requires user != author && !Followed(follows, user, author)
    ensures FollowsOk(follows + [Follow(user, author)], users)
  {
    var r := follows + [Follow(user, author)];
    forall i, j | 0 <= i < j < |r| ensures DistinctFollows(r[i], r[j]) {
      if j == |follows| {
        assert r[i] in follows;
      } else {
        assert r[i] == follows[i] && r[j] == follows[j];
      }
    }
  }

  lemma WithoutPairKeepsFollowsOk(follows: seq<Follow>, users: set<UserName>, user: UserName, author: UserName)
    requires FollowsOk(follows, users)
    ensures FollowsOk(WithoutPair(follows, user, author), users)
  {
    FilterPairwise(follows, (f: Follow) => f != Follow(user, author), DistinctFollows);
  }

  class Store {
    var users: set<UserName>
    var groups: seq<Group>
    var posts: seq<Post>
    var comments: seq<Comment>
    var follows: seq<Follow>
    var clock: nat
    var nextGroupId: nat
    var nextPostId: nat

    ghost predicate Valid()
      reads this
    {
      && GroupsOk(groups, nextGroupId)
      && PostsOk(posts, users, groups, clock, nextPostId)
      && CommentsOk(comments, posts, users, clock)
      && FollowsOk(follows, users)
    }

    /** An empty blog whose authentication subsystem knows `users`. */
    constructor (users: set<UserName>)
      ensures Valid()
      ensures this.users == users
      ensures groups == [] && posts == [] && comments == [] && follows == []
    {
      this.users := users;
      groups, posts, comments, follows := [], [], [], [];
      clock, nextGroupId, nextPostId := 0, 0, 0;
    }

    /** `post.save()` of a new post: it heads the newest-first listing with a fresh id and the current time. */
    method CreatePost(author: UserName, text: string, group: Option<nat>, image: Option<Image>) returns (p: Post)
      requires Valid()
      requires author in users
      requires group.Some? ==> group.value in GroupIds(groups)
      modifies this
      ensures Valid()
      ensures p == Post(old(nextPostId), text, old(clock), author, group, image)
      ensures posts == [p] + old(posts)
      ensures clock == old(clock) + 1 && nextPostId == old(nextPostId) + 1
      ensures unchanged(`users, `groups, `comments, `follows, `nextGroupId)
    {
      p := Post(nextPostId, text, clock, author, group, image);
      PrependPostKeepsRules(posts, comments, users, groups, clock, nextPostId, p);
      posts := [p] + posts;
      clock := clock + 1;
      nextPostId := nextPostId + 1;
    }

    /** `post.save()` of an existing post, at position `i`, keeping its id, author and publication time. */
    method UpdatePost(i: nat, x: Post)
      requires Valid()
      requires i < |posts|
      requires x.id == posts[i].id && x.author == posts[i].author && x.pubDate == posts[i].pubDate
      requires x.group.Some? ==> x.group.value in GroupIds(groups)
      modifies this
      ensures Valid()
      ensures posts == old(posts)[i := x]
      ensures unchanged(`users, `groups, `comments, `follows, `clock, `nextGroupId, `nextPostId)
    {
      ReplacePostKeepsPostsOk(posts, users, groups, clock, nextPostId, i, x);
      posts := posts[i := x];
    }

    /** `comment.save()`: the comment heads the newest-first listing with the current time. */
    method CreateComment(post: nat, author: UserName, text: string) returns (c: Comment)
      requires Valid()
      requires author in users && post in PostIds(posts)
      modifies this
      ensures Valid()
      ensures c == Comment(post, author, text, old(clock))
      ensures comments == [c] + old(comments)
      ensures clock == old(clock) + 1
      ensures unchanged(`users, `groups, `posts, `follows, `nextGroupId, `nextPostId)
    {
      c := Comment(post, author, text, clock);
      PrependCommentKeepsRules(posts, comments, users, groups, clock, nextPostId, c);
      comments := [c] + comments;
      clock := clock + 1;
    }

    /** `Follow.objects.create(user=user, author=author)`, for a pair that is new and not a self-follow. */
    method CreateFollow(user: UserName, author: UserName)
      requires Valid()
      requires user in users && author in users
      requires user != author && !Followed(follows, user, author)
      modifies this
      ensures Valid()
      ensures follows == old(follows) + [Follow(user, author)]
      ensures unchanged(`users, `groups, `posts, `comments, `clock, `nextGroupId, `nextPostId)
    {
      AppendFollowKeepsFollowsOk(follows, users, user, author);
      follows := follows + [Follow(user, author)];
    }

    /** `Follow.objects.filter(user=user, author=author).delete()`. */
    method DeleteFollow(user: UserName, author: UserName)
      requires Valid()
      modifies this
      ensures Valid()
      ensures follows == WithoutPair(old(follows), user, author)
      ensures unchanged(`users, `groups, `posts, `comments, `clock, `nextGroupId, `nextPostId)
    {
      WithoutPairKeepsFollowsOk(follows, users, user, author);
      follows := WithoutPair(follows, user, author);
    }

    /**
      Adding a group under the field rules its model declares, as full model
      validation applies them: an empty title, slug or description (the
      default `blank=False`), a slug `validate_slug` refuses, a title or a
      slug longer than 200 characters, or a slug already in use, is refused
      and nothing changes; otherwise the new group joins the title-ordered
      listing.
    */
    method AddGroup(title: string, slug: string, description: string) returns (created: Option<Group>)
      requires Valid()
      modifies this
      ensures Valid()
      ensures created.None? <==>
        || title == [] || description == [] || !IsSlug(slug)
        || |title| > TitleMaxLength || |slug| > SlugMaxLength
        || slug in GroupSlugs(old(groups))
      ensures created.None? ==> unchanged(this)
      ensures created.Some? ==>
        && created.value == Group(old(nextGroupId), title, slug, description)
        && groups == InsertByTitle(old(groups), created.value)
        && nextGroupId == old(nextGroupId) + 1
      ensures users == old(users) && posts == old(posts) && comments == old(comments)
      ensures follows == old(follows) && clock == old(clock) && nextPostId == old(nextPostId)
    {
      if title == [] || description == [] || !IsSlug(slug)
        || |title| > TitleMaxLength || |slug| > SlugMaxLength || slug in GroupSlugs(groups)
      {
        return None;
      }
      var g := Group(nextGroupId, title, slug, description);
      forall x | x in groups ensures DistinctGroups(x, g) {
        assert x.slug in GroupSlugs(groups);
      }
      InsertByTitleSorted(groups, g);
      InsertByTitleDistinct(groups, g);
      groups := InsertByTitle(groups, g);
      nextGroupId := nextGroupId + 1;
      created := Some(g);
    }

    /**
      Deleting a group: the group goes; its posts stay, with their group set to
      null (`SET_NULL`). Comments, follows and users are untouched.
    */
    method DeleteGroup(gid: nat)
      requires Valid()
      modifies this
      ensures Valid()
      ensures forall g :: g in groups <==> g in old(groups) && g.id != gid
      ensures posts == ClearGroup(old(posts), gid)
      ensures forall p :: p in posts ==> p.group != Some(gid)
      ensures users == old(users) && comments == old(comments) && follows == old(follows)
      ensures clock == old(clock) && nextGroupId == old(nextGroupId) && nextPostId == old(nextPostId)
    {
      var keep := (g: Group) => g.id != gid;
      FilterPairwise(groups, keep, TitleOrder);
      FilterPairwise(groups, keep, DistinctGroups);
      GroupIdsFilter(groups, gid);
      ClearGroupKeepsOrder(posts, gid);
      var newPosts := ClearGroup(posts, gid);
      forall p | p in newPosts
        ensures p.author in users && p.pubDate < clock && p.id < nextPostId
        ensures p.group.Some? ==> p.group.value in GroupIds(groups) - {gid}
      {
        var k :| 0 <= k < |newPosts| && newPosts[k] == p;
        assert posts[k] in posts;
      }
      groups := Filter(groups, keep);
      posts := newPosts;
    }

    /** Deleting a post deletes its comments (`CASCADE`); every other row stays. */
    method DeletePost(pid: nat)
      requires Valid()
      modifies this
      ensures Valid()
      ensures forall p :: p in posts <==> p in old(posts) && p.id != pid
      ensures forall c :: c in comments <==> c in old(comments) && c.post != pid
      ensures users == old(users) && groups == old(groups) && follows == old(follows)
      ensures clock == old(clock) && nextGroupId == old(nextGroupId) && nextPostId == old(nextPostId)
    {
      var keepPost := (p: Post) => p.id != pid;
      var keepComment := (c: Comment) => c.post != pid;
      FilterPairwise(posts, keepPost, NewerPost);
      FilterPairwise(comments, keepComment, NewerComment);
      var newPosts := Filter(posts, keepPost);
      var newComments := Filter(comments, keepComment);
      forall c | c in newComments ensures c.post in PostIds(newPosts) {
        var p :| p in posts && p.id == c.post;
        assert p in newPosts;
      }
      posts := newPosts;
      comments := newComments;
    }

    /**
      Deleting a user (`CASCADE` on every foreign key to the user): the user's
      posts, the comments the user wrote, the comments on the user's posts,
      and the follow pairs with the user on either side all go.
    */
    method DeleteUser(name: UserName)
      requires Valid()
      modifies this
      ensures Valid()
      ensures users == old(users) - {name}
      ensures forall p :: p in posts <==> p in old(posts) && p.author != name
      ensures forall c :: c in comments <==>
        c in old(comments) && c.author != name && c.post in PostIds(posts)
      ensures forall c :: c in old(comments) && c.post in PostIds(old(posts)) - PostIds(posts) ==> c !in comments
      ensures forall f :: f in follows <==> f in old(follows) && f.user != name && f.author != name
      ensures groups == old(groups)
      ensures clock == old(clock) && nextGroupId == old(nextGroupId) && nextPostId == old(nextPostId)
    {
      RemoveUserKeepsRules(posts, comments, follows, users, groups, clock, nextPostId, name);
      var newPosts := PostsNotBy(posts, name);
      users := users - {name};
      comments := CommentsKept(comments, name, PostIds(newPosts));
      posts := newPosts;
      follows := FollowsNotNaming(follows, name);
    }
  }
}
