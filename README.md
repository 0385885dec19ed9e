# Yatube posts: a Dafny model

Yatube is a small blog built on Django. This project models its `posts`
application: the records (groups, posts, comments, follow pairs), the two
input forms, the paginator helper, and the request handlers.

- **Read-only handlers** become functions of the store. These are the
  index, a group's page, a profile, a post's page and the feed of followed
  authors.
- **Write handlers** become methods that change the store. They create
  and edit posts, add comments, and follow or unfollow authors.

The project has these modules, one per file:

- `Wrappers` (`wrappers.dfy`): `Option` and `Result`.
- `Seqs` (`seqs.dfy`): the generic `Filter` that plays the role of a
  queryset `.filter(...)`. It also defines `Pairwise`, which states that
  every earlier element relates to every later one. `Pairwise` expresses
  listing orders and uniqueness.
- `Models` (`models.dfy`): the records as datatypes and their `__str__`
  forms. It also holds the listing orders declared by `Meta.ordering`,
  title-ordered insertion of a group, the follow relation, and the
  `SET_NULL` rule of `Post.group`.
- `Forms` (`forms.dfy`): the cleaning done by `PostForm` and
  `CommentForm`.
  - The framework's character field strips surrounding whitespace using
    Python's `str.isspace` table. It then rejects an empty text as required,
    and refuses a text holding the null character U+0000 ("Null characters
    are not allowed.").
  - `PostForm.clean_text` rejects a text whose lower-cased form contains
    "блин". The error message is kept verbatim.
  - A group must be an existing group when one is given. The image may be
    left out.
  - `PostInput` holds exactly the fields `PostForm` exposes (`text`,
    `group`, `image`), and `CommentFormClean` takes only `text`. The author,
    the post and the timestamps therefore never come from a form.
- `Paging` (`paging.dfy`): `paginate_posts` with pages of
  `POSTS_PER_PAGE` = 10 posts.
  - The page is chosen as the framework's `get_page` chooses it. No
    usable number gives page 1.
  - A number below 1 or beyond the last page gives the last page.
  - An empty listing has one empty page.
- `Db` (`store.dfy`): the database, as a class `Store`.
  - There is one field per table. Posts and comments are kept newest
    first; groups are kept by title.
  - A monotone `clock` stands for `auto_now_add`, and counters supply
    fresh ids.
  - `Valid()` holds the rules the models declare:
    - every foreign key points at an existing row;
    - group titles and slugs are at most 200 characters;
    - slugs are unique;
    - listing orders hold.
  - `Valid()` also holds an invariant that `Follow` does not declare (it
    has no unique or check constraint): there is no self-follow and no
    repeated follow pair. Only the guard in `profile_follow`
    (`views.py:122`) keeps it, and only for requests that do not
    interleave. The model's operations preserve it.
  - The saves the handlers make are methods: create a post, update a post,
    create a comment, create and delete a follow pair. Each keeps
    `Valid()`.
  - Deleting a user, a group or a post is also a method. No handler calls
    these; they model the `on_delete` rules (`CASCADE`, `SET_NULL`) the
    models declare.
- `Views` (`views.dfy`): the handlers. A response is one of:
  - the context a template would be rendered with;
  - a redirect to a post's page, a redirect to a profile, or a redirect to
    the login page carrying the handler's own path;
  - a 404 (`NotFound`);
  - an uncaught exception (`Error`).

The logged-in user is an `Option<UserName>`. Users are identified by
their unique username. The set of users belongs to the authentication
subsystem and is fixed from the handlers' point of view.

Three behaviours of the handlers and forms are easy to misread:

- **Comment text.** The comment form has no forbidden-word check
  (`forms.py:27-30` declares no `clean_text`). Only the post form rejects
  "блин", and `Forms.CommentFormClean` checks nothing but the required
  text.
- **Follow of an unknown user.** `profile_follow` for a username that is
  not the caller's own and names no user raises `User.DoesNotExist`. The
  model answers `Error`, not a 404. For the caller's own name, the code
  redirects without any lookup. `profile_unfollow` uses
  `get_object_or_404`, so the same unknown name gives a 404 there.
- **Comment on an unknown post.** `add_comment` with an unbound or invalid
  form redirects to the post's page without looking the post up, even for
  an unknown id. With a valid form, an unknown id gives a 404.

## Model

| member | source | states |
|---|---|---|
| Models.Truncate | yatube/posts/models.py:94-95 | The string form of a post or comment is a prefix of its text, of length min(15, length of the text); a text of at most 15 characters is shown whole |
| Models.GroupStr | yatube/posts/models.py:39-40 | `str()` of a group is its title |
| Models.PostStr | yatube/posts/models.py:94-95 | `str()` of a post is a prefix of its text, of length min(15, length of the text) |
| Models.CommentStr | yatube/posts/models.py:121-122 | `str()` of a comment is a prefix of its text, of length min(15, length of the text) |
| Models.IsSlug | yatube/posts/models.py:27-31 | What the slug field's `validate_slug` accepts: a non-empty string of ASCII letters, digits, hyphens and underscores |
| Models.SlugExamples | yatube/posts/models.py:27-31 | "test-slug" is a slug; "not a slug" and "Тестовый слаг" are not |
| Models.LexLe | yatube/posts/models.py:37 | The title order: strings compared character by character by code point, a prefix before any longer string |
| Models.TitleOrder | yatube/posts/models.py:37 | Groups are listed by title (`ordering = ('title',)`), in the order `LexLe` defines |
| Models.NewerPost | yatube/posts/models.py:92 | Posts are listed newest first (`ordering = ('-pub_date',)`): an earlier post in the listing has the later publication time |
| Models.NewerComment | yatube/posts/models.py:119 | Comments are listed newest first (`ordering = ('-created',)`): an earlier comment has the later creation time |
| Models.LexLeTotal | yatube/posts/models.py:37 | The title order compares any two titles |
| Models.LexLeTransitive | yatube/posts/models.py:37 | The title order is transitive |
| Models.InsertByTitle | yatube/posts/models.py:34-37 | Inserting a group adds exactly that group to the listing (length grows by one; membership is the old listing plus the group) |
| Models.InsertByTitleSorted | yatube/posts/models.py:34-37 | Inserting into a title-ordered group listing keeps it title-ordered |
| Models.InsertByTitleDistinct | yatube/posts/models.py:27-31 | Inserting a group whose id and slug are new keeps all ids and slugs distinct |
| Models.WithoutPair | yatube/posts/views.py:134-137 | After deleting the pair (user, author), exactly the other follow pairs remain and the pair is gone |
| Models.Followed | yatube/posts/views.py:40-41 | `Follow.objects.filter(user=..., author=...).exists()` holds exactly when some follow row has that user and that author |
| Models.ClearGroup | yatube/posts/models.py:73-81 | Deleting group `gid` clears exactly the posts' group fields that pointed at it; every post stays, in place, with its other fields unchanged |
| Models.ClearGroupKeepsOrder | yatube/posts/models.py:89-92 | Clearing a group keeps the newest-first order and the set of post ids |
| Forms.LowerChar | yatube/posts/forms.py:22 | `str.lower` of one character, for the Latin and Cyrillic capitals; every other character is kept |
| Forms.Lower | yatube/posts/forms.py:22 | `data.lower()`: every character lower-cased, the length kept |
| Forms.Contains | yatube/posts/forms.py:22 | The substring test `sub in s` |
| Forms.LowerOfUpper | yatube/posts/forms.py:22 | Lower-casing an upper-cased character gives the lower-cased character |
| Forms.ContainsIff | yatube/posts/forms.py:22 | The substring test `sub in s` holds exactly when `sub` occurs at some position of `s` (both directions) |
| Forms.LowerSlice | yatube/posts/forms.py:22 | Lower-casing commutes with taking a slice |
| Forms.CleanText | yatube/posts/forms.py:20-24 | `clean_text` returns the text unchanged when it passes; when it fails, the error carries the message "Вы имели в виду "блинчик" 🥞?" |
| Forms.CleanTextRejectsWindow | yatube/posts/forms.py:22-23 | A text is rejected if and only if some window of it lower-cases to "блин" |
| Forms.AnyCasingRejected | yatube/posts/forms.py:22-23 | Every casing of "блин" ("БЛИН", "бЛиН", ...) is rejected wherever it occurs in the text |
| Forms.UpperKeepsVerdict | yatube/posts/forms.py:22 | Upper-casing a text never changes whether `clean_text` rejects it |
| Forms.IsSpace | yatube/posts/models.py:59-62 | Python's `str.isspace` table, which the character field strips by |
| Forms.StripLeft | yatube/posts/forms.py:21 | Removes exactly the leading whitespace: the result is a suffix, everything dropped is whitespace, and the result does not start with whitespace |
| Forms.StripRight | yatube/posts/forms.py:21 | Removes exactly the trailing whitespace: the result is a prefix, everything dropped is whitespace, and the result does not end with whitespace |
| Forms.Strip | yatube/posts/forms.py:21 | The cleaned text is a slice of the input with only whitespace cut at both ends, and neither end of the result is whitespace |
| Forms.StripKeepsNonSpace | yatube/posts/forms.py:21 | A character that is not whitespace (such as U+0000) is in the stripped text exactly when it is in the submitted text |
| Forms.StripKeepsWord | yatube/posts/forms.py:21 | A word that neither starts nor ends with whitespace, found in the submitted text, is still found in the stripped text |
| Forms.CleanTextField | yatube/posts/models.py:59-62 | The text field is valid if and only if the stripped text is non-empty and the text holds no U+0000; its cleaned value is the stripped text. An empty text gives "required", otherwise the null-character error |
| Forms.PostFormClean | yatube/posts/forms.py:6-24 | The post form is valid if and only if four things hold: the stripped text is non-empty, the text holds no U+0000, the stripped text passes `clean_text`, and any group given exists. The cleaned data is the stripped text with the given group and image. An invalid form reports at least one error |
| Forms.CommentFormClean | yatube/posts/forms.py:27-30 | The comment form is valid if and only if the stripped text is non-empty and holds no U+0000; no word is forbidden. Otherwise the single error is "required" or the null-character error |
| Forms.OnlyTextRequired | yatube/posts/models.py:73-87 | With no group and no image, the post form is valid exactly when its text is non-blank, holds no U+0000 and is free of the forbidden word (group and image are `blank=True`) |
| Forms.ForbiddenTextFails | yatube/posts/forms.py:20-24 | A post whose submitted text contains any casing of "блин" is invalid. Unless the text also holds U+0000 (then the field fails before `clean_text` runs), the rejection of `text` with the message is among the errors |
| Paging.NumPages | yatube/posts/utils.py:6 | There is at least one page; a non-empty listing of n posts has exactly the pages needed for n posts, 10 to a page |
| Paging.PageNumber | yatube/posts/utils.py:7-8 | The chosen page number is always between 1 and the number of pages |
| Paging.Paginate | yatube/posts/utils.py:5-8 | A page holds at most 10 posts, all of them from the listing; its number is in range, and it knows how many pages there are |
| Paging.PageClamping | yatube/posts/utils.py:8 | A valid page number is kept; one below 1 or beyond the last page selects the last page |
| Paging.PageItemIndex | yatube/posts/utils.py:6-8 | Item j of page n is item (n-1)·10 + j of the listing |
| Paging.EveryItemOnItsPage | yatube/posts/utils.py:6-8 | Every post of the listing appears: post k is on page k div 10 + 1, at position k mod 10 |
| Paging.PageKeepsOrder | yatube/posts/utils.py:5-8 | A page keeps the listing's order |
| Paging.FirstPageByDefault | yatube/posts/utils.py:7-8 | Without a page parameter the first page is shown: the first (at most) 10 posts of the listing |
| Paging.SecondPageHoldsRest | yatube/posts/tests/test_views.py:176-196 | For 11 to 20 posts, page 1 holds 10 posts and page 2 holds the rest; together they are the whole listing in order |
| Paging.TwelvePosts | yatube/posts/tests/test_views.py:176-196 | The test's twelve posts (one from the class set-up plus eleven) give a first page of 10 and a second page of 2 |
| Db.GroupsOk | yatube/posts/models.py:23-37 | Groups are title-ordered, have distinct ids and distinct slugs (`unique=True`), and titles and slugs of at most 200 characters |
| Db.PostsOk | yatube/posts/models.py:59-92 | Posts are newest first; each one's author exists, its group when set exists, and its time and id are already issued |
| Db.CommentsOk | yatube/posts/models.py:99-119 | Comments are newest first; each one's author and post exist, and its time is already issued |
| Db.FollowsOk | yatube/posts/models.py:125-135 | Both users of a follow pair exist; no pair is a self-follow and no pair repeats (an invariant kept by `views.py:122`, not a declared constraint) |
| Db.Store.Valid | yatube/posts/models.py:23-135 | The store satisfies all four table rules at once, with the clock and the id counters ahead of every row |
| Db.ReplacePostKeepsPostsOk | yatube/posts/views.py:88-89 | Saving an edited post with the same id, author and date keeps the post rules and the set of post ids |
| Db.PrependPostKeepsRules | yatube/posts/views.py:70-72 | Saving a new post with a fresh id and the current time, at the head of the listing, keeps the post and comment rules |
| Db.PrependCommentKeepsRules | yatube/posts/views.py:102-105 | Saving a new comment on an existing post, at the head of the listing, keeps the comment rules |
| Db.PostsNotBy | yatube/posts/models.py:67-72 | Deleting a user removes exactly that user's posts (`CASCADE` on `Post.author`) |
| Db.CommentsKept | yatube/posts/models.py:99-110 | Exactly the comments whose author and post both remain are kept (`CASCADE` on `Comment.post` and `Comment.author`) |
| Db.FollowsNotNaming | yatube/posts/models.py:125-135 | Deleting a user removes exactly the follow pairs naming them in either role (`CASCADE` on both keys) |
| Db.RemoveUserKeepsRules | yatube/posts/models.py:67-135 | The three cascades together leave posts, comments and follow pairs satisfying every rule for the remaining users |
| Db.AppendFollowKeepsFollowsOk | yatube/posts/views.py:122-128 | Adding a new, non-self follow pair between existing users keeps the follow table free of self-follows and repeats |
| Db.WithoutPairKeepsFollowsOk | yatube/posts/views.py:134-137 | Deleting a follow pair keeps the follow rules |
| Db.Store.CreatePost | yatube/posts/views.py:70-72 | A new post, with the next id and the current time, heads the posts; the clock and id counter advance; nothing else changes; the store stays valid |
| Db.Store.UpdatePost | yatube/posts/views.py:89 | The post at position i is replaced; nothing else changes; the store stays valid |
| Db.Store.CreateComment | yatube/posts/views.py:102-105 | A new comment stamped with the current time heads the comments; the clock advances; nothing else changes; the store stays valid |
| Db.Store.CreateFollow | yatube/posts/views.py:125-128 | The pair is appended to the follow table; nothing else changes; the store stays valid |
| Db.Store.DeleteFollow | yatube/posts/views.py:134-137 | The follow table loses exactly the pair; nothing else changes; the store stays valid |
| Db.Store.AddGroup | yatube/posts/models.py:23-32 | A group is refused if and only if its title, slug or description is empty (`blank=False`), its slug fails `validate_slug`, its title or slug exceeds 200 characters, or its slug is taken; then nothing changes. Otherwise it gets the next id and joins the title-ordered listing, and the store stays valid |
| Db.Store.DeleteGroup | yatube/posts/models.py:73-81 | Exactly that group goes; its posts stay with their group cleared (`SET_NULL`); no post points at it afterwards; nothing else changes |
| Db.Store.DeletePost | yatube/posts/models.py:99-104 | Exactly that post goes, and with it exactly its comments (`CASCADE`); nothing else changes |
| Db.Store.DeleteUser | yatube/posts/models.py:67-135 | Exactly the user goes, with their posts, their comments, the comments on their posts and every follow pair naming them; groups stay; the store stays valid |
| Views.FindGroup | yatube/posts/views.py:26 | Finds the group with that slug, if and only if the slug exists |
| Views.FindPost | yatube/posts/views.py:54 | Finds the position of the post with that id, if and only if the id exists |
| Views.Feed | yatube/posts/views.py:112-113 | The feed holds exactly the posts whose author the user follows |
| Views.FeedNewestFirst | yatube/posts/views.py:113 | The feed keeps the newest-first order |
| Views.FeedAfterNewPost | yatube/posts/tests/test_views.py:205-231 | A new post heads the feed of every follower of its author (the feed grows by one) and leaves every other feed unchanged |
| Views.FeedAfterUnfollow | yatube/posts/tests/test_views.py:198-203 | After an unfollow, the feed holds exactly the former feed's posts by other authors |
| Views.FollowedAuthors | yatube/posts/views.py:112 | `user.follower.values_list('author')` is exactly the set of authors the user follows |
| Views.FollowStep | yatube/posts/views.py:122-128 | Following adds exactly the pair, only when it is not a self-follow and not already there, at the end; the old table is untouched |
| Views.FollowTwiceIsOnce | yatube/posts/views.py:122-128 | Following twice is the same as following once |
| Views.FollowKeepsFollowsOk | yatube/posts/views.py:122-128 | Following keeps the follow table free of self-follows and repeated pairs |
| Views.UnfollowWhenNotFollowing | yatube/posts/views.py:134-137 | Unfollowing an author one does not follow changes nothing |
| Views.UnfollowUndoesFollow | yatube/posts/views.py:121-137 | Unfollowing right after a follow that added the pair restores the table exactly |
| Views.FollowingFlagAfterSteps | yatube/posts/views.py:39-43 | After a follow the profile's `following` flag is set (unless it is one's own profile); after an unfollow it is clear, and other authors' flags are unchanged |
| Views.GroupListing | yatube/posts/views.py:27 | `group.posts.all()` holds exactly the posts of the group, in the store's newest-first order |
| Views.AuthorListing | yatube/posts/views.py:38 | `author.posts.all()` holds exactly the posts by the author, in the store's newest-first order |
| Views.PostComments | yatube/posts/views.py:54 | `post.comments.all()` holds exactly the comments on the post, in the store's newest-first order |
| Views.Index | yatube/posts/views.py:15-21 | The index renders page `page` of all posts, exactly `Paginate(posts, page)` |
| Views.IndexShowsEveryPost | yatube/posts/views.py:19 | Every post is on the index: post k is item k mod 10 of page k div 10 + 1 |
| Views.ListingsNewestFirst | yatube/posts/models.py:89-119 | Pages of the index, a group, a profile (for any viewer, logged in or not) and the feed are all newest first, and so is the comment list of a post's page |
| Views.GroupPosts | yatube/posts/views.py:24-32 | 404 if and only if no group has the slug; otherwise that group with exactly page `page` of its listing |
| Views.Profile | yatube/posts/views.py:35-49 | 404 if and only if no such user. Otherwise exactly page `page` of that author's listing, with `following` true exactly when the viewer is logged in and follows the author |
| Views.PostDetail | yatube/posts/views.py:52-60 | 404 if and only if no post has the id; otherwise that post with exactly its comments (their newest-first order is in `ListingsNewestFirst`) |
| Views.FollowIndex | yatube/posts/views.py:109-117 | Anonymous visitors are sent to log in; otherwise exactly page `page` of the feed, whose posts are those by authors the viewer follows |
| Views.EditedPost | yatube/posts/views.py:83-89 | An edit sets the text and group, and the image when a new one is uploaded. An absent upload keeps the old image. Id, author and date never change |
| Views.PostCreate | yatube/posts/views.py:63-74 | Anonymous: login redirect, no change. Unbound or invalid form: re-render with the errors, no change. Valid form: one new post by the caller with the cleaned data heads the posts, then redirect to the caller's profile |
| Views.PostEdit | yatube/posts/views.py:77-95 | Anonymous: login redirect. Unknown id: 404. Not the author: redirect to the post, no change. Unbound or invalid form: re-render with the errors, no change. Valid form: exactly that post becomes the edited post, then redirect to it |
| Views.AddComment | yatube/posts/views.py:98-106 | Anonymous: login redirect. Unbound or invalid form: redirect, no change. Valid form on an unknown post: 404. Otherwise one new comment by the caller heads the comments |
| Views.ProfileFollow | yatube/posts/views.py:120-129 | Anonymous: login redirect. One's own name: redirect, no change. Unknown name: Error, no change. Otherwise the follow table becomes `FollowStep` of the old one |
| Views.ProfileUnfollow | yatube/posts/views.py:132-138 | Anonymous: login redirect. Unknown name: 404, no change. Otherwise exactly the pair is removed and the caller is redirected to the profile |

## Left out

- The index page cache (`cache_page(20)`) is left out. It changes when a
  change becomes visible, not what is shown; the model renders from the
  current store.
- Image upload is not modelled: file storage, image-type validation, and
  the `upload_to` path. An image is an opaque string.
- Templates and rendering are not modelled. A response carries the
  context a template would get.
- Form presentation is not modelled: widget placeholders, the empty label
  of the group choice, and `verbose_name` and `help_text` metadata.
- Forms.LowerChar: lower-casing covers only Basic Latin and Cyrillic
  letters (A-Z, А-Я, Ѐ-Џ). Python's full Unicode `str.lower` is not
  modelled. In particular, mappings that change a string's length are
  absent. The forbidden word is Cyrillic, so these letters decide the
  check.
- Views.ProfileFollow: the two separate queries of `profile_follow` are
  one atomic step. Concurrent requests, which could create a duplicate
  pair between the existence check and the insert, are not modelled.
- Views.FindPost: `get_post` lives in a `core/views.py` file that is not
  part of this model. It is taken to be `get_object_or_404` on the post
  id, which is what its uses imply.
- `core/models.py` (`CreateModel`, the base of `Comment`) is not part of
  this model. Its `created` field is taken to be an `auto_now_add`
  timestamp, the field `Meta.ordering` of `Comment` names.
- The project settings are not part of this model. `POSTS_PER_PAGE` is
  taken to be 10, the value the tests count with.
- Paging.PageNumber: the framework's `get_page` rule is restated as an
  assumption.
  - A value that is not an integer counts as absent.
  - A number below 1 or beyond the last page selects the last page.
- Views.EditedPost: clearing an existing image through the form's
  "clear" checkbox is not modelled. An edit either uploads a new image or
  keeps the old one.
- Db.Store.AddGroup: the field rules are applied as full model validation
  applies them (blank, `validate_slug`, `max_length`, `unique`).
  `Group.objects.create`, which the tests use, runs none of these checks
  itself; only the database's unique index refuses a repeated slug. The
  tests' `'Тестовый слаг'` is therefore stored by them but refused here.
  `Valid()` holds the length and uniqueness rules only, not the blank and
  slug-format rules.
- Models.LexLe: `ordering = ('title',)` sorts by the database's collation.
  The project settings are not part of this model; the model takes
  code-point order (SQLite's `BINARY` collation).
- Creating and deleting users belongs to the authentication subsystem.
  `Db.Store.DeleteUser` models only the cascades of this application's
  models.
- Timestamps are a monotone counter, not wall-clock times. Two saves never
  share a time, so equal `pub_date`s are not modelled; ids grow with
  time.
