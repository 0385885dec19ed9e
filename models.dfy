/**
  The blog's records (Group, Post, Comment, Follow) as values, with the
  declarative rules of their model classes: field bounds, the `__str__`
  truncation, the listing orders and the set-null rule for a deleted group.
  Users belong to the authentication subsystem and are identified here by
  their (unique) username.
*/
module Models {
  import opened Wrappers
  import opened Seqs

  type UserName = string

  /** An uploaded image, kept opaque (its storage path). */
  type Image = string

  /** `max_length` of `Group.title` and of `Group.slug`. */
  const TitleMaxLength: nat := 200
  const SlugMaxLength: nat := 200

  /** A character `validate_slug` admits: an ASCII letter or digit, a hyphen or an underscore. */
  predicate IsSlugChar(c: char)
  {
    'a' <= c <= 'z' || 'A' <= c <= 'Z' || '0' <= c <= '9' || c == '-' || c == '_'
  }

  /** What `validate_slug` accepts (the pattern `^[-a-zA-Z0-9_]+\Z`): a non-empty run of slug characters. */
  predicate IsSlug(s: string)
  {
    s != [] && forall i :: 0 <= i < |s| ==> IsSlugChar(s[i])
  }

  /** The slug of the form and view tests is a slug; a slug with a space or with Cyrillic letters is not. */
  lemma SlugExamples()
    ensures IsSlug("test-slug")
    ensures !IsSlug("not a slug") && !IsSlug("Тестовый слаг")
  {
    assert "not a slug"[3] == ' ';
    assert "Тестовый слаг"[0] == 'Т';
  }

  /** Number of leading characters `__str__` shows of a post or a comment. */
  const StrLength: nat := 15

  datatype Group = Group(id: nat, title: string, slug: string, description: string)

  /** `pubDate` is the value of a monotone clock at creation (`auto_now_add`). */
  datatype Post = Post(
    id: nat,
    text: string,
    pubDate: nat,
    author: UserName,
    group: Option<nat>,
    image: Option<Image>)

  /** `created` is the value of the same clock when the comment was saved. */
  datatype Comment = Comment(post: nat, author: UserName, text: string, created: nat)

  /** `user` follows `author`. */
  datatype Follow = Follow(user: UserName, author: UserName)

  // ---------------------------------------------------------------------------
  // __str__

  /** A string's first `StrLength` characters (`text[:15]`). */
  function Truncate(s: string): (r: string)
    ensures |r| == if |s| <= StrLength then |s| else StrLength
    ensures r <= s
    ensures |s| <= StrLength ==> r == s
  {
    if |s| <= StrLength then s else s[..StrLength]
  }

  /** `str()` of a group is its title. */
  function GroupStr(g: Group): (r: string)
    ensures r == g.title
  {
    g.title
  }

  /** `str()` of a post: the leading `StrLength` characters of its text. */
  function PostStr(p: Post): (r: string)
    ensures r <= p.text && |r| == if |p.text| < StrLength then |p.text| else StrLength
  {
    Truncate(p.text)
  }

  /** `str()` of a comment: the leading `StrLength` characters of its text. */
  function CommentStr(c: Comment): (r: string)
    ensures r <= c.text && |r| == if |c.text| < StrLength then |c.text| else StrLength
  {
    Truncate(c.text)
  }

  // ---------------------------------------------------------------------------
  // Orderings (`Meta.ordering`)

  /** Lexicographic order on strings by code point; the prefix comes first. */
  predicate LexLe(a: string, b: string)
  {
    a == [] || (b != [] && (a[0] < b[0] || (a[0] == b[0] && LexLe(a[1..], b[1..]))))
  }

  lemma {:induction false} LexLeTotal(a: string, b: string)
    ensures LexLe(a, b) || LexLe(b, a)
  {
    if a != [] && b != [] && a[0] == b[0] {
      LexLeTotal(a[1..], b[1..]);
    }
  }

  lemma {:induction false} LexLeTransitive(a: string, b: string, c: string)
    requires LexLe(a, b) && LexLe(b, c)
    ensures LexLe(a, c)
  {
    if a != [] && b != [] && c != [] && a[0] == b[0] && b[0] == c[0] {
      LexLeTransitive(a[1..], b[1..], c[1..]);
    }
  }

  /** Groups are listed by title (`ordering = ('title',)`). */
  predicate TitleOrder(a: Group, b: Group) { LexLe(a.title, b.title) }

  /** Posts are listed newest first (`ordering = ('-pub_date',)`); ids grow with time. */
  predicate NewerPost(a: Post, b: Post) { a.pubDate > b.pubDate && a.id > b.id }

  /** Comments are listed newest first (`ordering = ('-created',)`). */
  predicate NewerComment(a: Comment, b: Comment) { a.created > b.created }

  /** Two different groups differ in id and in slug (`unique=True`). */
  predicate DistinctGroups(a: Group, b: Group) { a.id != b.id && a.slug != b.slug }

  predicate DistinctFollows(a: Follow, b: Follow) { a != b }

  /** Inserts `g` into a title-ordered listing. */
  function InsertByTitle(gs: seq<Group>, g: Group): (r: seq<Group>)
    ensures |r| == |gs| + 1
    ensures forall x :: x in r <==> x in gs || x == g
  {
    if gs == [] then [g]
    else if LexLe(g.title, gs[0].title) then [g] + gs
    else
      assert gs == [gs[0]] + gs[1..];
      [gs[0]] + InsertByTitle(gs[1..], g)
  }

  lemma {:induction false} InsertByTitleSorted(gs: seq<Group>, g: Group)
    requires Pairwise(gs, TitleOrder)
    ensures Pairwise(InsertByTitle(gs, g), TitleOrder)
  {
    if gs == [] {
    } else if LexLe(g.title, gs[0].title) {
      assert gs == [gs[0]] + gs[1..];
      PairwiseCons(gs[0], gs[1..], TitleOrder);
      forall y | y in gs ensures TitleOrder(g, y) {
        if y != gs[0] {
          LexLeTransitive(g.title, gs[0].title, y.title);
        }
      }
      PairwiseCons(g, gs, TitleOrder);
    } else {
      assert gs == [gs[0]] + gs[1..];
      PairwiseCons(gs[0], gs[1..], TitleOrder);
      InsertByTitleSorted(gs[1..], g);
      LexLeTotal(g.title, gs[0].title);
      PairwiseCons(gs[0], InsertByTitle(gs[1..], g), TitleOrder);
    }
  }

  /** Inserting a group that differs from every listed one keeps the listing's groups distinct. */
  lemma {:induction false} InsertByTitleDistinct(gs: seq<Group>, g: Group)
    requires Pairwise(gs, DistinctGroups)
    requires forall x :: x in gs ==> DistinctGroups(x, g)
    ensures Pairwise(InsertByTitle(gs, g), DistinctGroups)
  {
    if gs == [] {
    } else if LexLe(g.title, gs[0].title) {
      PairwiseCons(g, gs, DistinctGroups);
    } else {
      assert gs == [gs[0]] + gs[1..];
      PairwiseCons(gs[0], gs[1..], DistinctGroups);
      InsertByTitleDistinct(gs[1..], g);
      PairwiseCons(gs[0], InsertByTitle(gs[1..], g), DistinctGroups);
    }
  }

  // ---------------------------------------------------------------------------
  // The follow relation

  /** `Follow.objects.filter(user=user, author=author).exists()`. */
  predicate Followed(follows: seq<Follow>, user: UserName, author: UserName)
    ensures Followed(follows, user, author) <==> exists f :: f in follows && f.user == user && f.author == author
  {
    Follow(user, author) in follows
  }

  /** The follow table after `Follow.objects.filter(user=user, author=author).delete()`. */
  function WithoutPair(follows: seq<Follow>, user: UserName, author: UserName): (r: seq<Follow>)
    ensures forall f :: f in r <==> f in follows && f != Follow(user, author)
    ensures !Followed(r, user, author)
  {
    Filter(follows, (f: Follow) => f != Follow(user, author))
  }

  // ---------------------------------------------------------------------------
  // Keys and the set-null rule

  function PostIds(posts: seq<Post>): set<nat> { set p | p in posts :: p.id }

  function GroupIds(groups: seq<Group>): set<nat> { set g | g in groups :: g.id }

  function GroupSlugs(groups: seq<Group>): set<string> { set g | g in groups :: g.slug }

  /**
    `on_delete=SET_NULL` for `Post.group`: the posts of group `gid` stay, with
    their group cleared; no other field and no other post changes.
  */
  function ClearGroup(posts: seq<Post>, gid: nat): (r: seq<Post>)
    ensures |r| == |posts|
    ensures forall i :: 0 <= i < |r| ==>
      r[i].group == (if posts[i].group == Some(gid) then None else posts[i].group) &&
      r[i].(group := posts[i].group) == posts[i]
  {
    seq(|posts|, i requires 0 <= i < |posts| =>
      if posts[i].group == Some(gid) then posts[i].(group := None) else posts[i])
  }

  lemma ClearGroupKeepsOrder(posts: seq<Post>, gid: nat)
    requires Pairwise(posts, NewerPost)
    ensures Pairwise(ClearGroup(posts, gid), NewerPost)
    ensures PostIds(ClearGroup(posts, gid)) == PostIds(posts)
  {
    var r := ClearGroup(posts, gid);
    forall i, j | 0 <= i < j < |r| ensures NewerPost(r[i], r[j]) {
      assert NewerPost(posts[i], posts[j]);
    }
    forall id | id in PostIds(posts) ensures id in PostIds(r) {
      var p :| p in posts && p.id == id;
      var k :| 0 <= k < |posts| && posts[k] == p;
      assert r[k].id == id;
    }
    forall id | id in PostIds(r) ensures id in PostIds(posts) {
      var p :| p in r && p.id == id;
      var k :| 0 <= k < |r| && r[k] == p;
      assert posts[k].id == id;
    }
  }
}
