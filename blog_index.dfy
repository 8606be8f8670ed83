/**
 * The category tabs of the blog listing page (app/blog/page.tsx): the list of
 * distinct categories, and the posts shown under each tab.
 */
module BlogIndex {
  import opened Blog

  /** `posts.flatMap(post => post.frontmatter.categories)` */
  function AllCategories(posts: seq<BlogPost>): (cats: seq<string>)
    ensures forall c :: c in cats <==> exists i :: 0 <= i < |posts| && c in posts[i].frontmatter.categories
  {
    if posts == [] then []
    else
      var rest := AllCategories(posts[1..]);
      assert forall c :: c in rest <==> exists i :: 1 <= i < |posts| && c in posts[i].frontmatter.categories by {
        forall c | c in rest ensures exists i :: 1 <= i < |posts| && c in posts[i].frontmatter.categories {
          var j :| 0 <= j < |posts[1..]| && c in posts[1..][j].frontmatter.categories;
          assert c in posts[j + 1].frontmatter.categories;
        }
        forall c, i | 1 <= i < |posts| && c in posts[i].frontmatter.categories ensures c in rest {
          assert c in posts[1..][i - 1].frontmatter.categories;
        }
      }
      posts[0].frontmatter.categories + rest
  }

  /** The index of the first occurrence of `x` in `xs`. */
  function FirstIndex(xs: seq<string>, x: string): (k: nat)
    requires x in xs
    ensures k < |xs| && xs[k] == x && x !in xs[..k]
  {
    if xs[0] == x then 0 else 1 + FirstIndex(xs[1..], x)
  }

  lemma {:induction false} FirstIndexInPrefix(xs: seq<string>, n: nat, x: string)
    requires n <= |xs| && x in xs[..n]
    ensures FirstIndex(xs, x) == FirstIndex(xs[..n], x)
  {
    if xs[0] != x {
      assert xs[..n][1..] == xs[1..][..n - 1];
      FirstIndexInPrefix(xs[1..], n - 1, x);
    }
  }

  ghost predicate NoDuplicates(xs: seq<string>)
  {
    forall i, j :: 0 <= i < j < |xs| ==> xs[i] != xs[j]
  }

  /**
   * `Array.from(new Set(xs))`: a JavaScript Set keeps insertion order, so the
   * result holds every element of `xs` once, in order of first occurrence.
   */
  function Distinct(xs: seq<string>): (r: seq<string>)
    ensures NoDuplicates(r)
    ensures forall x :: x in r <==> x in xs
    ensures forall i, j :: 0 <= i < j < |r| ==> FirstIndex(xs, r[i]) < FirstIndex(xs, r[j])
  {
    if xs == [] then []
    else
      var n := |xs| - 1;
      var d := Distinct(xs[..n]);
      assert xs == xs[..n] + [xs[n]];
      forall i | 0 <= i < |d| ensures d[i] in xs && FirstIndex(xs, d[i]) == FirstIndex(xs[..n], d[i]) {
        assert d[i] in xs[..n];
        FirstIndexInPrefix(xs, n, d[i]);
      }
      if xs[n] in d then d
      else
        assert FirstIndex(xs, xs[n]) == n;
        d + [xs[n]]
  }

  /** The tab labels after "All Posts": each category once, first appearance first. */
  function Categories(posts: seq<BlogPost>): (cats: seq<string>)
    ensures forall c :: c in cats <==> c in AllCategories(posts)
    ensures NoDuplicates(cats)
    ensures forall c :: c in cats <==> exists i :: 0 <= i < |posts| && c in posts[i].frontmatter.categories
    ensures forall i, j :: 0 <= i < j < |cats| ==>
              FirstIndex(AllCategories(posts), cats[i]) < FirstIndex(AllCategories(posts), cats[j])
  {
    Distinct(AllCategories(posts))
  }

  /** The posts under the tab of `category`: `posts.filter(p => p.frontmatter.categories.includes(category))` */
  function TabPosts(posts: seq<BlogPost>, category: string): (shown: seq<BlogPost>)
    ensures |shown| <= |posts|
    ensures forall k :: 0 <= k < |shown| ==> category in shown[k].frontmatter.categories
  {
    if posts == [] then []
    else
      (if category in posts[0].frontmatter.categories then [posts[0]] else []) + TabPosts(posts[1..], category)
  }

  /** The tab shows exactly the posts that carry the category, each as often as the listing does. */
  lemma {:induction false} TabPostsCount(posts: seq<BlogPost>, category: string)
    ensures forall p :: multiset(TabPosts(posts, category))[p] ==
              if category in p.frontmatter.categories then multiset(posts)[p] else 0
  {
    if posts != [] {
      assert posts == [posts[0]] + posts[1..];
      TabPostsCount(posts[1..], category);
    }
  }

  /** A tab keeps the listing order: filtering distributes over concatenation. */
  lemma {:induction false} TabPostsAppend(a: seq<BlogPost>, b: seq<BlogPost>, category: string)
    ensures TabPosts(a + b, category) == TabPosts(a, category) + TabPosts(b, category)
  {
    if a != [] {
      var head := if category in a[0].frontmatter.categories then [a[0]] else [];
      var ab := a + b;
      assert ab != [] && ab[0] == a[0];
      assert ab[1..] == a[1..] + b;
      assert TabPosts(ab, category) == head + TabPosts(ab[1..], category);
      TabPostsAppend(a[1..], b, category);
      assert (head + TabPosts(a[1..], category)) + TabPosts(b, category)
          == head + (TabPosts(a[1..], category) + TabPosts(b, category));
    } else {
      assert a + b == b;
    }
  }

  /** No category tab is empty. */
  lemma NoEmptyTab(posts: seq<BlogPost>, category: string)
    requires category in Categories(posts)
    ensures |TabPosts(posts, category)| > 0
  {
    var i :| 0 <= i < |posts| && category in posts[i].frontmatter.categories;
    assert multiset(posts)[posts[i]] > 0;
    TabPostsCount(posts, category);
    assert multiset(TabPosts(posts, category))[posts[i]] > 0;
  }

  /** Every post with at least one category shows up under some category tab. */
  lemma EveryPostHasTab(posts: seq<BlogPost>, i: nat)
    requires i < |posts| && posts[i].frontmatter.categories != []
    ensures exists c :: c in Categories(posts) && posts[i] in TabPosts(posts, c)
  {
    var c := posts[i].frontmatter.categories[0];
    assert c in Categories(posts);
    assert multiset(posts)[posts[i]] > 0;
    TabPostsCount(posts, c);
    assert multiset(TabPosts(posts, c))[posts[i]] > 0;
  }
}
