/**
 * The single-post page (`src/pages/BlogPost.jsx`): `fetchBlog`, run whenever
 * the route's slug changes, looks the post up, picks up to three related
 * posts among the four newest, and records a not-found or load error.
 */
module BlogPostPage {
  import opened Wrappers
  import opened Seqs
  import opened BlogUtils

  const NotFoundError := "Blog post not found"
  const LoadError := "Failed to load blog post"

  function Min(a: int, b: int): int {
    if a < b then a else b
  }

  /** `getRecentBlogs(4).filter(b => b.slug !== slug).slice(0, 3)`. */
  function Related(blogs: seq<Post>, slug: string): (r: seq<Post>)
    ensures |r| == Min(3, |Filter(RecentBlogs(blogs, 4), (p: Post) => p.slug != slug)|)
    ensures forall p :: p in r ==> p.slug != slug
    ensures IsSubsequence(r, blogs[..Min(4, |blogs|)])
    ensures (forall p :: p in blogs[..Min(4, |blogs|)] ==> p.slug != slug) ==> r == blogs[..Min(3, |blogs|)]
  {
    var recent := RecentBlogs(blogs, 4);
    var others := Filter(recent, (p: Post) => p.slug != slug);
    assert recent == blogs[..Min(4, |blogs|)];
    assert (forall p :: p in recent ==> p.slug != slug) ==> others == recent by {
      if forall p :: p in recent ==> p.slug != slug {
        FilterKeepsAll(recent, (p: Post) => p.slug != slug);
      }
    }
    FirstThreeOf(recent, slug, others);
    Slice(others, 3)
  }

  /** The first three of a selection from `recent` that drops the current slug. */
  lemma FirstThreeOf(recent: seq<Post>, slug: string, others: seq<Post>)
    requires forall p :: p in others ==> p.slug != slug
    requires IsSubsequence(others, recent)
    requires (forall p :: p in recent ==> p.slug != slug) ==> others == recent
    ensures var r := Slice(others, 3);
            && |r| == Min(3, |others|)
            && (forall p :: p in r ==> p.slug != slug)
            && IsSubsequence(r, recent)
            && ((forall p :: p in recent ==> p.slug != slug) ==> r == recent[..Min(3, |recent|)])
  {
    var r := Slice(others, 3);
    PrefixIsSubsequence(others, |r|);
    SubsequenceTransitive(r, others, recent);
    forall p | p in r ensures p in others {
      SubsequenceMembers(r, others, p);
    }
  }

  /** A filter that every element passes keeps the whole sequence. */
  lemma {:induction false} FilterKeepsAll<T(!new)>(s: seq<T>, keep: T -> bool)
    requires forall x :: x in s ==> keep(x)
    ensures Filter(s, keep) == s
  {
    if s != [] {
      assert forall x :: x in s[1..] ==> x in s;
      FilterKeepsAll(s[1..], keep);
      assert s == [s[0]] + s[1..];
    }
  }

  /** Related posts keep the catalogue's newest-first order. */
  lemma RelatedNewestFirst(blogs: seq<Post>, slug: string)
    requires SortedByDate(blogs)
    ensures SortedByDate(Related(blogs, slug))
  {
    var prefix := blogs[..Min(4, |blogs|)];
    assert SortedByDate(prefix);
    SubsequenceSorted(Related(blogs, slug), prefix);
  }

  /** A subsequence of a newest-first list is newest first. */
  lemma {:induction false} SubsequenceSorted(r: seq<Post>, s: seq<Post>)
    requires IsSubsequence(r, s) && SortedByDate(s)
    ensures SortedByDate(r)
    decreases |s|
  {
    if r != [] {
      assert s != [];
      if r[0] == s[0] {
        assert SortedByDate(s[1..]) by {
          forall i, j | 0 <= i < j < |s[1..]| ensures Date(s[1..][i]) >= Date(s[1..][j]) {
            assert s[1..][i] == s[i + 1] && s[1..][j] == s[j + 1];
          }
        }
        SubsequenceSorted(r[1..], s[1..]);
        forall j | 1 <= j < |r|
          ensures Date(r[0]) >= Date(r[j])
        {
          assert r[j] in r[1..];
          SubsequenceMembers(r[1..], s[1..], r[j]);
          var m :| 0 <= m < |s[1..]| && s[1..][m] == r[j];
          assert s[m + 1] == r[j];
        }
        forall i, j | 0 <= i < j < |r|
          ensures Date(r[i]) >= Date(r[j])
        {
          if i > 0 {
            assert r[i] == r[1..][i - 1] && r[j] == r[1..][j - 1];
          }
        }
      } else {
        assert SortedByDate(s[1..]) by {
          forall i, j | 0 <= i < j < |s[1..]| ensures Date(s[1..][i]) >= Date(s[1..][j]) {
            assert s[1..][i] == s[i + 1] && s[1..][j] == s[j + 1];
          }
        }
        SubsequenceSorted(r, s[1..]);
      }
    }
  }

  /** The page's state: the post, its related posts, the spinner flag and the error text. */
  datatype PageState = PageState(blog: Option<Post>, recent: seq<Post>, loading: bool, error: Option<string>)

  const Initial := PageState(None, [], true, None)

  /** What the page renders for a state. */
  datatype View = Loading | NotFound | Article(post: Post, related: seq<Post>)

  function Render(s: PageState): View {
    if s.loading then Loading
    else if s.error.Some? || s.blog.None? then NotFound
    else Article(s.blog.value, s.recent)
  }

  /**
   * `fetchBlog` as written. `catalogue` is `None` when loading the posts
   * throws. An unknown slug or a failure records the error and keeps the
   * previous post and related list; a hit stores both and leaves the error
   * as it was. The spinner is off afterwards either way.
   */
  function FetchStep(s: PageState, catalogue: Option<seq<Post>>, slug: string): (r: PageState)
    ensures !r.loading
    ensures catalogue.None? ==> r == s.(loading := false, error := Some(LoadError))
    ensures catalogue.Some? && BlogBySlug(catalogue.value, slug).None? ==>
              r == s.(loading := false, error := Some(NotFoundError))
    ensures catalogue.Some? && BlogBySlug(catalogue.value, slug).Some? ==>
              && r.blog == BlogBySlug(catalogue.value, slug)
              && r.recent == Related(catalogue.value, slug)
              && r.error == s.error
  {
    match catalogue
    case None => s.(loading := false, error := Some(LoadError))
    case Some(blogs) =>
      match BlogBySlug(blogs, slug)
      case None => s.(loading := false, error := Some(NotFoundError))
      case Some(post) => s.(blog := Some(post), recent := Related(blogs, slug), loading := false)
  }

  /** On first load, an unknown slug leaves no post and no related list, and the page says so. */
  lemma FirstLoadUnknownSlug(blogs: seq<Post>, slug: string)
    requires forall p :: p in blogs ==> p.slug != slug
    ensures var r := FetchStep(Initial, Some(blogs), slug);
            r.blog == None && r.recent == [] && r.error == Some(NotFoundError) && Render(r) == NotFound
  {
  }

  /**
   * The error is never cleared: once a slug was not found (or loading
   * failed), moving to a slug that exists still renders the not-found page.
   */
  lemma StickyError(s: PageState, blogs: seq<Post>, slug: string)
    requires s.error.Some?
    requires BlogBySlug(blogs, slug).Some?
    ensures Render(FetchStep(s, Some(blogs), slug)) == NotFound
  {
  }

  /** `fetchBlog` with the error reset when a new slug is fetched. */
  function FetchStepCorrected(s: PageState, catalogue: Option<seq<Post>>, slug: string): (r: PageState)
    ensures !r.loading
    ensures catalogue.None? ==> r.error == Some(LoadError)
  {
    FetchStep(s.(error := None), catalogue, slug)
  }

  /** With the reset, the page shows a post exactly when the slug is found, with its related posts. */
  lemma CorrectedShowsFoundPost(s: PageState, blogs: seq<Post>, slug: string)
    ensures BlogBySlug(blogs, slug).Some? ==>
              Render(FetchStepCorrected(s, Some(blogs), slug))
              == Article(BlogBySlug(blogs, slug).value, Related(blogs, slug))
    ensures BlogBySlug(blogs, slug).None? ==> Render(FetchStepCorrected(s, Some(blogs), slug)) == NotFound
  {
  }

  class PostPage {
    var blog: Option<Post>
    var recentBlogs: seq<Post>
    var loading: bool
    var error: Option<string>

    function State(): PageState
      reads this
    {
      PageState(blog, recentBlogs, loading, error)
    }

    constructor ()
      ensures State() == Initial
    {
      blog := None;
      recentBlogs := [];
      loading := true;
      error := None;
    }

    /** The effect run for a slug, as the source writes it. */
    method FetchBlog(catalogue: Option<seq<Post>>, slug: string)
      modifies this
      ensures State() == FetchStep(old(State()), catalogue, slug)
    {
      if catalogue.None? {
        error := Some(LoadError);
      } else {
        var post := BlogBySlug(catalogue.value, slug);
        if post.None? {
          error := Some(NotFoundError);
        } else {
          blog := post;
          recentBlogs := Related(catalogue.value, slug);
        }
      }
      loading := false;
    }
  }
}
