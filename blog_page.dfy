/**
 * The blog index page (`src/pages/Blog.jsx`): the tag list built on mount,
 * and the effect that recomputes the visible posts from the selected tag and
 * the search term whenever either changes.
 */
module BlogPage {
  import opened Text
  import opened Seqs
  import opened BlogUtils

  const AllTag := "all"

  /** Some tag of the post contains `needle` once lower-cased. */
  predicate TagMatches(tags: seq<string>, needle: string) {
    exists t :: t in tags && Includes(ToLower(t), needle)
  }

  /**
   * The search predicate for a lower-cased term: the title, the excerpt when
   * present, or one of the tags when present contains it, case-insensitively.
   */
  predicate MatchesSearch(p: Post, needle: string) {
    || Includes(ToLower(p.frontmatter.title), needle)
    || (p.frontmatter.excerpt.Some? && Includes(ToLower(p.frontmatter.excerpt.value), needle))
    || (p.frontmatter.tags.Some? && TagMatches(p.frontmatter.tags.value, needle))
  }

  /** What the filter effect keeps: the tag filter unless `'all'` is selected, then the search filter unless the term is empty. */
  predicate Shown(p: Post, tag: string, term: string) {
    (tag == AllTag || HasTag(p, tag)) && (term == "" || MatchesSearch(p, ToLower(term)))
  }

  /**
   * The visible posts: an order-preserving selection of exactly the posts
   * that pass both filters, each as often as in the list; with `'all'` and
   * no term, every post.
   */
  function Filtered(blogs: seq<Post>, tag: string, term: string): (r: seq<Post>)
    ensures forall p :: p in r <==> p in blogs && Shown(p, tag, term)
    ensures forall p :: multiset(r)[p] == if Shown(p, tag, term) then multiset(blogs)[p] else 0
    ensures IsSubsequence(r, blogs)
    ensures tag == AllTag && term == "" ==> r == blogs
  {
    var byTag := if tag != AllTag then Filter(blogs, p => HasTag(p, tag)) else blogs;
    var needle := ToLower(term);
    var r := if term != "" then Filter(byTag, p => MatchesSearch(p, needle)) else byTag;
    assert IsSubsequence(r, blogs) by {
      if tag != AllTag && term != "" {
        SubsequenceTransitive(r, byTag, blogs);
      } else if tag == AllTag && term == "" {
        PrefixIsSubsequence(blogs, |blogs|);
        assert blogs[..|blogs|] == blogs;
      }
    }
    r
  }

  lemma LowerCharIdempotent(c: char)
    ensures LowerChar(LowerChar(c)) == LowerChar(c)
  {
  }

  /** Lower-casing twice is lower-casing once. */
  lemma ToLowerIdempotent(s: string)
    ensures ToLower(ToLower(s)) == ToLower(s)
  {
    forall i | 0 <= i < |s|
      ensures ToLower(ToLower(s))[i] == ToLower(s)[i]
    {
      LowerCharIdempotent(s[i]);
    }
  }

  /** The search ignores the case of the term: a term and its lower-cased form show the same posts. */
  lemma SearchIgnoresCase(blogs: seq<Post>, tag: string, term: string)
    ensures Filtered(blogs, tag, ToLower(term)) == Filtered(blogs, tag, term)
  {
    ToLowerIdempotent(term);
  }

  /** The page state the filter reads and writes. */
  class BlogIndex {
    var blogs: seq<Post>
    var filteredBlogs: seq<Post>
    var selectedTag: string
    var tags: seq<string>
    var searchTerm: string

    /** After every effect has run, the visible list is the filter of the current state. */
    ghost predicate Valid()
      reads this
    {
      filteredBlogs == Filtered(blogs, selectedTag, searchTerm)
    }

    constructor ()
      ensures Valid()
      ensures blogs == [] && filteredBlogs == [] && selectedTag == AllTag && tags == [] && searchTerm == ""
    {
      blogs := [];
      filteredBlogs := [];
      selectedTag := AllTag;
      tags := [];
      searchTerm := "";
    }

    /** The filter effect: narrows by tag, then by search term, step by step. */
    method Refilter()
      modifies this
      ensures Valid()
      ensures blogs == old(blogs) && selectedTag == old(selectedTag) && tags == old(tags)
      ensures searchTerm == old(searchTerm)
    {
      var filtered := blogs;
      if selectedTag != AllTag {
        var tag := selectedTag;
        filtered := Filter(filtered, p => HasTag(p, tag));
      }
      if searchTerm != "" {
        var needle := ToLower(searchTerm);
        filtered := Filter(filtered, p => MatchesSearch(p, needle));
      }
      filteredBlogs := filtered;
    }

    /** The mount effect: load the catalogue, offer `'all'` and every tag, then filter. */
    method Mount(catalogue: seq<Post>)
      modifies this
      ensures Valid()
      ensures blogs == catalogue && selectedTag == old(selectedTag) && searchTerm == old(searchTerm)
      ensures |tags| >= 1 && tags[0] == AllTag && StrictlySorted(tags[1..])
      ensures forall t :: t in tags[1..] <==> exists p :: p in catalogue && HasTag(p, t)
    {
      var allTags := GetAllTags(catalogue);
      blogs := catalogue;
      filteredBlogs := catalogue;
      tags := [AllTag] + allTags;
      assert tags[1..] == allTags;
      Refilter();
    }

    /** A tag button: select it and filter again. */
    method SelectTag(tag: string)
      modifies this
      ensures Valid()
      ensures selectedTag == tag
      ensures blogs == old(blogs) && tags == old(tags) && searchTerm == old(searchTerm)
    {
      selectedTag := tag;
      Refilter();
    }

    /** Typing in the search box. */
    method SetSearchTerm(term: string)
      modifies this
      ensures Valid()
      ensures searchTerm == term
      ensures blogs == old(blogs) && tags == old(tags) && selectedTag == old(selectedTag)
    {
      searchTerm := term;
      Refilter();
    }

    /** The clear button empties the search; only the tag filter remains. */
    method ClearSearch()
      modifies this
      ensures Valid()
      ensures searchTerm == ""
      ensures forall p :: p in filteredBlogs <==> p in blogs && (selectedTag == AllTag || HasTag(p, selectedTag))
      ensures blogs == old(blogs) && tags == old(tags) && selectedTag == old(selectedTag)
    {
      SetSearchTerm("");
    }
  }
}
