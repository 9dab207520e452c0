/**
 * The blog catalogue (`src/utils/blogUtils.js`). Posts arrive as records:
 * front-matter parsing and the file glob are not part of this model, and a
 * post's date is an integer timestamp.
 */
module BlogUtils {
  import opened Wrappers
  import opened Text
  import opened Seqs

  const WordsPerMinute: nat := 200

  /** The front matter fields the site reads; `slug` is `""` when absent (falsy). */
  datatype Frontmatter = Frontmatter(slug: string, title: string, date: int,
                                     tags: Option<seq<string>>, excerpt: Option<string>,
                                     published: Option<bool>)

  /** One markdown file: its glob path, parsed front matter and body. */
  datatype Source = Source(path: string, frontmatter: Frontmatter, content: string)

  datatype Post = Post(slug: string, frontmatter: Frontmatter, content: string, path: string)

  function Date(p: Post): int {
    p.frontmatter.date
  }

  // ---------------------------------------------------------------- slugs

  /** Index just after the last `/` of `s`, or 0 when there is none. */
  function SegmentStart(s: string): (k: nat)
    ensures k <= |s|
    ensures k > 0 ==> s[k - 1] == '/'
    ensures forall i :: k <= i < |s| ==> s[i] != '/'
  {
    if s == [] then 0
    else if s[|s| - 1] == '/' then |s|
    else SegmentStart(s[..|s| - 1])
  }

  /** `path.split('/').pop()`: the text after the last `/`. */
  function LastSegment(path: string): (r: string)
    ensures forall i :: 0 <= i < |r| ==> r[i] != '/'
    ensures exists k :: 0 <= k <= |path| && path[k..] == r && (k == 0 || path[k - 1] == '/')
  {
    var k := SegmentStart(path);
    assert path[k..] == path[k..];
    path[k..]
  }

  /** Offset of the first occurrence of `needle` in `hay` at or after `i`, or `|hay|` when there is none. */
  function FindFrom(hay: string, needle: string, i: nat): (k: nat)
    requires i <= |hay|
    decreases |hay| - i
    ensures i <= k <= |hay|
    ensures k < |hay| ==> OccursAt(hay, needle, k)
    ensures forall j :: i <= j < k ==> !OccursAt(hay, needle, j)
    ensures k == |hay| ==> forall j :: i <= j < |hay| ==> !OccursAt(hay, needle, j)
  {
    if i == |hay| then i
    else if OccursAt(hay, needle, i) then i
    else FindFrom(hay, needle, i + 1)
  }

  /** `s.replace('.md', '')`: only the first occurrence is removed. */
  function RemoveFirstMd(s: string): (r: string)
    ensures (forall j :: !OccursAt(s, ".md", j)) ==> r == s
    ensures forall k :: OccursAt(s, ".md", k) && (forall j :: 0 <= j < k ==> !OccursAt(s, ".md", j))
                        ==> r == s[..k] + s[k + 3..]
  {
    var k := FindFrom(s, ".md", 0);
    if k == |s| then s else s[..k] + s[k + 3..]
  }

  /** `frontmatter.slug || filename`. */
  function SlugOf(fm: Frontmatter, path: string): string {
    if fm.slug != "" then fm.slug else RemoveFirstMd(LastSegment(path))
  }

  lemma {:induction false} SegmentStartAfterSlash(dir: string, file: string)
    requires forall i :: 0 <= i < |file| ==> file[i] != '/'
    ensures SegmentStart(dir + "/" + file) == |dir| + 1
    decreases |file|
  {
    var path := dir + "/" + file;
    if file != [] {
      assert path[..|path| - 1] == dir + "/" + file[..|file| - 1];
      assert path[|path| - 1] == file[|file| - 1];
      SegmentStartAfterSlash(dir, file[..|file| - 1]);
    }
  }

  /** The last segment of `<dir>/<file>` is `file` when `file` has no `/`. */
  lemma LastSegmentOfPath(dir: string, file: string)
    requires forall i :: 0 <= i < |file| ==> file[i] != '/'
    ensures LastSegment(dir + "/" + file) == file
  {
    SegmentStartAfterSlash(dir, file);
    assert (dir + "/" + file)[|dir| + 1..] == file;
  }

  /** Removing the first `.md` of `<name>.md` gives `name` back when `name` has no `.md` of its own. */
  lemma RemoveMdSuffix(name: string)
    requires forall j :: !OccursAt(name, ".md", j)
    ensures RemoveFirstMd(name + ".md") == name
  {
    var file := name + ".md";
    assert OccursAt(file, ".md", |name|);
    forall j | 0 <= j < |name|
      ensures !OccursAt(file, ".md", j)
    {
      if j + 3 <= |name| {
        assert file[j..j + 3] == name[j..j + 3];
        assert !OccursAt(name, ".md", j);
      } else if j + 2 == |name| {
        assert file[j..j + 3][2] == '.';
      } else {
        assert file[j..j + 3][1] == '.';
      }
    }
    assert file[..|name|] + file[|name| + 3..] == name;
  }

  /**
   * The file-name round trip: a post without a `slug` in its front matter,
   * stored as `<dir>/<name>.md`, gets `name` as its slug whenever `name` has
   * no `/` and no `.md` of its own.
   */
  lemma SlugFromFileName(fm: Frontmatter, dir: string, name: string)
    requires fm.slug == ""
    requires forall i :: 0 <= i < |name| ==> name[i] != '/'
    requires forall j :: !OccursAt(name, ".md", j)
    ensures SlugOf(fm, dir + "/" + name + ".md") == name
  {
    var file := name + ".md";
    assert dir + "/" + name + ".md" == dir + "/" + file;
    assert forall i :: 0 <= i < |file| ==> file[i] != '/' by {
      forall i | 0 <= i < |file| ensures file[i] != '/' {
        if i < |name| {
          assert file[i] == name[i];
        }
      }
    }
    LastSegmentOfPath(dir, file);
    RemoveMdSuffix(name);
  }

  function MakePost(s: Source): Post {
    Post(SlugOf(s.frontmatter, s.path), s.frontmatter, s.content, s.path)
  }

  /** The posts built from the sources, in glob order. */
  function Posts(sources: seq<Source>): (r: seq<Post>)
    ensures |r| == |sources| && forall i :: 0 <= i < |sources| ==> r[i] == MakePost(sources[i])
  {
    seq(|sources|, i requires 0 <= i < |sources| => MakePost(sources[i]))
  }

  // ------------------------------------------------------ the catalogue

  /** `blog.frontmatter.published !== false`: only an explicit `false` hides a post. */
  function Published(p: Post): bool {
    p.frontmatter.published != Some(false)
  }

  /** Newest first. */
  predicate SortedByDate(s: seq<Post>) {
    forall i, j :: 0 <= i < j < |s| ==> Date(s[i]) >= Date(s[j])
  }

  /** Places `x` ahead of every post of the same date or older. */
  function Insert(x: Post, t: seq<Post>): (r: seq<Post>)
    ensures multiset(r) == multiset(t) + multiset{x}
  {
    if t == [] || Date(t[0]) <= Date(x) then [x] + t
    else
      assert t == [t[0]] + t[1..];
      [t[0]] + Insert(x, t[1..])
  }

  /** No post of `s` is newer than `bound`. */
  predicate NotAfter(s: seq<Post>, bound: int) {
    forall k :: 0 <= k < |s| ==> Date(s[k]) <= bound
  }

  lemma {:induction false} InsertNotAfter(x: Post, t: seq<Post>, bound: int)
    requires NotAfter(t, bound) && Date(x) <= bound
    ensures NotAfter(Insert(x, t), bound)
  {
    if t != [] && Date(t[0]) > Date(x) {
      InsertNotAfter(x, t[1..], bound);
      var rest := Insert(x, t[1..]);
      assert forall k :: 0 < k < |rest| + 1 ==> ([t[0]] + rest)[k] == rest[k - 1];
    }
  }

  lemma ConsSorted(a: Post, s: seq<Post>)
    requires SortedByDate(s) && NotAfter(s, Date(a))
    ensures SortedByDate([a] + s)
  {
    var r := [a] + s;
    forall i, j | 0 <= i < j < |r|
      ensures Date(r[i]) >= Date(r[j])
    {
      assert r[j] == s[j - 1];
      if i > 0 {
        assert r[i] == s[i - 1];
      }
    }
  }

  /** Inserting into a newest-first list keeps it newest first. */
  lemma {:induction false} InsertSorted(x: Post, t: seq<Post>)
    requires SortedByDate(t)
    ensures SortedByDate(Insert(x, t))
  {
    if t == [] || Date(t[0]) <= Date(x) {
      ConsSorted(x, t);
    } else {
      InsertSorted(x, t[1..]);
      InsertNotAfter(x, t[1..], Date(t[0]));
      ConsSorted(t[0], Insert(x, t[1..]));
    }
  }

  /**
   * `sort((a, b) => date(b) - date(a))`. The sort is stable, which this
   * insertion sort is too: see `SortStable`.
   */
  function SortByDate(s: seq<Post>): (r: seq<Post>)
    ensures SortedByDate(r)
    ensures multiset(r) == multiset(s)
  {
    if s == [] then []
    else
      assert s == [s[0]] + s[1..];
      InsertSorted(s[0], SortByDate(s[1..]));
      Insert(s[0], SortByDate(s[1..]))
  }

  /** The posts of `s` dated `d`, in order. */
  function WithDate(s: seq<Post>, d: int): seq<Post> {
    if s == [] then []
    else (if Date(s[0]) == d then [s[0]] else []) + WithDate(s[1..], d)
  }

  lemma WithDateCons(a: Post, s: seq<Post>, d: int)
    ensures WithDate([a] + s, d) == (if Date(a) == d then [a] else []) + WithDate(s, d)
  {
    assert ([a] + s)[1..] == s;
  }

  lemma {:induction false} InsertWithDate(x: Post, t: seq<Post>, d: int)
    decreases |t|
    ensures WithDate(Insert(x, t), d) == (if Date(x) == d then [x] else []) + WithDate(t, d)
  {
    if t == [] || Date(t[0]) <= Date(x) {
      WithDateCons(x, t, d);
    } else {
      var rest := Insert(x, t[1..]);
      InsertWithDate(x, t[1..], d);
      WithDateCons(t[0], rest, d);
      WithDateCons(t[0], t[1..], d);
      assert [t[0]] + t[1..] == t;
    }
  }

  /** Posts with equal dates keep their relative order. */
  lemma {:induction false} SortStable(s: seq<Post>, d: int)
    ensures WithDate(SortByDate(s), d) == WithDate(s, d)
  {
    if s != [] {
      SortStable(s[1..], d);
      InsertWithDate(s[0], SortByDate(s[1..]), d);
    }
  }

  /**
   * `getAllBlogs`: the published posts, newest first; a permutation of the
   * published posts built from the sources.
   */
  function AllBlogs(sources: seq<Source>): (r: seq<Post>)
    ensures SortedByDate(r)
    ensures multiset(r) == multiset(Filter(Posts(sources), Published))
    ensures forall p :: p in r <==> p in Posts(sources) && Published(p)
  {
    var r := SortByDate(Filter(Posts(sources), Published));
    assert forall p :: p in r <==> p in multiset(r);
    r
  }

  /** Posts of the same date keep the order of the sources. */
  lemma AllBlogsStable(sources: seq<Source>, d: int)
    ensures WithDate(AllBlogs(sources), d) == WithDate(Filter(Posts(sources), Published), d)
  {
    SortStable(Filter(Posts(sources), Published), d);
  }

  /** `getAllBlogs` as the source runs it: a loop pushing one post per file, then the filter and the sort. */
  method GetAllBlogs(sources: seq<Source>) returns (blogs: seq<Post>)
    ensures blogs == AllBlogs(sources)
  {
    var all: seq<Post> := [];
    for i := 0 to |sources|
      invariant |all| == i
      invariant forall k :: 0 <= k < i ==> all[k] == MakePost(sources[k])
    {
      var source := sources[i];
      var slug := SlugOf(source.frontmatter, source.path);
      all := all + [Post(slug, source.frontmatter, source.content, source.path)];
    }
    assert all == Posts(sources);
    blogs := SortByDate(Filter(all, Published));
  }

  // ------------------------------------------------------------ queries

  /** The first post with this slug sits at index `i`. */
  predicate FirstWithSlugAt(blogs: seq<Post>, slug: string, i: int) {
    0 <= i < |blogs| && blogs[i].slug == slug && forall j :: 0 <= j < i ==> blogs[j].slug != slug
  }

  /** `getBlogBySlug`: the first post in catalogue order whose slug is equal, or nothing. */
  function BlogBySlug(blogs: seq<Post>, slug: string): (r: Option<Post>)
    ensures r.None? <==> forall p :: p in blogs ==> p.slug != slug
    ensures r.Some? ==> exists i :: FirstWithSlugAt(blogs, slug, i) && blogs[i] == r.value
  {
    if blogs == [] then None
    else if blogs[0].slug == slug then
      assert FirstWithSlugAt(blogs, slug, 0);
      Some(blogs[0])
    else
      var r := BlogBySlug(blogs[1..], slug);
      assert blogs == [blogs[0]] + blogs[1..];
      assert r.Some? ==> exists i :: FirstWithSlugAt(blogs, slug, i) && blogs[i] == r.value by {
        if r.Some? {
          var i :| FirstWithSlugAt(blogs[1..], slug, i) && blogs[1..][i] == r.value;
          assert FirstWithSlugAt(blogs, slug, i + 1);
        }
      }
      r
  }

  /** `blog.frontmatter.tags && blog.frontmatter.tags.includes(tag)`. */
  predicate HasTag(p: Post, tag: string) {
    p.frontmatter.tags.Some? && tag in p.frontmatter.tags.value
  }

  /** `getBlogsByTag`: exactly the posts carrying the tag, each as often as in the catalogue, in catalogue order. */
  function BlogsByTag(blogs: seq<Post>, tag: string): (r: seq<Post>)
    ensures forall p :: p in r <==> p in blogs && HasTag(p, tag)
    ensures forall p :: multiset(r)[p] == if HasTag(p, tag) then multiset(blogs)[p] else 0
    ensures IsSubsequence(r, blogs)
  {
    Filter(blogs, p => HasTag(p, tag))
  }

  /** `getRecentBlogs(limit)`: the first `limit` posts, or all of them; a negative limit drops that many from the end. */
  function RecentBlogs(blogs: seq<Post>, limit: int): (r: seq<Post>)
    ensures 0 <= limit ==> |r| == (if limit < |blogs| then limit else |blogs|)
    ensures limit < 0 ==> |r| == (if |blogs| + limit > 0 then |blogs| + limit else 0)
    ensures |r| <= |blogs| && r == blogs[..|r|]
  {
    Slice(blogs, limit)
  }

  // --------------------------------------------------------------- tags

  predicate Distinct(s: seq<string>) {
    forall i, j :: 0 <= i < j < |s| ==> s[i] != s[j]
  }

  /** Strictly ascending in the default string order, hence without duplicates. */
  predicate StrictlySorted(s: seq<string>) {
    forall i, j :: 0 <= i < j < |s| ==> Less(s[i], s[j])
  }

  function InsertTag(x: string, t: seq<string>): (r: seq<string>)
    requires StrictlySorted(t) && x !in t
    ensures StrictlySorted(r)
    ensures forall y :: y in r <==> y == x || y in t
  {
    if t == [] then [x]
    else if Less(x, t[0]) then
      assert forall k :: 0 <= k < |t| ==> Less(x, t[k]) by {
        forall k | 0 < k < |t| ensures Less(x, t[k]) {
          LessTransitive(x, t[0], t[k]);
        }
      }
      [x] + t
    else
      LessTotal(x, t[0]);
      var rest := InsertTag(x, t[1..]);
      assert t == [t[0]] + t[1..];
      assert forall k :: 0 <= k < |rest| ==> Less(t[0], rest[k]) by {
        forall k | 0 <= k < |rest| ensures Less(t[0], rest[k]) {
          assert rest[k] in rest;
          if rest[k] != x {
            var m :| 0 <= m < |t[1..]| && t[1..][m] == rest[k];
            assert t[m + 1] == rest[k];
          }
        }
      }
      [t[0]] + rest
  }

  /** `.sort()` of distinct strings. */
  function SortTags(s: seq<string>): (r: seq<string>)
    requires Distinct(s)
    ensures StrictlySorted(r)
    ensures forall y :: y in r <==> y in s
  {
    if s == [] then []
    else
      assert s == [s[0]] + s[1..];
      assert s[0] !in s[1..];
      InsertTag(s[0], SortTags(s[1..]))
  }

  /** Some post among the first `n` carries `tag`. */
  predicate TaggedWithin(blogs: seq<Post>, n: int, tag: string) {
    exists k :: 0 <= k < n && k < |blogs| && HasTag(blogs[k], tag)
  }

  /**
   * `getAllTags`: every tag of every post once, in ascending order. The set
   * is built with a loop as the source does, then sorted.
   */
  method GetAllTags(blogs: seq<Post>) returns (tags: seq<string>)
    ensures StrictlySorted(tags)
    ensures forall t :: t in tags <==> exists p :: p in blogs && HasTag(p, t)
  {
    var seen: seq<string> := [];
    for i := 0 to |blogs|
      invariant Distinct(seen)
      invariant forall t :: t in seen <==> TaggedWithin(blogs, i, t)
    {
      if blogs[i].frontmatter.tags.Some? {
        var ts := blogs[i].frontmatter.tags.value;
        for j := 0 to |ts|
          invariant Distinct(seen)
          invariant forall t :: t in seen <==> TaggedWithin(blogs, i, t) || t in ts[..j]
        {
          assert ts[..j + 1] == ts[..j] + [ts[j]];
          if ts[j] !in seen {
            seen := seen + [ts[j]];
          }
        }
        assert ts[..|ts|] == ts;
      }
      forall t ensures TaggedWithin(blogs, i + 1, t) <==> TaggedWithin(blogs, i, t) || HasTag(blogs[i], t) {
        if TaggedWithin(blogs, i + 1, t) && !HasTag(blogs[i], t) {
          var k :| 0 <= k < i + 1 && k < |blogs| && HasTag(blogs[k], t);
          assert k < i;
        }
      }
    }
    forall t ensures TaggedWithin(blogs, |blogs|, t) <==> exists p :: p in blogs && HasTag(p, t) {
      if exists p :: p in blogs && HasTag(p, t) {
        var p :| p in blogs && HasTag(p, t);
        var k :| 0 <= k < |blogs| && blogs[k] == p;
        assert HasTag(blogs[k], t);
      }
    }
    tags := SortTags(seen);
  }

  // ------------------------------------------------------- reading time

  /** Offset `i` of `t` begins a run of whitespace. */
  predicate RunStartAt(t: string, i: int) {
    0 <= i < |t| && IsWhitespace(t[i]) && (i == 0 || !IsWhitespace(t[i - 1]))
  }

  /** The offsets where the whitespace runs of `t` begin. */
  function RunStarts(t: string): set<int> {
    set i | 0 <= i < |t| && RunStartAt(t, i)
  }

  /** The characters of `t` that are not whitespace, in order. */
  function NonBlank(t: string): string
    decreases |t|
  {
    if t == [] then [] else (if IsWhitespace(t[0]) then [] else [t[0]]) + NonBlank(t[1..])
  }

  /** The pieces written one after another. */
  function Concat(r: seq<string>): string {
    if r == [] then [] else r[0] + Concat(r[1..])
  }

  /** Every offset of `s` moved along by `d`. */
  function Shifted(s: set<int>, d: int): set<int> {
    set x | x in s :: x + d
  }

  lemma {:induction false} ShiftedSize(s: set<int>, d: int, n: int)
    requires forall x :: x in s ==> 0 <= x < n
    ensures |Shifted(s, d)| == |s|
    decreases n
  {
    if n <= 0 {
      assert s == {};
      assert Shifted(s, d) == {};
    } else {
      var s' := set x | x in s && x < n - 1;
      ShiftedSize(s', d, n - 1);
      if n - 1 in s {
        assert s == s' + {n - 1};
        forall y ensures y in Shifted(s, d) <==> y in Shifted(s', d) || y == n - 1 + d {
          if y in Shifted(s, d) && y != n - 1 + d {
            var z :| z in s && y == z + d;
            assert z in s';
          }
          if y in Shifted(s', d) {
            var z :| z in s' && y == z + d;
            assert z in s;
          }
        }
        assert Shifted(s, d) == Shifted(s', d) + {n - 1 + d};
        assert n - 1 + d !in Shifted(s', d);
      } else {
        assert s == s';
      }
    }
  }

  lemma InShifted(s: set<int>, x: int, d: int)
    requires x in s
    ensures x + d in Shifted(s, d)
  {
  }

  /** Text that starts with whitespace: the run at 0, then the runs after the leading whitespace, moved along. */
  lemma RunStartsOfBlankHead(t: string)
    requires t != [] && IsWhitespace(t[0])
    ensures var v := TrimStart(t);
            RunStarts(t) == {0} + Shifted(RunStarts(v), |t| - |v|) && 0 !in Shifted(RunStarts(v), |t| - |v|)
  {
    var v := TrimStart(t);
    var j := |t| - |v|;
    assert j >= 1 by {
      assert TrimStart(t) == TrimStart(t[1..]);
    }
    assert RunStartAt(t, 0);
    forall i | i in RunStarts(t) && i != 0 ensures i in Shifted(RunStarts(v), j) {
      assert RunStartAt(t, i);
      assert i > j;
      assert v[i - j] == t[i] && v[i - j - 1] == t[i - 1];
      assert RunStartAt(v, i - j);
      InShifted(RunStarts(v), i - j, j);
    }
    forall i | i in Shifted(RunStarts(v), j) ensures i in RunStarts(t) && i != 0 {
      var x :| x in RunStarts(v) && i == x + j;
      assert RunStartAt(v, x);
      assert x != 0;
      assert t[i] == v[x] && t[i - 1] == v[x - 1];
      assert RunStartAt(t, i);
    }
  }

  /** Text that starts with a word character: the runs of its tail, moved along by one. */
  lemma RunStartsOfWordHead(t: string)
    requires t != [] && !IsWhitespace(t[0])
    ensures RunStarts(t) == Shifted(RunStarts(t[1..]), 1)
  {
    var u := t[1..];
    forall i | i in RunStarts(t) ensures i in Shifted(RunStarts(u), 1) {
      assert RunStartAt(t, i);
      assert i != 0;
      assert u[i - 1] == t[i];
      assert i - 1 != 0 ==> u[i - 2] == t[i - 1];
      assert RunStartAt(u, i - 1);
      InShifted(RunStarts(u), i - 1, 1);
    }
    forall i | i in Shifted(RunStarts(u), 1) ensures i in RunStarts(t) {
      var x :| x in RunStarts(u) && i == x + 1;
      assert RunStartAt(u, x);
      assert t[i] == u[x] && t[i - 1] == if x == 0 then t[0] else u[x - 1];
      assert RunStartAt(t, i);
    }
  }

  /** Dropping leading whitespace keeps every non-whitespace character. */
  lemma {:induction false} NonBlankTrimStart(t: string)
    ensures NonBlank(TrimStart(t)) == NonBlank(t)
    decreases |t|
  {
    if t != [] && IsWhitespace(t[0]) {
      NonBlankTrimStart(t[1..]);
    }
  }

  /**
   * `t.split(/\s+/)`: the pieces between whitespace runs. There is one more
   * piece than there are runs, no piece holds whitespace, and the pieces
   * written one after another are the non-whitespace characters of `t`.
   */
  function Pieces(t: string): (r: seq<string>)
    decreases |t|
    ensures |r| == 1 + |RunStarts(t)|
    ensures forall k, i :: 0 <= k < |r| && 0 <= i < |r[k]| ==> !IsWhitespace(r[k][i])
    ensures Concat(r) == NonBlank(t)
  {
    if t == [] then
      assert RunStarts(t) == {};
      [""]
    else if IsWhitespace(t[0]) then
      var rest := Pieces(TrimStart(t));
      PiecesOfBlankHead(t, rest);
      [""] + rest
    else
      var rest := Pieces(t[1..]);
      PiecesOfWordHead(t, rest);
      [[t[0]] + rest[0]] + rest[1..]
  }

  /** The step of `Pieces` past leading whitespace: an empty piece, then the pieces of the rest. */
  lemma PiecesOfBlankHead(t: string, rest: seq<string>)
    requires t != [] && IsWhitespace(t[0])
    requires |rest| == 1 + |RunStarts(TrimStart(t))| && Concat(rest) == NonBlank(TrimStart(t))
    ensures |[""] + rest| == 1 + |RunStarts(t)| && Concat([""] + rest) == NonBlank(t)
  {
    var v := TrimStart(t);
    var moved := Shifted(RunStarts(v), |t| - |v|);
    RunStartsOfBlankHead(t);
    ShiftedSize(RunStarts(v), |t| - |v|, |v|);
    assert |RunStarts(t)| == 1 + |RunStarts(v)| by {
      assert RunStarts(t) == {0} + moved && 0 !in moved;
      assert |{0} + moved| == 1 + |moved|;
    }
    NonBlankTrimStart(t);
    assert ([""] + rest)[0] == "" && ([""] + rest)[1..] == rest;
    assert Concat([""] + rest) == Concat(rest);
  }

  /** The step of `Pieces` over a word character: it joins the first piece of the rest. */
  lemma PiecesOfWordHead(t: string, rest: seq<string>)
    requires t != [] && !IsWhitespace(t[0])
    requires |rest| == 1 + |RunStarts(t[1..])| && Concat(rest) == NonBlank(t[1..])
    ensures var r := [[t[0]] + rest[0]] + rest[1..];
            |r| == 1 + |RunStarts(t)| && Concat(r) == NonBlank(t)
  {
    RunStartsOfWordHead(t);
    ShiftedSize(RunStarts(t[1..]), 1, |t| - 1);
    var r := [[t[0]] + rest[0]] + rest[1..];
    assert r[1..] == rest[1..];
    assert Concat(rest) == rest[0] + Concat(rest[1..]);
  }

  /** In text with no whitespace at either end, every piece is a non-empty word. */
  lemma {:induction false} PiecesOfTrimmed(t: string)
    requires t != [] && !IsWhitespace(t[0]) && !IsWhitespace(t[|t| - 1])
    ensures forall k :: 0 <= k < |Pieces(t)| ==> Pieces(t)[k] != ""
    decreases |t|
  {
    var rest := Pieces(t[1..]);
    if |t| > 1 {
      var u := t[1..];
      if IsWhitespace(u[0]) {
        var v := TrimStart(u);
        assert v != [] && v[|v| - 1] == t[|t| - 1];
        PiecesOfTrimmed(v);
        assert Pieces(u) == [""] + Pieces(v);
      } else {
        PiecesOfTrimmed(u);
      }
    }
  }

  /**
   * The word count of `calculateReadingTime`: the pieces of the trimmed
   * content, one more than the whitespace runs inside it.
   */
  function WordCount(content: string): (n: nat)
    ensures n == 1 + |RunStarts(Trim(content))|
  {
    |Pieces(Trim(content))|
  }

  lemma {:induction false} NonBlankAppend(a: string, b: string)
    ensures NonBlank(a + b) == NonBlank(a) + NonBlank(b)
    decreases |a|
  {
    if a == [] {
      assert a + b == b;
    } else {
      assert (a + b)[0] == a[0] && (a + b)[1..] == a[1..] + b;
      NonBlankAppend(a[1..], b);
    }
  }

  lemma {:induction false} NonBlankOfBlank(a: string)
    requires forall i :: 0 <= i < |a| ==> IsWhitespace(a[i])
    ensures NonBlank(a) == []
    decreases |a|
  {
    if a != [] {
      NonBlankOfBlank(a[1..]);
    }
  }

  /** Cutting whitespace off both ends removes no word character. */
  lemma NonBlankPadded(s: string, r: string, i: int)
    requires PaddedAt(s, r, i)
    ensures NonBlank(r) == NonBlank(s)
  {
    var before, after := s[..i], s[i + |r|..];
    assert s == before + r + after;
    NonBlankOfBlank(before);
    NonBlankOfBlank(after);
    NonBlankAppend(before, r);
    NonBlankAppend(before + r, after);
  }

  /** Trimming removes no word character. */
  lemma NonBlankTrim(content: string)
    ensures NonBlank(Trim(content)) == NonBlank(content)
  {
    var i :| PaddedAt(content, Trim(content), i);
    NonBlankPadded(content, Trim(content), i);
  }

  /**
   * The words counted are the content's own: written one after another they
   * give its non-whitespace characters in order, and unless the content is
   * blank none of them is empty.
   */
  lemma WordsOfContent(content: string)
    ensures Concat(Pieces(Trim(content))) == NonBlank(content)
    ensures Trim(content) != [] ==> forall k :: 0 <= k < |Pieces(Trim(content))| ==> Pieces(Trim(content))[k] != ""
  {
    NonBlankTrim(content);
    if Trim(content) != [] {
      PiecesOfTrimmed(Trim(content));
    }
  }

  /** Blank content still counts as one word. */
  lemma BlankIsOneWord(content: string)
    requires forall i :: 0 <= i < |content| ==> IsWhitespace(content[i])
    ensures WordCount(content) == 1
  {
    TrimEmptyIffBlank(content);
  }

  /** `Math.ceil(words / 200)`: the least number of minutes at 200 words a minute. */
  function ReadingMinutes(content: string): (m: nat)
    ensures m >= 1
    ensures (m - 1) * WordsPerMinute < WordCount(content) <= m * WordsPerMinute
  {
    (WordCount(content) + WordsPerMinute - 1) / WordsPerMinute
  }

  // ------------------------------------------------------------ excerpt

  /** `.replace(/\n/g, ' ')`. */
  function NewlinesToSpaces(s: string): (r: string)
    ensures |r| == |s|
    ensures forall i :: 0 <= i < |s| ==> r[i] == if s[i] == '\n' then ' ' else s[i]
  {
    seq(|s|, i requires 0 <= i < |s| => if s[i] == '\n' then ' ' else s[i])
  }

  /** The text after the newline rule and the first trim. */
  function Plain(stripped: string): string {
    Trim(NewlinesToSpaces(stripped))
  }

  /** `substring(0, n)` takes a negative `n` as 0. */
  function SubstringEnd(n: int, len: nat): (k: nat)
    ensures k <= len
  {
    if n < 0 then 0 else if n < len then n else len
  }


  /** `r` is what trimming `s` leaves: trimmed, with only whitespace cut from either end. */
  ghost predicate IsTrimOf(r: string, s: string) {
    IsTrimmed(r) && exists i :: PaddedAt(s, r, i)
  }

  predicate NoNewline(s: string) {
    forall i :: 0 <= i < |s| ==> s[i] != '\n'
  }

  /** Trimming and cutting never bring back a newline. */
  lemma InfixNoNewline(s: string, r: string, i: int)
    requires NoNewline(s) && PaddedAt(s, r, i)
    ensures NoNewline(r)
  {
    assert forall k :: 0 <= k < |r| ==> r[k] == s[i + k];
  }

  /**
   * The truncation of `generateExcerpt`, on text whose markdown has already
   * been stripped: newlines become spaces and the text is trimmed; text that
   * fits is returned whole, longer text is cut to `maxLength`, trimmed again
   * and marked with `...`.
   */
  function Excerpt(stripped: string, maxLength: int): (r: string)
    ensures |Plain(stripped)| <= maxLength ==> r == Plain(stripped)
    ensures |Plain(stripped)| > maxLength ==>
              && |r| >= 3 && r[|r| - 3..] == "..."
              && IsTrimOf(r[..|r| - 3], Plain(stripped)[..SubstringEnd(maxLength, |Plain(stripped)|)])
  {
    var plain := Plain(stripped);
    if |plain| <= maxLength then plain
    else
      var cut := Trim(plain[..SubstringEnd(maxLength, |plain|)]);
      Ellipsis(cut, plain[..SubstringEnd(maxLength, |plain|)]);
      cut + "..."
  }

  /** A trimmed cut followed by `'...'` ends in `'...'` and has the cut before it. */
  lemma Ellipsis(cut: string, s: string)
    requires cut == Trim(s)
    ensures |cut + "..."| >= 3 && (cut + "...")[|cut + "..."| - 3..] == "..."
    ensures IsTrimOf((cut + "...")[..|cut + "..."| - 3], s)
  {
    assert (cut + "...")[..|cut|] == cut;
  }

  lemma PlainHasNoNewline(stripped: string)
    ensures NoNewline(Plain(stripped))
  {
    var s := NewlinesToSpaces(stripped);
    var j :| PaddedAt(s, Plain(stripped), j);
    InfixNoNewline(s, Plain(stripped), j);
  }

  lemma CutHasNoNewline(plain: string, e: nat, r: string)
    requires NoNewline(plain) && e <= |plain|
    requires |r| >= 3 && r[|r| - 3..] == "..." && IsTrimOf(r[..|r| - 3], plain[..e])
    ensures NoNewline(r)
  {
    var cut := r[..|r| - 3];
    assert NoNewline(plain[..e]) by {
      assert forall k :: 0 <= k < e ==> plain[..e][k] == plain[k];
    }
    var i :| PaddedAt(plain[..e], cut, i);
    InfixNoNewline(plain[..e], cut, i);
    forall k | 0 <= k < |r|
      ensures r[k] != '\n'
    {
      if k < |r| - 3 {
        assert r[k] == cut[k];
      } else {
        assert r[k] == r[|r| - 3..][k - (|r| - 3)];
      }
    }
  }

  /** An excerpt never contains a newline. */
  lemma ExcerptHasNoNewline(stripped: string, maxLength: int)
    ensures NoNewline(Excerpt(stripped, maxLength))
  {
    PlainHasNoNewline(stripped);
    if |Plain(stripped)| > maxLength {
      CutHasNoNewline(Plain(stripped), SubstringEnd(maxLength, |Plain(stripped)|), Excerpt(stripped, maxLength));
    }
  }

  /** A cut excerpt is at most three characters longer than the limit. */
  lemma ExcerptLength(stripped: string, maxLength: int)
    requires |Plain(stripped)| > maxLength
    ensures |Excerpt(stripped, maxLength)| <= SubstringEnd(maxLength, |Plain(stripped)|) + 3
  {
    var r := Excerpt(stripped, maxLength);
    var i :| PaddedAt(Plain(stripped)[..SubstringEnd(maxLength, |Plain(stripped)|)], r[..|r| - 3], i);
  }
}
