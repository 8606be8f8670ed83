/**
 * The blog content loader of lib/blog.ts.
 *
 * The content directory is a map from file name to file text. The foreign
 * libraries the loader calls (gray-matter, reading-time) and the bodies of the
 * three seed posts are opaque and passed in as an `Externals` value.
 */
module Blog {
  import opened Wrappers
  import JsString

  /** The front matter of a post, as the loader casts it (`as BlogFrontmatter`). */
  datatype Frontmatter = Frontmatter(
    title: string,
    date: string,
    description: string,
    categories: seq<string>,
    image: Option<string>)

  datatype BlogPost = BlogPost(
    slug: string,
    content: string,
    frontmatter: Frontmatter,
    readingTime: string)

  /** What `matter(text)` yields: the front matter data and the body. */
  datatype Matter = Matter(data: Frontmatter, content: string)

  /**
   * The code the loader calls but this model does not see.
   *  - matter: gray-matter's parser; None stands for a thrown exception.
   *  - stringify: `matter.stringify(content, frontmatter)`.
   *  - readingTime: `Math.ceil(readingTime(content).minutes).toString()`.
   *  - sampleBody: the Markdown body of the seed post with that file name.
   */
  datatype Externals = Externals(
    matter: string -> Option<Matter>,
    stringify: (string, Frontmatter) -> string,
    readingTime: string -> string,
    sampleBody: string -> string)

  /** The error that escapes `getAllBlogs` when a file cannot be parsed. */
  datatype LoadError = ParseError(filename: string)

  const MdxExtension: string := ".mdx"
  const MdExtension: string := ".md"

  // ---------------------------------------------------------------------------
  // File names and slugs

  /** The listing keeps a file iff its name ends in ".mdx" or ".md". */
  predicate IsPostFile(filename: string)
  {
    JsString.EndsWith(filename, MdxExtension) || JsString.EndsWith(filename, MdExtension)
  }

  /**
   * The part of the name that `/\.mdx?$/` matches: ".mdx" or ".md" at the end,
   * or nothing.
   */
  function Extension(filename: string): (ext: string)
    ensures JsString.EndsWith(filename, ext)
    ensures IsPostFile(filename) ==> ext == MdxExtension || ext == MdExtension
    ensures !IsPostFile(filename) ==> ext == ""
  {
    if JsString.EndsWith(filename, MdxExtension) then MdxExtension
    else if JsString.EndsWith(filename, MdExtension) then MdExtension
    else ""
  }

  /**
   * `filename.replace(/\.mdx?$/, "")`: the slug is the file name without one
   * trailing extension, so slug followed by that extension is the file name.
   */
  function Slug(filename: string): (slug: string)
    ensures slug + Extension(filename) == filename
    ensures IsPostFile(filename) ==> |slug| < |filename|
    ensures !IsPostFile(filename) ==> slug == filename
  {
    filename[..|filename| - |Extension(filename)|]
  }

  /** The file `<slug>.mdx` has slug `slug`. */
  lemma SlugOfMdx(slug: string)
    ensures IsPostFile(slug + MdxExtension) && Slug(slug + MdxExtension) == slug
  {
    var f := slug + MdxExtension;
    assert f[|f| - 4..] == MdxExtension;
    assert f[..|f| - 4] == slug;
  }

  /** The file `<slug>.md` has slug `slug` (its name does not end in ".mdx"). */
  lemma SlugOfMd(slug: string)
    ensures IsPostFile(slug + MdExtension) && Slug(slug + MdExtension) == slug
  {
    var f := slug + MdExtension;
    assert f[|f| - 3..] == MdExtension;
    assert f[|f| - 1] == 'd';
    assert !JsString.EndsWith(f, MdxExtension);
    assert f[..|f| - 3] == slug;
  }

  /**
   * A post file whose slug is `slug` is `<slug>.mdx` or `<slug>.md`: the two
   * file names a lookup by slug tries.
   */
  lemma PostFileOfSlug(filename: string)
    requires IsPostFile(filename)
    ensures filename == Slug(filename) + MdxExtension || filename == Slug(filename) + MdExtension
  {
  }

  // ---------------------------------------------------------------------------
  // Listing: filter, parse, sort

  /** `filenames.filter(f => f.endsWith(".mdx") || f.endsWith(".md"))` */
  function PostFiles(filenames: seq<string>): (kept: seq<string>)
    ensures forall f :: multiset(kept)[f] == if IsPostFile(f) then multiset(filenames)[f] else 0
    ensures forall f :: f in kept ==> f in filenames
  {
    if filenames == [] then []
    else
      assert filenames == [filenames[0]] + filenames[1..];
      (if IsPostFile(filenames[0]) then [filenames[0]] else []) + PostFiles(filenames[1..])
  }

  /** The post built from one file's text, or None when gray-matter throws. */
  function ParsePost(slug: string, text: string, ext: Externals): (r: Option<BlogPost>)
    ensures r.Some? <==> ext.matter(text).Some?
    ensures r.Some? ==> r.value.slug == slug && r.value.content == ext.matter(text).value.content
    ensures r.Some? ==> r.value.frontmatter == ext.matter(text).value.data
    ensures r.Some? ==> r.value.readingTime == ext.readingTime(r.value.content)
  {
    match ext.matter(text)
    case None => None
    case Some(m) => Some(BlogPost(slug, m.content, m.data, ext.readingTime(m.content)))
  }

  /** Every file of the list parses. */
  ghost predicate AllParse(filenames: seq<string>, files: map<string, string>, ext: Externals)
    requires forall f :: f in filenames ==> f in files
  {
    forall f :: f in filenames ==> ext.matter(files[f]).Some?
  }

  /**
   * The `.map(...)` step: one post per file, in order; the first file that
   * gray-matter cannot parse aborts the whole listing.
   */
  function LoadPosts(filenames: seq<string>, files: map<string, string>, ext: Externals)
    : (r: Result<seq<BlogPost>, LoadError>)
    requires forall f :: f in filenames ==> f in files
    ensures r.Success? <==> AllParse(filenames, files, ext)
    ensures r.Failure? ==> r.error.filename in filenames && ext.matter(files[r.error.filename]).None?
    ensures r.Success? ==> |r.value| == |filenames|
    ensures r.Success? ==> forall i :: 0 <= i < |filenames| ==>
              Some(r.value[i]) == ParsePost(Slug(filenames[i]), files[filenames[i]], ext)
  {
    if filenames == [] then Success([])
    else
      match ParsePost(Slug(filenames[0]), files[filenames[0]], ext)
      case None => Failure(ParseError(filenames[0]))
      case Some(p) =>
        match LoadPosts(filenames[1..], files, ext)
        case Failure(e) => Failure(e)
        case Success(ps) => Success([p] + ps)
  }

  /**
   * The comparator handed to `sort`: 1 when `a` is dated before `b`, otherwise
   * -1. It never answers 0, not even for equal dates.
   */
  function CompareByDate(a: BlogPost, b: BlogPost): (order: int)
    ensures order == 1 || order == -1
    ensures order < 0 ==> !JsString.Less(a.frontmatter.date, b.frontmatter.date)
    ensures order > 0 ==> !JsString.Less(b.frontmatter.date, a.frontmatter.date)
  {
    JsString.LessAsymmetric(a.frontmatter.date, b.frontmatter.date);
    if JsString.Less(a.frontmatter.date, b.frontmatter.date) then 1 else -1
  }

  /** Each post's date is not smaller than the next one's. */
  ghost predicate NewestFirst(posts: seq<BlogPost>)
  {
    forall i :: 0 < i < |posts| ==>
      !JsString.Less(posts[i - 1].frontmatter.date, posts[i].frontmatter.date)
  }

  /** Inserts `p` in front of the first post the comparator does not put before it. */
  function InsertByDate(p: BlogPost, posts: seq<BlogPost>): (r: seq<BlogPost>)
    requires NewestFirst(posts)
    ensures NewestFirst(r)
    ensures multiset(r) == multiset(posts) + multiset{p}
    ensures |r| == |posts| + 1 && (r[0] == p || (posts != [] && r[0] == posts[0]))
  {
    if posts == [] || CompareByDate(p, posts[0]) < 0 then [p] + posts
    else
      assert posts == [posts[0]] + posts[1..];
      [posts[0]] + InsertByDate(p, posts[1..])
  }

  /**
   * `posts.sort(CompareByDate)`. The comparator is inconsistent on equal dates,
   * so JavaScript fixes no order among them; this sort is one of the orders
   * the engine may produce.
   */
  function SortByDate(posts: seq<BlogPost>): (r: seq<BlogPost>)
    ensures NewestFirst(r)
    ensures multiset(r) == multiset(posts)
  {
    if posts == [] then []
    else
      assert posts == [posts[0]] + posts[1..];
      InsertByDate(posts[0], SortByDate(posts[1..]))
  }

  /** In a newest-first list every post is at least as recent as every later one. */
  lemma {:induction false} NewestFirstPairwise(posts: seq<BlogPost>, i: nat, j: nat)
    requires NewestFirst(posts) && i <= j < |posts|
    ensures !JsString.Less(posts[i].frontmatter.date, posts[j].frontmatter.date)
    decreases j - i
  {
    if i == j {
      JsString.LessIrreflexive(posts[i].frontmatter.date);
    } else {
      NewestFirstPairwise(posts, i + 1, j);
      JsString.NotLessTransitive(posts[i].frontmatter.date, posts[i + 1].frontmatter.date,
                                 posts[j].frontmatter.date);
    }
  }

  /** `names` is what `readdirSync` returns for `files`: each file name once. */
  ghost predicate IsListing(names: seq<string>, files: map<string, string>)
  {
    && (forall f :: f in names <==> f in files)
    && (forall i, j :: 0 <= i < j < |names| ==> names[i] != names[j])
  }

  /**
   * The body of `getAllBlogs` after the bootstrap, for the directory order
   * `names`: the posts of all post files, newest first, or the parse error of
   * the first file gray-matter cannot parse.
   */
  function AllBlogs(names: seq<string>, files: map<string, string>, ext: Externals)
    : (r: Result<seq<BlogPost>, LoadError>)
    requires forall f :: f in names ==> f in files
    ensures r.Success? <==> AllParse(PostFiles(names), files, ext)
    ensures r.Failure? ==> IsPostFile(r.error.filename) && r.error.filename in names
                           && ext.matter(files[r.error.filename]).None?
    ensures r.Success? ==> NewestFirst(r.value)
    ensures r.Success? ==> multiset(r.value) == multiset(LoadPosts(PostFiles(names), files, ext).value)
  {
    match LoadPosts(PostFiles(names), files, ext)
    case Failure(e) =>
      assert multiset(PostFiles(names))[e.filename] > 0;
      Failure(e)
    case Success(posts) => Success(SortByDate(posts))
  }

  function Slugs(posts: seq<BlogPost>): (slugs: seq<string>)
    ensures |slugs| == |posts| && forall i :: 0 <= i < |posts| ==> slugs[i] == posts[i].slug
  {
    if posts == [] then [] else [posts[0].slug] + Slugs(posts[1..])
  }

  function FileSlugs(filenames: seq<string>): (slugs: seq<string>)
    ensures |slugs| == |filenames| && forall i :: 0 <= i < |filenames| ==> slugs[i] == Slug(filenames[i])
  {
    if filenames == [] then [] else [Slug(filenames[0])] + FileSlugs(filenames[1..])
  }

  lemma SlugsAppend(a: seq<BlogPost>, b: seq<BlogPost>)
    ensures Slugs(a + b) == Slugs(a) + Slugs(b)
  {
  }

  /** Reordering posts does not change how often each slug occurs. */
  lemma {:induction false} SlugsPermutation(a: seq<BlogPost>, b: seq<BlogPost>)
    requires multiset(a) == multiset(b)
    ensures multiset(Slugs(a)) == multiset(Slugs(b))
    decreases |a|
  {
    if a != [] {
      assert a == [a[0]] + a[1..];
      assert a[0] in multiset(b);
      var k :| 0 <= k < |b| && b[k] == a[0];
      assert b == b[..k] + [b[k]] + b[k + 1..];
      var rest := b[..k] + b[k + 1..];
      assert multiset(a) == multiset{a[0]} + multiset(a[1..]);
      assert multiset(b) == multiset(b[..k]) + multiset{b[k]} + multiset(b[k + 1..]);
      assert multiset(rest) == multiset(b[..k]) + multiset(b[k + 1..]);
      assert multiset(a[1..]) == multiset(a) - multiset{a[0]};
      assert multiset(rest) == multiset(b) - multiset{b[k]};
      SlugsPermutation(a[1..], rest);
      SlugsAppend([a[0]], a[1..]);
      SlugsAppend(b[..k], [b[k]]);
      SlugsAppend(b[..k] + [b[k]], b[k + 1..]);
      SlugsAppend(b[..k], b[k + 1..]);
    }
  }

  /**
   * The slugs `getAllBlogs` lists are, counted with multiplicity, the slugs of
   * the post files of the directory: one per post file and none for any other file.
   */
  lemma ListedSlugs(names: seq<string>, files: map<string, string>, ext: Externals)
    requires forall f :: f in names ==> f in files
    requires AllBlogs(names, files, ext).Success?
    ensures multiset(Slugs(AllBlogs(names, files, ext).value)) == multiset(FileSlugs(PostFiles(names)))
  {
    var kept := PostFiles(names);
    var loaded := LoadPosts(kept, files, ext).value;
    SlugsPermutation(AllBlogs(names, files, ext).value, loaded);
    forall i | 0 <= i < |kept|
      ensures Slugs(loaded)[i] == FileSlugs(kept)[i]
    {
      assert Some(loaded[i]) == ParsePost(Slug(kept[i]), files[kept[i]], ext);
    }
    assert Slugs(loaded) == FileSlugs(kept);
  }

  /**
   * Among post files, exactly the pair `x.md`, `x.mdx` has slug `x`: the slug
   * occurs as often as those two names together.
   */
  lemma {:induction false} TwinFilesSlugCount(filenames: seq<string>, slug: string)
    requires forall f :: f in filenames ==> IsPostFile(f)
    ensures multiset(FileSlugs(filenames))[slug]
            == multiset(filenames)[slug + MdExtension] + multiset(filenames)[slug + MdxExtension]
  {
    if filenames != [] {
      var f := filenames[0];
      assert filenames == [f] + filenames[1..];
      assert FileSlugs(filenames) == [Slug(f)] + FileSlugs(filenames[1..]);
      TwinFilesSlugCount(filenames[1..], slug);
      SlugOfMd(slug);
      SlugOfMdx(slug);
      PostFileOfSlug(f);
      assert |slug + MdExtension| != |slug + MdxExtension|;
    }
  }

  /** In a list without repetitions, a member occurs exactly once. */
  lemma {:induction false} DistinctOnce(names: seq<string>, f: string)
    requires forall i, j :: 0 <= i < j < |names| ==> names[i] != names[j]
    requires f in names
    ensures multiset(names)[f] == 1
  {
    assert names == [names[0]] + names[1..];
    if names[0] == f {
      assert f !in names[1..];
    } else {
      DistinctOnce(names[1..], f);
    }
  }

  /** If both `x.md` and `x.mdx` exist, the listing shows slug `x` exactly twice. */
  lemma DuplicateSlugListedTwice(names: seq<string>, files: map<string, string>, ext: Externals, slug: string)
    requires IsListing(names, files)
    requires slug + MdExtension in files && slug + MdxExtension in files
    requires forall f :: f in files && IsPostFile(f) ==> ext.matter(files[f]).Some?
    ensures AllBlogs(names, files, ext).Success?
    ensures multiset(Slugs(AllBlogs(names, files, ext).value))[slug] == 2
  {
    ListedSlugs(names, files, ext);
    SlugOfMd(slug);
    SlugOfMdx(slug);
    DistinctOnce(names, slug + MdExtension);
    DistinctOnce(names, slug + MdxExtension);
    var kept := PostFiles(names);
    forall f | f in kept ensures IsPostFile(f) {
      assert multiset(kept)[f] > 0;
    }
    TwinFilesSlugCount(kept, slug);
  }

  // ---------------------------------------------------------------------------
  // Lookup by slug

  /** The file `getBlogBySlug` reads: `<slug>.mdx` first, then `<slug>.md`. */
  function ResolveSlug(slug: string, files: map<string, string>): (filename: Option<string>)
    ensures filename.Some? ==> filename.value in files && Slug(filename.value) == slug
    ensures filename == None <==> slug + MdxExtension !in files && slug + MdExtension !in files
    ensures slug + MdxExtension in files ==> filename == Some(slug + MdxExtension)
    ensures slug + MdxExtension !in files && slug + MdExtension in files ==> filename == Some(slug + MdExtension)
  {
    SlugOfMdx(slug);
    SlugOfMd(slug);
    if slug + MdxExtension in files then Some(slug + MdxExtension)
    else if slug + MdExtension in files then Some(slug + MdExtension)
    else None
  }

  /**
   * The body of `getBlogBySlug` after the bootstrap. A missing file and a
   * parse exception both end in `undefined` (None).
   */
  function BlogBySlug(slug: string, files: map<string, string>, ext: Externals): (r: Option<BlogPost>)
    ensures r.Some? ==> r.value.slug == slug
    ensures r.Some? <==> ResolveSlug(slug, files).Some? && ext.matter(files[ResolveSlug(slug, files).value]).Some?
    ensures r.Some? ==> r.value.content == ext.matter(files[ResolveSlug(slug, files).value]).value.content
    ensures ResolveSlug(slug, files).Some? ==> r == ParsePost(slug, files[ResolveSlug(slug, files).value], ext)
  {
    match ResolveSlug(slug, files)
    case None => None
    case Some(filename) => ParsePost(slug, files[filename], ext)
  }

  /**
   * Every slug the listing shows can be looked up, provided its files parse:
   * for a post file `f` that no `.mdx` twin shadows, lookup returns the very
   * post the listing built from `f`; a `.md` file with an `.mdx` twin is
   * answered with the `.mdx` post.
   */
  lemma ListedSlugFound(f: string, files: map<string, string>, ext: Externals)
    requires f in files && IsPostFile(f)
    requires forall g :: g in files && IsPostFile(g) ==> ext.matter(files[g]).Some?
    ensures BlogBySlug(Slug(f), files, ext).Some?
    ensures JsString.EndsWith(f, MdxExtension) || Slug(f) + MdxExtension !in files ==>
              BlogBySlug(Slug(f), files, ext) == ParsePost(Slug(f), files[f], ext)
    ensures Slug(f) + MdxExtension in files ==>
              BlogBySlug(Slug(f), files, ext) == ParsePost(Slug(f), files[Slug(f) + MdxExtension], ext)
  {
    PostFileOfSlug(f);
    SlugOfMdx(Slug(f));
    SlugOfMd(Slug(f));
    if JsString.EndsWith(f, MdxExtension) {
      assert f == Slug(f) + MdxExtension;
    }
  }

  /** When every post file parses, each slug of the listing opens a post. */
  lemma ListedSlugsAllFound(names: seq<string>, files: map<string, string>, ext: Externals)
    requires forall f :: f in names ==> f in files
    requires forall f :: f in files && IsPostFile(f) ==> ext.matter(files[f]).Some?
    ensures AllBlogs(names, files, ext).Success?
    ensures forall k :: 0 <= k < |AllBlogs(names, files, ext).value| ==>
              BlogBySlug(AllBlogs(names, files, ext).value[k].slug, files, ext).Some?
  {
    var kept := PostFiles(names);
    assert AllParse(kept, files, ext);
    var listing := AllBlogs(names, files, ext).value;
    ListedSlugs(names, files, ext);
    forall k | 0 <= k < |listing|
      ensures BlogBySlug(listing[k].slug, files, ext).Some?
    {
      var slug := Slugs(listing)[k];
      assert slug in multiset(Slugs(listing));
      assert slug in FileSlugs(kept);
      var j :| 0 <= j < |kept| && FileSlugs(kept)[j] == slug;
      assert multiset(kept)[kept[j]] > 0;
      ListedSlugFound(kept[j], files, ext);
    }
  }

  // ---------------------------------------------------------------------------
  // Seed posts

  datatype SamplePost = SamplePost(filename: string, frontmatter: Frontmatter)

  /** The three posts `createSamplePosts` writes. */
  const SamplePosts: seq<SamplePost> := [
    SamplePost("getting-started-with-react.mdx", Frontmatter(
      "Getting Started with React", "2023-04-15",
      "Learn the fundamentals of React and how to create your first component.",
      ["React", "Web Development"], None)),
    SamplePost("mastering-tailwind-css.mdx", Frontmatter(
      "Mastering Tailwind CSS", "2023-05-20",
      "Learn how to create beautiful, responsive designs with Tailwind CSS utility-first approach.",
      ["CSS", "Web Design"], None)),
    SamplePost("nextjs-13-app-router.mdx", Frontmatter(
      "Next.js 13 App Router: A Complete Guide", "2023-06-30",
      "Explore the new App Router in Next.js 13 and learn how to leverage its powerful features.",
      ["Next.js", "React", "Web Development"], None))
  ]

  /** The text written for a seed post: its body and front matter, stringified. */
  function SampleText(post: SamplePost, ext: Externals): string
  {
    ext.stringify(ext.sampleBody(post.filename), post.frontmatter)
  }

  /** The files the first `n` iterations of the seeding loop have written. */
  function SampleFiles(n: nat, ext: Externals): (written: map<string, string>)
    requires n <= |SamplePosts|
    ensures written.Keys == set i | 0 <= i < n :: SamplePosts[i].filename
  {
    if n == 0 then map[]
    else SampleFiles(n - 1, ext)[SamplePosts[n - 1].filename := SampleText(SamplePosts[n - 1], ext)]
  }

  lemma UpdateUnion(m: map<string, string>, n: map<string, string>, k: string, v: string)
    ensures (m + n)[k := v] == m + n[k := v]
  {
  }

  /** A seeded directory holds exactly the three sample files, each with its own text. */
  lemma SeededDirectory(ext: Externals)
    ensures SampleFiles(|SamplePosts|, ext).Keys ==
            {"getting-started-with-react.mdx", "mastering-tailwind-css.mdx", "nextjs-13-app-router.mdx"}
    ensures forall i :: 0 <= i < |SamplePosts| ==>
              SampleFiles(|SamplePosts|, ext)[SamplePosts[i].filename] == SampleText(SamplePosts[i], ext)
  {
    var s := SampleFiles(|SamplePosts|, ext);
    assert s == SampleFiles(2, ext)[SamplePosts[2].filename := SampleText(SamplePosts[2], ext)];
    assert SampleFiles(2, ext) == SampleFiles(1, ext)[SamplePosts[1].filename := SampleText(SamplePosts[1], ext)];
    assert SampleFiles(1, ext) == map[SamplePosts[0].filename := SampleText(SamplePosts[0], ext)];
    assert SamplePosts[0].filename != SamplePosts[1].filename;
  }

  /** All three seed names end in ".mdx", so the listing's filter keeps all three. */
  lemma SamplesArePostFiles()
    ensures forall i :: 0 <= i < |SamplePosts| ==> IsPostFile(SamplePosts[i].filename)
  {
    forall i | 0 <= i < |SamplePosts|
      ensures IsPostFile(SamplePosts[i].filename)
    {
      var f := SamplePosts[i].filename;
      assert f[|f| - 4..] == MdxExtension;
    }
  }

  // ---------------------------------------------------------------------------
  // The content directory

  /** The directory `content/blog`: whether it exists, and the files in it. */
  class BlogDirectory {
    var present: bool
    var files: map<string, string>

    /** An absent directory holds no files. */
    ghost predicate Valid()
      reads this
    {
      !present ==> files == map[]
    }

    constructor (present: bool, files: map<string, string>)
      requires present || files == map[]
      ensures Valid() && this.present == present && this.files == files
    {
      this.present := present;
      this.files := files;
    }

    /** `createSamplePosts`: writes the three seed files, one per loop iteration. */
    method CreateSamplePosts(ext: Externals)
      requires present
      modifies this
      ensures Valid() && present
      ensures files == old(files) + SampleFiles(|SamplePosts|, ext)
    {
      for i := 0 to |SamplePosts|
        invariant present
        invariant files == old(files) + SampleFiles(i, ext)
      {
        var post := SamplePosts[i];
        UpdateUnion(old(files), SampleFiles(i, ext), post.filename, SampleText(post, ext));
        files := files[post.filename := SampleText(post, ext)];
      }
    }

    /**
     * The guard both entry points run first: an absent directory is created
     * and seeded; a present one is left exactly as it is.
     */
    method EnsureSeeded(ext: Externals)
      requires Valid()
      modifies this
      ensures Valid() && present
      ensures old(present) ==> files == old(files)
      ensures !old(present) ==> files == SampleFiles(|SamplePosts|, ext)
    {
      if !present {
        present := true;  // both mkdirSync calls
        CreateSamplePosts(ext);
      }
    }

    /** `readdirSync`: every file name once, in an order this model does not fix. */
    method ReadDir() returns (names: seq<string>)
      ensures IsListing(names, files)
    {
      names := [];
      var rest := files.Keys;
      while rest != {}
        invariant forall f :: f in files <==> f in names || f in rest
        invariant forall f :: f in names ==> f !in rest
        invariant forall i, j :: 0 <= i < j < |names| ==> names[i] != names[j]
        decreases rest
      {
        var f :| f in rest;
        names := names + [f];
        rest := rest - {f};
      }
    }

    /**
     * `getAllBlogs`. The ghost `names` is the order in which the directory
     * listed its files.
     */
    method GetAllBlogs(ext: Externals) returns (r: Result<seq<BlogPost>, LoadError>, ghost names: seq<string>)
      requires Valid()
      modifies this
      ensures Valid() && present
      ensures old(present) ==> files == old(files)
      ensures !old(present) ==> files == SampleFiles(|SamplePosts|, ext)
      ensures IsListing(names, files) && r == AllBlogs(names, files, ext)
    {
      EnsureSeeded(ext);
      var listing := ReadDir();
      names := listing;
      r := AllBlogs(listing, files, ext);
    }

    /** `getBlogBySlug` */
    method GetBlogBySlug(slug: string, ext: Externals) returns (r: Option<BlogPost>)
      requires Valid()
      modifies this
      ensures Valid() && present
      ensures old(present) ==> files == old(files)
      ensures !old(present) ==> files == SampleFiles(|SamplePosts|, ext)
      ensures r == BlogBySlug(slug, files, ext)
    {
      EnsureSeeded(ext);
      r := BlogBySlug(slug, files, ext);
    }
  }

  /**
   * Bootstrap is idempotent: two listings in a row of an absent directory see
   * the same three seed files and write nothing the second time.
   */
  method ListTwice(dir: BlogDirectory, ext: Externals)
    requires dir.Valid() && !dir.present
    modifies dir
    ensures dir.present && dir.files == SampleFiles(|SamplePosts|, ext)
  {
    var first, names1 := dir.GetAllBlogs(ext);
    var seeded := dir.files;
    var second, names2 := dir.GetAllBlogs(ext);
    assert dir.files == seeded;
  }
}
