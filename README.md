# Portfolio blog: a Dafny model of its content layer

This project models the parts of a personal portfolio and blog site (Next.js,
TypeScript) that hold logic rather than markup, and proves what they promise:

- **The blog content loader** (`lib/blog.ts`). The content directory
  `content/blog` is a map from file name to file text. `getAllBlogs` keeps the
  `.mdx`/`.md` files, derives each post's slug by stripping the extension,
  parses each file and sorts the posts newest first. `getBlogBySlug` resolves a
  slug to `<slug>.mdx`, else `<slug>.md`, and answers `undefined` when neither
  exists or parsing throws. Both first seed an absent directory with three
  sample posts. The directory is a class (`Blog.BlogDirectory`) because the
  bootstrap writes files. The listing and the lookup are pure functions over a
  snapshot of the directory (`Blog.AllBlogs`, `Blog.BlogBySlug`).
- **The category tabs of the listing page** (`app/blog/page.tsx`). The
  de-duplicated, first-occurrence-ordered category list and the per-category
  filter (`BlogIndex`). The "All Posts" tab renders the listing unchanged, so
  what is proved of `Blog.AllBlogs` is what that tab shows.
- **The header** (`components/header.tsx`). The active-link rule, the
  navigation table and the mobile menu's open/closed state (`Header`).
- **The two forms** (`components/sections/contact-section.tsx`,
  `app/blog/new/page.tsx`). Their zod schemas with fixed error messages, their
  empty defaults, and their simulated submission (`ContactForm`, `NewPost`).
  Neither form sends or stores the values it accepts.

Foreign code is kept opaque. gray-matter's parser and `matter.stringify`,
the reading-time estimate and the bodies of the three seed posts are fields of
`Blog.Externals`. zod's e-mail check is a predicate parameter. A parse that
throws is `None`. `getAllBlogs` does not catch it, so a listing with an
unparsable file is a `Failure` naming that file. `getBlogBySlug` catches
everything, so the lookup answers `None`.

A Dafny `string` is a sequence of Unicode characters, while a JavaScript
string is a sequence of UTF-16 code units. `JsString.CodeUnits` gives the
UTF-16 encoding of a string. JavaScript's `length` is `JsString.Length`, the
number of code units, and zod's `.min(n)` compares it. JavaScript's `<` on
strings is `JsString.Less`, which compares code units lexicographically, a
proper prefix being smaller. It is proved to be a strict total order; totality
rests on the encoding being injective. `startsWith`/`endsWith` are
`JsString.StartsWith` and `JsString.EndsWith`. They compare characters, and
`JsString.StartsWithUnits` and `JsString.EndsWithUnits` prove that this gives
the same answer as comparing code units.

Facts about the loader's code that the model keeps:

- lib/blog.ts:46 gives no reading-time floor of 1 minute: `Math.ceil` of zero
  minutes is 0. `readingTime` stays an opaque string.
- lib/blog.ts:51-57: the comparator never returns 0, so posts with equal dates
  may appear in any order. The model proves only "newest first" and "a
  permutation".
- lib/blog.ts:34-48 has no `try`: an exception from parsing one file escapes
  `getAllBlogs`, so no file is skipped.
- lib/blog.ts:45 casts the parsed front matter without any check. The model
  takes whatever the parser yields as the post's front matter.

## Model

| member | source | states |
|---|---|---|
| `JsString.LessIrreflexive` | lib/blog.ts:52 | no date string is smaller than itself |
| `JsString.LessAsymmetric` | lib/blog.ts:52 | string `<` never holds both ways |
| `JsString.LessTotal` | lib/blog.ts:52 | of two different strings one is smaller |
| `JsString.LessTransitive` | lib/blog.ts:52 | string `<` is transitive |
| `JsString.NotLessTransitive` | lib/blog.ts:51-57 | "not smaller than", the listing's order, is transitive |
| `JsString.CodeUnitsInjective` | lib/blog.ts:52 | two strings with the same UTF-16 code units are equal, so code-unit comparison orders all different strings |
| `JsString.SurrogatePairsOrderAndCount` | lib/blog.ts:52 | code units decide: "\u{1F600}" is smaller than "\uFF01" and has length 2 though it is one character |
| `JsString.StartsWithUnits` | lib/blog.ts:33 | `startsWith` compared by characters answers as it does compared by UTF-16 code units |
| `JsString.EndsWithUnits` | lib/blog.ts:33 | `endsWith` compared by characters answers as it does compared by UTF-16 code units |
| `JsString.LengthOfBmp` | components/sections/contact-section.tsx:31 | a string without characters beyond U+FFFF has as many code units as characters |
| `Blog.Extension` | lib/blog.ts:35 | the part `/\.mdx?$/` matches: ".mdx" or ".md" for a post file, empty otherwise, always a suffix of the name |
| `Blog.Slug` | lib/blog.ts:35 | slug followed by the stripped extension rebuilds the file name; a post file loses exactly one extension; other names are unchanged |
| `Blog.SlugOfMdx` | lib/blog.ts:69 | `<s>.mdx` is a post file whose slug is `s` |
| `Blog.SlugOfMd` | lib/blog.ts:70 | `<s>.md` is a post file whose slug is `s` (it does not end in ".mdx") |
| `Blog.PostFileOfSlug` | lib/blog.ts:33-35 | every post file is `<slug>.mdx` or `<slug>.md` of its own slug |
| `Blog.PostFiles` | lib/blog.ts:31-33 | the filter keeps each `.mdx`/`.md` name exactly as often as the directory lists it and drops every other name |
| `Blog.ParsePost` | lib/blog.ts:37-47 | a post exists iff gray-matter does not throw; it carries the given slug, the parsed body, the parsed front matter and the reading time of that body |
| `Blog.LoadPosts` | lib/blog.ts:34-48 | one post per file, in order, built from that file; succeeds iff every file parses; otherwise fails naming a file that does not parse |
| `Blog.CompareByDate` | lib/blog.ts:51-57 | the comparator answers only 1 or -1, never 0; -1 only when `a`'s date is not smaller, 1 only when `b`'s date is not smaller |
| `Blog.InsertByDate` | lib/blog.ts:51-57 | inserting into a newest-first list keeps it newest first and adds exactly that post |
| `Blog.SortByDate` | lib/blog.ts:51-57 | the sorted posts are newest first (each date not smaller than the next) and a permutation of the input |
| `Blog.NewestFirstPairwise` | lib/blog.ts:51-57 | in the sorted listing every post is at least as recent as every later one |
| `Blog.AllBlogs` | lib/blog.ts:31-57 | for any directory order: succeeds iff every post file parses; then newest first and a permutation of the loaded posts; a failure names a post file that does not parse |
| `Blog.ListedSlugs` | lib/blog.ts:31-57 | the listed slugs, counted with multiplicity, are exactly the slugs of the directory's post files |
| `Blog.TwinFilesSlugCount` | lib/blog.ts:35 | among post files, slug `x` occurs exactly as often as the names `x.md` and `x.mdx` together |
| `Blog.DuplicateSlugListedTwice` | lib/blog.ts:33-35 | with both `x.md` and `x.mdx` present and every post file parsing, the listing succeeds and shows slug `x` exactly twice |
| `Blog.ResolveSlug` | lib/blog.ts:69-79 | `<slug>.mdx` when it exists, else `<slug>.md` when it exists, else nothing; the chosen file has that slug |
| `Blog.BlogBySlug` | lib/blog.ts:60-95 | a post is returned iff a file resolves and parses; its slug is exactly the one asked for; missing file and parse exception both give None; the post is the one the listing's parse step builds from the resolved file |
| `Blog.ListedSlugFound` | lib/blog.ts:33-91 | absent parse errors, every listed slug is found; the lookup returns the same post the listing built unless an `.mdx` twin shadows a `.md` file, in which case it returns the `.mdx` post |
| `Blog.ListedSlugsAllFound` | lib/blog.ts:23-91 | when every post file parses, the listing succeeds and every slug it shows is found by the lookup |
| `Blog.SampleFiles` | lib/blog.ts:340-344 | after `n` loop iterations the written files are exactly the first `n` sample file names |
| `Blog.SeededDirectory` | lib/blog.ts:98-344 | a seeded directory holds exactly `getting-started-with-react.mdx`, `mastering-tailwind-css.mdx`, `nextjs-13-app-router.mdx`, each with its stringified front matter and body |
| `Blog.SamplesArePostFiles` | lib/blog.ts:99-238 | all three seed names end in ".mdx", so the listing's filter keeps each |
| `Blog.BlogDirectory.CreateSamplePosts` | lib/blog.ts:340-344 | the loop adds the three sample files to the directory and changes nothing else |
| `Blog.BlogDirectory.EnsureSeeded` | lib/blog.ts:25-29 | an absent directory is created holding exactly the three seed files; a present one is not written |
| `Blog.BlogDirectory.ReadDir` | lib/blog.ts:31 | `readdirSync` lists every file of the directory once, in an unspecified order |
| `Blog.BlogDirectory.GetAllBlogs` | lib/blog.ts:23-58 | bootstrap as above, then the listing is `AllBlogs` for the order the directory gave |
| `Blog.BlogDirectory.GetBlogBySlug` | lib/blog.ts:60-96 | bootstrap as above, then the answer is `BlogBySlug` |
| `Blog.ListTwice` | lib/blog.ts:25-29 | two listings of an absent directory seed it once; the second writes nothing |
| `BlogIndex.AllCategories` | app/blog/page.tsx:20 | `flatMap`: a category occurs iff some post carries it |
| `BlogIndex.Distinct` | app/blog/page.tsx:19-21 | `Array.from(new Set(xs))`: no duplicates, the same elements as `xs`, in order of first occurrence |
| `BlogIndex.Categories` | app/blog/page.tsx:19-21 | the tab list has no duplicates; it holds a category iff some post carries it; order is first occurrence across the sorted posts and each post's own category order |
| `BlogIndex.TabPosts` | app/blog/page.tsx:85-88 | a tab shows no more posts than the listing, and every post it shows carries the category |
| `BlogIndex.TabPostsCount` | app/blog/page.tsx:85-88 | a tab shows exactly the posts carrying its category, each as often as the listing does |
| `BlogIndex.TabPostsAppend` | app/blog/page.tsx:85-88 | filtering distributes over concatenation, so a tab keeps listing order |
| `BlogIndex.NoEmptyTab` | app/blog/page.tsx:19-88 | no category tab is empty |
| `BlogIndex.EveryPostHasTab` | app/blog/page.tsx:19-88 | every post with a category appears under some category tab |
| `Header.IsActive` | components/header.tsx:33-37 | "/" is active iff the pathname is "/"; a "/#" path is active iff the pathname is "/"; any other path is active iff the pathname starts with it |
| `Header.NavItemsActiveOnlyAtHome` | components/header.tsx:11-37 | with the current four links, all are active on "/" and none on any other pathname |
| `Header.AnchorNeverActiveOnItself` | components/header.tsx:35 | an anchor link such as "/#about" is not active on the pathname "/#about" |
| `Header.PrefixLinkActiveBelow` | components/header.tsx:36 | a plain link is active on its own path and on every pathname extending it |
| `Header.HeaderState.constructor` | components/header.tsx:20-21 | the header starts not scrolled and with the mobile menu closed |
| `Header.HeaderState.ToggleMenu` | components/header.tsx:76 | the toggle flips `mobileMenuOpen` and nothing else |
| `Header.HeaderState.ClickMobileLink` | components/header.tsx:92-100 | a mobile link click closes the menu and goes to that link's path |
| `Header.HeaderState.Highlighted` | components/header.tsx:55-66 | each rendered link is highlighted iff the pathname is "/" |
| `Header.ToggleTwiceThenClick` | components/header.tsx:76-100 | toggling twice restores the menu; a link click leaves it closed |
| `Validation.MinLength` | components/sections/contact-section.tsx:31 | zod's `.min(n)`: no error iff the JavaScript length (UTF-16 code units) is at least `n`, else one error with the given message |
| `Validation.JoinChecks` | components/sections/contact-section.tsx:30-39 | a schema of four fields reports an error iff that field's check failed, and no error twice |
| `Validation.Check` | components/sections/contact-section.tsx:32 | a library check: no error iff it passes, else one error with the given message |
| `ContactForm.Validate` | components/sections/contact-section.tsx:30-39 | valid iff the lengths in code units are name >= 2, subject >= 5, message >= 10 and the e-mail passes; the errors are exactly the fixed messages of the failing fields, each once |
| `ContactForm.DefaultsRejected` | components/sections/contact-section.tsx:49-54 | the empty default form fails with the name, subject and message errors |
| `ContactForm.EmojiNameLongEnough` | components/sections/contact-section.tsx:31 | a name of one emoji counts two code units and passes the two-character minimum |
| `ContactForm.ContactFormState.constructor` | components/sections/contact-section.tsx:44-55 | the form starts empty, without errors, not submitting, with no submission attempted |
| `ContactForm.ContactFormState.Edit` | components/sections/contact-section.tsx:47-55 | typing sets the values; before any submission the errors stay as they were; after one every change is validated again and the errors are the schema's for the new values |
| `ContactForm.ContactFormState.Submit` | components/sections/contact-section.tsx:57-58 | ignored while submitting (button disabled); otherwise a submission is recorded as attempted, errors are the schema's, and only valid values set `isSubmitting`; the values are not changed or kept |
| `ContactForm.ContactFormState.FinishSending` | components/sections/contact-section.tsx:61-69 | completion clears `isSubmitting`, the errors and the attempted-submission flag, and resets every field to empty |
| `ContactForm.ContactFormState.ButtonLabel` | components/sections/contact-section.tsx:222-236 | the button reads "Sending..." exactly while submitting, "Send Message" otherwise |
| `ContactForm.SendOnce` | components/sections/contact-section.tsx:57-70 | a valid submission, a second press while pending, and completion leave the form as it started |
| `ContactForm.CorrectAfterRejection` | components/sections/contact-section.tsx:47-58 | after a rejected press, correcting the values clears the errors without another press |
| `NewPost.Validate` | app/blog/new/page.tsx:18-23 | valid iff the lengths in code units are title >= 5, description >= 10, categories >= 3, content >= 50; the errors are exactly the fixed messages of the failing fields, each once |
| `NewPost.CategoriesIsOneRawString` | app/blog/new/page.tsx:21 | categories is one raw string: "CSS" passes, and so does ",,," |
| `NewPost.DefaultsRejected` | app/blog/new/page.tsx:29-37 | the empty default form fails on all four fields |
| `NewPost.NewPostPage.constructor` | app/blog/new/page.tsx:26-37 | the page starts empty, without errors, not submitting, with no submission attempted, on "/blog/new" |
| `NewPost.NewPostPage.Edit` | app/blog/new/page.tsx:29-37 | typing sets the values; before any submission the errors stay as they were; after one the errors are the schema's for the new values; route and submission state unchanged |
| `NewPost.NewPostPage.Submit` | app/blog/new/page.tsx:39-41 | ignored while publishing; otherwise a submission is recorded as attempted, errors are the schema's, and only valid values set `isSubmitting`; values and route unchanged |
| `NewPost.NewPostPage.FinishPublishing` | app/blog/new/page.tsx:43-47 | completion clears `isSubmitting` and navigates to "/blog" |
| `NewPost.NewPostPage.Cancel` | app/blog/new/page.tsx:154-160 | "Cancel" navigates to "/blog" |
| `NewPost.NewPostPage.ButtonLabel` | app/blog/new/page.tsx:161-166 | the button reads "Publishing..." exactly while submitting, "Publish Post" otherwise |
| `NewPost.PublishWritesNothing` | app/blog/new/page.tsx:39-48 | publishing a valid post ends on "/blog" and leaves the content directory exactly as it was |

## Left out

- gray-matter (`matter`, `matter.stringify`) and reading-time are foreign libraries. They are opaque fields of `Blog.Externals`, so the model claims no parse/stringify round trip and no bound on the reading time.
- The front matter's shape is not checked: a missing or mistyped field, and JavaScript's comparison of `undefined` dates, are not modelled.
- The bodies of the seed posts (lib/blog.ts:108-336) are opaque text, `Externals.sampleBody`.
- Real file-system behaviour is not modelled: `path.join` normalisation (a slug holding "/" or ".."), a directory entry that is itself a directory, `readFileSync` or write failures, permissions.
- Blog.BlogDirectory.ReadDir: the listing order is left open, as the file system leaves it. Blog.SortByDate fixes one order among posts with equal dates; no property depends on it.
- Timers, toasts and routing are sequential transitions without timing: the 1500 ms delay, `toast`, `router.push` as a route field.
- The scroll listener and `isScrolled` updates (components/header.tsx:24-31) are browser events; `isScrolled` is only carried along.
- zod's e-mail regular expression is an abstract predicate.
- ContactForm.ContactFormState.Edit, NewPost.NewPostPage.Edit: an edit replaces all values at once and re-validates the whole form. The form library re-validates only the changed field, so after several single-field edits the same errors are shown, but their order in the list may differ.
- Presentation, animation, date formatting and the static sections (about, projects, hero, footer, blog preview, home page) carry no logic to verify.
