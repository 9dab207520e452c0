# yousuf.sh — a verified model of the site's logic

This project models the logic behind a personal portfolio site, written in Dafny. The site has:

- two serverless contact endpoints: a deployed one with validation and an older one with a rate limit;
- the contact page that posts to them;
- the blog catalogue utilities and the two blog pages built on them;
- a Mafia role-picker game;
- a test endpoint.

The JavaScript functions become Dafny functions. React components become classes whose fields are the component's state variables. Each event handler becomes a method that states the new state outright, in terms of a function on the old state.

Modules:

- `Text`: the string primitives the JavaScript uses. These are `trim` and the `\s` class, ASCII `toLowerCase`, `includes`, and the default code-unit order of `Array.prototype.sort`.
- `Seqs`: `Array.prototype.filter` and `slice(0, end)`, plus the subsequence relation that says what `filter` keeps.
- `HtmlEscape`: the chain of `.replace` calls that both endpoints use to HTML-escape input. It is proved equal to a per-character escape, which never shrinks and at most grows six-fold. The result contains no markup character, and unescaping it returns the input.
- `EmailShape`: the regex `^[^\s@]+@[^\s@]+\.[^\s@]+$`, written as a scan. The scan is proved equal to the regex read literally.
- `DeployedContact`: `api/contact.js`. It covers:
  - the CORS headers;
  - the OPTIONS and method gates;
  - the body check;
  - clamping and sanitising the fields;
  - the required-field loop and the e-mail check;
  - composing the mail and the relay's failure.
- `RateLimitedContact`: `src/api/contact.js`. The request handler takes the limiter's answer as a parameter. The limiter itself is a fixed 15-minute window allowing 5 tokens, held in a `Limiter` class.
- `ContactForm`: `src/pages/Contact.jsx`. It covers field edits, validation, the five-attempt cap, the submit and its outcome, and the timer that clears the status.
- `BlogUtils`: `src/utils/blogUtils.js`. It covers:
  - deriving the slug from a file name;
  - `getAllBlogs` (keeps published posts, newest first, by a stable sort);
  - lookup by slug and filtering by tag;
  - the recent posts and the sorted tag set;
  - reading time and the excerpt.
- `BlogPage`: `src/pages/Blog.jsx`. It covers the tag and search filter, and the component's state.
- `BlogPostPage`: `src/pages/BlogPost.jsx`. It covers the related-post list, the fetch effect, and which view is rendered.
- `MafiaGame`: `src/pages/games/MafiaGame.jsx`. It covers:
  - `parseInt`;
  - adjusting the role counts;
  - building the role list;
  - the Fisher–Yates shuffle, in place on an array;
  - revealing the roles one by one.
- `TestEndpoint`: `src/pages/api/test.js`.

I/O is turned into parameters:

- The SMTP relay's verdict is `relayAccepts`.
- The limiter's answer is `hasToken`, or the clock reading `now` for `Limiter`.
- The response of `fetch` is a `FetchOutcome`.
- The globbed markdown sources are a sequence of `Source` values.
- `Math.random` is a `pick` function.
- The submission timestamp is the string `submittedAt`.

Where the description of the system and the code disagree, the model follows the code:

- The deployed endpoint cuts each field to its maximum length *before* trimming (`str.slice(0, maxLength).trim()`). So a field can end up shorter than the maximum even when the input was longer.
- The rate-limited endpoint does no validation at all. Any body whose fields are strings or absent is mailed (`RateLimitedContact.NoValidation`).

## Model

| member | source | states |
|---|---|---|
| Text.Trim | src/api/contact.js:14 | The result has no whitespace at either end. It is an infix of the input, and everything cut off around it is whitespace. |
| Text.TrimIdempotent | api/contact.js:13 | Trimming twice is the same as trimming once. |
| Text.TrimEmptyIffBlank | api/contact.js:13 | Trimming gives the empty string exactly when the input is all whitespace. |
| Text.ToLower | api/contact.js:50 | Lower-casing keeps the length and maps each code unit on its own, so no upper-case ASCII letter is left. |
| Text.Includes | src/pages/Blog.jsx:93 | `includes` is true exactly when the needle occurs at some offset of the haystack. |
| Text.LessIrreflexive | src/utils/blogUtils.js:64 | The default sort order never puts a string before itself. |
| Text.LessTransitive | src/utils/blogUtils.js:64 | The default sort order is transitive. |
| Text.LessTotal | src/utils/blogUtils.js:64 | Any two different strings are ordered one way or the other. |
| Text.LessAsymmetric | src/utils/blogUtils.js:64 | The default sort order never puts each of two strings before the other. |
| Seqs.Filter | src/utils/blogUtils.js:34 | `filter` keeps the elements that pass, each as many times as it occurs in the input, and drops every other. The kept elements stay in their original order, and the list never grows. |
| Seqs.SubsequenceTransitive | src/pages/Blog.jsx:81-97 | Filters applied one after another still yield a subsequence of the input. |
| HtmlEscape.ReplaceChain5 | api/contact.js:14-18 | The five chained `.replace` calls, in source order (no contract of its own; `ReplaceChain5IsEscape` states what it computes). |
| HtmlEscape.ReplaceChain6 | src/api/contact.js:15-20 | The five calls followed by the `/` replacement (no contract of its own; `ReplaceChain6IsEscape` states what it computes). |
| HtmlEscape.ReplaceChain5IsEscape | api/contact.js:14-18 | The five chained `.replace` calls escape each character on its own: `&`, `<`, `>`, `"` and `'` become their entities, and nothing else changes. |
| HtmlEscape.ReplaceChain6IsEscape | src/api/contact.js:15-20 | The six chained `.replace` calls are the same per-character escape, with `/` also escaped. |
| HtmlEscape.EscapeAppend | src/api/contact.js:15-20 | Escaping a concatenation is the concatenation of the escapes. |
| HtmlEscape.EscapeLength | src/api/contact.js:15-20 | Escaping never shrinks the text and at most multiplies its length by six. |
| HtmlEscape.EscapeEmpty | src/api/contact.js:15-20 | The escaped text is empty exactly when the input is. |
| HtmlEscape.EscapeIsWellEscaped | src/api/contact.js:15-20 | The escaped text contains no markup character, and every `&` in it starts one of the entities. |
| HtmlEscape.UnescapeEscape | src/api/contact.js:15-20 | Replacing the entities by their characters gives back the input, so escaping loses nothing. |
| HtmlEscape.EscapeNotIdempotent | api/contact.js:14 | Escaping text that is already escaped escapes it again (`&amp;` becomes `&amp;amp;`). |
| EmailShape.IsValidEmail | api/contact.js:21-24 | The scan accepts exactly the strings that match the regex: a plain local part, `@`, a plain name, `.`, and a plain suffix. |
| EmailShape.ValidEmailShape | api/contact.js:22 | An accepted address has no whitespace and exactly one `@`, with something before it. |
| EmailShape.ShapeIsValidEmail | api/contact.js:22 | Conversely, such a string with a `.` strictly inside its domain is accepted. |
| DeployedContact.SanitizeString | api/contact.js:11-19 | A string field is clamped to its maximum length, trimmed and then escaped. The result is at most six times the maximum, holds no markup, and unescapes to the clamped text. |
| DeployedContact.SanitizeEmptyIffBlank | api/contact.js:13 | A string field sanitises to the empty string exactly when the part kept by the cut is all whitespace. |
| DeployedContact.Sanitize | api/contact.js:11-19 | A field that is missing or not a string sanitises to the empty string. Any result holds no raw markup character. |
| DeployedContact.SanitizeBody | api/contact.js:48-53 | Each field is sanitised with its own ceiling. The sanitised address contains no upper-case ASCII letter. |
| DeployedContact.MissingField | api/contact.js:56-60 | No field is reported missing exactly when all four sanitised fields are non-empty. A reported field is one of 'name', 'email', 'subject' and 'message'. |
| DeployedContact.CorsHeaders | api/contact.js:28-29 | There are two headers. The allowed origin comes first and is never empty, because an unset origin falls back to the default domain. |
| DeployedContact.ComposeMail | api/contact.js:77-99 | The mail's envelope, subject line and interpolated values (no contract of its own; `Handle` states its recipient and reply-to). |
| DeployedContact.Handle | api/contact.js:26-106 | Every reply carries the CORS headers, and the statuses are 200, 400, 405 and 500. OPTIONS gives an empty 200, and any other method except POST gives 405. A body that is not an object, a missing field, or a malformed address gives 400 with its message and sends no mail. Mail is sent exactly when everything passes: it is the mail composed from the sanitised fields, with reply-to the lower-cased address. Such a POST gets 200 'Message sent successfully' when the relay accepts. The reply is 500 'Failed to send message' exactly when the relay refuses. |
| DeployedContact.FirstMissing | api/contact.js:56-60 | The loop over the four required fields returns the first empty one, or none. |
| DeployedContact.HandleRequest | api/contact.js:26-106 | The handler as a method computes the same outcome as `Handle`. |
| DeployedContact.MethodGateIgnoresBody | api/contact.js:31-38 | For OPTIONS and for methods that are not allowed, the reply depends on neither the body nor the relay. |
| DeployedContact.ForwardedFieldsNonEmpty | api/contact.js:48-64 | Every field of a mailed message was a string with a non-whitespace character within its ceiling, so each sanitised field is non-empty. Each sanitised field is within six times its maximum length. |
| DeployedContact.EscapeAddsNoAt | api/contact.js:14-18 | Escaping never introduces an `@`. |
| DeployedContact.SanitizedAddressHasNoAt | api/contact.js:50 | Clamping, trimming, escaping and lower-casing an address never introduce an `@`. |
| DeployedContact.AddressWithoutAtRejected | api/contact.js:62-64 | A POST whose address has no `@` gets 400 'Invalid email format' and sends no mail. |
| RateLimitedContact.SanitizeString | src/api/contact.js:12-21 | A string field is trimmed and then escaped, with `/` included. The result is at most six times the length, holds no markup, and unescapes to the trimmed text. |
| RateLimitedContact.Sanitize | src/api/contact.js:12-21 | A missing field becomes the empty string. A non-string makes `.trim` throw, and only a non-string does. Any result holds no raw markup character or `/`. |
| RateLimitedContact.SanitizeBody | src/api/contact.js:62-69 | The body is unreadable exactly when it is an object and one of its five fields throws when sanitised. Otherwise each field is that field's sanitised text. |
| RateLimitedContact.CorsHeaders | src/api/contact.js:31-39 | The four headers, with the configured origin in production and the development origin otherwise (no contract of its own; `Handle` states every reply carries them). |
| RateLimitedContact.ClientIp | src/api/contact.js:71-72 | The client IP is the forwarded-for header or the socket address. It is empty only when both are. |
| RateLimitedContact.ComposeMail | src/api/contact.js:90-134 | The mail's envelope, subject line and interpolated values (no contract of its own; `MailFields` pins every field). |
| RateLimitedContact.Admit | src/api/contact.js:7-10 | One token request keeps the window or opens one at the current time. A grant leaves between one and five grants in the window. A refusal changes nothing and happens only when five were already granted. A window never holds more than five grants. |
| RateLimitedContact.Handle | src/api/contact.js:29-145 | Every reply carries the four CORS headers, with the development origin outside production. OPTIONS gives an empty 200 and other methods except POST give 405. A POST without a token gives 429 'Too many requests, please try again later.' and sends no mail. Mail is sent exactly when a POST holds a token and its body is readable. The reply is 500 'Error sending email' exactly when the body is unreadable or the relay refuses. A 200 with a body means the mail went out, and a token-holding POST with a readable body gets 200 'Email sent successfully' when the relay accepts. |
| RateLimitedContact.MailFields | src/api/contact.js:61-134 | The mailed message carries the sanitised name, address, subject, message and page URL. It also carries the client IP (the forwarded-for header, else the socket address) and the submission time. Its reply-to is the sanitised address, and its subject line is prefixed 'New Contact Form Message: '. |
| RateLimitedContact.TokenOnlyForPost | src/api/contact.js:41-54 | The limiter's answer matters only for POST requests. |
| RateLimitedContact.NoValidation | src/api/contact.js:61-69 | A POST that holds a token and whose fields are strings or absent is mailed, even when fields are empty or the address is malformed. |
| RateLimitedContact.AtMostFivePerWindow | src/api/contact.js:7-10 | Within one 15-minute window the limiter grants at most five tokens in total, and the window's count records each grant. |
| RateLimitedContact.SixthRefused | src/api/contact.js:7-10 | Once five tokens are granted in a window, a further request within the same window is refused. |
| RateLimitedContact.Limiter.constructor | src/api/contact.js:7-10 | A fresh limiter opens an empty window at the given time. |
| RateLimitedContact.Limiter.TryRemoveToken | src/api/contact.js:54 | Taking a token moves the window exactly as the window function says and reports whether a token was granted. |
| RateLimitedContact.Serve | src/api/contact.js:29-145 | Only a POST consults the limiter, and nothing else does. The reply is `Handle` given the limiter's answer. |
| ContactForm.WithField | src/pages/Contact.jsx:63-67 | Editing a field changes that field only. The IP and the page URL are kept. |
| ContactForm.Validate | src/pages/Contact.jsx:71-89 | The form passes exactly when all four fields are filled, the address matches the regex, and the message has at least 10 characters. Otherwise the message is the first failing check's, in that order. |
| ContactForm.AcceptedFormShape | src/pages/Contact.jsx:71-89 | An accepted form has a name, a subject, a message of at least 10 characters, and an address with no whitespace and an `@` after a non-empty local part. |
| ContactForm.FailureMessage | src/pages/Contact.jsx:116-132 | The error shown is the server's or the exception's message when there is one. Otherwise it is 'Something went wrong' for a bad response, or 'Failed to send message. Please try again.' for a thrown error, so it is never empty. |
| ContactForm.ContactPage.constructor | src/pages/Contact.jsx:43-54 | The page starts with the blank form carrying the contact URL, no status, no error and no attempts. |
| ContactForm.ContactPage.HandleChange | src/pages/Contact.jsx:63-69 | Typing updates the one field and clears any error message. The rest of the state is kept. |
| ContactForm.ContactPage.ValidateForm | src/pages/Contact.jsx:71-89 | The method returns `Validate`'s verdict and sets the first failing message. It changes nothing else. |
| ContactForm.ContactPage.Submit | src/pages/Contact.jsx:91-103 | A request is posted exactly when fewer than five attempts were made and the form validates. Posting marks the page submitting and counts the attempt. Otherwise the error is 'Too many attempts. Please try again later.' or the validation message, and nothing is sent. At most five requests are ever sent. |
| ContactForm.ContactPage.Complete | src/pages/Contact.jsx:114-134 | A successful response sets the success status and resets the form. Any failure sets the error status with `FailureMessage`. Either way the page stops submitting. |
| ContactForm.ContactPage.TimerFires | src/pages/Contact.jsx:135-138 | The timer clears the status and the error message and leaves everything else. |
| BlogUtils.SegmentStart | src/utils/blogUtils.js:21 | The last path segment starts just after the last `/`, or at the start when there is none. |
| BlogUtils.LastSegment | src/utils/blogUtils.js:21 | `split('/').pop()` is a suffix of the path that contains no `/` and follows a `/` or the start. |
| BlogUtils.FindFrom | src/utils/blogUtils.js:21 | The search returns the first occurrence at or after the start, or the length when there is none. |
| BlogUtils.RemoveFirstMd | src/utils/blogUtils.js:21 | `replace('.md', '')` removes only the first `.md` and changes nothing when there is none. |
| BlogUtils.SlugOf | src/utils/blogUtils.js:21-22 | The frontmatter slug, or else the file name without its first `.md` (no contract of its own; `SlugFromFileName` states the file-name case). |
| BlogUtils.SlugFromFileName | src/utils/blogUtils.js:20-22 | Without a frontmatter slug, the slug of `dir/name.md` is `name`. |
| BlogUtils.MakePost | src/utils/blogUtils.js:24-29 | The post record built from one source (no contract of its own; `Posts` states one post per source). |
| BlogUtils.Posts | src/utils/blogUtils.js:16-30 | One post is built per source, in order. |
| BlogUtils.Insert | src/utils/blogUtils.js:35 | Inserting adds exactly the one post. |
| BlogUtils.InsertSorted | src/utils/blogUtils.js:35 | Inserting into a newest-first list keeps it newest first. |
| BlogUtils.SortByDate | src/utils/blogUtils.js:35 | The sort yields a newest-first permutation of its input. |
| BlogUtils.SortStable | src/utils/blogUtils.js:35 | The sort is stable: posts with the same date keep their relative order. |
| BlogUtils.Published | src/utils/blogUtils.js:34 | A post is kept unless its frontmatter says `published: false` (a predicate; `AllBlogs` states what the catalogue keeps). |
| BlogUtils.AllBlogs | src/utils/blogUtils.js:33-35 | The catalogue is a newest-first permutation of the published posts, and it holds exactly the posts not marked `published: false`. |
| BlogUtils.AllBlogsStable | src/utils/blogUtils.js:33-35 | Published posts with the same date appear in source order. |
| BlogUtils.GetAllBlogs | src/utils/blogUtils.js:13-36 | The loop over the sources followed by the filter and the sort computes the catalogue. |
| BlogUtils.BlogBySlug | src/utils/blogUtils.js:39-42 | The lookup finds nothing exactly when no post has the slug, and otherwise returns the first post that has it. |
| BlogUtils.BlogsByTag | src/utils/blogUtils.js:45-51 | Filtering by tag keeps the posts carrying the tag, each as many times as in the catalogue, and no other post. They stay in catalogue order. |
| BlogUtils.RecentBlogs | src/utils/blogUtils.js:68-71 | `slice(0, limit)` returns the first `limit` posts, clamped to the list. A negative limit drops that many from the end. |
| BlogUtils.InsertTag | src/utils/blogUtils.js:64 | Adding a new tag to a strictly sorted list keeps it strictly sorted and adds just that tag. |
| BlogUtils.SortTags | src/utils/blogUtils.js:64 | Sorting distinct tags gives a strictly increasing list with the same members. |
| BlogUtils.GetAllTags | src/utils/blogUtils.js:54-65 | The collected tags are strictly sorted with no duplicates, and they are exactly the tags of some post. |
| BlogUtils.Pieces | src/utils/blogUtils.js:86 | Splitting gives one more piece than the text has maximal whitespace runs (counted as the offsets where a run begins). No piece contains whitespace. The pieces written one after another are the text's non-whitespace characters in order. |
| BlogUtils.PiecesOfTrimmed | src/utils/blogUtils.js:86 | Splitting trimmed, non-blank text gives no empty piece. |
| BlogUtils.WordCount | src/utils/blogUtils.js:86 | The word count is one more than the number of whitespace runs inside the trimmed content. |
| BlogUtils.WordsOfContent | src/utils/blogUtils.js:86 | The counted words written one after another are the content's non-whitespace characters in order. Unless the content is blank, no counted word is empty. |
| BlogUtils.BlankIsOneWord | src/utils/blogUtils.js:86 | Blank content counts as one word, because splitting `''` gives `['']`. |
| BlogUtils.ReadingMinutes | src/utils/blogUtils.js:84-89 | The reading time is the least whole number of minutes covering the words at 200 words a minute, and at least one. |
| BlogUtils.NewlinesToSpaces | src/utils/blogUtils.js:99 | Every newline becomes a space and nothing else changes. |
| BlogUtils.Excerpt | src/utils/blogUtils.js:92-107 | Text that fits is returned whole. Longer text is cut at the limit, trimmed, and followed by '...'. |
| BlogUtils.ExcerptHasNoNewline | src/utils/blogUtils.js:99-106 | An excerpt never contains a newline. |
| BlogUtils.ExcerptLength | src/utils/blogUtils.js:102-106 | A shortened excerpt is at most the cut length plus three. |
| BlogPage.MatchesSearch | src/pages/Blog.jsx:92-96 | The title, the excerpt when present, or one of the tags when present contains the lower-cased term (a predicate; `SearchIgnoresCase` and `Filtered` state its use). |
| BlogPage.Shown | src/pages/Blog.jsx:84-97 | A post passes the tag filter unless 'all' is selected, and the search filter unless the term is empty (a predicate; `Filtered` states the list it selects). |
| BlogPage.Filtered | src/pages/Blog.jsx:80-100 | The list shows the posts that carry the selected tag (any post for 'all') and match the search, each as many times as in the catalogue, and no other post. They stay in catalogue order. With 'all' and an empty search it is the whole catalogue. |
| BlogPage.ToLowerIdempotent | src/pages/Blog.jsx:93 | Lower-casing twice is the same as lower-casing once. |
| BlogPage.SearchIgnoresCase | src/pages/Blog.jsx:91-96 | The filter gives the same list for a search term and its lower-cased form. |
| BlogPage.BlogIndex.constructor | src/pages/Blog.jsx:57-61 | The page starts with no posts, no tags, the 'all' tag and an empty search. |
| BlogPage.BlogIndex.Refilter | src/pages/Blog.jsx:80-100 | Re-running the filter effect makes the shown list agree with the catalogue, tag and search again. |
| BlogPage.BlogIndex.Mount | src/pages/Blog.jsx:71-78 | Mounting loads the catalogue and shows all of it. The tag list is 'all' followed by the strictly sorted tags found on the posts. |
| BlogPage.BlogIndex.SelectTag | src/pages/Blog.jsx:163 | Clicking a tag selects it, and the shown list follows. |
| BlogPage.BlogIndex.SetSearchTerm | src/pages/Blog.jsx:146 | Typing sets the search term, and the shown list follows. |
| BlogPage.BlogIndex.ClearSearch | src/pages/Blog.jsx:151 | Clearing the search shows exactly the posts of the selected tag. |
| BlogPostPage.Related | src/pages/BlogPost.jsx:58 | The related posts are at most three of the four newest posts, in order, excluding the current one. When the current post is not among those four, they are the three newest. |
| BlogPostPage.FilterKeepsAll | src/pages/BlogPost.jsx:58 | A filter that every element passes changes nothing. |
| BlogPostPage.SubsequenceSorted | src/utils/blogUtils.js:35 | Any subsequence of a newest-first list is newest first. |
| BlogPostPage.RelatedNewestFirst | src/pages/BlogPost.jsx:58 | The related posts of a newest-first catalogue are newest first. |
| BlogPostPage.FetchStep | src/pages/BlogPost.jsx:48-69 | A fetch always ends loading. A failure sets 'Failed to load blog post', and an unknown slug sets 'Blog post not found', keeping the previous post. A found post replaces the post and the related list. The error is never cleared. |
| BlogPostPage.Render | src/pages/BlogPost.jsx:71-113 | The spinner while loading, then the not-found view when there is an error or no post, else the article with its related posts (no contract of its own; `FirstLoadUnknownSlug`, `StickyError` and `CorrectedShowsFoundPost` state what it shows). |
| BlogPostPage.FirstLoadUnknownSlug | src/pages/BlogPost.jsx:51-55 | On the first load, an unknown slug renders the not-found view. |
| BlogPostPage.StickyError | src/pages/BlogPost.jsx:48-69 | Once an error is set, navigating to an existing post still renders the not-found view. |
| BlogPostPage.FetchStepCorrected | src/pages/BlogPost.jsx:48-69 | This is the fetch with the error cleared first. A failure still sets the load error. |
| BlogPostPage.CorrectedShowsFoundPost | src/pages/BlogPost.jsx:88 | With the error cleared first, an existing slug always renders that post, and an unknown one the not-found view. |
| BlogPostPage.PostPage.constructor | src/pages/BlogPost.jsx:36-39 | The page starts with no post, no related posts, loading, and no error. |
| BlogPostPage.PostPage.FetchBlog | src/pages/BlogPost.jsx:48-69 | Running the effect moves the page's state exactly as the fetch step says. |
| MafiaGame.DigitRun | src/pages/games/MafiaGame.jsx:32 | The leading digit run is maximal: all digits, followed by a non-digit or the end. |
| MafiaGame.ParseSigned | src/pages/games/MafiaGame.jsx:32-35 | After the leading whitespace, the result is NaN exactly when no digit follows the optional sign. A negative result needs a leading `-`. |
| MafiaGame.ParseInt | src/pages/games/MafiaGame.jsx:32-35 | Text without any digit parses to NaN. |
| MafiaGame.ShowValue | src/pages/games/MafiaGame.jsx:32 | The decimal digits of a number read back as that number. |
| MafiaGame.ParseUnsigned | src/pages/games/MafiaGame.jsx:32-35 | `parseInt` of a run of digits is their decimal value. |
| MafiaGame.ParseNegative | src/pages/games/MafiaGame.jsx:32-35 | `parseInt` of a minus sign followed by digits is the negated value. |
| MafiaGame.ParseShowNatural | src/pages/games/MafiaGame.jsx:32-35 | `parseInt` reads back any natural number written in decimal. |
| MafiaGame.EmptyIsNaN | src/pages/games/MafiaGame.jsx:32 | An empty input parses to NaN. |
| MafiaGame.Adjust | src/pages/games/MafiaGame.jsx:38-43 | Counts that fit are kept, and no count ever grows. With non-negative numbers that do not fit, the special roles fill the table exactly, mafia first, then sheriff, then doctor. |
| MafiaGame.InnocentsNonNegative | src/pages/games/MafiaGame.jsx:45 | With non-negative inputs, the number of innocents after adjustment is never negative. |
| MafiaGame.Fill | src/pages/games/MafiaGame.jsx:49-52 | `Array(k).fill(role)` has length `k`. |
| MafiaGame.FillCounts | src/pages/games/MafiaGame.jsx:49-52 | `Array(k).fill(role)` holds `k` of that role and none of any other. |
| MafiaGame.BuildRoles | src/pages/games/MafiaGame.jsx:45-53 | The role list can be built exactly when every count is non-negative (a negative length throws). It has one role per player and exactly the planned number of each role. |
| MafiaGame.BuildsForNaturalCounts | src/pages/games/MafiaGame.jsx:38-53 | With non-negative inputs the role list can always be built. |
| MafiaGame.Swap | src/pages/games/MafiaGame.jsx:57 | A swap keeps the length and the multiset of roles. |
| MafiaGame.ShufflePermutes | src/pages/games/MafiaGame.jsx:55-58 | The shuffle is a permutation of the roles, whatever the random picks. |
| MafiaGame.Shuffle | src/pages/games/MafiaGame.jsx:55-58 | The loop swaps in place exactly as the shuffle function describes. |
| MafiaGame.ShuffledCopy | src/pages/games/MafiaGame.jsx:47-58 | Shuffling a copy of the built roles in an array gives the shuffled sequence. |
| MafiaGame.RoleAt | src/pages/games/MafiaGame.jsx:76 | Indexing the roles gives the role within range and `undefined` outside it. |
| MafiaGame.Started | src/pages/games/MafiaGame.jsx:60-68 | A started game shows player 1's role and is consistent: the current role is the previous player's. |
| MafiaGame.NextRole | src/pages/games/MafiaGame.jsx:71-85 | While players remain, the next player's role is shown. After the last one, the press only finishes the game: the player, the role and whether it is shown are kept. Consistency and the roles are kept. |
| MafiaGame.HideRole | src/pages/games/MafiaGame.jsx:87-92 | Hiding the role hides it and keeps every other field, so the game stays consistent. |
| MafiaGame.RevealOrder | src/pages/games/MafiaGame.jsx:60-85 | After `k` presses the shown role is the `(k+1)`-th player's. The press after the last player finishes the game. |
| MafiaGame.WithInput | src/pages/games/MafiaGame.jsx:22-27 | Editing an input changes that input only. |
| MafiaGame.StartedGameCounts | src/pages/games/MafiaGame.jsx:29-69 | A game that starts has one role per player and exactly the adjusted numbers of each role. |
| MafiaGame.NaNDoesNotStart | src/pages/games/MafiaGame.jsx:32-53 | An input that parses to NaN makes the start fail. |
| MafiaGame.RolePicker.constructor | src/pages/games/MafiaGame.jsx:5-20 | The picker starts with no game and a blank form. |
| MafiaGame.RolePicker.HandleInputChange | src/pages/games/MafiaGame.jsx:22-27 | Typing updates one input and leaves the game alone. |
| MafiaGame.RolePicker.StartGame | src/pages/games/MafiaGame.jsx:29-69 | Starting succeeds exactly when the start function does, and then sets that game. A failed start leaves the state untouched. |
| MafiaGame.RolePicker.DisplayNextRole | src/pages/games/MafiaGame.jsx:71-85 | The button advances the game by one step. |
| MafiaGame.RolePicker.ClearCurrentRole | src/pages/games/MafiaGame.jsx:87-92 | The button hides the current role. |
| MafiaGame.RolePicker.RestartGame | src/pages/games/MafiaGame.jsx:94-110 | Restarting returns to no game and a blank form. |
| TestEndpoint.Handle | src/pages/api/test.js:1-14 | GET and POST get 200 and anything else gets 405 'Method not allowed'. GET says 'API is working'. POST says 'POST is working' and echoes exactly the body. |
| TestEndpoint.BodyOnlyEchoed | src/pages/api/test.js:6-13 | The body affects the reply only for POST. |

## Left out

- Sending mail (nodemailer and SMTP) and `fetch`: the network is not modelled. The relay's verdict and the response are parameters.
- The environment variables: the allowed origin, the SMTP user and the recipient are fields of `Config`.
- RateLimitedContact.Limiter: the `limiter` package is not part of this model. The model keeps a fixed 15-minute window that admits at most 5 requests and restarts at the first request after the window ends. The package's token bucket, which refills gradually and can refuse a request the window would admit, is left out. So the model's grants over-approximate the real ones, and the at-most-five bound still holds for the real limiter.
- RateLimitedContact.CorsHeaders: in production with `ALLOWED_ORIGIN` unset, the source passes `undefined` to `setHeader`, which throws before any reply. `Config.allowedOrigin` is a string, so this case is not modelled.
- RateLimitedContact.Handle: the wording of the HTML and text mail templates is not modelled beyond the fields they carry.
- The limiter's state is one process's memory. Serverless instances that each hold their own limiter are not modelled.
- Unicode: `\s` and `trim` use the whitespace set listed in `Text.IsWhitespace`, without the other Unicode space separators. `toLowerCase` is modelled on ASCII letters only. Lengths are counted in `char`s, standing for UTF-16 code units.
- `formatDate`: locale date formatting is not modelled. Dates are integers for ordering, and frontmatter that is not a date is outside the model.
- gray-matter parsing and `import.meta.glob`: the sources come already parsed into frontmatter and content. The order of the glob's keys is the input order.
- BlogUtils.Excerpt: the four markdown-stripping regexes (headers, emphasis, inline code, links) are not modelled. The excerpt takes text with these already removed. The newline replacement, trim, cut and '...' are modelled.
- BlogUtils.ReadingMinutes: the `"N min read"` label string is not built. The number of minutes is.
- Frontmatter `tags` that are not an array of strings are not modelled.
- MafiaGame.ParseInt: decimal digits only. The `0x` prefix that `parseInt` reads as hexadecimal is not modelled. The game's number inputs supply decimal strings.
- MafiaGame.BuildRoles: JavaScript's limit of 2^32 - 1 on array lengths is not modelled, nor are lengths that are not integers.
- The browser's `alert` and the HTML constraint validation on the number inputs are not modelled.
- Rendering, animation and routing (framer-motion, react-router navigation) are not modelled beyond which view the blog post page shows.
- ContactForm.ContactPage.Submit: React batches state updates and handlers read stale closures. The model runs each handler to completion with the latest state, so concurrent submissions and the timer racing a new submit are not captured.
- `console.error` logging is not modelled.

## Findings

| source | as written | input that shows it | evidently intended | confidence | as-written member | corrected member |
|---|---|---|---|---|---|---|
| src/pages/BlogPost.jsx:48-69 | The fetch effect sets `error` on an unknown slug but never clears it. The page renders 'not found' whenever `error` is set (line 88). | One mounted page instance sees the slug `missing`, then an existing slug, for example through back and forward navigation under a router that keeps the page mounted. The error remains and the existing post is shown as not found. The routes in `src/components/AnimatedRoutes.jsx` are keyed by path and declare no blog route, so whether the deployed router keeps the page mounted is outside the modelled source. | Each fetch starts from a cleared error, so an existing post is always shown. | low, not executed | BlogPostPage.StickyError | BlogPostPage.CorrectedShowsFoundPost |
