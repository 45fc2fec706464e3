# A verified model of the site's content renderer and analytics proxy

This project models two independent pieces of a small marketing site:

- **the content renderer** (`src/app/page.tsx`) walks a nested tree of
  sections and renders each one: a heading, an optional description whose
  embedded URLs become links, an optional list of bullet points, and the
  nested `section-<n>` children one heading level deeper (capped at 6). A
  child with an `href` is wrapped in a link.
- **the analytics proxy** (`src/app/gtag/js/route.ts`) handles `GET /gtag/js`.
  It forwards an allow-list of request headers to a fixed upstream, then
  returns the upstream script with its status, its `content-type` and a fixed
  `cache-control`. Failures turn into an error response. `DELETE`, `POST`,
  `PUT` and `PATCH` get a 405 response.

Modules:

- `Wrappers` (`wrappers.dfy`): the `Option` type.
- `UrlText` (`url_text.dfy`): the `TextWithUrls` tokenizer. The method
  `TextWithUrls` keeps the source's loop, with its `lastIndex` cursor and its
  segment pushes. It is proved equal to the function `Tokenize`. `Tokenize` is
  then proved to be the only partition that meets the declarative description
  `Tiles`. That description says:
  - the segments cover the text exactly;
  - text segments are non-empty and contain no position where a URL could start;
  - a text segment is always followed by a URL segment, or by nothing;
  - each URL segment is a regular-expression match that runs up to the next
    whitespace or to the end of the text.

  `IsSpace` is the ECMAScript set of characters that `\s` matches.
- `Sections` (`sections.dfy`): `SectionContent` and `SectionComponent` as
  functions that build an abstract view tree, with lemmas about levels, the
  child filter, link wrapping, the background predicate and bullets.
- `GtagRoute` (`gtag_route.dfy`): the handlers. The upstream `fetch` is a
  parameter `origin: Headers -> Upstream`. It receives the forwarded headers
  and yields a reply (status, headers, and a body read that may fail) or a
  fetch failure. The two header maps are built step by step in methods. Each
  method is proved equal to a declarative definition.

A section's own `href` plays no part in its content: only the parent uses
it, to wrap the child in a link. Whether a section shows a description, a
bullet list or children depends on its description, its bullet points and
its child entries. So `HeadingOnly` assumes no child entries, and says
nothing about `href`.

## Model

| member | source | states |
|---|---|---|
| `UrlText.TextWithUrls` | src/app/page.tsx:24-49 | The cursor loop returns exactly `Tokenize(text)`. The segments concatenate back to the text. No text segment is empty. Every URL segment is well-formed. A text segment is always followed by a URL segment. Its loop invariant keeps the cursor within the text, and its decreases clause makes the cursor strictly increase. |
| `UrlText.IsSpace` | src/app/page.tsx:25 | The characters `\s` matches in ECMAScript: the WhiteSpace and LineTerminator sets. `RunEnd` and `UrlRunWellFormed` state what the pattern does with them. |
| `UrlText.UrlAt` | src/app/page.tsx:25 | Where the pattern `https?:\/\/[^\s]+` can match: `https://` or `http://` followed by at least one non-whitespace character. `UrlRunWellFormed` and `UrlAtFacts` state what a match then is. |
| `UrlText.NextUrl` | src/app/page.tsx:30 | `exec` gives the leftmost position at or after the cursor where the pattern matches. It gives none when no later position matches. |
| `UrlText.RunEnd` | src/app/page.tsx:25 | The greedy `[^\s]+` stops at the first whitespace, or at the end of the text. Everything before that point is non-whitespace. |
| `UrlText.UrlRunWellFormed` | src/app/page.tsx:25 | A match that extends to the next whitespace starts with `http://` or `https://`. It has at least one character after `//` and contains no whitespace. |
| `UrlText.UrlAtFacts` | src/app/page.tsx:39-41 | A match is non-empty, so `lastIndex` moves past the match start, and the match text is a well-formed URL. |
| `UrlText.TokensFrom` | src/app/page.tsx:30-49 | The loop as a function of the cursor. `TokensTile` states that its segments meet `Tiles`, and `TextWithUrls` that the loop computes it. |
| `UrlText.Tokenize` | src/app/page.tsx:24-49 | The segments of a text. `TokenizeCharacterized` states that it is the one partition meeting `Tiles`, and `TokenizeProperties` what the source promises of it. |
| `UrlText.TokensTile` | src/app/page.tsx:30-49 | The loop's segments meet the declarative description `Tiles`. |
| `UrlText.TilesUnique` | src/app/page.tsx:30-49 | At most one partition meets `Tiles`. |
| `UrlText.TokenizeCharacterized` | src/app/page.tsx:30-49 | A partition meets `Tiles` if and only if it is `Tokenize(text)`. |
| `UrlText.TilesLossless` | src/app/page.tsx:30-49 | A partition concatenates to the text it covers: nothing is lost, duplicated or reordered. |
| `UrlText.TilesSuffix` | src/app/page.tsx:30-49 | The segments after the first `k` partition the text from the offset where the first `k` end. |
| `UrlText.SegmentAt` | src/app/page.tsx:25-49 | Segment `k` sits at offset `|Concat(segs[..k])|`. A text segment there is non-empty, contains no match start and is followed by a URL segment. A URL segment there is well-formed and maximal: the next character is whitespace, or the text ends. |
| `UrlText.TokenizeProperties` | src/app/page.tsx:30-49 | The result is lossless and is empty exactly for the empty text. It has no empty text segment, only well-formed URL segments, and no two adjacent text segments. |
| `Sections.HasCustomBackground` | src/app/page.tsx:80 | Whether the background is custom. `ContentFacts` states that this holds exactly for a non-empty background that does not contain `background.webp`, with `IncludesFrom` as the meaning of `includes`. |
| `Sections.RenderContent` | src/app/page.tsx:70-116 | `SectionContent` as a view. `ContentFacts` states its heading level and title, its full-height layout, its description and its bullets. |
| `Sections.ChildLevel` | src/app/page.tsx:143 | `Math.min(level + 1, 6)`, the level handed to a child. `RenderEntriesFollow` and `SectionLevels` state it for every child and descendant. |
| `Sections.IsChildEntry` | src/app/page.tsx:132 | The child filter: a `section-` key holding an object. `ChildEntriesMembers` and `RenderEntriesFollow` state that exactly these entries render. |
| `Sections.RenderSection` | src/app/page.tsx:118-161 | `SectionComponent` as a view. `RenderEntriesFollow`, `SectionLevels` and `HeadingOnly` state its children, levels and content. |
| `Sections.RenderEntries` | src/app/page.tsx:131-158 | The `Object.entries(section).map(...)` of children. `RenderEntriesFollow`, `RenderEntriesAppend` and `NonChildEntryIgnored` state which entries render and how. |
| `Sections.Page` | src/app/page.tsx:163-169 | The page: the root section at the default level 1, not nested. `PageLevels` states its levels. |
| `Sections.Link` | src/app/page.tsx:136 | A link exists exactly when the `href` is truthy (present and non-empty), and it is that `href`. |
| `Sections.IncludesFrom` | src/app/page.tsx:80 | `includes` holds exactly when the substring occurs at some position. |
| `Sections.RenderBullets` | src/app/page.tsx:99-109 | One item per bullet point, in record order. Each item has the bullet's text and a link exactly for a truthy `href`. |
| `Sections.ContentFacts` | src/app/page.tsx:78-113 | The heading is at the given level and shows the title. The layout is full-height exactly when the background is non-empty and does not contain `background.webp`. The background image is set exactly when the background is truthy, and is that background. The description is shown exactly when truthy, as segments that tile it losslessly. The bullets are shown exactly when the record is present, in order, each linked exactly when its `href` is truthy. |
| `Sections.ChildEntries` | src/app/page.tsx:132 | Every kept entry has a `section-` key and an object value. |
| `Sections.ChildEntriesMembers` | src/app/page.tsx:131-132 | An entry is kept if and only if it is one of the section's entries and passes the filter. |
| `Sections.NoChildEntries` | src/app/page.tsx:131-132 | Entries none of which passes the filter keep nothing. |
| `Sections.ChildEntriesAppend` | src/app/page.tsx:131-132 | The filter preserves entry order: filtering two concatenated lists gives the concatenation of the two filtered lists. |
| `Sections.RenderEntriesFollow` | src/app/page.tsx:131-158 | The rendered children correspond one to one, in order, to the entries that pass the filter. Each child has the entry's key and the top-level spacing exactly when the parent is not nested. It is wrapped in the link of its truthy `href`, and is rendered nested at level `min(level + 1, 6)`. |
| `Sections.RenderEntriesAppend` | src/app/page.tsx:131-158 | Rendering two concatenated entry lists concatenates their rendered children. |
| `Sections.NonChildEntryIgnored` | src/app/page.tsx:131-157 | An entry that fails the filter contributes nothing, wherever it stands. |
| `Sections.HeadingOnly` | src/app/page.tsx:118-161 | A section with no description (or an empty one), no bullet points and no child entries shows no description, no bullet list and no children, only its heading at the given level with its title. A truthy background still applies: the background image is set exactly when the background is truthy. |
| `Sections.SectionLevels` | src/app/page.tsx:118-161 | A section rendered at level `min(d + 1, 6)` has every descendant at depth `d'` rendered at level `min(d' + 1, 6)`, at any depth. |
| `Sections.DepthLevelsInRange` | src/app/page.tsx:77-78 | Levels that follow the depth are all between 1 and 6, so every heading tag is one of `h1` to `h6`. |
| `Sections.PageLevels` | src/app/page.tsx:163-169 | The page renders its root at the default level 1. Every section is at the level of its depth, and every level is between 1 and 6. |
| `GtagRoute.ForwardRequestHeaders` | src/app/gtag/js/route.ts:13-24 | The forwarded headers are a subset of {user-agent, accept, accept-encoding}. Each allowed header is forwarded exactly when the request has it, with its value unchanged. |
| `GtagRoute.ResponseHeaders` | src/app/gtag/js/route.ts:42-48 | `cache-control: public, max-age=3600` is always present. `content-type` is present exactly when the upstream has it, with the same value. There is no other header. |
| `GtagRoute.IsOk` | src/app/gtag/js/route.ts:33 | `responseFromOrigin.ok`: a status from 200 to 299. `Get` states the responses on each side of it. |
| `GtagRoute.Get` | src/app/gtag/js/route.ts:10-59 | The upstream sees only the forwarded headers. A fetch failure gives 500 `Internal Server Error`. A non-ok reply gives its own status, no headers and the body `Error fetching from GTAG`. An ok reply whose body read fails gives 500 `Internal Server Error`. Otherwise the response has the upstream status, the upstream body verbatim, and the passed-through headers. |
| `GtagRoute.MethodNotAllowed` | src/app/gtag/js/route.ts:76-83 | Status 405 and the header `allow: GET`. The body is `Method `, then the request's method, then ` Not Allowed`. |
| `GtagRoute.NotAllowedDistinguishesMethods` | src/app/gtag/js/route.ts:77 | Two refusals are equal only for the same method: the body names the method. |
| `GtagRoute.Delete` | src/app/gtag/js/route.ts:62-64 | A DELETE request gets 405, `allow: GET` and `Method DELETE Not Allowed`. |
| `GtagRoute.Post` | src/app/gtag/js/route.ts:65-67 | A POST request gets 405, `allow: GET` and `Method POST Not Allowed`. |
| `GtagRoute.Put` | src/app/gtag/js/route.ts:68-70 | A PUT request gets 405, `allow: GET` and `Method PUT Not Allowed`. |
| `GtagRoute.Patch` | src/app/gtag/js/route.ts:71-73 | A PATCH request gets 405, `allow: GET` and `Method PATCH Not Allowed`. |

## Left out

- JSX markup, Tailwind class names and inline style objects: the model keeps only the decisions they encode, in the view tree. Of the React keys, the child key (the entry key) is kept in `ChildView.key`; the index keys of segments and bullet items are dropped.
- `src/components/BackToTopButton.tsx`: a button that calls `window.scrollTo`. It has no logic to state.
- The page `metadata` and the loading of `content.json`: these are build-time framework plumbing. The root section is an input of `Page`.
- The order of `Object.entries` and `Object.values`, where integer-like keys come first: each is an explicit ordered list in `Section`.
- A `section-` key holding `null` or an array passes `typeof value === 'object'`. At render time `null` throws. Such values are not modelled: `Value` is an object read as a section, or a scalar.
- JavaScript strings are sequences of UTF-16 code units. The model works on characters. No character in `\s` is a surrogate, so the partition is the same except for how positions are counted.
- `IsSpace` fixes the current Unicode set of space separators. Later Unicode versions could change what `\s` matches.
- The `fetch` itself, its `revalidate: 3600` hint, the route setting `dynamic = 'force-dynamic'` (which turns off static caching of the route), `async`/`await` and the `console.error` logging: these are network I/O, framework caching and logging. The model replaces them with the `origin` parameter and the `Upstream` outcome.
- The `GA_ID` environment variable and the construction of the upstream URL: these are environment I/O. The upstream is fixed and implicit in `origin`.
- `Headers` matches names case-insensitively. The model's header maps take lower-case names, the form `Headers` normalizes to. `Allow` is therefore stored as `allow`.
- Get: the model's response is the one the handler builds. It does not model the checks the platform's `Response` constructor makes. That constructor throws for a body with a null-body status (204, 205, 304) and for a status outside 200 to 599, and such a throw inside `try` would become the 500 response. It also adds a default `content-type: text/plain;charset=UTF-8` to a string body that has none.
- MethodNotAllowed: `r.headers` is the header map the handler builds. For the same reason as for `Get`, the platform also adds `content-type: text/plain;charset=UTF-8` to the 405 response it sends, and the model does not add it.
- HEAD is served by the framework calling `Get` and sending no body; the model has no separate HEAD handler. OPTIONS and other methods the route does not export are answered by the framework.
