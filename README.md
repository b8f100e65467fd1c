# Portfolio home page: thumbnail URLs and build-time video enrichment

This project models the small piece of data logic in the home page of a personal
portfolio site (`pages/index.tsx`), written in Dafny and proved:

- the **thumbnail loader** handed to the image component for each recent video: it fills
  the video's thumbnail URL template, replacing the first `%{width}` with
  `min(width, 1920)` and then the first `%{height}` with `min(ceil(width / 16 * 9), 1080)`,
  the height being computed from the unclamped width;
- the **build-time placeholder URL**: the same first-occurrence substitution with 720 and 480;
- the **enrichment loop** of the static-props step: for each fetched video, in order, derive a
  blurred placeholder image from its 720x480 thumbnail and append a copy of the video carrying it;
- the **project defaulting** `data.projects ?? []`, and the failure when the query returned no data.

Files:

- `wrappers.dfy` (module `Wrappers`): `Option` for absent JSON fields, `Result` for a failed build.
- `strings.dfy` (module `Strings`): `String.prototype.replace` with a string pattern
  (`ReplaceFirst`, specified against first occurrences, `FirstAt`), and the decimal rendering of
  a non-negative integer below 10^21 in a template literal (`NatToString`, with its inverse `DecimalValue`).
- `home.dfy` (module `Home`): the `Video` and `Project` records, `Loader`, `PlaceholderUrl`,
  the loop `EnrichVideos`, `ProjectsOrEmpty` and the build step `GetStaticProps`.

Record fields are written in camelCase (`thumbnailUrl` for `thumbnail_url`, `blurredThumbnail`
for `blurred_thumbnail`, `videoType` for `type`, `name` for a project's `label`; `type` and
`label` are Dafny keywords).

Modelling decisions:

- The blurring library call is the function parameter `blur: string -> string`, from the
  720x480 image URL to its base64 preview; nothing is assumed about it.
- The project query's result is the parameter `data: Option<ProjectsData>`: `None` when the
  query resolved without data, in which case reading `data.projects` throws and the build
  fails (`NoQueryData`). The fetched video list is the parameter `fetched`.
- The requested width is a `nat`: the image component calls a custom loader only with positive
  integer widths from its size lists. For such widths the source's floating-point
  `Math.ceil((width / 16) * 9)` is exact: division by 16 is exact, the product is exact for every
  width up to 1920, and beyond that the result is clamped to 1080 whatever the rounding. So
  the height is the integer ceiling `(9 * width + 15) / 16`.
- The project query is issued first (`pages/index.tsx:234-236`), before the token exchange and
  the video listing (`pages/index.tsx:239-247`).
- The video listing sends `first: 4` (`pages/index.tsx:244`) but never checks how many videos
  come back; the loop handles a list of any length.
- The blurred thumbnail is whatever the blurring call returns (`pages/index.tsx:252`, `:260`);
  nothing makes it non-empty.

## Model

| member | source | states |
|---|---|---|
| `Strings.IndexOf` | pages/index.tsx:184-189 | the index found is where the first occurrence of the pattern starts; none is found exactly when the pattern occurs nowhere (an empty pattern is found at 0) |
| `Strings.ReplaceFirst` | pages/index.tsx:184-189 | `replace` with a string pattern: a string without the pattern is returned unchanged; otherwise the result is the part before the first occurrence, the replacement, and the part after that occurrence |
| `Strings.LaterOccurrenceKept` | pages/index.tsx:184-189 | only the first occurrence is replaced: with the first occurrence right after a prefix, every occurrence in the rest of the string survives, shifted by the length of the replacement |
| `Strings.NatToString` | pages/index.tsx:185 | `${n}` renders a non-negative integer below 10^21 (here at most 1920, or 1080 for the height) as a non-empty string of decimal digits with no leading zero except for 0 |
| `Strings.DecimalRoundTrip` | pages/index.tsx:185 | reading the rendered digits back as a decimal number gives the integer rendered |
| `Home.ClampedWidth` | pages/index.tsx:185 | `Math.min(width, 1920)`: at most 1920 and at most the width, and equal to one of them |
| `Home.ScaledHeight` | pages/index.tsx:188 | `Math.ceil((width / 16) * 9)`: the least integer `h` with `16 * h >= 9 * width` |
| `Home.ClampedHeight` | pages/index.tsx:186-189 | the height is at most 1080 and at most the unclamped scaled height, and equal to one of them |
| `Home.CapsAgree` | pages/index.tsx:185-188 | the scaled height exceeds 1080 exactly when the width exceeds 1920; up to 1920 the width is kept and the height is the exact 16:9 ceiling; above it the result is 1920 by 1080 |
| `Home.Substitute` | pages/index.tsx:184-189 | the two chained `replace` calls (also at lines 253-255); a template containing neither placeholder comes back unchanged; where each text lands is stated by SubstituteShape, SubstituteShapeHeightFirst, SubstituteWidthOnly and SubstituteHeightOnly, and for an arbitrary template by the four lemmas ending in `At` below |
| `Home.SubstituteShape` | pages/index.tsx:184-189 | for a template whose first `%{width}` precedes its first `%{height}`, the width text replaces the first `%{width}` and the height text the first `%{height}`, and every other character, later placeholders included, is kept |
| `Home.SubstituteShapeHeightFirst` | pages/index.tsx:184-189 | for a template whose first `%{height}` precedes its first `%{width}`, each text still replaces the first placeholder of its kind and everything else is kept |
| `Home.SubstituteWidthOnly` | pages/index.tsx:184-189 | a template with a `%{width}` but no `%{height}` gets the width text in place of its first `%{width}` and nothing else changes |
| `Home.SubstituteHeightOnly` | pages/index.tsx:184-189 | a template with a `%{height}` but no `%{width}` gets the height text in place of its first `%{height}` and nothing else changes |
| `Home.SubstituteWidthFirstAt` | pages/index.tsx:184-189 | for any template whose first `%{width}` is at `i` and first `%{height}` at a later `j`, the two do not overlap (`j >= i + 8`) and substitution gives the text before `i`, the width text, the text between the placeholders, the height text and the rest after the first `%{height}` |
| `Home.SubstituteHeightFirstAt` | pages/index.tsx:184-189 | for any template whose first `%{height}` is at `j` and first `%{width}` at a later `i`, the two do not overlap (`i >= j + 9`) and each text replaces the first placeholder of its kind, everything else kept |
| `Home.SubstituteWidthOnlyAt` | pages/index.tsx:184-189 | for any template with its first `%{width}` at `i` and no `%{height}`, substitution replaces exactly the eight characters at `i` by the width text |
| `Home.SubstituteHeightOnlyAt` | pages/index.tsx:184-189 | for any template with its first `%{height}` at `j` and no `%{width}`, substitution replaces exactly the nine characters at `j` by the height text |
| `Home.Loader` | pages/index.tsx:183-190 | the loader of one video: its thumbnail template filled for the requested width; a template without placeholders is returned as it is; the values and where they go are stated by LoaderFills and LoaderFillsHeightFirst (and SubstituteWidthOnly / SubstituteHeightOnly, or SubstituteWidthOnlyAt / SubstituteHeightOnlyAt, for one placeholder) |
| `Home.LoaderFills` | pages/index.tsx:183-190 | for a template whose first `%{width}` precedes its first `%{height}`, the loader writes the decimal of `min(width, 1920)` in place of the first `%{width}` and the decimal of `min(ceil(9 * width / 16), 1080)` in place of the first `%{height}`; the numbers written are at most 1920 and 1080 |
| `Home.LoaderFillsHeightFirst` | pages/index.tsx:183-190 | for a template whose first `%{height}` precedes its first `%{width}`, the loader writes the same two decimals, each in place of the first placeholder of its kind |
| `Home.PlaceholderUrl` | pages/index.tsx:253-255 | the 720x480 URL of a thumbnail template; a template without placeholders is returned as it is; where 720 and 480 go is stated by PlaceholderUrlFills and PlaceholderUrlFillsHeightFirst (and SubstituteWidthOnly / SubstituteHeightOnly for one placeholder) |
| `Home.PlaceholderUrlFills` | pages/index.tsx:253-255 | for a template whose first `%{width}` precedes its first `%{height}`, the placeholder URL is the template with its first `%{width}` replaced by "720" and its first `%{height}` replaced by "480" |
| `Home.PlaceholderUrlFillsHeightFirst` | pages/index.tsx:253-255 | for a template whose first `%{height}` precedes its first `%{width}`, "480" replaces the first `%{height}` and "720" the first `%{width}` |
| `Home.PlaceholderUrlExample` | pages/index.tsx:253-255 | the template `t-%{width}-%{height}.jpg`, given as its pieces around the two placeholders, becomes exactly `t-720-480.jpg` |
| `Home.EnrichVideos` | pages/index.tsx:249-262 | the output has one video per input video, in the same order; each equals its input on every field except the blurred thumbnail, which is set to the blur of that video's 720x480 URL, replacing any earlier value |
| `Home.ProjectsOrEmpty` | pages/index.tsx:266 | `data.projects ?? []`: the fetched list when present, the empty list when absent |
| `Home.GetStaticProps` | pages/index.tsx:230-271 | the build succeeds exactly when the query returned data (otherwise it fails reading `projects`); on success the props hold the defaulted projects and the enriched videos, in order, and revalidation is every 3600 seconds |

## Left out

- The token exchange and the authenticated HTTP client (`lib/twitch.ts`): network calls and environment credentials; the fetched videos are a parameter.
- The GraphQL project query over the network: only its optional result is modelled.
- The blurring library call (image fetch, decoding, base64 encoding): an uninterpreted function parameter.
- Relative-time formatting of the publication date and all page markup, dark-mode toggling and the embedded player script: presentation through foreign libraries and the clock.
- `pages/_app.tsx` and `pages/_document.tsx`: framework boilerplate with no logic.
- Asynchronous sequencing and the propagation of network and JSON-shape errors other than absent query data: the loop is a plain sequential loop.
- Strings.ReplaceFirst: does not model the special `$` patterns (`$&`, `$$`, ...) that `replace` interprets in a replacement string, because every replacement on this page is a decimal number.
- Home.Loader: negative or non-integer widths, which the image component never requests, are not modelled.
- Strings.NatToString: writes every `nat` in full, whereas JavaScript writes a Number of 10^21 or more in exponent notation (`1e+21`) and cannot hold every integer above 2^53 exactly; the page only renders values up to 1920, where the two agree.
- Strings: JavaScript strings are sequences of UTF-16 code units, Dafny's `string` a sequence of Unicode scalar values; for the ASCII placeholders and digit replacements used here the results agree, but a lone surrogate in a template cannot be represented.
