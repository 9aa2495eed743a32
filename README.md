# X.com post scraper — verified model of its naming and branching core

The server takes an X.com URL from a form. It opens the page in a headless
browser and captures the first post element, or the whole page when there is
none. For a post it stores a screenshot and the stripped text under
`static/tweet_screenshots` and `static/tweet_texts`. For the whole page it is
meant to do the same, but as written it stores only the screenshot and then
fails (see "## Findings"). This project models the
decision logic of `scrape_profile` and proves properties of it. That logic is:

- how the identifier is taken from the URL;
- the branch between the post element and the whole page;
- the artefact file names and paths;
- the stripping of the text;
- the intended file writes, in order, and the returned record.

It also models the `intercept_response` observer, which collects the XHR
responses, and the empty-URL guard of `process_url`.

The browser is not modelled. What it returns is an input, `Scraper.Render`:

- `NotRendered`: launching, navigating or waiting for the primary column raised.
- `Rendered(tweet, pageText)`:
  - `tweet` is the text content of the first `[data-testid="tweet"]` element, or `None` when there is no such element.
  - `pageText` is the page's text content, or `None` when reading it raised.

At `server.py:100` the page's text is read with `page.text_content()` and no
argument. The library's `Page.text_content(selector, *, strict, timeout)`
requires `selector`, so this call raises `TypeError` on every run. As written,
the page branch therefore always has `pageText == None`: only the page
screenshot is written, no record is returned, and `process_url` redirects with
the error message (`Scraper.ScrapePageAsWritten`). The docstring at
`server.py:47` says the branch should save all visible text of the page. That
intended behaviour is `pageText == Some(t)`: two files are written and a record
is returned (`Scraper.ScrapePageIntended`).

Modules:

- `Wrappers`: `Option`.
- `PyStr`: Python's `str.split(sep)` and `sep.join`, the last element of a
  split, and `str.strip()`. `strip` is written the way CPython computes it:
  a forward scan to the end of the leading whitespace, a backward scan to the
  start of the trailing whitespace, then the slice between. Whitespace is
  exactly the set of code points for which `str.isspace` holds.
- `PosixPath`: POSIX `os.path.join` for two components, with all three of its branches.
- `Scraper`: the identifier, the artefact naming, `Scrape` (one call of
  `scrape_profile`), the result dictionary and `ProcessUrl`.
- `Xhr`: the XHR filter as a function, and the captured list `_xhr_calls` as a
  class `XhrLog` whose method `Intercept` appends to it in place.

Behaviour of the code worth noting:

- The identifier is exactly the text after the last `/`. For a URL ending in
  `/` it is the empty string, and no placeholder replaces it. The `"unknown"`
  default of `profile_data.get("id", "unknown")` never applies, because the
  dictionary always has the key `"id"`.
- The returned dictionary has no mode field. The mode shows only in the file
  name prefix.
- The page screenshot is `page.screenshot(path=...)` without `full_page`. The
  image content is not modelled in either case.

## Model

| member | source | states |
|---|---|---|
| PyStr.Split | server.py:73 | `url.split('/')` gives at least one piece, and no piece contains the separator |
| PyStr.JoinSplit | server.py:73 | joining the pieces of a split with the separator gives back the original string, so splitting loses nothing |
| PyStr.SplitJoin | server.py:73 | splitting the join of separator-free pieces gives back exactly those pieces, so the split is the unique such decomposition |
| PyStr.LastSegment | server.py:73 | `split(sep)[-1]` contains no separator |
| PyStr.LastSegmentIsSuffix | server.py:73 | the last piece is a suffix of the string; it is the whole string or it follows a separator |
| PyStr.LastSegmentUnique | server.py:73 | for any split of the string into a prefix that is empty or ends in the separator and a separator-free tail, the last piece is that tail |
| PyStr.IsSpace | server.py:86-100 | the whitespace `strip()` removes includes space, tab, newline and carriage return, excludes letters and digits, and lies at or below U+3000 |
| PyStr.SpaceEnd | server.py:86 | the forward scan stops at or after its start, within the string, and on a non-whitespace character unless it reached the end |
| PyStr.SpaceStart | server.py:86 | the backward scan stops between its bound and its start, and the character before its stop is not whitespace unless it reached the bound |
| PyStr.SpaceEndSkipsSpace | server.py:86 | every character the forward scan passes over is whitespace |
| PyStr.SpaceStartSkipsSpace | server.py:86 | every character the backward scan passes over is whitespace |
| PyStr.SpaceEndAt | server.py:86 | a whitespace run from the start that ends at the end of the string or at a non-whitespace character is the one the forward scan finds |
| PyStr.SpaceStartAt | server.py:86 | a whitespace run that starts after the bound at a non-whitespace character, or at the bound, is the one the backward scan finds |
| PyStr.Strip | server.py:86-90 | `strip()` is no longer than its input, and neither end of its result is whitespace |
| PyStr.StripIsSlice | server.py:100 | everything before the forward scan's stop `i` and everything from the backward scan's stop `j` on is whitespace, and `strip()` keeps exactly what lies between |
| PyStr.StripUnique | server.py:86-90 | whitespace, then a string with no whitespace at either end, then whitespace, strips to exactly that middle string |
| PyStr.StripIdempotent | server.py:90 | stripping an already stripped text changes nothing |
| PosixPath.PathJoin | server.py:9-10 | `os.path.join(dir, name)` is `name` alone when `name` starts with `/`, and otherwise the directory part of `dir` followed by `name` |
| PosixPath.DirPrefix | server.py:80 | the directory part put before a relative name is empty or ends in `/`, and is the directory itself or the directory followed by one `/` |
| PosixPath.PathJoinBasename | server.py:80-84 | joining a directory and a slash-free name gives the directory part followed by the name, and the name is the last `/`-segment of the result |
| PosixPath.PathJoinInjective | server.py:96-103 | in one directory, two slash-free names give the same path if and only if they are equal |
| PosixPath.PathJoinRelative | server.py:9-10 | a directory that does not end in `/` and a relative name are joined with exactly one `/` |
| Scraper.TweetId | server.py:73 | the identifier contains no `/` |
| Scraper.TweetIdIsTail | server.py:73 | the URL is a prefix followed by the identifier, the prefix is empty or ends in `/`, and a URL ending in `/` gives the empty identifier |
| Scraper.TweetIdOfStatusUrl | server.py:73 | the identifier of `https://x.com/user/status/12345` is `12345` |
| Scraper.ModeOf | server.py:75 | the post branch is taken exactly when a post element was found |
| Scraper.Prefix | server.py:80-103 | the prefixes `tweet_` and `page_` are slash-free, end in `_`, and differ in their first letter |
| Scraper.ArtifactName | server.py:80-84 | `<prefix><id>.<ext>` is non-empty and does not start with `/`, and it is slash-free whenever the identifier is |
| Scraper.ArtifactNameInjective | server.py:80-103 | two artefact file names are equal if and only if mode, identifier and kind are all equal |
| Scraper.DefaultConfigDirs | server.py:9-10 | the two stores are `os.path.join("static", "tweet_screenshots")` and `os.path.join("static", "tweet_texts")` |
| Scraper.ArtifactPath | server.py:80-103 | an artefact path is its store's directory part followed by the artefact's file name |
| Scraper.ArtifactPathBasename | server.py:80-103 | the base name of an artefact path is the file name `<prefix><id>.<ext>` |
| Scraper.ArtifactPathInjective | server.py:80-103 | for slash-free identifiers, two artefact paths are equal if and only if mode, identifier and kind are equal; post and page artefacts of one identifier never collide |
| Scraper.Scrape | server.py:56-112 | no render means no writes and no record; a record exists exactly when a raw text was obtained; its identifier is the URL's last segment; its text is the stripped raw text; its paths are the artefact paths of the chosen mode; the writes are the screenshot and then the text file with that same text; a failed text read leaves only the page screenshot written |
| Scraper.ScrapeNaming | server.py:73-103 | both paths of a record are their store's directory part followed by `<prefix><id>.png` or `<prefix><id>.txt`, with the same mode and identifier, and those file names are the paths' base names |
| Scraper.ScrapeWrites | server.py:80-112 | a successful call makes exactly two writes to two different paths: the image to the record's screenshot path and the record's text to its text file path; that text has no whitespace at either end |
| Scraper.ScrapePathsOverwriteOrSeparate | server.py:80-103 | two successful runs share a screenshot path, and likewise a text path, if and only if they have the same identifier and took the same branch; a screenshot path is never a text file path |
| Scraper.ScrapePageAsWritten | server.py:94-100 | with no post element, the call at server.py:100 raises, so only `page_<id>.png` is written, no record is returned, and the request redirects with the failure message |
| Scraper.ScrapePageIntended | server.py:94-112 | with no post element and page text `t`, `page_<id>.png` and `page_<id>.txt` are written to two different files, the record's text is `t` stripped, and the result page shows them |
| Scraper.ScrapeTrailingSlash | server.py:73 | a URL ending in `/` gives the empty identifier in the record and the paths named for the empty identifier |
| Scraper.EmptyIdArtifactName | server.py:80 | for the empty identifier the file name is just prefix and extension, such as `tweet_.png` |
| Scraper.ScrapeStatusExample | server.py:73-93 | post text `"  hello world  \n"` at `https://x.com/user/status/12345` gives `static/tweet_screenshots/tweet_12345.png`, `static/tweet_texts/tweet_12345.txt` and the text `"hello world"`, written in that order |
| Scraper.StripOfPaddedText | server.py:86-90 | `"  hello world  \n".strip()` is `"hello world"` |
| Scraper.StatusScreenshotPath | server.py:80 | the screenshot path for post `12345` under the default stores is `static/tweet_screenshots/tweet_12345.png` |
| Scraper.StatusTextPath | server.py:84 | the text path for post `12345` under the default stores is `static/tweet_texts/tweet_12345.txt` |
| Scraper.RecordDict | server.py:88-93 | the returned dictionary has exactly the keys `id`, `text`, `screenshot` and `text_file` |
| Scraper.DictGet | server.py:34 | `d.get(key, default)` is the stored value when the key is present and the default otherwise |
| Scraper.IdLookupNeverDefaults | server.py:34 | `profile_data.get("id", "unknown")` is always the record's identifier, even when that is empty |
| Scraper.ProcessUrl | server.py:24-41 | a missing or empty `profile_url` redirects to the index, with no scrape and no writes; otherwise the scrape's writes happen, and its record is rendered or its failure redirects to the index |
| Xhr.IsXhr | server.py:53 | a response is kept only when its resource type is the three-letter `xhr`; `fetch` responses are not kept |
| Xhr.FilterXhr | server.py:51-54 | the kept responses are no more than those offered, and every kept response is an XHR |
| Xhr.FilterXhrConcat | server.py:51-54 | filtering later responses only appends at the end: the filter of `a + b` is the filter of `a` followed by the filter of `b` |
| Xhr.FilterXhrMembers | server.py:51-54 | a response is kept if and only if it was offered and is an XHR |
| Xhr.XhrLog.constructor | server.py:49 | `_xhr_calls` starts empty, equal to the filter of no responses |
| Xhr.XhrLog.Intercept | server.py:51-54 | offering a response appends it to `_xhr_calls` when its resource type is `"xhr"` and otherwise leaves the list unchanged, so the list stays the in-order filter of all responses offered |

## Findings

| source | as written | input that shows it | evidently intended | confidence | as-written member | corrected member |
|---|---|---|---|---|---|---|
| server.py:100 | `page.text_content()` is called without the required `selector` argument, so it raises `TypeError` after the page screenshot was written | any URL whose page has no `[data-testid="tweet"]` element | read the page's visible text, strip it and save it to `page_<id>.txt`, as the docstring at server.py:47 says | high, not executed | Scraper.ScrapePageAsWritten | Scraper.ScrapePageIntended |

## Left out

- Browser launch, viewport size, navigation, `wait_for_selector`, the fixed 3000 ms wait and the response event dispatch (server.py:56-69). These are foreign calls and real-time timing; their results are the `Render` input and the responses offered to `Intercept`.
- Screenshot pixels and the element versus viewport extent of a capture (server.py:81, 97). A screenshot is modelled as the opaque content `Image`.
- A post element whose text content is null. Then `tweet_text.strip()` at server.py:86 would raise after the screenshot was taken and after `open(text_file_path, "w")` at server.py:85 had created or truncated the text file, leaving it empty. A found element is modelled with its text.
- Real file I/O and `os.makedirs` (server.py:13-14, 85-86, 104-105). Writes are returned as an ordered list of intended `(path, content)` writes. A failing write, and the partial state it leaves, is not modelled.
- The Windows variant of `os.path.join`. Only the POSIX implementation is modelled.
- Flask routing, templates, `flash` message texts, redirects and the download endpoints (server.py:19-21, 114-132). They are HTTP and UI plumbing. `ProcessUrl` only distinguishes the missing-URL redirect, the failure redirect and the result page.
- Scraper.ProcessUrl: does not model the text of the flashed error message built from the exception (server.py:39-41), because exception-to-text conversion belongs to the library.
- The secret key (server.py:17), which is randomness with no logic.
- Concurrent requests racing on the same artefact paths. The model describes one call at a time.
- Any use of the captured XHR responses. `scrape_profile` never reads `_xhr_calls`, so only the list's contents are modelled.
