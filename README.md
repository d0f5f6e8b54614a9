# Cactus pages, modelled in Dafny

Cactus is a static site generator. A *page* is a file under the site's
`pages/` directory, named by its site-relative `source_path`. Building a page
involves four steps:

- **Classification.** The page is classified as HTML-producing, index,
  Markdown or Haml, from its lowercased extension and, for the index flag,
  its extension-less path.
- **Mapping.** The page is given a link URL, a final URL and a build path.
  The last two depend on the site's `prettify_urls` flag.
- **Header parsing.** For HTML-producing pages, a `key: value` front-matter
  header at the top of the text is split from the body.
- **Rendering.** The page is rendered with a context assembled from the
  following, in order of increasing precedence: a page marker, the site
  context, caller-supplied values and the front-matter. The result is then
  written to the build tree unless the page has been discarded.

This project models that core of `cactus/page.py` and proves what it
promises.

| file | module | contents |
|---|---|---|
| `pystr.dfy` | `PyStr` | The Python 2 string operations the core relies on: `lower`, `endswith`, `s[:-n]`, `os.path.splitext`, `strip`, `split`, `join` and `splitlines`, with their edge cases. |
| `resolver.dfy` | `Resolver` | The `EXTENSIONS` table, classification, and the link URL, final URL and build path as pure functions of the source path and the pretty-URL flag. |
| `frontmatter.dfy` | `FrontMatter` | The header parser specified as functions (`Parse`), with its scan, override and body rules. |
| `context.dfy` | `PageContext` | Context values and the merge order of the page context. |
| `page.dfy` | `Pages` | The `Page` class. |

In the `Page` class:

- The constructor fixes the derived fields in the source's default-then-overwrite order.
- The `is_*` accessors read those fields.
- `ParseContext` is proved equal to `Parse`. Its `for` loop with `continue`/`break` is the method `ScanHeader`.
- `Context` does the successive updates and is proved equal to `Merge`.
- `Render` and `Build` work over an abstract build tree (a map from build path to output) and a log of plugin-hook calls.

The model follows the code on these points, which are easy to misread:

- **Merge order.** The context is the page marker, then the site context,
  then `extra`, then the front-matter. Front-matter therefore beats `extra`.
- **Skipped lines.** Only truly empty lines are skipped by the header scan.
  A line made of spaces has no `:`, so it ends the header.
- **Body when no line stops the scan.** The body is joined from the loop
  index where the loop ended. When no line stops the scan, that index is
  the last line, so the body is the last line alone, even when that line
  is also a header line.
- **Prettified paths.** They chop exactly 5 characters (`len('.html')`)
  whatever the actual extension is, and index URLs chop exactly 10
  (`len('index.html')`). So `about.md` is served at `/abo/`, and `a.md`
  gets the absolute build path `/index.html`. Any page-extension path whose
  extension-less lowercase form ends in `index` is an index page,
  `myindex.html` included; `index.css` is not.

## Model

| member | source | states |
|---|---|---|
| Resolver.Classify | cactus/page.py:14-43 | The extension table (lines 14-18) applied to the lowercased path (lines 39-43): index, Markdown and Haml pages are all HTML-producing, and no page is both Markdown and Haml. |
| Resolver.Urls | cactus/page.py:31-53 | The link URL is `/` followed by the source path, and the kind is kept. Without pretty URLs or for a non-HTML page the defaults stand. A pretty index page keeps its build path, and its final URL is a prefix of the link URL. A pretty non-index page gets a final URL ending in `/` and a build path ending in `/index.html`. The exact equations of the three branches are `PlainMapping`, `PrettyPage` and `PrettyIndex`. |
| Resolver.Resolve | cactus/page.py:24-53 | The link URL is `/` followed by the source path, and the kind is the classification of that path. A page is built away from its source path only with pretty URLs and only when it is a non-index HTML page, and then at a path ending in `/index.html`. Without pretty URLs, the final URL is the link URL and the build path is the source path. |
| Resolver.LinkUrlIsRootedSourcePath | cactus/page.py:31 | The link URL is always `/` followed by the source path. Classification does not depend on the pretty-URL flag. |
| Resolver.PlainMapping | cactus/page.py:31-37 | Without pretty URLs, or for a page that does not produce HTML, the final URL is the link URL and the build path is the source path. |
| Resolver.PrettyPage | cactus/page.py:49-53 | With pretty URLs, a non-index HTML page loses exactly five trailing characters. The final URL gets a `/`, and the page is built as `index.html` in that directory. Both forms are stated: the clamped slice, and the plain prefix when the path has at least five characters. |
| Resolver.PrettyIndex | cactus/page.py:47-48 | With pretty URLs, an index page keeps its build path. Its final URL is the link URL minus ten characters, and adding `index.html` back restores the link URL when the path ends that way. |
| Resolver.ClassifyIgnoresCase | cactus/page.py:39 | A path and its lowercase form are classified alike, so `A.HTML` is an HTML page. |
| Resolver.UpperCaseHtmlPage | cactus/page.py:39-41 | `A.HTML` is an HTML page, and not an index page. |
| Resolver.MyIndexIsIndexPage | cactus/page.py:39-41 | `myindex.html` is an index page and an HTML page, although its name is not `index`. |
| Resolver.IndexBySuffix | cactus/page.py:41 | Every page whose lowercased extension-less path ends in `index` is an index page and an HTML page. |
| Resolver.FinalUrlServesBuildPath | cactus/page.py:45-53 | Under the directory-index convention, the final URL reaches the built file: always without pretty URLs or for a non-HTML page, for every pretty non-index page of at least five characters whatever its extension, and for a pretty index page whose link URL ends in `/index.html`. |
| Resolver.ServedIndex | cactus/page.py:47-48 | A pretty index page is served from its build path exactly when its link URL ends in `/index.html`; `myindex.html` and `blog/index.md` are not. |
| Resolver.ServedPage | cactus/page.py:49-53 | A pretty non-index page of at least five characters is served from its build path, `.md` pages included. |
| Resolver.IndexSliceQuirk | cactus/page.py:47-48 | The index slice cuts ten characters whatever precedes `index`: `myindex.html` gets the final URL `/my` and `blog/index.md` gets `/blo`. |
| Resolver.MarkdownLosesTwoStemCharacters | cactus/page.py:50-53 | A pretty `<stem>.md` page loses the last two characters of its stem, in both its URL and its build path. |
| Resolver.ShortPageBuildsAtRoot | cactus/page.py:50-53 | A pretty non-index page with a path shorter than five characters gets the final URL `/` and the absolute build path `/index.html`. That URL no longer reaches that file. |
| Resolver.ShortMarkdownPage | cactus/page.py:39-53 | Concretely for `a.md`: it is Markdown, its final URL is `/` and its build path is `/index.html`. |
| Resolver.DotFileIsNotAPage | cactus/page.py:39-40 | A leading-dot name such as `.htaccess` has no extension, so it is never a page, at the site root or in any directory. |
| Resolver.HiddenNameHasNoExtension | cactus/page.py:39 | A last path component made of a dot and a name without dots has no extension, whether or not the path has a directory part. |
| Resolver.HiddenNameIsNotAPage | cactus/page.py:39-40 | Such a component after an empty prefix or one ending in `/` never gives a page. |
| Resolver.SplitExtOfName | cactus/page.py:39 | A single file name that does not start with a dot is split at its last dot. |
| PyStr.SplitExt | cactus/page.py:39 | The stem and the extension concatenate back to the path. |
| PyStr.SplitExtShape | cactus/page.py:39 | A non-empty extension is one dot, then neither dots nor `/`. |
| PyStr.SplitExtHasExtension | cactus/page.py:39 | An extension exists exactly when the last component has a dot preceded by a non-dot character within that component. |
| PyStr.Lower | cactus/page.py:39 | Lowercasing keeps the length and lowercases each ASCII capital in place. |
| PyStr.LowerIdempotent | cactus/page.py:39 | Lowercasing twice is lowercasing once. |
| PyStr.LowerKeepsLowercase | cactus/page.py:39 | A string without ASCII capitals is its own lowercase form. |
| PyStr.EndsWith | cactus/page.py:41 | A string that ends with `suffix` is its own prefix followed by `suffix`. |
| PyStr.EndsWithAppended | cactus/page.py:41 | Every string ends with what is appended to it. |
| PyStr.ChopRight | cactus/page.py:48-52 | `s[:-n]` has `n` fewer characters, or is empty when `s` is shorter than `n`, and is always a prefix of `s`. |
| Pages.Page.constructor | cactus/page.py:24-53 | The constructed page has its site and source path, the fields `Resolve` gives, and is not discarded. |
| Pages.Page.IsHtml | cactus/page.py:55-59 | True exactly when the lowercased extension is in the page-extension list. |
| Pages.Page.IsIndex | cactus/page.py:61-62 | True exactly when the page is HTML-producing and its lowercased stem ends in `index`. |
| Pages.Page.IsMarkdown | cactus/page.py:64-65 | True exactly for a Markdown extension. Implies `IsHtml`. |
| Pages.Page.IsHaml | cactus/page.py:67-68 | True exactly for a Haml extension. Implies `IsHtml`. |
| Pages.Page.ParseContext | cactus/page.py:158-188 | Returns exactly `Parse(isHtml, data)`: the header and the body. |
| Pages.Page.ScanHeader | cactus/page.py:176-186 | The `for` loop returns the header collected from the lines before the first stopping line. It also returns the final loop index: the stopping line, or the last line when none stops the scan. |
| FrontMatter.StopIndex | cactus/page.py:176-186 | The scan stops at the first non-empty line without `:`. Every earlier line is empty or holds a `:`. |
| FrontMatter.Key | cactus/page.py:182-183 | A key has no surrounding whitespace and never contains `:`. A line without `:` is its own stripped key. `KeyValueSplitAtFirstColon` gives the exact split. |
| FrontMatter.Value | cactus/page.py:182-183 | A value has no surrounding whitespace, and a line without `:` has an empty value. `KeyValueSplitAtFirstColon` gives the exact split. |
| FrontMatter.Collect | cactus/page.py:176-183 | Every key of the header is stripped and free of `:`, and every value is stripped. Which keys it holds, and with which values, is stated by `CollectKeysFromLines`, `CollectKeepsEveryKey` and `CollectLastWins`. |
| FrontMatter.Parse | cactus/page.py:168-188 | Only an HTML page with non-empty data can have a header. Every header key is stripped and free of `:`, and every value is stripped. `ParseTrivialCases`, `ParseStopped`, `BodyIsRestOfText` and `UnstoppedBodyIsLastLine` state its result case by case. |
| FrontMatter.KeyValueSplitAtFirstColon | cactus/page.py:181-183 | A header line maps the stripped text before its first `:` to the stripped rest of the line, with later colons kept in the value. |
| FrontMatter.HeaderLineRoundTrip | cactus/page.py:181-183 | A line written as `key: value` reads back as that key and value when the key has no `:` and neither has surrounding whitespace. |
| FrontMatter.CollectKeysFromLines | cactus/page.py:176-183 | Every key in the header comes from some header line. |
| FrontMatter.CollectKeepsEveryKey | cactus/page.py:176-183 | Every header line puts its key in the header. |
| FrontMatter.CollectLastWins | cactus/page.py:181-183 | A duplicate key takes the value of its last line. |
| FrontMatter.ParseTrivialCases | cactus/page.py:168-174 | A non-HTML page gives an empty header and its data unchanged. An HTML page with empty data gives an empty header and an empty body. |
| FrontMatter.ScanStopsAtFirstPlainLine | cactus/page.py:176-188 | For header lines followed by a stopping line: the header comes only from the lines before it, and the body starts at it. |
| FrontMatter.ParseStopped | cactus/page.py:176-188 | When the lines are header lines, a stopping line and more, the result is the header of the first part and the join of the rest. |
| FrontMatter.BodyIsRestOfText | cactus/page.py:172-188 | When a line stops the scan, the header lines, a newline and the body rebuild the text, except for the one final newline that is dropped. |
| FrontMatter.UnstoppedBodyIsLastLine | cactus/page.py:176-188 | When no line stops the scan, the body is the last line. If that line holds a `:`, it is in the header as well. |
| FrontMatter.PlainLineEndsHeader | cactus/page.py:176-188 | `key: value`, a plain line and a last line give a one-entry header, with the last two lines as the body. |
| FrontMatter.PlainLineExample | cactus/page.py:176-188 | `"a: 1\nline\nb: 2"` gives the header `{a: "1"}` and the body `"line\nb: 2"`. |
| FrontMatter.EmptyLineIsSkipped | cactus/page.py:176-188 | Two header lines, an empty line and a plain line give both entries (the second wins on an equal key), with the plain line as the body. |
| PyStr.Strip | cactus/page.py:183 | The result neither starts nor ends with whitespace, and it sits in the input with only whitespace around it. |
| PyStr.StripUnchanged | cactus/page.py:183 | Stripping leaves an already-stripped string unchanged. |
| PyStr.StripKeepsOut | cactus/page.py:183 | Stripping a string never brings in a character it did not have. |
| PyStr.SplitOn | cactus/page.py:182 | Splitting gives at least one piece, and the first piece is the text before the first separator. |
| PyStr.SplitOnPiecesFree | cactus/page.py:182 | No piece of a split contains the separator. |
| PyStr.JoinSplitOn | cactus/page.py:182-183 | Joining the pieces of a split with the separator gives the string back. |
| PyStr.SplitOnJoin | cactus/page.py:182-183 | Splitting a join of separator-free pieces gives the pieces back. |
| PyStr.Join | cactus/page.py:183-188 | A join starts with its first piece, followed by the separator when more pieces come. `JoinSplitOn`, `SplitOnJoin` and `JoinEndsWithLast` relate it to splitting and to its last piece. |
| PyStr.JoinEndsWithLast | cactus/page.py:183-188 | A join of a non-empty list ends with its last piece. |
| PyStr.JoinTailAfterFirst | cactus/page.py:182-183 | The pieces after the first, joined back, are the string after the first separator. |
| PyStr.SplitLines | cactus/page.py:172-174 | No line contains a newline, and there are no lines exactly when the text is empty. |
| PyStr.JoinSplitLines | cactus/page.py:172-188 | Joining the lines with newlines restores the text, except for a dropped final newline. |
| PyStr.SplitLinesOfJoin | cactus/page.py:172-188 | Lines without newlines, the last one non-empty, joined and split again, are unchanged. |
| PageContext.AsValues | cactus/page.py:112 | The front-matter as context values has the same keys, and every value is that key's string. |
| PageContext.Update | cactus/page.py:110-112 | `update` keeps the keys of both maps. The new map decides its own keys, and the old one decides the rest. |
| PageContext.Merge | cactus/page.py:106-112 | The merged context has exactly the keys of the marker, the site context, `extra` and the front-matter, and every front-matter key has its front-matter value. `MergePrecedence` gives the full order. |
| PageContext.MergePrecedence | cactus/page.py:106-112 | The merged context has exactly the keys of its four sources. Front-matter beats `extra`, which beats the site context, which beats the page marker. |
| PageContext.ExtraNeverBeatsHeader | cactus/page.py:103-112 | `extra` never changes a front-matter key, and the `None` default (an empty `extra`) changes nothing. |
| Pages.Page.Context | cactus/page.py:99-114 | The successive updates give exactly `Merge` of the marker, the site context, `extra` and the parsed header. |
| Pages.Page.Rendering | cactus/page.py:116-135 | Binary data renders to the same bytes, and text always renders to text. `Render` is proved to return it. |
| Pages.Page.Render | cactus/page.py:116-135 | Binary data is returned unchanged, with no hook call. Text is rendered from what the pre-build hook returns, and the call is logged. The build tree's files are unchanged. |
| Pages.Page.Discard | cactus/page.py:22 | After the call, the page is discarded. |
| Pages.Page.Build | cactus/page.py:137-156 | Rendering always happens. A discarded page writes nothing and makes no post-build call. Otherwise the rendering replaces the file at the build path and the post-build hook is called once, after the pre-build hook. |

## Left out

- Reading and decoding the source file in `data()` (cactus/page.py:85-97) is
  file I/O: the model takes its outcome as a `Source` parameter, either text or
  undecodable bytes. A missing or unreadable file is not modelled.
- The `data or self.data()` fallback (cactus/page.py:108) re-reads the file:
  `Context` is always given the data.
- Django's `Template(...).render` and `Context` (cactus/page.py:114, 135) are
  an external template engine: rendering is a function parameter from body and
  context to text.
- The plugin hooks (cactus/page.py:132-133, 156) are foreign code: the
  pre-build hook is a pure function on the site, and both hooks are recorded
  in a call log; a hook that mutates the page (for instance one that discards
  it) is not modelled.
- `absolute_final_url` via `urljoin` and `full_source_path` /
  `full_build_path` via `os.path.join` (cactus/page.py:70-83) are library
  path and URL joins; the build tree is keyed by the site-relative build path.
- Directory creation in `build()` (cactus/page.py:146-150) and the UTF-8
  encoding of text output (cactus/page.py:152-154) are I/O; the tree stores
  text or bytes as produced.
- The mixins `PageCompatibilityLayer` and `ResourceURLHelperMixin`
  (cactus/page.py:6-7, 20), logging and `__repr__` are not part of this model.
- The `splitChar` parameter of `parse_context` (cactus/page.py:158) is fixed
  to its default `':'`, which both calls in cactus/page.py (lines 108 and 130)
  use; `Parse` and `ParseContext` take no other separator.
- PyStr.SplitExt: only the POSIX `os.path.splitext` is modelled, with `/` as
  the one path separator; on Windows `\` also separates path components.
- PyStr.Lower: only ASCII capitals are lowered, as for a Python 2 byte string;
  Unicode case mapping is not modelled.
- PyStr.Strip: removes the six ASCII whitespace characters only; Unicode
  whitespace is not modelled.
- PyStr.SplitLines: only `'\n'` ends a line; `'\r'`, `'\r\n'` and the other
  boundaries of Python's `splitlines` are not modelled.
- Context values other than the page marker and front-matter strings are
  opaque objects known by an identifier.
