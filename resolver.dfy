/** How a page's source path is classified and mapped to its link URL, final
    URL and build path (the pure part of the `Page` constructor). */
module Resolver {
  import opened PyStr

  /** The `EXTENSIONS` table: extensions are compared after lowercasing. */
  const HtmlExtensions: seq<string> := [".html"]
  const MarkdownExtensions: seq<string> := [".md", ".mdown", ".markdown"]
  const HamlExtensions: seq<string> := [".haml"]
  const PageExtensions: seq<string> := HtmlExtensions + MarkdownExtensions + HamlExtensions

  /** The four type flags of a page. */
  datatype Kind = Kind(html: bool, index: bool, markdown: bool, haml: bool)

  /** What the constructor derives from the source path. */
  datatype Resolution = Resolution(linkUrl: string, finalUrl: string, buildPath: string, kind: Kind)

  /** Classification works on the lowercased path: a page is HTML-producing
      when its extension is a page extension, and an index when in addition
      its extension-less path ends in `index`. Markdown and Haml pages are
      HTML-producing, and no page is both. */
  function Classify(sourcePath: string): (k: Kind)
    ensures k.index ==> k.html
    ensures k.markdown ==> k.html
    ensures k.haml ==> k.html
    ensures !(k.markdown && k.haml)
  {
    var (path, ext) := SplitExt(Lower(sourcePath));
    var html := ext in PageExtensions;
    Kind(html, EndsWith(path, "index") && html, ext in MarkdownExtensions, ext in HamlExtensions)
  }

  /** The URLs and build path of a page of the given kind at `sourcePath` on
      a site whose pretty-URL flag is `prettify`. The slices chop a fixed 10
      characters (`len('index.html')`) or 5 characters (`len('.html')`)
      whatever the actual extension is. */
  function Urls(sourcePath: string, kind: Kind, prettify: bool): (r: Resolution)
    ensures r.linkUrl == "/" + sourcePath && r.kind == kind
    ensures !(prettify && kind.html) ==> r.finalUrl == r.linkUrl && r.buildPath == sourcePath
    ensures prettify && kind.html && kind.index ==> r.finalUrl <= r.linkUrl && r.buildPath == sourcePath
    ensures prettify && kind.html && !kind.index ==>
      EndsWith(r.finalUrl, "/") && EndsWith(r.buildPath, "/index.html")
  {
    var linkUrl := "/" + sourcePath;
    if prettify && kind.html then
      if kind.index then
        Resolution(linkUrl, ChopRight(linkUrl, 10), sourcePath, kind)
      else
        EndsWithAppended(ChopRight(linkUrl, 5), "/");
        EndsWithAppended(ChopRight(sourcePath, 5) + "/", "index.html");
        EndsWithAppended(ChopRight(sourcePath, 5), "/index.html");
        assert ChopRight(sourcePath, 5) + "/" + "index.html" == ChopRight(sourcePath, 5) + "/index.html";
        Resolution(linkUrl, ChopRight(linkUrl, 5) + "/", ChopRight(sourcePath, 5) + "/" + "index.html", kind)
    else
      Resolution(linkUrl, linkUrl, sourcePath, kind)
  }

  /** Everything the constructor derives from the source path. Only a
      pretty non-index HTML page is built away from its source path, and then
      as a directory's `index.html`; without pretty URLs every page keeps the
      one-to-one mapping. */
  function Resolve(sourcePath: string, prettify: bool): (r: Resolution)
    ensures r.linkUrl == "/" + sourcePath && r.kind == Classify(sourcePath)
    ensures r.buildPath != sourcePath ==>
      prettify && r.kind.html && !r.kind.index && EndsWith(r.buildPath, "/index.html")
    ensures !prettify ==> r.finalUrl == r.linkUrl && r.buildPath == sourcePath
  {
    Urls(sourcePath, Classify(sourcePath), prettify)
  }

  /** The link URL is always the source path under `/`, and neither it nor the
      classification depends on the pretty-URL flag. */
  lemma LinkUrlIsRootedSourcePath(sourcePath: string, prettify: bool)
    ensures Resolve(sourcePath, prettify).linkUrl == "/" + sourcePath
    ensures Resolve(sourcePath, prettify).kind == Classify(sourcePath)
    ensures Resolve(sourcePath, prettify).kind == Resolve(sourcePath, !prettify).kind
  {
  }

  /** Without pretty URLs, or for a page that does not produce HTML, the
      mapping is one to one: the final URL is the link URL and the page is
      built where its source lies. */
  lemma PlainMapping(sourcePath: string, kind: Kind, prettify: bool)
    requires !prettify || !kind.html
    ensures Urls(sourcePath, kind, prettify).finalUrl == "/" + sourcePath
    ensures Urls(sourcePath, kind, prettify).buildPath == sourcePath
  {
  }

  /** A pretty non-index page loses its last five characters in both the URL
      and the build path; the URL gets a trailing `/` and the page is built
      as `index.html` in a directory of that name. */
  lemma PrettyPage(sourcePath: string, kind: Kind)
    requires kind.html && !kind.index
    ensures var r := Urls(sourcePath, kind, true);
      r.finalUrl == ChopRight(r.linkUrl, 5) + "/" &&
      r.buildPath == ChopRight(sourcePath, 5) + "/" + "index.html"
    ensures |sourcePath| >= 5 ==>
      var r := Urls(sourcePath, kind, true);
      r.finalUrl == "/" + sourcePath[..|sourcePath| - 5] + "/" &&
      r.buildPath == sourcePath[..|sourcePath| - 5] + "/" + "index.html"
  {
    var link := "/" + sourcePath;
    if |sourcePath| >= 5 {
      assert link[..|link| - 5] == "/" + sourcePath[..|sourcePath| - 5];
    }
  }

  /** A pretty index page keeps its build path, and its final URL is the link
      URL without its last ten characters, which are `index.html` when the
      path ends that way. */
  lemma PrettyIndex(sourcePath: string, kind: Kind)
    requires kind.html && kind.index
    ensures var r := Urls(sourcePath, kind, true);
      r.finalUrl == ChopRight(r.linkUrl, 10) && r.buildPath == sourcePath
    ensures EndsWith(sourcePath, "index.html") ==>
      Urls(sourcePath, kind, true).finalUrl + "index.html" == "/" + sourcePath
  {
    var link := "/" + sourcePath;
    if EndsWith(sourcePath, "index.html") {
      assert link[|link| - 10..] == sourcePath[|sourcePath| - 10..];
      assert link[..|link| - 10] + link[|link| - 10..] == link;
    }
  }

  /** Letter case does not matter: a path and its lowercase form are
      classified alike, so `A.HTML` is an HTML page. */
  lemma {:induction false} ClassifyIgnoresCase(sourcePath: string)
    ensures Classify(sourcePath) == Classify(Lower(sourcePath))
  {
    LowerIdempotent(sourcePath);
  }

  /** Any page whose lowercased extension-less path ends in `index` is an
      index page, `myindex.html` included. */
  lemma IndexBySuffix(sourcePath: string, stem: string, ext: string)
    requires ext in PageExtensions
    requires SplitExt(Lower(sourcePath)) == (stem, ext)
    requires EndsWith(stem, "index")
    ensures Classify(sourcePath).index && Classify(sourcePath).html
  {
  }

  /** The file a directory-index web server serves for `url`. */
  function ServedFile(url: string): string {
    if url != [] && url[|url| - 1] == '/' then url + "index.html" else url
  }

  /** The final URL reaches the built file under the directory-index
      convention, provided the page is named the way the slices assume: a
      pretty non-index page has at least five characters and a pretty index
      page is `index.html` itself or one inside a directory. */
  lemma {:induction false} FinalUrlServesBuildPath(sourcePath: string, kind: Kind, prettify: bool)
    requires sourcePath != [] && sourcePath[|sourcePath| - 1] != '/'
    requires prettify && kind.html && !kind.index ==> |sourcePath| >= 5
    requires prettify && kind.html && kind.index ==> EndsWith("/" + sourcePath, "/index.html")
    ensures var r := Urls(sourcePath, kind, prettify);
      ServedFile(r.finalUrl) == "/" + r.buildPath
  {
    if prettify && kind.html {
      if kind.index {
        ServedIndex(sourcePath, kind);
      } else {
        ServedPage(sourcePath, kind);
      }
    }
  }

  /** A pretty index page is served from its build path exactly when its
      link URL ends in `/index.html`; any other index page (`myindex.html`,
      `blog/index.md`) gets a final URL that does not lead to its own built
      file. */
  lemma ServedIndex(sourcePath: string, kind: Kind)
    requires kind.html && kind.index
    ensures var r := Urls(sourcePath, kind, true);
      ServedFile(r.finalUrl) == "/" + r.buildPath <==> EndsWith("/" + sourcePath, "/index.html")
  {
    if EndsWith("/" + sourcePath, "/index.html") {
      ServedDirectoryIndex(sourcePath, kind);
    }
    if ServedFile(Urls(sourcePath, kind, true).finalUrl) == "/" + sourcePath {
      ServedOnlyDirectoryIndex(sourcePath, kind);
    }
  }

  lemma ServedDirectoryIndex(sourcePath: string, kind: Kind)
    requires kind.html && kind.index
    requires EndsWith("/" + sourcePath, "/index.html")
    ensures ServedFile(Urls(sourcePath, kind, true).finalUrl) == "/" + sourcePath
  {
    var link := "/" + sourcePath;
    assert Urls(sourcePath, kind, true).finalUrl == ChopRight(link, 10);
    DirectoryIndexUrl(link);
  }

  /** Chopping `index.html` off a URL ending in `/index.html` leaves a
      directory URL whose index file is that URL again. */
  lemma DirectoryIndexUrl(link: string)
    requires EndsWith(link, "/index.html")
    ensures ServedFile(ChopRight(link, 10)) == link
  {
    var dir := link[..|link| - 11];
    assert link == dir + "/index.html";
    var u := ChopRight(link, 10);
    assert u == link[..|link| - 10];
    assert u == dir + "/";
    assert ServedFile(u) == u + "index.html";
    assert u + "index.html" == dir + "/index.html";
  }

  lemma ServedOnlyDirectoryIndex(sourcePath: string, kind: Kind)
    requires kind.html && kind.index
    requires ServedFile(Urls(sourcePath, kind, true).finalUrl) == "/" + sourcePath
    ensures EndsWith("/" + sourcePath, "/index.html")
  {
    var link := "/" + sourcePath;
    var u := ChopRight(link, 10);
    assert |u| < |link|;
    assert u != [] && u[|u| - 1] == '/';
    assert link == u + "index.html";
    LastThenSuffix(u, "index.html");
    assert [u[|u| - 1]] == ['/'];
    SlashIndexHtml();
  }

  lemma SlashIndexHtml()
    ensures ['/'] + "index.html" == "/index.html"
  {
  }

  /** `u + suffix` ends with the last character of `u` followed by `suffix`. */
  lemma LastThenSuffix(u: string, suffix: string)
    requires u != []
    ensures EndsWith(u + suffix, [u[|u| - 1]] + suffix)
  {
    var n := |u|;
    assert (u + suffix)[n - 1..] == u[n - 1..] + suffix;
    assert u[n - 1..] == [u[n - 1]];
  }

  /** The index slice cuts ten characters whatever precedes `index`. The
      lemma takes the kind as given; that `myindex.html` and `blog/index.md`
      are index pages is what `IndexBySuffix` shows. */
  lemma IndexSliceQuirk(kind: Kind)
    requires kind.html && kind.index
    ensures Urls("myindex.html", kind, true).finalUrl == "/my"
    ensures Urls("blog/index.md", kind, true).finalUrl == "/blo"
  {
  }

  /** A pretty non-index page of five or more characters is served from its
      build path, whatever its extension. */
  lemma ServedPage(sourcePath: string, kind: Kind)
    requires kind.html && !kind.index
    requires |sourcePath| >= 5
    ensures var r := Urls(sourcePath, kind, true);
      ServedFile(r.finalUrl) == "/" + r.buildPath
  {
    var r := Urls(sourcePath, kind, true);
    PrettyPage(sourcePath, kind);
    var stem := sourcePath[..|sourcePath| - 5];
    var url := "/" + stem + "/";
    assert r.finalUrl == url;
    assert r.buildPath == stem + "/" + "index.html";
    assert url != [] && url[|url| - 1] == '/';
    assert ServedFile(url) == url + "index.html";
    assert url + "index.html" == "/" + (stem + "/" + "index.html");
  }

  /** `a.md` with pretty URLs: four characters are all the slice can chop, so
      the URL collapses to `/` and the build path becomes the absolute
      `/index.html`, which the directory-index convention no longer links. */
  lemma ShortMarkdownPage()
    ensures var r := Resolve("a.md", true);
      r.kind.markdown && r.finalUrl == "/" && r.buildPath == "/index.html" &&
      ServedFile(r.finalUrl) != "/" + r.buildPath
  {
    ShortMarkdownKind();
    ShortPageBuildsAtRoot("a.md", Classify("a.md"));
  }

  /** `a.md` is a Markdown page and not an index. */
  lemma ShortMarkdownKind()
    ensures Classify("a.md") == Kind(true, false, true, false)
  {
    ShortMarkdownSplit();
    assert EndsWith("a", "index") == false;
  }

  /** `a.md` is already lowercase and splits into `a` and `.md`. */
  lemma ShortMarkdownSplit()
    ensures SplitExt(Lower("a.md")) == ("a", ".md")
  {
    var p := "a.md";
    assert Lower(p) == p;
    SplitExtOfName(p, 1);
    assert p[..1] == "a" && p[1..] == ".md";
  }

  /** `A.HTML` is an HTML page: the extension is compared after lowercasing. */
  lemma UpperCaseHtmlPage()
    ensures Classify("A.HTML").html && !Classify("A.HTML").index
  {
    var p := "A.HTML";
    var q := "a.html";
    assert Lower(p) == q by {
      assert Lower(p)[0] == q[0] && Lower(p)[1] == q[1] && Lower(p)[2] == q[2];
      assert Lower(p)[3] == q[3] && Lower(p)[4] == q[4] && Lower(p)[5] == q[5];
    }
    SplitExtOfName(q, 1);
    assert q[..1] == "a" && q[1..] == ".html";
    assert !EndsWith("a", "index");
  }

  /** `myindex.html` is an index page, although its name is not `index`. */
  lemma MyIndexIsIndexPage()
    ensures Classify("myindex.html").index && Classify("myindex.html").html
  {
    MyIndexSplit();
    assert EndsWith("myindex", "index") by {
      assert "myindex"[2..] == "index";
    }
    IndexBySuffix("myindex.html", "myindex", ".html");
  }

  /** `myindex.html` is already lowercase and splits into `myindex` and
      `.html`. */
  lemma MyIndexSplit()
    ensures SplitExt(Lower("myindex.html")) == ("myindex", ".html")
  {
    LowerKeepsLowercase("myindex.html");
    MyIndexSplitExt();
  }

  /** The split of the lowercase name itself. */
  lemma MyIndexSplitExt()
    ensures SplitExt("myindex.html") == ("myindex", ".html")
  {
    var p := "myindex.html";
    SplitExtOfName(p, 7);
    assert p[..7] == "myindex" && p[7..] == ".html";
  }

  /** `os.path.splitext` of a single file name that does not start with a dot
      splits at its last dot. */
  lemma SplitExtOfName(p: string, dot: nat)
    requires '/' !in p && 0 < dot < |p| && p[0] != '.'
    requires p[dot] == '.' && '.' !in p[dot + 1..]
    ensures SplitExt(p) == (p[..dot], p[dot..])
  {
    assert LastIndexOf(p, '/') == -1;
    var d := LastIndexOf(p, '.');
    assert d == dot;
    assert HasNonDot(p[0..dot]) by {
      assert p[0..dot][0] != '.';
    }
    assert ExtensionStart(p) == dot;
  }

  /** A Markdown page `<stem>.md` with pretty URLs: five characters are
      chopped although the extension has three, so the last two characters
      of the stem go too (`about.md` is served at `/abo/`). */
  lemma MarkdownLosesTwoStemCharacters(stem: string, kind: Kind)
    requires kind.html && !kind.index && |stem| >= 2
    ensures var r := Urls(stem + ".md", kind, true);
      r.finalUrl == "/" + stem[..|stem| - 2] + "/" &&
      r.buildPath == stem[..|stem| - 2] + "/" + "index.html"
  {
    var p := stem + ".md";
    PrettyPage(p, kind);
    assert p[..|p| - 5] == stem[..|stem| - 2];
  }

  /** A pretty non-index page whose path is shorter than five characters
      (`a.md`) gets `/` as its final URL and the absolute `/index.html` as
      its build path. */
  lemma ShortPageBuildsAtRoot(sourcePath: string, kind: Kind)
    requires kind.html && !kind.index && |sourcePath| < 5
    ensures var r := Urls(sourcePath, kind, true);
      r.finalUrl == "/" && r.buildPath == "/index.html" &&
      ServedFile(r.finalUrl) != "/" + r.buildPath
  {
    var r := Urls(sourcePath, kind, true);
    assert ChopRight("/" + sourcePath, 5) == [];
    assert ChopRight(sourcePath, 5) == [];
    assert r.buildPath == "/index.html";
    assert |ServedFile(r.finalUrl)| == 11 != |"/" + r.buildPath|;
  }

  /** Only the last path component decides the extension: a final component
      that is a dot followed by a name without dots has none. `n` is the
      position of the last `/`, or -1 when the path has none. */
  lemma HiddenNameHasNoExtension(q: string, n: int)
    requires -1 <= n && n + 1 < |q| && q[n + 1] == '.'
    requires n >= 0 ==> q[n] == '/'
    requires forall j :: n + 1 < j < |q| ==> q[j] != '/' && q[j] != '.'
    ensures SplitExt(q).1 == []
  {
    var sep := LastIndexOf(q, '/');
    var dot := LastIndexOf(q, '.');
    assert sep == n;
    assert dot == n + 1;
    assert q[sep + 1..dot] == [];
    assert ExtensionStart(q) == |q|;
  }

  /** A leading-dot name such as `.htaccess` has no extension, so it is never
      a page, whether it sits at the site root or in a directory. */
  lemma DotFileIsNotAPage(dir: string, name: string)
    requires '.' !in name && '/' !in name
    ensures !Classify("." + name).html
    ensures !Classify(dir + "/." + name).html
  {
    RootDotFile(name);
    DotFileInDirectory(dir, name);
  }

  lemma RootDotFile(name: string)
    requires '.' !in name && '/' !in name
    ensures !Classify("." + name).html
  {
    var hidden := "." + name;
    assert hidden[1..] == name;
    HiddenNameIsNotAPage([], hidden);
    assert [] + hidden == hidden;
  }

  lemma DotFileInDirectory(dir: string, name: string)
    requires '.' !in name && '/' !in name
    ensures !Classify(dir + "/." + name).html
  {
    var hidden := "." + name;
    assert hidden[1..] == name;
    HiddenNameIsNotAPage(dir + "/", hidden);
    assert dir + "/" + hidden == dir + "/." + name;
  }

  /** The path `prefix + hidden`, where `prefix` is empty or ends in `/` and
      `hidden` is a dot followed by neither dots nor separators, is no page. */
  lemma HiddenNameIsNotAPage(prefix: string, hidden: string)
    requires prefix == [] || prefix[|prefix| - 1] == '/'
    requires |hidden| >= 1 && hidden[0] == '.'
    requires '.' !in hidden[1..] && '/' !in hidden[1..]
    ensures !Classify(prefix + hidden).html
  {
    var p := prefix + hidden;
    var q := Lower(p);
    var n := |prefix| - 1;
    forall j | n + 1 < j < |q| ensures q[j] != '/' && q[j] != '.' {
      assert p[j] == hidden[1..][j - n - 2];
    }
    assert p[n + 1] == '.';
    assert n >= 0 ==> p[n] == '/';
    HiddenNameHasNoExtension(q, n);
  }
}
