/** A page of the site: its URLs and build path, fixed once at construction,
    its front-matter, its rendering context, and the render/build steps with
    the plugin hooks around them. */
module Pages {
  import opened PyStr
  import opened Resolver
  import opened FrontMatter
  import opened PageContext

  /** What the page needs from its site: the pretty-URL flag, the global
      context and the plugin manager's pre-build hook, which may rewrite the
      context and the body it is given. */
  datatype Site = Site(
    prettifyUrls: bool,
    context: map<string, Value>,
    preBuildPage: (string, map<string, Value>, string) -> (map<string, Value>, string))

  /** What reading the source file gives: text when it decodes as UTF-8,
      the raw bytes otherwise. */
  datatype Source = TextSource(text: string) | BinarySource(bytes: seq<bv8>)

  /** What a build writes: raw bytes as they are, or text to be written
      UTF-8 encoded. */
  datatype Output = RawBytes(bytes: seq<bv8>) | RenderedText(text: string)

  /** A call into the plugin manager, identified by the page's source path. */
  datatype HookCall = PreBuildPage(page: string) | PostBuildPage(page: string)

  /** The build output directory as a map from build path to file content,
      and the plugin hook calls made so far. */
  class BuildTree {
    var files: map<string, Output>
    var hookCalls: seq<HookCall>

    constructor ()
      ensures files == map[] && hookCalls == []
    {
      files := map[];
      hookCalls := [];
    }
  }

  class Page {
    const site: Site
    const sourcePath: string
    const linkUrl: string
    const finalUrl: string
    const buildPath: string
    const html: bool
    const index: bool
    const markdown: bool
    const haml: bool
    var discarded: bool

    /** The fields derived at construction are those `Resolve` gives. */
    ghost predicate Valid() {
      Resolve(sourcePath, site.prettifyUrls) ==
        Resolution(linkUrl, finalUrl, buildPath, Kind(html, index, markdown, haml))
    }

    /** Sets the URLs and build path to their defaults, classifies the
        lowercased extension, then overwrites the defaults when the site
        prettifies URLs and the page produces HTML. */
    constructor (site: Site, sourcePath: string)
      ensures this.site == site && this.sourcePath == sourcePath
      ensures Valid() && !discarded
    {
      this.site := site;
      this.sourcePath := sourcePath;
      var linkUrl := "/" + sourcePath;
      var finalUrl := linkUrl;
      var buildPath := sourcePath;
      var split := SplitExt(Lower(sourcePath));
      var path, ext := split.0, split.1;
      var isHtml := ext in PageExtensions;
      var isIndex := EndsWith(path, "index") && isHtml;
      var isMarkdown := ext in MarkdownExtensions;
      var isHaml := ext in HamlExtensions;
      assert Kind(isHtml, isIndex, isMarkdown, isHaml) == Classify(sourcePath);
      if site.prettifyUrls {
        if isHtml {
          if isIndex {
            finalUrl := ChopRight(linkUrl, 10);  // len('index.html')
          } else {
            finalUrl := ChopRight(linkUrl, 5) + "/";  // len('.html')
            buildPath := ChopRight(sourcePath, 5) + "/" + "index.html";
          }
        }
      }
      this.linkUrl := linkUrl;
      this.finalUrl := finalUrl;
      this.buildPath := buildPath;
      html := isHtml;
      index := isIndex;
      markdown := isMarkdown;
      haml := isHaml;
      discarded := false;
    }

    /** True when the page is built to HTML: its lowercased extension is a
        page extension. */
    function IsHtml(): (r: bool)
      requires Valid()
      ensures r <==> SplitExt(Lower(sourcePath)).1 in PageExtensions
    {
      html
    }

    /** True for an HTML page whose lowercased extension-less path ends in
        `index`. */
    function IsIndex(): (r: bool)
      requires Valid()
      ensures r <==> IsHtml() && EndsWith(SplitExt(Lower(sourcePath)).0, "index")
    {
      index
    }

    /** True for a Markdown page, which is also an HTML page. */
    function IsMarkdown(): (r: bool)
      requires Valid()
      ensures r <==> SplitExt(Lower(sourcePath)).1 in MarkdownExtensions
      ensures r ==> IsHtml()
    {
      markdown
    }

    /** True for a Haml page, which is also an HTML page. */
    function IsHaml(): (r: bool)
      requires Valid()
      ensures r <==> SplitExt(Lower(sourcePath)).1 in HamlExtensions
      ensures r ==> IsHtml()
    {
      haml
    }

    /** `parse_context`: a page that does not produce HTML keeps its data
        and has no header; otherwise the header is scanned from the lines,
        and the body is joined from the line where the loop index stood when
        the scan ended. */
    method ParseContext(data: string) returns (values: map<string, string>, body: string)
      ensures Parsed(values, body) == Parse(html, data)
    {
      if !html {
        return map[], data;
      }
      var lines := SplitLines(data);
      if lines == [] {
        return map[], [];
      }
      var i;
      values, i := ScanHeader(lines);
      body := Join("\n", lines[i..]);
    }

    /** The `for` loop of `parse_context`: adds each header line to the
        header, skips empty lines and stops at the first other line. Returns
        the header and the final value of the loop index. */
    static method ScanHeader(lines: seq<string>) returns (values: map<string, string>, i: nat)
      requires lines != []
      ensures values == Collect(lines[..StopIndex(lines)])
      ensures i == if StopIndex(lines) < |lines| then StopIndex(lines) else |lines| - 1
    {
      values := map[];
      i := 0;
      var stopped := false;
      for k := 0 to |lines|
        invariant !stopped
        invariant k == 0 || i == k - 1
        invariant i < |lines|
        invariant forall j :: 0 <= j < k ==> !Stops(lines[j])
        invariant values == Collect(lines[..k])
      {
        i := k;
        var line := lines[i];
        CollectStep(lines, k);
        if line == [] {
          NoStopExtend(lines, k);
          continue;
        } else if ':' in line {
          var parts := SplitOn(line, ':');
          values := values[Strip(parts[0]) := Strip(Join(":", parts[1..]))];
          NoStopExtend(lines, k);
        } else {
          stopped := true;
          break;
        }
      }
      if stopped {
        StopIndexIs(lines, i);
      } else {
        StopIndexIs(lines, |lines|);
        assert lines[..|lines|] == lines;
      }
    }

    /** `context(data, extra)`: the page marker, updated with the site
        context, the caller's `extra` and the page's front-matter, in that
        order. */
    method Context(data: string, extra: map<string, Value>) returns (ctx: map<string, Value>)
      ensures ctx == Merge(sourcePath, site.context, extra, Parse(html, data).header)
    {
      ctx := map[CurrentPageKey := CurrentPage(sourcePath)];
      var pageContext, rest := ParseContext(data);
      ctx := Update(ctx, site.context);
      ctx := Update(ctx, extra);
      ctx := Update(ctx, AsValues(pageContext));
    }

    /** What rendering produces: binary data unchanged; for text, the
        template applied to the body and context that the pre-build hook
        returns when given the merged context and the body without its
        header. */
    function Rendering(source: Source, template: (string, map<string, Value>) -> string): (r: Output)
      ensures source.BinarySource? ==> r == RawBytes(source.bytes)
      ensures source.TextSource? ==> r.RenderedText?
    {
      match source
      case BinarySource(bytes) => RawBytes(bytes)
      case TextSource(text) =>
        var ctx := Merge(sourcePath, site.context, map[], Parse(html, text).header);
        var (ctx', body') := site.preBuildPage(sourcePath, ctx, Parse(html, text).body);
        RenderedText(template(body', ctx'))
    }

    /** `render()`: binary data is returned as it is, with no context and no
        hook; text goes through the context, a second header extraction, the
        pre-build hook and the template. */
    method Render(source: Source, template: (string, map<string, Value>) -> string, tree: BuildTree)
      returns (out: Output)
      modifies tree
      ensures out == Rendering(source, template)
      ensures source.BinarySource? ==> out == RawBytes(source.bytes)
      ensures tree.files == old(tree.files)
      ensures tree.hookCalls == old(tree.hookCalls) +
        (if source.TextSource? then [PreBuildPage(sourcePath)] else [])
    {
      if source.BinarySource? {
        return RawBytes(source.bytes);
      }
      var data := source.text;
      var context := Context(data, map[]);
      var pageContext, body := ParseContext(data);
      var (context', body') := site.preBuildPage(sourcePath, context, body);
      tree.hookCalls := tree.hookCalls + [PreBuildPage(sourcePath)];
      out := RenderedText(template(body', context'));
    }

    /** Lets a collaborator suppress the write step. */
    method Discard()
      modifies this
      ensures discarded
    {
      discarded := true;
    }

    /** `build()`: renders first in every case; unless the page is
        discarded, writes the output at the build path, replacing whatever
        was there, and then calls the post-build hook. */
    method Build(source: Source, template: (string, map<string, Value>) -> string, tree: BuildTree)
      modifies tree
      ensures tree.files == if discarded then old(tree.files)
        else old(tree.files)[buildPath := Rendering(source, template)]
      ensures tree.hookCalls == old(tree.hookCalls) +
        (if source.TextSource? then [PreBuildPage(sourcePath)] else []) +
        (if discarded then [] else [PostBuildPage(sourcePath)])
    {
      var data := Render(source, template, tree);
      if !discarded {
        tree.files := tree.files[buildPath := data];
        tree.hookCalls := tree.hookCalls + [PostBuildPage(sourcePath)];
      }
    }
  }
}
