/** The rendering context of a page: a string-keyed map assembled by
    successive `dict.update` calls, later maps winning on shared keys. */
module PageContext {

  /** A context value: the page itself (the marker entry), a string, or any
      other object the site or the caller supplies, known here only by an
      identifier. */
  datatype Value = CurrentPage(sourcePath: string) | Text(text: string) | Object(id: nat)

  /** The key under which the page puts itself into its context. */
  const CurrentPageKey: string := "__CACTUS_CURRENT_PAGE__"

  /** `ctx.update(m)`: the keys of both maps; every key of `m` takes its
      value from `m`, every other key keeps its old value. */
  function Update(ctx: map<string, Value>, m: map<string, Value>): (r: map<string, Value>)
    ensures r.Keys == ctx.Keys + m.Keys
    ensures forall k :: k in m ==> r[k] == m[k]
    ensures forall k :: k in ctx && k !in m ==> r[k] == ctx[k]
  {
    ctx + m
  }

  /** The front-matter header as context values: every value is a string. */
  function AsValues(header: map<string, string>): (r: map<string, Value>)
    ensures r.Keys == header.Keys
    ensures forall k :: k in header ==> r[k] == Text(header[k])
  {
    map k | k in header :: Text(header[k])
  }

  /** The context of the page at `page`: the page marker, updated with the
      site context, then with the caller's `extra`, then with the
      front-matter header, which therefore has the last word on its keys. */
  function Merge(page: string, site: map<string, Value>, extra: map<string, Value>,
                 header: map<string, string>): (r: map<string, Value>)
    ensures r.Keys == {CurrentPageKey} + site.Keys + extra.Keys + header.Keys
    ensures forall k :: k in header ==> r[k] == Text(header[k])
  {
    var marked := map[CurrentPageKey := CurrentPage(page)];
    Update(Update(Update(marked, site), extra), AsValues(header))
  }

  /** Precedence in the merged context: front-matter beats `extra`, which
      beats the site context, which beats the page marker; no key appears
      that none of them has. */
  lemma MergePrecedence(page: string, site: map<string, Value>, extra: map<string, Value>,
                        header: map<string, string>)
    ensures var ctx := Merge(page, site, extra, header);
      ctx.Keys == {CurrentPageKey} + site.Keys + extra.Keys + header.Keys
    ensures var ctx := Merge(page, site, extra, header);
      forall k :: k in header ==> ctx[k] == Text(header[k])
    ensures var ctx := Merge(page, site, extra, header);
      forall k :: k in extra && k !in header ==> ctx[k] == extra[k]
    ensures var ctx := Merge(page, site, extra, header);
      forall k :: k in site && k !in extra && k !in header ==> ctx[k] == site[k]
    ensures CurrentPageKey !in site && CurrentPageKey !in extra && CurrentPageKey !in header ==>
      Merge(page, site, extra, header)[CurrentPageKey] == CurrentPage(page)
  {
  }

  /** The caller's `extra` cannot override the page's own front-matter, and
      an empty `extra` (the `None` default) changes nothing. */
  lemma ExtraNeverBeatsHeader(page: string, site: map<string, Value>, extra: map<string, Value>,
                              header: map<string, string>)
    ensures forall k :: k in header ==>
      Merge(page, site, extra, header)[k] == Merge(page, site, map[], header)[k]
    ensures Merge(page, site, map[], header) ==
      Update(Update(map[CurrentPageKey := CurrentPage(page)], site), AsValues(header))
  {
    MergePrecedence(page, site, extra, header);
    MergePrecedence(page, site, map[], header);
    EmptyUpdate(Update(map[CurrentPageKey := CurrentPage(page)], site));
  }

  /** Updating with an empty map changes nothing. */
  lemma EmptyUpdate(ctx: map<string, Value>)
    ensures Update(ctx, map[]) == ctx
  {
  }
}
