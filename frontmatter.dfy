/** The `key: value` header at the top of an HTML-producing page, as
    `Page.parse_context` reads it: specified here as functions, implemented
    by the loop in `Pages.Page.ParseContext`. */
module FrontMatter {
  import opened PyStr

  /** What `parse_context` returns: the header and the remaining body. */
  datatype Parsed = Parsed(header: map<string, string>, body: string)

  /** A line that ends the header: not empty and without the `:` separator.
      A line of spaces is not empty, so it ends the header too. */
  predicate Stops(line: string) {
    line != [] && ':' !in line
  }

  /** `line.split(':')[0].strip()`: a stripped key that never holds the
      separator; a line without `:` is its own key. */
  function Key(line: string): (r: string)
    ensures ':' !in r && IsStripped(r)
    ensures ':' !in line ==> r == Strip(line)
  {
    var head := SplitOn(line, ':')[0];
    StripKeepsOut(head, ':');
    Strip(head)
  }

  /** `':'.join(line.split(':')[1:]).strip()`: a stripped value, empty for a
      line without `:`. */
  function Value(line: string): (r: string)
    ensures IsStripped(r)
    ensures ':' !in line ==> r == []
  {
    var parts := SplitOn(line, ':');
    if ':' !in line then
      assert parts == [line];
      Strip(Join(":", parts[1..]))
    else
      Strip(Join(":", parts[1..]))
  }

  /** A header line maps the stripped text before its first `:` to the
      stripped rest of the line, later colons included. */
  lemma KeyValueSplitAtFirstColon(line: string)
    requires ':' in line
    ensures Key(line) == Strip(line[..IndexOf(line, ':')])
    ensures Value(line) == Strip(line[IndexOf(line, ':') + 1..])
  {
    JoinTailAfterFirst(line, ':');
  }

  /** Writing `key: value` and reading the line back gives the key and the
      value, provided the key has no `:` and neither has surrounding
      whitespace; the value may hold further colons. */
  lemma HeaderLineRoundTrip(key: string, value: string)
    requires ':' !in key && IsStripped(key) && IsStripped(value)
    ensures var line := key + ": " + value;
      ':' in line && Key(line) == key && Value(line) == value
  {
    var line := key + [':'] + ([' '] + value);
    assert line == key + ": " + value;
    IndexOfAfter(key, ':', [' '] + value);
    KeyValueSplitAtFirstColon(line);
    assert line[..|key|] == key;
    assert line[|key| + 1..] == [' '] + value;
    StripUnchanged(key);
    StripDropsLeadingSpace(' ', value);
    StripUnchanged(value);
  }

  /** The header built from `lines` in order: empty lines and lines without
      `:` add nothing, each other line sets its key, later lines overwriting
      earlier ones. */
  function Collect(lines: seq<string>): (r: map<string, string>)
    ensures forall k :: k in r ==> ':' !in k && IsStripped(k) && IsStripped(r[k])
  {
    if lines == [] then map[]
    else
      var m := Collect(lines[..|lines| - 1]);
      var line := lines[|lines| - 1];
      if ':' in line then m[Key(line) := Value(line)] else m
  }

  /** Position of the first line that ends the header, or `|lines|`. */
  function StopIndex(lines: seq<string>): (k: nat)
    ensures k <= |lines|
    ensures k < |lines| ==> Stops(lines[k])
    ensures forall j :: 0 <= j < k ==> !Stops(lines[j])
  {
    if lines == [] then 0
    else if Stops(lines[0]) then 0
    else 1 + StopIndex(lines[1..])
  }

  /** One more line extends the header by that line alone. */
  lemma CollectStep(lines: seq<string>, k: nat)
    requires k < |lines|
    ensures Collect(lines[..k + 1]) ==
      if ':' in lines[k] then Collect(lines[..k])[Key(lines[k]) := Value(lines[k])]
      else Collect(lines[..k])
  {
    assert lines[..k + 1][..k] == lines[..k];
  }

  /** A prefix of non-stopping lines grows by one more such line. */
  lemma NoStopExtend(lines: seq<string>, k: nat)
    requires k < |lines| && !Stops(lines[k])
    requires forall j :: 0 <= j < k ==> !Stops(lines[j])
    ensures forall j :: 0 <= j < k + 1 ==> !Stops(lines[j])
  {
  }

  /** The stop index is the position of the first stopping line. */
  lemma {:induction false} StopIndexIs(lines: seq<string>, k: nat)
    requires k <= |lines|
    requires forall j :: 0 <= j < k ==> !Stops(lines[j])
    requires k < |lines| ==> Stops(lines[k])
    ensures StopIndex(lines) == k
  {
    if k > 0 {
      assert !Stops(lines[0]);
      StopIndexIs(lines[1..], k - 1);
    }
  }

  /** `parse_context(data)` on a page whose HTML flag is `isHtml`. The body
      starts at the loop index where the scan ended: the stopping line, or
      the last line when no line stops the scan. */
  function Parse(isHtml: bool, data: string): (r: Parsed)
    ensures r.header != map[] ==> isHtml && data != []
    ensures forall k :: k in r.header ==> ':' !in k && IsStripped(k) && IsStripped(r.header[k])
  {
    if !isHtml then Parsed(map[], data)
    else
      var lines := SplitLines(data);
      if lines == [] then Parsed(map[], [])
      else
        var k := StopIndex(lines);
        var i := if k < |lines| then k else |lines| - 1;
        Parsed(Collect(lines[..k]), Join("\n", lines[i..]))
  }

  /** A page that does not produce HTML keeps its data and has no header;
      an HTML page with no text has an empty header and body. */
  lemma ParseTrivialCases(data: string)
    ensures Parse(false, data) == Parsed(map[], data)
    ensures Parse(true, []) == Parsed(map[], [])
  {
  }

  /** `line` is a header line for `key`. */
  predicate SetsKey(line: string, key: string) {
    ':' in line && Key(line) == key
  }

  /** Every key in the header comes from a header line for it. */
  lemma {:induction false} CollectKeysFromLines(lines: seq<string>, key: string)
    ensures key in Collect(lines) ==> exists j :: 0 <= j < |lines| && SetsKey(lines[j], key)
  {
    if lines != [] {
      var init := lines[..|lines| - 1];
      var line := lines[|lines| - 1];
      CollectKeysFromLines(init, key);
      if key in Collect(lines) {
        if SetsKey(line, key) {
          assert SetsKey(lines[|lines| - 1], key);
        } else {
          assert key in Collect(init);
          var j :| 0 <= j < |init| && SetsKey(init[j], key);
          assert lines[j] == init[j];
        }
      }
    }
  }

  /** Every header line puts its key in the header. */
  lemma {:induction false} CollectKeepsEveryKey(lines: seq<string>, key: string, j: nat)
    requires j < |lines| && SetsKey(lines[j], key)
    ensures key in Collect(lines)
  {
    var init := lines[..|lines| - 1];
    if j < |init| {
      assert init[j] == lines[j];
      CollectKeepsEveryKey(init, key, j);
    }
  }

  /** The last line with a given key decides its value. */
  lemma {:induction false} CollectLastWins(lines: seq<string>, j: nat)
    requires j < |lines| && ':' in lines[j]
    requires forall j' :: j < j' < |lines| && ':' in lines[j'] ==> Key(lines[j']) != Key(lines[j])
    ensures Key(lines[j]) in Collect(lines)
    ensures Collect(lines)[Key(lines[j])] == Value(lines[j])
  {
    var init := lines[..|lines| - 1];
    if j < |lines| - 1 {
      assert init[j] == lines[j];
      forall j' | j < j' < |init| && ':' in init[j'] ensures Key(init[j']) != Key(init[j]) {
        assert init[j'] == lines[j'];
      }
      CollectLastWins(init, j);
    }
  }

  /** Joining a list of lines split in two. */
  lemma {:induction false} JoinAppend(sep: string, xs: seq<string>, ys: seq<string>)
    requires xs != [] && ys != []
    ensures Join(sep, xs + ys) == Join(sep, xs) + sep + Join(sep, ys)
  {
    if |xs| == 1 {
      assert (xs + ys)[1..] == ys;
    } else {
      JoinAppend(sep, xs[1..], ys);
      assert (xs + ys)[1..] == xs[1..] + ys;
    }
  }

  /** When a line stops the scan, header lines and body partition the text:
      the body is everything from the stopping line on, and only the final
      newline that `splitlines` drops is missing. */
  lemma BodyIsRestOfText(data: string)
    requires SplitLines(data) != [] && StopIndex(SplitLines(data)) < |SplitLines(data)|
    ensures var lines := SplitLines(data);
      var k := StopIndex(lines);
      var body := Parse(true, data).body;
      var newline := if data[|data| - 1] == '\n' then "\n" else [];
      (k == 0 ==> body + newline == data) &&
      (k > 0 ==> Join("\n", lines[..k]) + "\n" + body + newline == data)
  {
    var lines := SplitLines(data);
    var k := StopIndex(lines);
    StoppedBody(data);
    JoinSplitLines(data);
    if k > 0 {
      JoinSplitAt("\n", lines, k);
    } else {
      assert lines[0..] == lines;
    }
  }

  /** When a line stops the scan, the body is joined from that line on. */
  lemma StoppedBody(data: string)
    requires SplitLines(data) != [] && StopIndex(SplitLines(data)) < |SplitLines(data)|
    ensures Parse(true, data).body == Join("\n", SplitLines(data)[StopIndex(SplitLines(data))..])
  {
  }

  /** Joining a list of lines cut in two non-empty parts. */
  lemma JoinSplitAt(sep: string, lines: seq<string>, k: nat)
    requires 0 < k < |lines|
    ensures Join(sep, lines) == Join(sep, lines[..k]) + sep + Join(sep, lines[k..])
  {
    assert lines == lines[..k] + lines[k..];
    JoinAppend(sep, lines[..k], lines[k..]);
  }

  /** When no line stops the scan, the body is the last line, and a last line
      with a `:` is in the header as well. */
  lemma UnstoppedBodyIsLastLine(data: string)
    requires SplitLines(data) != [] && StopIndex(SplitLines(data)) == |SplitLines(data)|
    ensures var lines := SplitLines(data);
      var last := lines[|lines| - 1];
      Parse(true, data).body == last &&
      (':' in last ==> Parse(true, data).header[Key(last)] == Value(last))
  {
    var lines := SplitLines(data);
    assert lines[..|lines|] == lines;
    assert lines[|lines| - 1..] == [lines[|lines| - 1]];
  }

  /** The scan skips empty lines, keeps going past header lines, and stops at
      the first other line: with header lines `header`, a stopping line and
      anything after it, the header is collected from `header` alone and the
      body starts at the stopping line. */
  lemma ScanStopsAtFirstPlainLine(header: seq<string>, stop: string, rest: seq<string>)
    requires forall j :: 0 <= j < |header| ==> !Stops(header[j])
    requires Stops(stop)
    ensures var lines := header + [stop] + rest;
      StopIndex(lines) == |header| &&
      Collect(lines[..StopIndex(lines)]) == Collect(header) &&
      Join("\n", lines[StopIndex(lines)..]) == Join("\n", [stop] + rest)
  {
    var lines := header + [stop] + rest;
    StopIndexOfPrefix(header, [stop] + rest);
    assert lines == header + ([stop] + rest);
    assert lines[..|header|] == header;
    assert lines[|header|..] == [stop] + rest;
  }

  /** The first stopping line of `xs + ys` is in `ys` when `xs` has none. */
  lemma {:induction false} StopIndexOfPrefix(xs: seq<string>, ys: seq<string>)
    requires forall j :: 0 <= j < |xs| ==> !Stops(xs[j])
    requires ys != [] && Stops(ys[0])
    ensures StopIndex(xs + ys) == |xs|
  {
    if xs != [] {
      assert (xs + ys)[1..] == xs[1..] + ys;
      StopIndexOfPrefix(xs[1..], ys);
    } else {
      assert xs + ys == ys;
    }
  }

  /** The lines of a text whose first stopping line is `stop`: the header
      comes from the lines before it and the body starts with it. */
  lemma ParseStopped(data: string, header: seq<string>, stop: string, rest: seq<string>)
    requires SplitLines(data) == header + [stop] + rest
    requires forall j :: 0 <= j < |header| ==> !Stops(header[j])
    requires Stops(stop)
    ensures Parse(true, data) == Parsed(Collect(header), Join("\n", [stop] + rest))
  {
    ScanStopsAtFirstPlainLine(header, stop, rest);
  }

  /** A key and value that `HeaderLineRoundTrip` applies to, neither
      holding a newline. */
  predicate HeaderPair(key: string, value: string) {
    ':' !in key && IsStripped(key) && IsStripped(value) && '\n' !in key && '\n' !in value
  }

  /** A plain line ends the header, and everything from it on is the body:
      `key: value`, a plain line and any last line give the one-entry header
      and the last two lines as the body. */
  lemma PlainLineEndsHeader(key: string, value: string, plain: string, last: string)
    requires HeaderPair(key, value)
    requires Stops(plain) && '\n' !in plain
    requires last != [] && '\n' !in last
    ensures Parse(true, Join("\n", [key + ": " + value, plain, last])) ==
      Parsed(map[key := value], plain + "\n" + last)
  {
    var first := key + ": " + value;
    HeaderLineRoundTrip(key, value);
    HeaderLineIsOneLine(key, value);
    SplitThreeLines(first, plain, last);
    ParseAfterHeaderLine(Join("\n", [first, plain, last]), first, plain, last);
    CollectSingle(first);
  }

  /** Concretely, `a: 1`, `line`, `b: 2` give the header `{a: 1}` and the
      body `line` and `b: 2`: the later `b: 2` is body text, not header. */
  lemma PlainLineExample()
    ensures Parse(true, "a: 1\nline\nb: 2") == Parsed(map["a" := "1"], "line\nb: 2")
  {
    PlainLineEndsHeader("a", "1", "line", "b: 2");
    PlainLineExampleText();
  }

  /** The lines of the example, joined. */
  lemma PlainLineExampleText()
    ensures Join("\n", ["a" + ": " + "1", "line", "b: 2"]) == "a: 1\nline\nb: 2"
    ensures "line" + "\n" + "b: 2" == "line\nb: 2"
  {
    assert Join("\n", ["line", "b: 2"]) == "line\nb: 2";
  }

  /** A `key: value` line holds no newline when neither part does. */
  lemma HeaderLineIsOneLine(key: string, value: string)
    requires '\n' !in key && '\n' !in value
    ensures '\n' !in key + ": " + value
  {
  }

  /** Three lines without newlines, the last one not empty, split back. */
  lemma SplitThreeLines(first: string, plain: string, last: string)
    requires '\n' !in first && '\n' !in plain && '\n' !in last && last != []
    ensures SplitLines(Join("\n", [first, plain, last])) == [first] + [plain] + [last]
  {
    SplitLinesOfJoin([first, plain, last]);
  }

  /** Parsing text whose lines are a header line, a stopping line and one
      more line. */
  lemma ParseAfterHeaderLine(data: string, first: string, plain: string, last: string)
    requires SplitLines(data) == [first] + [plain] + [last]
    requires ':' in first && Stops(plain)
    ensures Parse(true, data) == Parsed(Collect([first]), plain + "\n" + last)
  {
    ParseStopped(data, [first], plain, [last]);
    assert [plain] + [last] == [plain, last];
    assert [plain, last][1..] == [last];
  }

  /** The header of a single header line. */
  lemma CollectSingle(line: string)
    requires ':' in line
    ensures Collect([line]) == map[Key(line) := Value(line)]
  {
    assert [line][..0] == [];
  }

  /** The header of two header lines and an empty line. */
  lemma CollectTwo(first: string, second: string)
    requires ':' in first && ':' in second
    ensures Collect([first, second, ""]) == map[Key(first) := Value(first)][Key(second) := Value(second)]
  {
    var header := [first, second, ""];
    assert header[..2] == [first, second];
    assert header[..2][..1] == [first];
    CollectSingle(first);
  }

  /** An empty line between header and body is skipped: two header lines,
      an empty line and a plain line give both entries, the second winning
      if the keys are equal, and the plain line as the body. */
  lemma EmptyLineIsSkipped(key1: string, value1: string, key2: string, value2: string,
                           plain: string)
    requires HeaderPair(key1, value1) && HeaderPair(key2, value2)
    requires Stops(plain) && '\n' !in plain
    ensures Parse(true, Join("\n", [key1 + ": " + value1, key2 + ": " + value2, "", plain])) ==
      Parsed(map[key1 := value1][key2 := value2], plain)
  {
    var first := key1 + ": " + value1;
    var second := key2 + ": " + value2;
    HeaderLineRoundTrip(key1, value1);
    HeaderLineRoundTrip(key2, value2);
    HeaderLineIsOneLine(key1, value1);
    HeaderLineIsOneLine(key2, value2);
    SplitFourLines(first, second, plain);
    ParseAfterEmptyLine(Join("\n", [first, second, "", plain]), first, second, plain);
    CollectTwo(first, second);
  }

  /** Parsing text whose lines are two header lines, an empty line and a
      stopping line. */
  lemma ParseAfterEmptyLine(data: string, first: string, second: string, plain: string)
    requires SplitLines(data) == [first, second, ""] + [plain] + []
    requires ':' in first && ':' in second && Stops(plain)
    ensures Parse(true, data) == Parsed(Collect([first, second, ""]), plain)
  {
    ParseStopped(data, [first, second, ""], plain, []);
    assert [plain] + [] == [plain];
  }

  /** Four lines without newlines, the last one not empty, split back. */
  lemma SplitFourLines(first: string, second: string, plain: string)
    requires '\n' !in first && '\n' !in second && '\n' !in plain && plain != []
    ensures SplitLines(Join("\n", [first, second, "", plain])) == [first, second, ""] + [plain] + []
  {
    SplitLinesOfJoin([first, second, "", plain]);
  }
}
