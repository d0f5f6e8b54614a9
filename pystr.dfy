/** The few Python 2 string operations the page core relies on, written out
    so that their edge cases (negative slices, leading-dot file names,
    separators inside values) are part of the model rather than assumed. */
module PyStr {

  /** `c.lower()` on a byte string: only the ASCII capitals change. */
  function LowerChar(c: char): (r: char)
    ensures 'A' <= c <= 'Z' ==> 'a' <= r <= 'z' && r as int == c as int + 32
    ensures !('A' <= c <= 'Z') ==> r == c
  {
    if 'A' <= c <= 'Z' then (c as int + 32) as char else c
  }

  /** `s.lower()`: the same length, character by character. */
  function Lower(s: string): (r: string)
    ensures |r| == |s|
    ensures forall i :: 0 <= i < |s| ==> r[i] == LowerChar(s[i])
  {
    if s == [] then [] else [LowerChar(s[0])] + Lower(s[1..])
  }

  lemma {:induction false} LowerIdempotent(s: string)
    ensures Lower(Lower(s)) == Lower(s)
  {
    if s != [] {
      LowerIdempotent(s[1..]);
    }
  }

  /** A string without ASCII capitals is its own lowercase form. */
  lemma LowerKeepsLowercase(s: string)
    requires forall i :: 0 <= i < |s| ==> !('A' <= s[i] <= 'Z')
    ensures Lower(s) == s
  {
  }

  /** `s.endswith(suffix)`: `s` is some prefix followed by `suffix`. */
  predicate EndsWith(s: string, suffix: string)
    ensures EndsWith(s, suffix) ==> |suffix| <= |s| && s == s[..|s| - |suffix|] + suffix
  {
    |suffix| <= |s| && s[|s| - |suffix|..] == suffix
  }

  /** Any string ends with what was appended to it. */
  lemma EndsWithAppended(s: string, suffix: string)
    ensures EndsWith(s + suffix, suffix)
  {
    assert (s + suffix)[|s|..] == suffix;
  }

  /** `s[:-n]` for a positive `n`: Python clamps the negative bound, so a
      string shorter than `n` gives the empty string. */
  function ChopRight(s: string, n: nat): (r: string)
    requires n > 0
    ensures |s| >= n ==> |r| == |s| - n
    ensures |s| < n ==> r == []
    ensures r <= s
  {
    if |s| >= n then s[..|s| - n] else []
  }

  /** Index of the first `c` in `s`, or `|s|` when there is none (`s.find(c)`
      with -1 replaced by the length). */
  function IndexOf(s: string, c: char): (k: nat)
    ensures k <= |s|
    ensures k < |s| <==> c in s
    ensures k < |s| ==> s[k] == c
    ensures forall j :: 0 <= j < k ==> s[j] != c
  {
    if s == [] then 0
    else if s[0] == c then 0
    else 1 + IndexOf(s[1..], c)
  }

  /** `s.rfind(c)`: index of the last `c` in `s`, or -1. */
  function LastIndexOf(s: string, c: char): (k: int)
    ensures -1 <= k < |s|
    ensures k >= 0 ==> s[k] == c
    ensures forall j :: k < j < |s| ==> s[j] != c
  {
    if s == [] then -1
    else if s[|s| - 1] == c then |s| - 1
    else LastIndexOf(s[..|s| - 1], c)
  }

  /** `os.path.splitext` on POSIX paths: the extension is the suffix from the
      last `.` of the last path component, provided some character before
      that dot in the component is not a dot; otherwise there is none (so
      `.bashrc` and `dir/..x` have no extension). */
  function SplitExt(p: string): (r: (string, string))
    ensures r.0 + r.1 == p
  {
    var cut := ExtensionStart(p);
    assert p[..cut] + p[cut..] == p;
    (p[..cut], p[cut..])
  }

  /** Where the extension of `p` starts: its last dot when that dot is in the
      last path component after some non-dot character of it, else `|p|`. */
  function ExtensionStart(p: string): (cut: nat)
    ensures cut <= |p|
  {
    var sep := LastIndexOf(p, '/');
    var dot := LastIndexOf(p, '.');
    if dot > sep && HasNonDot(p[sep + 1..dot]) then dot else |p|
  }

  /** A non-empty extension is one dot followed by neither dots nor path
      separators. */
  lemma SplitExtShape(p: string)
    ensures var ext := SplitExt(p).1;
      ext != [] ==> ext[0] == '.' && '.' !in ext[1..] && '/' !in ext
  {
    var dot := LastIndexOf(p, '.');
    var ext := SplitExt(p).1;
    if ext != [] {
      assert ext == p[dot..];
      forall j | 0 <= j < |ext|
        ensures ext[j] == p[dot + j] && ext[j] != '/' && (j > 0 ==> ext[j] != '.')
      {
      }
    }
  }

  /** Some character of `s` is not a dot. */
  predicate HasNonDot(s: string) {
    exists i :: 0 <= i < |s| && s[i] != '.'
  }

  /** The extension is non-empty exactly when the last path component has a
      dot with some non-dot character before it within the component. */
  lemma SplitExtHasExtension(p: string)
    ensures SplitExt(p).1 != [] <==> DotAfterNonDot(p, LastIndexOf(p, '/'))
  {
    SplitExtHasExtensionOnlyIf(p);
    SplitExtHasExtensionIf(p);
  }

  lemma SplitExtHasExtensionOnlyIf(p: string)
    ensures SplitExt(p).1 != [] ==> DotAfterNonDot(p, LastIndexOf(p, '/'))
  {
    var sep := LastIndexOf(p, '/');
    var dot := LastIndexOf(p, '.');
    if dot > sep && HasNonDot(p[sep + 1..dot]) {
      NonDotBeforeDot(p, sep, dot);
    }
  }

  /** A non-dot character between `sep` and a dot is a witness for
      `DotAfterNonDot`. */
  lemma NonDotBeforeDot(p: string, sep: int, dot: int)
    requires -1 <= sep < dot < |p| && p[dot] == '.'
    requires HasNonDot(p[sep + 1..dot])
    ensures DotAfterNonDot(p, sep)
  {
    var part := p[sep + 1..dot];
    var i :| 0 <= i < |part| && part[i] != '.';
    assert p[sep + 1 + i] == part[i];
    assert DotAt(p, sep, sep + 1 + i, dot);
  }

  lemma SplitExtHasExtensionIf(p: string)
    ensures DotAfterNonDot(p, LastIndexOf(p, '/')) ==> SplitExt(p).1 != []
  {
    var sep := LastIndexOf(p, '/');
    var dot := LastIndexOf(p, '.');
    if DotAfterNonDot(p, sep) {
      var i, j :| DotAt(p, sep, i, j);
      assert j <= dot;
      var part := p[sep + 1..dot];
      assert part[i - sep - 1] == p[i];
      assert HasNonDot(part);
      assert SplitExt(p) == (p[..dot], p[dot..]);
    }
  }

  /** After position `sep`, `p` has a non-dot character followed later by a dot. */
  ghost predicate DotAfterNonDot(p: string, sep: int) {
    exists i, j :: DotAt(p, sep, i, j)
  }

  ghost predicate DotAt(p: string, sep: int, i: int, j: int) {
    -1 <= sep < i < j < |p| && p[j] == '.' && p[i] != '.'
  }

  /** The whitespace `str.strip()` removes from a byte string. */
  predicate IsSpace(c: char) {
    c == ' ' || c == '\t' || c == '\n' || c == '\r' || c as int == 11 || c as int == 12
  }

  /** Number of leading whitespace characters of `s`. */
  function LeadingSpace(s: string): (n: nat)
    ensures n <= |s|
    ensures forall i :: 0 <= i < n ==> IsSpace(s[i])
    ensures n < |s| ==> !IsSpace(s[n])
  {
    if s != [] && IsSpace(s[0]) then 1 + LeadingSpace(s[1..]) else 0
  }

  /** Number of trailing whitespace characters of `s`. */
  function TrailingSpace(s: string): (n: nat)
    ensures n <= |s|
    ensures forall i :: |s| - n <= i < |s| ==> IsSpace(s[i])
    ensures n < |s| ==> !IsSpace(s[|s| - n - 1])
  {
    if s != [] && IsSpace(s[|s| - 1]) then 1 + TrailingSpace(s[..|s| - 1]) else 0
  }

  /** `s.strip()`: the longest infix of `s` that neither starts nor ends with
      whitespace, everything around it being whitespace. */
  function Strip(s: string): (r: string)
    ensures r == [] || (!IsSpace(r[0]) && !IsSpace(r[|r| - 1]))
    ensures exists a :: StrippedAt(s, r, a)
  {
    var a := LeadingSpace(s);
    var t := s[a..];
    var b := TrailingSpace(t);
    var r := t[..|t| - b];
    assert StrippedAt(s, r, a);
    r
  }

  /** `r` sits at offset `a` of `s` with only whitespace around it. */
  predicate StrippedAt(s: string, r: string, a: nat) {
    && a + |r| <= |s|
    && s[a..a + |r|] == r
    && (forall i :: 0 <= i < a ==> IsSpace(s[i]))
    && (forall i :: a + |r| <= i < |s| ==> IsSpace(s[i]))
  }

  /** Neither starts nor ends with whitespace. */
  predicate IsStripped(s: string) {
    s == [] || (!IsSpace(s[0]) && !IsSpace(s[|s| - 1]))
  }

  /** `strip` leaves a stripped string as it is. */
  lemma StripUnchanged(s: string)
    requires IsStripped(s)
    ensures Strip(s) == s
  {
    assert LeadingSpace(s) == 0;
    assert s[0..] == s;
    assert TrailingSpace(s) == 0;
  }

  /** A leading whitespace character makes no difference to `strip`. */
  lemma StripDropsLeadingSpace(c: char, s: string)
    requires IsSpace(c)
    ensures Strip([c] + s) == Strip(s)
  {
    var t := [c] + s;
    assert t[1..] == s;
    assert LeadingSpace(t) == 1 + LeadingSpace(s);
    assert t[LeadingSpace(t)..] == s[LeadingSpace(s)..];
  }

  /** A string without `c` keeps none after stripping. */
  lemma StripKeepsOut(s: string, c: char)
    requires c !in s
    ensures c !in Strip(s)
  {
    var r := Strip(s);
    var a: nat :| StrippedAt(s, r, a);
    assert r == s[a..a + |r|];
    assert forall i :: 0 <= i < |r| ==> r[i] == s[a + i];
  }

  /** `s.split(c)` with an explicit one-character separator: at least one
      piece, the first being everything before the first `c`. */
  function SplitOn(s: string, c: char): (parts: seq<string>)
    ensures |parts| >= 1
    ensures parts[0] == s[..IndexOf(s, c)]
    decreases |s|
  {
    if c !in s then
      assert s[..IndexOf(s, c)] == s;
      [s]
    else
      [s[..IndexOf(s, c)]] + SplitOn(s[IndexOf(s, c) + 1..], c)
  }

  /** No piece of a split holds the separator. */
  lemma {:induction false} SplitOnPiecesFree(s: string, c: char)
    ensures forall i :: 0 <= i < |SplitOn(s, c)| ==> c !in SplitOn(s, c)[i]
    decreases |s|
  {
    var k := IndexOf(s, c);
    if k < |s| {
      var rest := s[k + 1..];
      SplitOnFirst(s, c);
      SplitOnPiecesFree(rest, c);
      var parts := SplitOn(s, c);
      forall i | 0 <= i < |parts| ensures c !in parts[i] {
        if i > 0 {
          assert parts[i] == SplitOn(rest, c)[i - 1];
        }
      }
    }
  }

  /** `sep.join(parts)`: starts with the first piece, followed by the
      separator when more pieces come. */
  function Join(sep: string, parts: seq<string>): (r: string)
    ensures parts != [] ==> parts[0] <= r
    ensures |parts| > 1 ==> parts[0] + sep <= r
  {
    if |parts| == 0 then []
    else if |parts| == 1 then parts[0]
    else parts[0] + sep + Join(sep, parts[1..])
  }

  /** Splitting on `c` and joining back with `c` gives the string back. */
  lemma {:induction false} JoinSplitOn(s: string, c: char)
    ensures Join([c], SplitOn(s, c)) == s
    decreases |s|
  {
    if c in s {
      var k := IndexOf(s, c);
      var rest := s[k + 1..];
      var tail := SplitOn(rest, c);
      JoinSplitOn(rest, c);
      SplitOnFirst(s, c);
      JoinCons([c], s[..k], tail);
      assert Join([c], SplitOn(s, c)) == s[..k] + [c] + rest;
      assert s == s[..k] + [c] + rest;
    } else {
      assert SplitOn(s, c) == [s];
    }
  }

  /** Splitting at the first `c`. */
  lemma SplitOnFirst(s: string, c: char)
    requires c in s
    ensures SplitOn(s, c) == [s[..IndexOf(s, c)]] + SplitOn(s[IndexOf(s, c) + 1..], c)
  {
  }

  /** Joining a first piece onto a non-empty rest. */
  lemma JoinCons(sep: string, first: string, rest: seq<string>)
    requires rest != []
    ensures Join(sep, [first] + rest) == first + sep + Join(sep, rest)
  {
    assert ([first] + rest)[1..] == rest;
  }

  /** The first `c` of `pre + [c] + post` is the one after `pre` when `pre`
      has none. */
  lemma IndexOfAfter(pre: string, c: char, post: string)
    requires c !in pre
    ensures IndexOf(pre + [c] + post, c) == |pre|
  {
    var s := pre + [c] + post;
    assert s[|pre|] == c;
    forall j | 0 <= j < |pre| ensures s[j] != c { assert s[j] == pre[j]; }
  }

  /** Joining pieces free of `c` with `c` and splitting on `c` gives the
      pieces back. */
  lemma {:induction false} SplitOnJoin(parts: seq<string>, c: char)
    requires parts != []
    requires forall i :: 0 <= i < |parts| ==> c !in parts[i]
    ensures SplitOn(Join([c], parts), c) == parts
  {
    var first := parts[0];
    assert c !in first;
    if |parts| == 1 {
      assert IndexOf(first, c) == |first|;
      assert first[..|first|] == first;
    } else {
      var tail := parts[1..];
      forall i | 0 <= i < |tail| ensures c !in tail[i] {
        assert tail[i] == parts[i + 1];
      }
      SplitOnJoin(tail, c);
      var rest := Join([c], tail);
      assert Join([c], parts) == first + [c] + rest;
      SplitOnAfterFirst(first, c, rest);
      assert parts == [first] + tail;
    }
  }

  /** Splitting `first + [c] + rest`, where `first` has no `c`, yields
      `first` and then the pieces of `rest`. */
  lemma SplitOnAfterFirst(first: string, c: char, rest: string)
    requires c !in first
    ensures SplitOn(first + [c] + rest, c) == [first] + SplitOn(rest, c)
  {
    var s := first + [c] + rest;
    IndexOfAfter(first, c, rest);
    assert s[..|first|] == first;
    assert s[|first| + 1..] == rest;
    SplitOnFirst(s, c);
  }

  /** Everything after the first `c`, joined back with `c`, is the rest of
      the string after that first `c`: later occurrences of `c` survive. */
  lemma {:induction false} JoinTailAfterFirst(s: string, c: char)
    requires c in s
    ensures Join([c], SplitOn(s, c)[1..]) == s[IndexOf(s, c) + 1..]
  {
    var k := IndexOf(s, c);
    var rest := s[k + 1..];
    SplitOnFirst(s, c);
    JoinSplitOn(rest, c);
  }

  /** A join ends with its last piece. */
  lemma {:induction false} JoinEndsWithLast(sep: string, parts: seq<string>)
    requires parts != []
    ensures EndsWith(Join(sep, parts), parts[|parts| - 1])
  {
    if |parts| > 1 {
      JoinEndsWithLast(sep, parts[1..]);
      var j := Join(sep, parts);
      var t := Join(sep, parts[1..]);
      var last := parts[|parts| - 1];
      assert j == (parts[0] + sep) + t;
      assert j[|j| - |last|..] == t[|t| - |last|..];
    }
  }

  /** `s.splitlines()` with `'\n'` as the only line boundary: a final
      newline does not start an extra empty line, and the empty string has
      no lines at all. */
  function SplitLines(s: string): (lines: seq<string>)
    ensures forall i :: 0 <= i < |lines| ==> '\n' !in lines[i]
    ensures lines == [] <==> s == []
  {
    if s == [] then []
    else
      var text := if s[|s| - 1] == '\n' then s[..|s| - 1] else s;
      SplitOnPiecesFree(text, '\n');
      SplitOn(text, '\n')
  }

  /** Lines without newlines, the last one not empty, joined with `'\n'`
      split back into the same lines. */
  lemma SplitLinesOfJoin(lines: seq<string>)
    requires lines != [] && lines[|lines| - 1] != []
    requires forall i :: 0 <= i < |lines| ==> '\n' !in lines[i]
    ensures SplitLines(Join("\n", lines)) == lines
  {
    SplitOnJoin(lines, '\n');
    var s := Join("\n", lines);
    var last := lines[|lines| - 1];
    JoinEndsWithLast("\n", lines);
    assert s[|s| - 1] == last[|last| - 1];
    assert '\n' !in last;
  }

  /** Joining the lines with `'\n'` restores the text, up to the one final
      newline that `splitlines` drops. */
  lemma JoinSplitLines(s: string)
    ensures Join("\n", SplitLines(s)) + (if s != [] && s[|s| - 1] == '\n' then "\n" else []) == s
  {
    if s != [] {
      if s[|s| - 1] == '\n' {
        var t := s[..|s| - 1];
        assert SplitLines(s) == SplitOn(t, '\n');
        JoinSplitOn(t, '\n');
        LastSplit(s);
      } else {
        JoinSplitOn(s, '\n');
      }
    }
  }

  /** A non-empty string is its prefix and its last character. */
  lemma LastSplit(s: string)
    requires s != []
    ensures s == s[..|s| - 1] + [s[|s| - 1]]
  {
  }
}
