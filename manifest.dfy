/**
 * Reading the playlist: where relative segment references are resolved
 * from, and which lines of the manifest name segments.
 */
module Manifest {
  import opened Common
  import opened Text

  /**
   * `url.rsplit("/", 1)[0] + "/"`: the URL up to and including its last
   * `/`, or the whole URL followed by `/` when it has none.
   */
  function BaseUrl(url: string): (base: string)
    ensures |base| > 0 && base[|base| - 1] == '/'
    ensures '/' !in url ==> base == url + "/"
    ensures '/' in url ==> base <= url && '/' !in url[|base|..]
  {
    if '/' !in url then url + "/" else UpToLastSlash(url)
  }

  function UpToLastSlash(s: string): (prefix: string)
    requires '/' in s
    ensures prefix <= s && |prefix| > 0 && prefix[|prefix| - 1] == '/'
    ensures '/' !in s[|prefix|..]
  {
    if s[|s| - 1] == '/' then s
    else
      var init := s[..|s| - 1];
      assert '/' in init by {
        var k :| 0 <= k < |s| && s[k] == '/';
        assert init[k] == '/';
      }
      var prefix := UpToLastSlash(init);
      assert s[|prefix|..] == init[|prefix|..] + [s[|s| - 1]];
      prefix
  }

  /** The manifest's lines; `str.splitlines` is modelled as a split on `\n`. */
  function Lines(content: string): seq<string> {
    Split(content, '\n')
  }

  /** A line that names a segment: not empty and not a `#` tag or comment. */
  predicate IsSegmentLine(line: string) {
    line != "" && line[0] != '#'
  }

  /** The comprehension's body and condition: a segment line resolved against `base`. */
  function UrlOfLine(base: string, join: (string, string) -> string): string -> Option<string> {
    line => if IsSegmentLine(line) then Some(join(base, line)) else None
  }

  /**
   * `[urljoin(base, line) for line in lines if line and not line.startswith("#")]`,
   * with `urljoin` given as `join`.
   */
  function SegmentUrls(content: string, base: string, join: (string, string) -> string): (urls: seq<string>)
    ensures |urls| <= |Lines(content)|
    ensures '\n' !in content ==> urls == (if IsSegmentLine(content) then [join(base, content)] else [])
  {
    SingleLine(content, base, join);
    FilterMap(Lines(content), UrlOfLine(base, join))
  }

  /** A manifest without a line break is one line. */
  lemma SingleLine(content: string, base: string, join: (string, string) -> string)
    ensures '\n' !in content ==>
              FilterMap(Lines(content), UrlOfLine(base, join))
              == (if IsSegmentLine(content) then [join(base, content)] else [])
  {
    if '\n' !in content {
      var lines := Lines(content);
      assert forall k :: 0 <= k < |content| ==> content[k] != '\n';
      assert |lines| == 1 && |lines[0]| == |content|;
      assert lines[0] == content[..|lines[0]|] == content;
      assert lines == [content];
      assert lines[..0] == [];
    }
  }

  /** The number of segment lines (independent of the extraction). */
  function SegmentLineCount(lines: seq<string>): nat {
    if lines == [] then 0
    else SegmentLineCount(lines[..|lines| - 1]) + (if IsSegmentLine(lines[|lines| - 1]) then 1 else 0)
  }

  lemma {:induction false} CountSomeIsSegmentLineCount(lines: seq<string>, base: string, join: (string, string) -> string)
    ensures CountSome(lines, UrlOfLine(base, join)) == SegmentLineCount(lines)
  {
    if lines != [] {
      CountSomeIsSegmentLineCount(lines[..|lines| - 1], base, join);
    }
  }

  /** Exactly one URL per segment line: blank and `#` lines contribute nothing. */
  lemma SegmentUrlsCount(content: string, base: string, join: (string, string) -> string)
    ensures |SegmentUrls(content, base, join)| == SegmentLineCount(Lines(content))
  {
    FilterMapLength(Lines(content), UrlOfLine(base, join));
    CountSomeIsSegmentLineCount(Lines(content), base, join);
  }

  /**
   * Manifest order is kept: segment line `i` gives the URL at the position
   * equal to the number of segment lines before it.
   */
  lemma SegmentUrlsInOrder(content: string, base: string, join: (string, string) -> string, i: nat)
    requires i < |Lines(content)| && IsSegmentLine(Lines(content)[i])
    ensures SegmentLineCount(Lines(content)[..i]) < |SegmentUrls(content, base, join)|
    ensures SegmentUrls(content, base, join)[SegmentLineCount(Lines(content)[..i])] == join(base, Lines(content)[i])
  {
    FilterMapPosition(Lines(content), UrlOfLine(base, join), i);
    CountSomeIsSegmentLineCount(Lines(content)[..i], base, join);
  }

  /** Conversely, every URL is the resolution of a segment line, at that line's position. */
  lemma SegmentUrlsFromLines(content: string, base: string, join: (string, string) -> string, k: nat) returns (i: nat)
    requires k < |SegmentUrls(content, base, join)|
    ensures i < |Lines(content)| && IsSegmentLine(Lines(content)[i])
    ensures SegmentUrls(content, base, join)[k] == join(base, Lines(content)[i])
    ensures k == SegmentLineCount(Lines(content)[..i])
  {
    i := FilterMapOrigin(Lines(content), UrlOfLine(base, join), k);
    CountSomeIsSegmentLineCount(Lines(content)[..i], base, join);
  }

  /** A manifest with a tag line, a blank line and two segments yields the two segments, in order. */
  lemma SegmentUrlsExample(content: string, join: (string, string) -> string)
    requires content == "#EXTM3U\n\na.ts\nb.ts"
    ensures SegmentUrls(content, "http://h/v/", join)
         == [join("http://h/v/", "a.ts"), join("http://h/v/", "b.ts")]
  {
    var lines := ["#EXTM3U", "", "a.ts", "b.ts"];
    ExampleLines(content, lines);
    var f := UrlOfLine("http://h/v/", join);
    assert lines[0][0] == '#' && !IsSegmentLine(lines[0]);
    assert lines[1] == "" && !IsSegmentLine(lines[1]);
    assert IsSegmentLine(lines[2]) && IsSegmentLine(lines[3]);
    TwoOfFour(lines, f);
  }

  /** Four lines of which only the last two name segments give their two URLs. */
  lemma TwoOfFour(lines: seq<string>, f: string -> Option<string>)
    requires |lines| == 4 && f(lines[0]).None? && f(lines[1]).None? && f(lines[2]).Some? && f(lines[3]).Some?
    ensures FilterMap(lines, f) == [f(lines[2]).value, f(lines[3]).value]
  {
    FilterMapPrefix(lines, f, 0);
    FilterMapPrefix(lines, f, 1);
    FilterMapPrefix(lines, f, 2);
    FilterMapPrefix(lines, f, 3);
    assert lines[..0] == [];
    assert lines[..4] == lines;
  }

  lemma ExampleLines(content: string, lines: seq<string>)
    requires content == "#EXTM3U\n\na.ts\nb.ts"
    requires lines == ["#EXTM3U", "", "a.ts", "b.ts"]
    ensures Lines(content) == lines
  {
    var tail := ["a.ts", "b.ts"];
    assert JoinFields(tail, '\n') == "a.ts\nb.ts";
    assert JoinFields(lines[1..], '\n') == "\na.ts\nb.ts" by { assert lines[1..][1..] == tail; }
    assert JoinFields(lines, '\n') == "#EXTM3U\n\na.ts\nb.ts";
    SplitJoin(lines, '\n');
  }
}
