/** `parse_frontmatter` (tools/migrate_claude_project.py:37-51): split a
    document into a `key: value` header and a trimmed body. The header block
    opens with `---` at the very start and closes at the next `---`, which may
    stand anywhere, not only on a line of its own (the source splits with
    `content.split("---", 2)`). */
module Frontmatter {
  import opened Text

  const Delimiter := "---"

  type Header = map<string, string>

  datatype Parsed = Parsed(header: Header, body: string)

  /** `k, v = line.split(":", 1)`, both trimmed: the line cut at its first colon. */
  function SplitAtColon(line: string): (kv: (string, string))
    requires ':' in line
  {
    FindChar(line, ':');
    var parts := SplitMax(line, ":", 1);
    (Strip(parts[0]), Strip(parts[1]))
  }

  /** The key is the trimmed text before the first colon, the value the
      trimmed text after it, colons included. */
  lemma SplitAtColonShape(line: string)
    requires ':' in line
    ensures exists i :: (0 <= i < |line| && line[i] == ':' && ':' !in line[..i] &&
                         SplitAtColon(line) == (Strip(line[..i]), Strip(line[i + 1..])))
  {
    FindChar(line, ':');
    var i := Find(line, ":").value;
    SplitAtFirst(line, ":", i);
    assert line[i..i + 1] == ":";
    if ':' in line[..i] {
      var j :| 0 <= j < i && line[..i][j] == ':';
      assert line[..i][j..j + 1] == ":";
      assert OccursAt(line[..i], ":", j);
    }
    SplitOnce(line, ":", i);
  }

  /** The pair a header line contributes; a line without a colon gives none. */
  function LineEntry(line: string): Option<(string, string)> {
    if ':' in line then Some(SplitAtColon(line)) else None
  }

  /** The map built by storing each line's pair in turn, so that a later line
      overwrites an earlier one with the same key. */
  function Collect(lines: seq<string>, entry: string -> Option<(string, string)>): Header
    decreases |lines|
  {
    if lines == [] then map[]
    else
      var h := Collect(lines[..|lines| - 1], entry);
      match entry(lines[|lines| - 1])
      case None => h
      case Some(kv) => h[kv.0 := kv.1]
  }

  /** The header the loop at lines 47-50 builds from `lines`. */
  function HeaderOf(lines: seq<string>): Header {
    Collect(lines, LineEntry)
  }

  /** Some line of `lines` gives a pair with key `k`. */
  ghost predicate Names(lines: seq<string>, entry: string -> Option<(string, string)>, k: string) {
    exists i :: 0 <= i < |lines| && entry(lines[i]).Some? && entry(lines[i]).value.0 == k
  }

  /** A key is in the collected map exactly when some line names it. */
  lemma {:induction false} CollectKeys(lines: seq<string>, entry: string -> Option<(string, string)>, k: string)
    ensures k in Collect(lines, entry) <==> Names(lines, entry, k)
    decreases |lines|
  {
    if lines != [] {
      var n := |lines| - 1;
      var init := lines[..n];
      CollectKeys(init, entry, k);
      if Names(init, entry, k) {
        var i :| 0 <= i < |init| && entry(init[i]).Some? && entry(init[i]).value.0 == k;
        assert lines[i] == init[i];
      }
      if Names(lines, entry, k) {
        var i :| 0 <= i < |lines| && entry(lines[i]).Some? && entry(lines[i]).value.0 == k;
        if i < n { assert init[i] == lines[i]; }
      }
    }
  }

  /** The value stored for a key is the one from the last line naming it. */
  lemma {:induction false} CollectLastWins(lines: seq<string>, entry: string -> Option<(string, string)>, i: nat)
    requires i < |lines| && entry(lines[i]).Some?
    requires forall j :: i < j < |lines| && entry(lines[j]).Some? ==>
      entry(lines[j]).value.0 != entry(lines[i]).value.0
    ensures entry(lines[i]).value.0 in Collect(lines, entry)
    ensures Collect(lines, entry)[entry(lines[i]).value.0] == entry(lines[i]).value.1
    decreases |lines|
  {
    var init := lines[..|lines| - 1];
    if i < |lines| - 1 {
      assert init[i] == lines[i];
      forall j | i < j < |init| && entry(init[j]).Some?
        ensures entry(init[j]).value.0 != entry(init[i]).value.0
      {
        assert init[j] == lines[j];
      }
      CollectLastWins(init, entry, i);
    }
  }

  /** A key is in the header exactly when some line with a colon names it. */
  lemma HeaderKeys(lines: seq<string>, k: string)
    ensures k in HeaderOf(lines) <==>
      exists i :: 0 <= i < |lines| && LineEntry(lines[i]).Some? && LineEntry(lines[i]).value.0 == k
  {
    CollectKeys(lines, LineEntry, k);
  }

  /** The value stored for a key is the one from the last line naming it. */
  lemma HeaderLastWins(lines: seq<string>, i: nat, k: string, v: string)
    requires i < |lines| && LineEntry(lines[i]) == Some((k, v))
    requires forall j :: i < j < |lines| && LineEntry(lines[j]).Some? ==> LineEntry(lines[j]).value.0 != k
    ensures k in HeaderOf(lines) && HeaderOf(lines)[k] == v
  {
    CollectLastWins(lines, LineEntry, i);
  }

  /** `parse_frontmatter(content)` */
  function Parse(content: string): Parsed {
    if !StartsWith(content, Delimiter) then Parsed(map[], content)
    else
      var parts := SplitMax(content, Delimiter, 2);
      if |parts| < 3 then Parsed(map[], content)
      else Parsed(HeaderOf(SplitLines(Strip(parts[1]))), Strip(parts[2]))
  }

  /** The source's `parse_frontmatter`, filling the header map line by line. */
  method ParseFrontmatter(content: string) returns (header: Header, body: string)
    ensures Parsed(header, body) == Parse(content)
  {
    if !StartsWith(content, Delimiter) {
      return map[], content;
    }
    var parts := SplitMax(content, Delimiter, 2);
    if |parts| < 3 {
      return map[], content;
    }
    body := Strip(parts[2]);
    header := CollectHeader(SplitLines(Strip(parts[1])));
  }

  /** The loop at lines 47-50. */
  method CollectHeader(lines: seq<string>) returns (header: Header)
    ensures header == HeaderOf(lines)
  {
    header := map[];
    for i := 0 to |lines|
      invariant header == HeaderOf(lines[..i])
    {
      var line := lines[i];
      assert lines[..i + 1][..i] == lines[..i] && lines[..i + 1][i] == line;
      if ':' in line {
        var (k, v) := SplitAtColon(line);
        header := header[k := v];
      }
    }
    assert lines[..|lines|] == lines;
  }

  /** The opening delimiter is found at the start, so the header ends at the
      first `---` after those three characters. */
  lemma DelimiterParts(content: string)
    requires StartsWith(content, Delimiter)
    ensures var parts := SplitMax(content, Delimiter, 2);
      parts[0] == [] && parts[1..] == SplitMax(content[3..], Delimiter, 1)
  {
    assert OccursAt(content, Delimiter, 0);
  }

  /** No header: the text does not start with `---`, or no second `---`
      follows. The result is then an empty header and the text unchanged. */
  lemma ParseWithoutHeader(content: string)
    requires !StartsWith(content, Delimiter) || Find(content[3..], Delimiter).None?
    ensures Parse(content) == Parsed(map[], content)
  {
    if StartsWith(content, Delimiter) {
      DelimiterParts(content);
    }
  }

  /** With a header: its lines are the trimmed text between the opening `---`
      and the next `---`, and the body is the trimmed text after that. */
  lemma ParseWithHeader(content: string, j: nat)
    requires StartsWith(content, Delimiter)
    requires Find(content[3..], Delimiter) == Some(j)
    ensures 6 + j <= |content|
    ensures Parse(content) ==
      Parsed(HeaderOf(SplitLines(Strip(content[3..3 + j]))), Strip(content[6 + j..]))
  {
    DelimiterParts(content);
    var rest := content[3..];
    SplitOnce(rest, Delimiter, j);
    var parts := SplitMax(content, Delimiter, 2);
    assert parts[1] == parts[1..][0] && parts[2] == parts[1..][1];
    assert rest[..j] == content[3..3 + j];
    assert rest[j + 3..] == content[6 + j..];
  }

  /** The worked example: `"---\nname: Foo\n---\nBody text"`. */
  lemma ParseExample()
    ensures Parse("---\nname: Foo\n---\nBody text") == Parsed(map["name" := "Foo"], "Body text")
  {
    var content := "---\nname: Foo\n---\nBody text";
    var rest := "\nname: Foo\n---\nBody text";
    ExampleOpening(content, rest);
    ExampleClosingDelimiter(rest);
    ParseWithHeader(content, 11);
    ExampleRestPieces(rest);
    ExampleStrips(rest[..11], rest[14..]);
    ExampleHeader();
  }

  lemma ExampleOpening(content: string, rest: string)
    requires content == "---\nname: Foo\n---\nBody text"
    requires rest == "\nname: Foo\n---\nBody text"
    ensures StartsWith(content, Delimiter) && content[3..] == rest
    ensures content[3..14] == rest[..11] && content[17..] == rest[14..]
  {
    assert content[..3] == Delimiter;
    ExamplePieces(content, rest);
  }

  lemma ExampleRestPieces(rest: string)
    requires rest == "\nname: Foo\n---\nBody text"
    ensures rest[..11] == "\nname: Foo\n" && rest[14..] == "\nBody text"
  {
  }

  lemma ExamplePieces(content: string, rest: string)
    requires 3 <= |content| && content[3..] == rest && |rest| == 24
    ensures content[3..14] == rest[..11] && content[17..] == rest[14..]
  {
  }

  lemma ExampleStrips(header: string, body: string)
    requires header == "\nname: Foo\n" && body == "\nBody text"
    ensures Strip(header) == "name: Foo" && Strip(body) == "Body text"
  {
    ExampleHeaderStrip(header);
    ExampleBodyStrip(body);
  }

  lemma ExampleHeaderStrip(header: string)
    requires header == "\nname: Foo\n"
    ensures Strip(header) == "name: Foo"
  {
    var h := "name: Foo";
    assert header[1..10] == h;
    StripInner(header, h);
  }

  lemma ExampleBodyStrip(body: string)
    requires body == "\nBody text"
    ensures Strip(body) == "Body text"
  {
    var b := "Body text";
    assert body[1..10] == b;
    StripInner(body, b);
  }

  /** A line break before `t`, and possibly one after, is stripped away. */
  lemma StripInner(s: string, t: string)
    requires 0 < |t| && !IsSpace(t[0]) && !IsSpace(t[|t| - 1])
    requires |t| + 1 <= |s| <= |t| + 2 && s[1..1 + |t|] == t
    requires s[0] == '\n' && (|s| == |t| + 1 || s[|s| - 1] == '\n')
    ensures Strip(s) == t
  {
    assert s[1] == t[0] && s[|t|] == t[|t| - 1];
    StripAround(s, 1, |t|);
  }

  lemma ExampleClosingDelimiter(rest: string)
    requires rest == "\nname: Foo\n---\nBody text"
    ensures Find(rest, Delimiter) == Some(11)
  {
    assert rest[..11] == "\nname: Foo\n" && rest[11..14] == Delimiter;
    FindAt(rest, Delimiter, 11);
  }

  lemma ExampleHeader()
    ensures HeaderOf(SplitLines("name: Foo")) == map["name" := "Foo"]
  {
    var line := "name: Foo";
    SplitLinesSingle(line);
    ExampleEntry(line);
    assert [line][..0] == [];
  }

  lemma ExampleEntry(line: string)
    requires line == "name: Foo"
    ensures LineEntry(line) == Some(("name", "Foo"))
  {
    ExampleSplit(line);
    var parts := SplitMax(line, ":", 1);
    var k, v := "name", " Foo";
    assert parts[0] == k;
    assert parts[1] == v;
    ExampleKey(parts[0]);
    ExampleValue(parts[1]);
  }

  lemma ExampleKey(key: string)
    requires key == "name"
    ensures Strip(key) == "name"
  {
    assert key[0] == 'n' && key[3] == 'e';
    assert !IsSpace(key[0]) && !IsSpace(key[|key| - 1]);
    StripByFixed(key, IsSpace);
  }

  lemma ExampleValue(value: string)
    requires value == " Foo"
    ensures Strip(value) == "Foo"
  {
    var v := "Foo";
    assert value[1..4] == v;
    StripAround(value, 1, 3);
  }

  lemma ExampleSplit(line: string)
    requires line == "name: Foo"
    ensures ':' in line && SplitMax(line, ":", 1) == [line[..4], line[5..]]
  {
    assert line[..4] == "name" && line[4..5] == ":";
    FindAt(line, ":", 4);
    assert line[4] == ':';
    SplitOnce(line, ":", 4);
  }
}
