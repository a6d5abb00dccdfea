/** `infer_desc` (tools/migrate_claude_project.py:53-60): a one-line
    description for a markdown body. A heading line wins over everything;
    otherwise the first non-blank line is used, shortened to 80 characters
    plus a three-character suffix; otherwise the fallback. */
module Describe {
  import opened Text

  /** The suffix appended to a shortened line. The source file holds the
      UTF-8 bytes of a doubly encoded ellipsis, so Python reads three
      characters: U+00E2, U+20AC and U+00A6. */
  const Suffix := "\U{E2}\U{20AC}\U{A6}"

  const Width := 80

  /** `line.strip().startswith("#")` */
  predicate IsHeading(line: string) {
    StartsWith(Strip(line), "#")
  }

  /** `line.strip()` is empty. */
  predicate IsBlank(line: string) {
    Strip(line) == []
  }

  /** `line.lstrip("#").strip()`, taken from the raw line. */
  function HeadingText(line: string): string {
    Strip(LStripBy(line, IsHash))
  }

  /** The trimmed line, cut to `Width` characters plus `Suffix` when longer. */
  function Shorten(line: string): string {
    var t := Strip(line);
    if |t| > Width then t[..Width] + Suffix else t
  }

  /** The index of the first element satisfying `p`. */
  function FirstWhere(xs: seq<string>, p: string -> bool): (r: Option<nat>)
    ensures r.Some? ==> r.value < |xs| && p(xs[r.value])
    ensures r.Some? ==> forall j :: 0 <= j < r.value ==> !p(xs[j])
    ensures r.None? ==> forall j :: 0 <= j < |xs| ==> !p(xs[j])
  {
    if xs == [] then None
    else if p(xs[0]) then Some(0)
    else match FirstWhere(xs[1..], p)
      case None => None
      case Some(i) => Some(i + 1)
  }

  /** `FirstWhere` finds exactly the first index satisfying `p`. */
  lemma FirstWhereIs(xs: seq<string>, p: string -> bool, i: nat)
    requires i < |xs| && p(xs[i]) && forall j :: 0 <= j < i ==> !p(xs[j])
    ensures FirstWhere(xs, p) == Some(i)
  {
  }

  lemma FirstWhereNone(xs: seq<string>, p: string -> bool)
    requires forall j :: 0 <= j < |xs| ==> !p(xs[j])
    ensures FirstWhere(xs, p) == None
  {
  }

  predicate NotBlank(line: string) { !IsBlank(line) }

  /** `infer_desc(md, fallback)` */
  function InferDesc(md: string, fallback: string): string {
    var lines := SplitLines(md);
    match FirstWhere(lines, IsHeading)
    case Some(i) => HeadingText(lines[i])
    case None =>
      match FirstWhere(lines, NotBlank)
      case Some(i) => Shorten(lines[i])
      case None => fallback
  }

  /** One of the source's search loops: the index of the first line
      satisfying `p`, or none. */
  method FindFirst(lines: seq<string>, p: string -> bool) returns (r: Option<nat>)
    ensures r == FirstWhere(lines, p)
  {
    for i := 0 to |lines|
      invariant forall j :: 0 <= j < i ==> !p(lines[j])
    {
      if p(lines[i]) {
        FirstWhereIs(lines, p, i);
        return Some(i);
      }
    }
    FirstWhereNone(lines, p);
    return None;
  }

  /** The source's two search loops with early return. */
  method InferDescription(md: string, fallback: string) returns (desc: string)
    ensures desc == InferDesc(md, fallback)
  {
    var lines := SplitLines(md);
    var heading := FindFirst(lines, IsHeading);
    if heading.Some? {
      return HeadingText(lines[heading.value]);
    }
    var first := FindFirst(lines, NotBlank);
    if first.Some? {
      var t := Strip(lines[first.value]);
      return if |t| > Width then t[..Width] + Suffix else t;
    }
    return fallback;
  }

  /** The first heading line decides, whatever plain lines precede it. */
  lemma HeadingWins(md: string, fallback: string, i: nat)
    requires var lines := SplitLines(md);
      i < |lines| && IsHeading(lines[i]) && forall j :: 0 <= j < i ==> !IsHeading(lines[j])
    ensures InferDesc(md, fallback) == HeadingText(SplitLines(md)[i])
  {
    FirstWhereIs(SplitLines(md), IsHeading, i);
  }

  /** Without a heading, the first non-blank line decides; the result is
      never longer than `Width` plus the suffix, and is the whole trimmed
      line when that fits. */
  lemma FirstLineUsed(md: string, fallback: string, i: nat)
    requires var lines := SplitLines(md);
      && (forall j :: 0 <= j < |lines| ==> !IsHeading(lines[j]))
      && i < |lines| && !IsBlank(lines[i])
      && (forall j :: 0 <= j < i ==> IsBlank(lines[j]))
    ensures var d := InferDesc(md, fallback); var t := Strip(SplitLines(md)[i]);
      && d == Shorten(SplitLines(md)[i])
      && 0 < |d| <= Width + |Suffix|
      && (|t| <= Width ==> d == t)
      && (|t| > Width ==> d[..Width] == t[..Width] && d[Width..] == Suffix)
  {
    var lines := SplitLines(md);
    FirstWhereNone(lines, IsHeading);
    FirstWhereIs(lines, NotBlank, i);
  }

  /** The fallback is used exactly when every line is blank: otherwise the
      result does not depend on it. */
  lemma FallbackOnlyWhenBlank(md: string, fallback: string, other: string)
    ensures (forall j :: 0 <= j < |SplitLines(md)| ==> IsBlank(SplitLines(md)[j])) ==>
      InferDesc(md, fallback) == fallback
    ensures (exists j :: 0 <= j < |SplitLines(md)| && !IsBlank(SplitLines(md)[j])) ==>
      InferDesc(md, other) == InferDesc(md, fallback)
  {
    var lines := SplitLines(md);
    if forall j :: 0 <= j < |lines| ==> IsBlank(lines[j]) {
      AllBlank(lines);
      assert InferDesc(md, fallback) == fallback;
    } else {
      var j :| 0 <= j < |lines| && !IsBlank(lines[j]);
      SomeLine(lines, j);
    }
  }

  /** Blank lines give neither a heading nor a first line. */
  lemma AllBlank(lines: seq<string>)
    requires forall j :: 0 <= j < |lines| ==> IsBlank(lines[j])
    ensures FirstWhere(lines, IsHeading).None? && FirstWhere(lines, NotBlank).None?
  {
    forall j | 0 <= j < |lines| ensures !IsHeading(lines[j]) && !NotBlank(lines[j]) {
      assert Strip(lines[j]) == [];
    }
    FirstWhereNone(lines, IsHeading);
    FirstWhereNone(lines, NotBlank);
  }

  /** A non-blank line is found by one search or the other. */
  lemma SomeLine(lines: seq<string>, j: nat)
    requires j < |lines| && !IsBlank(lines[j])
    ensures FirstWhere(lines, IsHeading).Some? || FirstWhere(lines, NotBlank).Some?
  {
    assert NotBlank(lines[j]);
  }

  /** A `# Title` line is a heading whose text is the title. */
  lemma HeadingLine(title: string)
    requires title != [] && title[0] != '#' && !IsSpace(title[0]) && !IsSpace(title[|title| - 1])
    ensures IsHeading("# " + title) && HeadingText("# " + title) == title
  {
    var line := "# " + title;
    assert line[0] == '#' && line[1] == ' ' && line[|line| - 1] == title[|title| - 1];
    StripByFixed(line, IsSpace);
    assert line[..1] == [line[0]];
    LStripAt(line, IsHash, 1);
    assert line[1..] == [' '] + title;
    StripLeadingSpace(' ', title);
  }

  /** `"# Helper\nDoes things."` is described as `"Helper"`. */
  lemma HeadingExample()
    ensures InferDesc("# Helper\nDoes things.", "x") == "Helper"
  {
    var title := "Helper";
    NoLineBreak(title);
    assert "# Helper\nDoes things." == "# " + title + "\n" + "Does things.";
    HeadingFirst(title, "Does things.", "x");
  }

  /** A document opening with a `# Title` line is described by the title. */
  lemma HeadingFirst(title: string, rest: string, fallback: string)
    requires title != [] && title[0] != '#' && !IsSpace(title[0]) && !IsSpace(title[|title| - 1])
    requires forall c | c in title :: !IsLineBreak(c)
    ensures InferDesc("# " + title + "\n" + rest, fallback) == title
  {
    var first := "# " + title;
    forall c | c in first ensures !IsLineBreak(c) {
      if c !in title {
        assert c in "# ";
      }
    }
    SplitLinesBreak(first, '\n', rest);
    HeadingLine(title);
    HeadingWins(first + "\n" + rest, fallback, 0);
  }

  /** Printable ASCII text is a single line. */
  lemma NoLineBreak(line: string)
    requires forall c | c in line :: ' ' <= c <= '~'
    ensures forall c | c in line :: !IsLineBreak(c)
  {
  }

  /** The heading text comes from the raw line: an indented `"  # X"` keeps
      its `#` and gives `"# X"`. */
  lemma IndentedHeadingExample()
    ensures InferDesc("  # X", "x") == "# X"
  {
    var line := "  # X";
    NoLineBreak(line);
    SplitLinesSingle(line);
    IndentedHeading(line);
    FirstWhereIs([line], IsHeading, 0);
  }

  lemma IndentedHeading(line: string)
    requires line == "  # X"
    ensures IsHeading(line) && HeadingText(line) == "# X"
  {
    var pad, title := "  ", "# X";
    assert line == pad + title;
    assert AllDropped(pad, IsSpace);
    LStripRun(pad, title, IsSpace);
    assert RStripBy(title, IsSpace) == title;
    assert LStripBy(line, IsHash) == line;
  }
}
