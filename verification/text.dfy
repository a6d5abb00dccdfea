/** String operations with the meaning of the Python built-ins the converter
    relies on: `strip`, `lstrip(chars)`, `lower`, `splitlines`, `split(sep, n)`,
    `startswith`, `in`, `join` and decimal formatting of integers. */
module Text {

  datatype Option<T> = None | Some(value: T)

  lemma AppendAssoc<T>(a: seq<T>, b: seq<T>, c: seq<T>)
    ensures (a + b) + c == a + (b + c)
  {
  }

  lemma AppendHead<T>(a: seq<T>, b: seq<T>)
    requires a != []
    ensures a == [a[0]] + a[1..]
    ensures a + b == [a[0]] + (a[1..] + b)
  {
    assert a == [a[0]] + a[1..];
  }

  /** The characters for which Python's `str.isspace()` holds; `str.strip()`
      with no argument removes exactly these. */
  predicate IsSpace(c: char) {
    c == ' ' || ('\t' <= c <= '\r') || ('\U{1C}' <= c <= '\U{1F}')
    || c == '\U{85}' || c == '\U{A0}' || c == '\U{1680}'
    || ('\U{2000}' <= c <= '\U{200A}') || c == '\U{2028}' || c == '\U{2029}'
    || c == '\U{202F}' || c == '\U{205F}' || c == '\U{3000}'
  }

  /** The line boundaries of Python's `str.splitlines()` (`\r\n` counts as one). */
  predicate IsLineBreak(c: char) {
    c == '\n' || c == '\r' || c == '\U{0B}' || c == '\U{0C}' || c == '\U{1C}'
    || c == '\U{1D}' || c == '\U{1E}' || c == '\U{85}' || c == '\U{2028}' || c == '\U{2029}'
  }

  predicate IsHyphen(c: char) { c == '-' }

  predicate IsHash(c: char) { c == '#' }

  /** `s.lstrip(chars)`: drop the longest prefix whose characters satisfy `drop`. */
  function LStripBy(s: string, drop: char -> bool): (r: string)
    ensures |r| <= |s| && r == s[|s| - |r|..]
    ensures r == [] || !drop(r[0])
  {
    if s != [] && drop(s[0]) then LStripBy(s[1..], drop) else s
  }

  /** `s.rstrip(chars)`: drop the longest suffix whose characters satisfy `drop`. */
  function RStripBy(s: string, drop: char -> bool): (r: string)
    ensures |r| <= |s| && r == s[..|r|]
    ensures r == [] || !drop(r[|r| - 1])
  {
    if s != [] && drop(s[|s| - 1]) then RStripBy(s[..|s| - 1], drop) else s
  }

  /** Where the result of `StripBy(s, drop)` starts in `s`. */
  function StripStart(s: string, drop: char -> bool): nat {
    |s| - |LStripBy(s, drop)|
  }

  lemma SliceOfSlice(s: string, l: string, r: string)
    requires |l| <= |s| && l == s[|s| - |l|..]
    requires |r| <= |l| && r == l[..|r|]
    ensures r == s[|s| - |l|..|s| - |l| + |r|]
  {
  }

  /** `s.strip(chars)`: the slice of `s` left after dropping both ends. */
  function StripBy(s: string, drop: char -> bool): (r: string)
    ensures StripStart(s, drop) + |r| <= |s|
    ensures r == s[StripStart(s, drop)..StripStart(s, drop) + |r|]
    ensures r == [] || (!drop(r[0]) && !drop(r[|r| - 1]))
  {
    var l := LStripBy(s, drop);
    var r := RStripBy(l, drop);
    SliceOfSlice(s, l, r);
    r
  }

  /** `s.strip()` */
  function Strip(s: string): string {
    StripBy(s, IsSpace)
  }

  /** Stripping is idempotent: a string whose ends survive is left alone. */
  lemma StripByFixed(s: string, drop: char -> bool)
    requires s == [] || (!drop(s[0]) && !drop(s[|s| - 1]))
    ensures StripBy(s, drop) == s
  {
    assert LStripBy(s, drop) == s;
  }

  predicate AllDropped(s: string, drop: char -> bool) {
    forall k :: 0 <= k < |s| ==> drop(s[k])
  }

  lemma {:induction false} LStripByEmpty(s: string, drop: char -> bool)
    ensures LStripBy(s, drop) == [] <==> AllDropped(s, drop)
  {
    if s != [] {
      AllDroppedFirst(s, drop);
      if drop(s[0]) {
        LStripByEmpty(s[1..], drop);
      }
    }
  }

  lemma {:induction false} RStripByEmpty(s: string, drop: char -> bool)
    ensures RStripBy(s, drop) == [] <==> AllDropped(s, drop)
  {
    if s != [] {
      AllDroppedLast(s, drop);
      if drop(s[|s| - 1]) {
        RStripByEmpty(s[..|s| - 1], drop);
      }
    }
  }

  lemma AllDroppedFirst(s: string, drop: char -> bool)
    requires s != []
    ensures AllDropped(s, drop) <==> drop(s[0]) && AllDropped(s[1..], drop)
  {
    if drop(s[0]) && AllDropped(s[1..], drop) {
      forall k | 0 <= k < |s| ensures drop(s[k]) {
        if k > 0 { assert s[k] == s[1..][k - 1]; }
      }
    }
  }

  lemma AllDroppedLast(s: string, drop: char -> bool)
    requires s != []
    ensures AllDropped(s, drop) <==> drop(s[|s| - 1]) && AllDropped(s[..|s| - 1], drop)
  {
    if drop(s[|s| - 1]) && AllDropped(s[..|s| - 1], drop) {
      forall k | 0 <= k < |s| ensures drop(s[k]) {
        if k < |s| - 1 { assert s[k] == s[..|s| - 1][k]; }
      }
    }
  }

  /** `LStripBy` removes a run of dropped characters up to the first kept
      one. */
  lemma {:induction false} LStripRun(m: string, t: string, drop: char -> bool)
    requires AllDropped(m, drop) && (t == [] || !drop(t[0]))
    ensures LStripBy(m + t, drop) == t
    decreases |m|
  {
    if m == [] {
      assert m + t == t;
    } else {
      assert (m + t)[0] == m[0] && (m + t)[1..] == m[1..] + t;
      assert AllDropped(m[1..], drop) by {
        forall k | 0 <= k < |m[1..]| ensures drop(m[1..][k]) {
          assert m[1..][k] == m[k + 1];
        }
      }
      LStripRun(m[1..], t, drop);
    }
  }

  /** An empty result means every character was dropped, and conversely. */
  lemma StripByEmpty(s: string, drop: char -> bool)
    ensures StripBy(s, drop) == [] <==> AllDropped(s, drop)
  {
    LStripByEmpty(s, drop);
    var l := LStripBy(s, drop);
    RStripByEmpty(l, drop);
  }

  /** One leading whitespace character is stripped away. */
  lemma StripLeadingSpace(sp: char, t: string)
    requires IsSpace(sp) && t != [] && !IsSpace(t[0]) && !IsSpace(t[|t| - 1])
    ensures Strip([sp] + t) == t
  {
    LStripAt([sp] + t, IsSpace, 1);
    assert ([sp] + t)[1..] == t;
    assert RStripBy(t, IsSpace) == t;
  }

  /** The right end of `StripByAround`. */
  lemma RStripFrom(s: string, drop: char -> bool, i: nat, n: nat)
    requires 0 < n && i + n <= |s|
    requires forall k :: i + n <= k < |s| ==> drop(s[k])
    requires !drop(s[i + n - 1])
    ensures RStripBy(s[i..], drop) == s[i..i + n]
  {
    var t := s[i..];
    forall k | n <= k < |t| ensures drop(t[k]) {
      assert t[k] == s[i + k];
    }
    assert t[n - 1] == s[i + n - 1];
    RStripAt(t, drop, n);
    assert t[..n] == s[i..i + n];
  }

  /** `StripBy` keeps exactly the run from `i` of length `n` when only
      dropped characters surround it. */
  lemma StripByAround(s: string, drop: char -> bool, i: nat, n: nat)
    requires 0 < n && i + n <= |s|
    requires forall k :: 0 <= k < i ==> drop(s[k])
    requires forall k :: i + n <= k < |s| ==> drop(s[k])
    requires !drop(s[i]) && !drop(s[i + n - 1])
    ensures StripBy(s, drop) == s[i..i + n]
  {
    LStripAt(s, drop, i);
    RStripFrom(s, drop, i, n);
  }

  /** `Strip` keeps exactly the run from `i` of length `n` when only
      whitespace surrounds it. */
  lemma StripAround(s: string, i: nat, n: nat)
    requires 0 < n && i + n <= |s|
    requires forall k :: 0 <= k < i ==> IsSpace(s[k])
    requires forall k :: i + n <= k < |s| ==> IsSpace(s[k])
    requires !IsSpace(s[i]) && !IsSpace(s[i + n - 1])
    ensures Strip(s) == s[i..i + n]
  {
    StripByAround(s, IsSpace, i, n);
  }

  /** `LStripBy` stops at the first character it does not drop. */
  lemma {:induction false} LStripAt(s: string, drop: char -> bool, i: nat)
    requires i < |s| && !drop(s[i])
    requires forall k :: 0 <= k < i ==> drop(s[k])
    ensures LStripBy(s, drop) == s[i..]
    decreases i
  {
    if i > 0 {
      LStripAt(s[1..], drop, i - 1);
      assert s[1..][i - 1..] == s[i..];
    }
  }

  /** `RStripBy` stops at the last character it does not drop. */
  lemma {:induction false} RStripAt(s: string, drop: char -> bool, n: nat)
    requires 0 < n <= |s| && !drop(s[n - 1])
    requires forall k :: n <= k < |s| ==> drop(s[k])
    ensures RStripBy(s, drop) == s[..n]
    decreases |s|
  {
    if n < |s| {
      RStripAt(s[..|s| - 1], drop, n);
      assert s[..|s| - 1][..n] == s[..n];
    }
  }

  /** ASCII case folding; every other character is left as it is. */
  function LowerChar(c: char): char {
    if 'A' <= c <= 'Z' then (c as int + 32) as char else c
  }

  /** `s.lower()`, restricted to ASCII letters. */
  function Lower(s: string): (r: string)
    ensures |r| == |s|
    ensures forall i :: 0 <= i < |s| ==> r[i] == LowerChar(s[i])
  {
    seq(|s|, i requires 0 <= i < |s| => LowerChar(s[i]))
  }

  function StartsWith(s: string, prefix: string): bool {
    |prefix| <= |s| && s[..|prefix|] == prefix
  }

  predicate OccursAt(s: string, pat: string, i: nat) {
    i + |pat| <= |s| && s[i..i + |pat|] == pat
  }

  /** `s.find(pat, from)`: the first occurrence of `pat` at or after `from`. */
  function FindFrom(s: string, pat: string, from: nat): (r: Option<nat>)
    requires from <= |s|
    ensures r.Some? ==> from <= r.value && OccursAt(s, pat, r.value)
    ensures r.Some? ==> forall j :: from <= j < r.value ==> !OccursAt(s, pat, j)
    ensures r.None? ==> forall j :: from <= j <= |s| ==> !OccursAt(s, pat, j)
    decreases |s| - from
  {
    if OccursAt(s, pat, from) then Some(from)
    else if from == |s| then None
    else FindFrom(s, pat, from + 1)
  }

  function Find(s: string, pat: string): Option<nat> {
    FindFrom(s, pat, 0)
  }

  /** `c in s` finds `[c]`. */
  lemma FindChar(s: string, c: char)
    requires c in s
    ensures Find(s, [c]).Some?
  {
    var k :| 0 <= k < |s| && s[k] == c;
    assert OccursAt(s, [c], k);
  }

  /** `pat` is found at `i` when it occurs there and its first character
      does not occur earlier. */
  lemma FindAt(s: string, pat: string, i: nat)
    requires pat != [] && OccursAt(s, pat, i) && pat[0] !in s[..i]
    ensures Find(s, pat) == Some(i)
  {
    forall j | 0 <= j < i ensures !OccursAt(s, pat, j) {
      assert s[..i][j] == s[j];
    }
  }

  /** `sep.join(parts)` */
  function Join(sep: string, parts: seq<string>): string {
    if parts == [] then []
    else if |parts| == 1 then parts[0]
    else parts[0] + sep + Join(sep, parts[1..])
  }

  /** `s.split(sep, maxsplit)` for a non-empty separator: split at the first
      `maxsplit` occurrences, scanning left to right without overlap. */
  function SplitMax(s: string, sep: string, maxsplit: nat): (parts: seq<string>)
    requires |sep| > 0
    ensures 1 <= |parts| <= maxsplit + 1
    ensures Join(sep, parts) == s
    ensures forall i {:trigger Find(parts[i], sep)} :: 0 <= i < |parts| - 1 ==> Find(parts[i], sep).None?
    ensures maxsplit > 0 && Find(s, sep).Some? ==> |parts| >= 2
    ensures Find(s, sep).None? ==> parts == [s]
    ensures LeftmostCuts(sep, parts)
    ensures |parts| == Cuts(s, sep, maxsplit) + 1 && parts[|parts| - 1] == Remainder(s, sep, maxsplit)
  {
    SplitsCorrect(s, sep, maxsplit);
    Splits(s, sep, maxsplit)
  }

  /** The cuts of `SplitMax`, one at a time; `SplitMax` is this with the
      properties `SplitsCorrect` proves. */
  function Splits(s: string, sep: string, maxsplit: nat): seq<string>
    requires |sep| > 0
    decreases maxsplit
  {
    if maxsplit == 0 then [s]
    else
      match Find(s, sep)
      case None => [s]
      case Some(i) => [s[..i]] + Splits(s[i + |sep|..], sep, maxsplit - 1)
  }

  /** Induction on the number of cuts still allowed: no cut, or a cut at the
      first separator followed by the split of what follows it. */
  /** What `split(sep, maxsplit)` promises of its parts `parts` of `s`. */
  predicate SplitsSpec(s: string, sep: string, maxsplit: nat, parts: seq<string>)
    requires |sep| > 0
  {
    && 1 <= |parts| <= maxsplit + 1
    && Join(sep, parts) == s
    && (forall i {:trigger Find(parts[i], sep)} :: 0 <= i < |parts| - 1 ==> Find(parts[i], sep).None?)
    && (maxsplit > 0 && Find(s, sep).Some? ==> |parts| >= 2)
    && (Find(s, sep).None? ==> parts == [s])
    && LeftmostCuts(sep, parts)
    && |parts| == Cuts(s, sep, maxsplit) + 1 && parts[|parts| - 1] == Remainder(s, sep, maxsplit)
  }

  lemma {:induction false} SplitsCorrect(s: string, sep: string, maxsplit: nat)
    requires |sep| > 0
    ensures SplitsSpec(s, sep, maxsplit, Splits(s, sep, maxsplit))
    decreases maxsplit
  {
    if maxsplit == 0 || Find(s, sep).None? {
      SplitsBase(s, sep, maxsplit);
    } else {
      var i := Find(s, sep).value;
      var rest := Splits(s[i + |sep|..], sep, maxsplit - 1);
      SplitsCorrect(s[i + |sep|..], sep, maxsplit - 1);
      CutFirst(s, sep, maxsplit, i, rest);
    }
  }

  /** A text that is not cut stays whole. */
  lemma SplitsBase(s: string, sep: string, maxsplit: nat)
    requires |sep| > 0 && (maxsplit == 0 || Find(s, sep).None?)
    ensures SplitsSpec(s, sep, maxsplit, [s])
  {
    assert Join(sep, [s]) == s && LeftmostCuts(sep, [s]);
  }

  /** Every cut is at the leftmost occurrence of the separator in what
      remains, and the last part keeps no separator unless `maxsplit` ran
      out. */
  lemma SplitMaxLeftmost(s: string, sep: string, maxsplit: nat)
    requires |sep| > 0
    ensures var parts := SplitMax(s, sep, maxsplit);
      && (forall k :: 0 <= k < |parts| - 1 ==> Find(Join(sep, parts[k..]), sep) == Some(|parts[k]|))
      && (|parts| <= maxsplit ==> Find(parts[|parts| - 1], sep).None?)
  {
    var parts := SplitMax(s, sep, maxsplit);
    forall k | 0 <= k < |parts| - 1
      ensures Find(Join(sep, parts[k..]), sep) == Some(|parts[k]|)
    {
      LeftmostCutsAt(sep, parts, k);
    }
    if |parts| <= maxsplit {
      SplitMaxLast(s, sep, maxsplit);
    }
  }

  /** Each cut in `parts` is at the leftmost separator of what remains. */
  predicate LeftmostCuts(sep: string, parts: seq<string>) {
    |parts| <= 1 || (Find(Join(sep, parts), sep) == Some(|parts[0]|) && LeftmostCuts(sep, parts[1..]))
  }

  /** `LeftmostCuts` spelled out for the `k`-th cut. */
  lemma {:induction false} LeftmostCutsAt(sep: string, parts: seq<string>, k: nat)
    requires LeftmostCuts(sep, parts) && k < |parts| - 1
    ensures Find(Join(sep, parts[k..]), sep) == Some(|parts[k]|)
    decreases k
  {
    if k == 0 {
      assert parts[0..] == parts;
    } else {
      LeftmostCutsAt(sep, parts[1..], k - 1);
      assert parts[1..][k - 1..] == parts[k..];
    }
  }

  /** When fewer than `maxsplit` cuts were made, the last part holds no
      separator. */
  lemma SplitMaxLast(s: string, sep: string, maxsplit: nat)
    requires |sep| > 0
    ensures var parts := SplitMax(s, sep, maxsplit);
      |parts| <= maxsplit ==> Find(parts[|parts| - 1], sep).None?
  {
    RemainderFree(s, sep, maxsplit);
  }

  /** What is left after at most `maxsplit` cuts. */
  function Remainder(s: string, sep: string, maxsplit: nat): string
    requires |sep| > 0
    decreases maxsplit
  {
    if maxsplit == 0 then s
    else
      match Find(s, sep)
      case None => s
      case Some(i) => Remainder(s[i + |sep|..], sep, maxsplit - 1)
  }

  /** How many cuts `SplitMax` makes. */
  function Cuts(s: string, sep: string, maxsplit: nat): nat
    requires |sep| > 0
    decreases maxsplit
  {
    if maxsplit == 0 then 0
    else
      match Find(s, sep)
      case None => 0
      case Some(i) => 1 + Cuts(s[i + |sep|..], sep, maxsplit - 1)
  }

  /** Fewer than `maxsplit` cuts leave a remainder without the separator. */
  lemma {:induction false} RemainderFree(s: string, sep: string, maxsplit: nat)
    requires |sep| > 0
    ensures Cuts(s, sep, maxsplit) < maxsplit ==> Find(Remainder(s, sep, maxsplit), sep).None?
    decreases maxsplit
  {
    if maxsplit > 0 && Find(s, sep).Some? {
      var tail := RemainderStep(s, sep, maxsplit);
      RemainderFree(tail, sep, maxsplit - 1);
    }
  }

  /** One cut, with what follows the first separator left unnamed. */
  lemma RemainderStep(s: string, sep: string, maxsplit: nat) returns (tail: string)
    requires |sep| > 0 && maxsplit > 0 && Find(s, sep).Some?
    ensures Cuts(s, sep, maxsplit) == 1 + Cuts(tail, sep, maxsplit - 1)
    ensures Remainder(s, sep, maxsplit) == Remainder(tail, sep, maxsplit - 1)
  {
    tail := s[Find(s, sep).value + |sep|..];
    CutsStep(s, sep, maxsplit);
  }

  /** `Cuts` and `Remainder` take the same first step as `SplitMax`. */
  lemma CutsStep(s: string, sep: string, maxsplit: nat)
    requires |sep| > 0 && maxsplit > 0 && Find(s, sep).Some?
    ensures var tail := s[Find(s, sep).value + |sep|..];
      Cuts(s, sep, maxsplit) == 1 + Cuts(tail, sep, maxsplit - 1)
      && Remainder(s, sep, maxsplit) == Remainder(tail, sep, maxsplit - 1)
  {
  }

  /** With one cut allowed, the text splits around its first separator. */
  lemma SplitOnce(s: string, sep: string, j: nat)
    requires |sep| > 0 && Find(s, sep) == Some(j)
    ensures j + |sep| <= |s| && SplitMax(s, sep, 1) == [s[..j], s[j + |sep|..]]
  {
    assert SplitMax(s[j + |sep|..], sep, 0) == [s[j + |sep|..]];
  }

  /** Cutting at the first separator, then splitting what follows it, keeps
      every property `SplitMax` promises. */
  lemma CutFirst(s: string, sep: string, maxsplit: nat, i: nat, rest: seq<string>)
    requires |sep| > 0 && maxsplit > 0 && Find(s, sep) == Some(i)
    requires SplitsSpec(s[i + |sep|..], sep, maxsplit - 1, rest)
    ensures SplitsSpec(s, sep, maxsplit, [s[..i]] + rest)
  {
    ConsShape(s[..i], rest);
    CutFirstJoin(s, sep, i, rest);
    CutFirstFree(s, sep, i, rest);
    LeftmostCutsCons(sep, [s[..i]] + rest);
    CutsStep(s, sep, maxsplit);
  }

  lemma CutFirstJoin(s: string, sep: string, i: nat, rest: seq<string>)
    requires |sep| > 0 && Find(s, sep) == Some(i)
    requires rest != [] && Join(sep, rest) == s[i + |sep|..]
    ensures Join(sep, [s[..i]] + rest) == s
  {
    SplitAtFirst(s, sep, i);
    ConsShape(s[..i], rest);
  }

  lemma CutFirstFree(s: string, sep: string, i: nat, rest: seq<string>)
    requires |sep| > 0 && Find(s, sep) == Some(i)
    requires forall k {:trigger Find(rest[k], sep)} :: 0 <= k < |rest| - 1 ==> Find(rest[k], sep).None?
    ensures var parts := [s[..i]] + rest;
      forall k {:trigger Find(parts[k], sep)} :: 0 <= k < |parts| - 1 ==> Find(parts[k], sep).None?
  {
    SplitAtFirst(s, sep, i);
    var parts := [s[..i]] + rest;
    forall k | 0 <= k < |parts| - 1 ensures Find(parts[k], sep).None? {
      if k > 0 {
        assert parts[k] == rest[k - 1];
      }
    }
  }

  lemma LeftmostCutsCons(sep: string, parts: seq<string>)
    requires |parts| > 1 && Find(Join(sep, parts), sep) == Some(|parts[0]|)
    requires LeftmostCuts(sep, parts[1..])
    ensures LeftmostCuts(sep, parts)
  {
  }

  lemma ConsShape<T>(head: T, rest: seq<T>)
    requires rest != []
    ensures var parts := [head] + rest;
      && |parts| == |rest| + 1 && parts[0] == head && parts[1..] == rest
      && parts[|parts| - 1] == rest[|rest| - 1]
  {
    assert ([head] + rest)[1..] == rest;
  }

  /** Cutting at the first occurrence leaves a head without the separator. */
  lemma {:induction false} SplitAtFirst(s: string, sep: string, i: nat)
    requires |sep| > 0 && Find(s, sep) == Some(i)
    ensures Find(s[..i], sep).None?
    ensures s == s[..i] + sep + s[i + |sep|..]
  {
    var head := s[..i];
    forall j | 0 <= j <= |head| ensures !OccursAt(head, sep, j) {
      if OccursAt(head, sep, j) {
        assert head[j..j + |sep|] == s[j..j + |sep|];
        assert OccursAt(s, sep, j);
      }
    }
  }

  /** Each piece of `SplitLines` ends just before the next line boundary. */
  function LineEnd(s: string, from: nat): (i: nat)
    requires from <= |s|
    ensures from <= i <= |s|
    ensures forall k :: from <= k < i ==> !IsLineBreak(s[k])
    ensures i < |s| ==> IsLineBreak(s[i])
    decreases |s| - from
  {
    if from == |s| || IsLineBreak(s[from]) then from else LineEnd(s, from + 1)
  }

  /** `s.splitlines()`: the pieces between line boundaries, `\r\n` being one
      boundary; a boundary at the very end does not open an empty last line. */
  function SplitLines(s: string): (lines: seq<string>)
    ensures forall i, k :: 0 <= i < |lines| && 0 <= k < |lines[i]| ==> !IsLineBreak(lines[i][k])
    ensures lines == [] <==> s == []
    decreases |s|
  {
    if s == [] then []
    else
      var e := LineEnd(s, 0);
      var next := if e == |s| then |s|
                  else if s[e] == '\r' && e + 1 < |s| && s[e + 1] == '\n' then e + 2
                  else e + 1;
      [s[..e]] + SplitLines(s[next..])
  }

  /** A non-empty text without line boundaries is a single line. */
  lemma SplitLinesSingle(s: string)
    requires s != [] && forall c | c in s :: !IsLineBreak(c)
    ensures SplitLines(s) == [s]
  {
    assert forall k :: 0 <= k < |s| ==> s[k] in s;
    var e := LineEnd(s, 0);
    assert e == |s|;
    assert s[..e] == s;
    assert SplitLines(s[|s|..]) == [];
  }

  /** A line ended by a boundary character is the first piece of
      `SplitLines`; a `\r` is a boundary of its own unless a `\n` follows. */
  lemma SplitLinesBreak(line: string, b: char, rest: string)
    requires forall c | c in line :: !IsLineBreak(c)
    requires IsLineBreak(b) && (b == '\r' ==> rest == [] || rest[0] != '\n')
    ensures SplitLines(line + [b] + rest) == [line] + SplitLines(rest)
  {
    var s := line + [b] + rest;
    BreakAfter(line, [b] + rest);
    assert s == line + ([b] + rest);
    assert s[..|line|] == line && s[|line|] == b && s[|line| + 1..] == rest;
    if b == '\r' && rest != [] {
      assert s[|line| + 1] == rest[0];
    }
  }

  /** A line ended by `\r\n` is the first piece of `SplitLines`: the pair
      is one boundary. */
  lemma SplitLinesCRLF(line: string, rest: string)
    requires forall c | c in line :: !IsLineBreak(c)
    ensures SplitLines(line + "\r\n" + rest) == [line] + SplitLines(rest)
  {
    var s := line + "\r\n" + rest;
    BreakAfter(line, "\r\n" + rest);
    assert s == line + ("\r\n" + rest);
    assert s[..|line|] == line && s[|line|] == '\r' && s[|line| + 1] == '\n' && s[|line| + 2..] == rest;
  }

  /** The first line of `line + t` ends where `t` starts with a boundary. */
  lemma BreakAfter(line: string, t: string)
    requires forall c | c in line :: !IsLineBreak(c)
    requires t != [] && IsLineBreak(t[0])
    ensures LineEnd(line + t, 0) == |line|
  {
    var s := line + t;
    forall k | 0 <= k < |line| ensures !IsLineBreak(s[k]) {
      assert s[k] == line[k] && line[k] in line;
    }
    assert s[|line|] == t[0];
    LineEndAt(s, |line|);
  }

  /** `LineEnd` stops at the first boundary. */
  lemma LineEndAt(s: string, n: nat)
    requires n < |s| && IsLineBreak(s[n])
    requires forall k :: 0 <= k < n ==> !IsLineBreak(s[k])
    ensures LineEnd(s, 0) == n
  {
  }

  function DigitChar(d: nat): (c: char)
    requires d < 10
    ensures '0' <= c <= '9'
  {
    ('0' as int + d) as char
  }

  predicate AllDigits(s: string) {
    forall k :: 0 <= k < |s| ==> '0' <= s[k] <= '9'
  }

  /** `f"{n}"` for a non-negative integer. */
  function Decimal(n: nat): (r: string)
    ensures |r| >= 1 && AllDigits(r)
  {
    if n < 10 then [DigitChar(n)] else Decimal(n / 10) + [DigitChar(n % 10)]
  }

  /** The value a string of decimal digits denotes. */
  function DecimalValue(s: string): nat
    requires AllDigits(s)
  {
    if s == [] then 0 else DecimalValue(s[..|s| - 1]) * 10 + (s[|s| - 1] as int - '0' as int)
  }

  lemma {:induction false} DecimalRoundTrip(n: nat)
    ensures DecimalValue(Decimal(n)) == n
  {
    if n >= 10 {
      DecimalRoundTrip(n / 10);
      var d := Decimal(n);
      assert d[..|d| - 1] == Decimal(n / 10);
    }
  }

  /** Distinct numbers are printed differently. */
  lemma DecimalInjective(m: nat, n: nat)
    requires Decimal(m) == Decimal(n)
    ensures m == n
  {
    DecimalRoundTrip(m);
    DecimalRoundTrip(n);
  }
}
