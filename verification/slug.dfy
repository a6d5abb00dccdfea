/** `slugify` (tools/migrate_claude_project.py:12-16): a display name becomes a
    `[a-z0-9-]` identifier. The input is stripped and lower-cased, every maximal
    run of characters outside `[a-z0-9]` becomes one hyphen, runs of two or more
    hyphens become one, hyphens are stripped from both ends, and an empty result
    is replaced by `"unnamed"`. */
module Slug {
  import opened Text

  /** The character class `[a-z0-9]`. */
  predicate IsAlnum(c: char) { 'a' <= c <= 'z' || '0' <= c <= '9' }

  predicate NotAlnum(c: char) { !IsAlnum(c) }

  const Fallback := "unnamed"

  /** Only `[a-z0-9-]`, and no hyphen directly after another. */
  predicate HyphenJoined(s: string) {
    && (forall k :: 0 <= k < |s| ==> IsAlnum(s[k]) || s[k] == '-')
    && (forall k :: 0 < k < |s| && s[k - 1] == '-' ==> s[k] != '-')
  }

  /** A slug matches `^[a-z0-9]+(-[a-z0-9]+)*$`. */
  predicate IsSlug(s: string) {
    s != [] && HyphenJoined(s) && s[0] != '-' && s[|s| - 1] != '-'
  }

  /** The letters and digits of `s`, in order. */
  function Alnums(s: string): string {
    if s == [] then [] else (if IsAlnum(s[0]) then [s[0]] else []) + Alnums(s[1..])
  }

  lemma {:induction false} AlnumsAppend(a: string, b: string)
    ensures Alnums(a + b) == Alnums(a) + Alnums(b)
  {
    if a != [] {
      assert (a + b)[1..] == a[1..] + b;
      AlnumsAppend(a[1..], b);
    } else {
      assert a + b == b;
    }
  }

  /** `re.sub(r"[^a-z0-9]+", "-", s)` */
  function ReplaceRuns(s: string): (r: string)
    ensures r == [] <==> s == []
    ensures s != [] ==> r[0] == if IsAlnum(s[0]) then s[0] else '-'
    decreases |s|
  {
    if s == [] then []
    else if IsAlnum(s[0]) then [s[0]] + ReplaceRuns(s[1..])
    else "-" + ReplaceRuns(LStripBy(s[1..], NotAlnum))
  }

  /** Each run of other characters became a single hyphen: no hyphen follows
      another, and the letters and digits are those of the input. */
  lemma {:induction false} ReplaceRunsShape(s: string)
    ensures HyphenJoined(ReplaceRuns(s))
    ensures Alnums(ReplaceRuns(s)) == Alnums(s)
    decreases |s|
  {
    if s != [] {
      if IsAlnum(s[0]) {
        var rest := ReplaceRuns(s[1..]);
        ReplaceRunsShape(s[1..]);
        AlnumsAppend([s[0]], rest);
        HyphenJoinedCons(s[0], rest);
        AlnumsAppend([s[0]], s[1..]);
        assert s == [s[0]] + s[1..];
      } else {
        var t := LStripBy(s[1..], NotAlnum);
        var rest := ReplaceRuns(t);
        ReplaceRunsShape(t);
        AlnumsLStrip(s[1..], NotAlnum);
        AlnumsAppend("-", rest);
        HyphenJoinedCons('-', rest);
        AlnumsAppend([s[0]], s[1..]);
        assert s == [s[0]] + s[1..];
      }
    }
  }

  /** A letter or digit is kept where it stands. */
  lemma ReplaceRunsAlnum(c: char, t: string)
    requires IsAlnum(c)
    ensures ReplaceRuns([c] + t) == [c] + ReplaceRuns(t)
  {
    assert ([c] + t)[0] == c && ([c] + t)[1..] == t;
  }

  /** A maximal run of other characters becomes exactly one hyphen, in its
      place. */
  lemma ReplaceRunsRun(m: string, t: string)
    requires m != [] && forall k :: 0 <= k < |m| ==> !IsAlnum(m[k])
    requires t == [] || IsAlnum(t[0])
    ensures ReplaceRuns(m + t) == "-" + ReplaceRuns(t)
  {
    var s := m + t;
    assert s[0] == m[0] && s[1..] == m[1..] + t;
    assert AllDropped(m[1..], NotAlnum) by {
      forall k | 0 <= k < |m[1..]| ensures NotAlnum(m[1..][k]) {
        assert m[1..][k] == m[k + 1];
      }
    }
    LStripRun(m[1..], t, NotAlnum);
  }

  /** A hyphen-joined text ending in a letter or digit passes through the
      replacement unchanged, whatever follows it. */
  lemma {:induction false} ReplaceRunsJoinedPrefix(a: string, y: string)
    requires HyphenJoined(a) && (a == [] || IsAlnum(a[|a| - 1]))
    ensures ReplaceRuns(a + y) == a + ReplaceRuns(y)
    decreases |a|
  {
    if a == [] {
      assert a + y == y;
    } else {
      var c, t := a[0], a[1..];
      HyphenJoinedSlice(a, 1, |a| - 1);
      assert a[1..1 + (|a| - 1)] == t;
      ReplaceRunsJoinedPrefix(t, y);
      AppendHead(a, y);
      if c == '-' {
        assert a[1] != '-' && t[0] == a[1] && (t + y)[0] == t[0];
      }
      ReplaceRunsHead(c, t + y, t + y != [] && IsAlnum((t + y)[0]));
      var u, r := t + y, ReplaceRuns(y);
      assert ReplaceRuns(a + y) == [c] + ReplaceRuns(u);
      assert ReplaceRuns(u) == t + r;
      AppendAssoc([c], t, r);
    }
  }

  /** One step of the replacement on a letter, a digit, or a single hyphen
      followed by a letter or digit. */
  lemma ReplaceRunsHead(c: char, u: string, next: bool)
    requires IsAlnum(c) || c == '-'
    requires next == (u != [] && IsAlnum(u[0]))
    requires c == '-' ==> next
    ensures ReplaceRuns([c] + u) == [c] + ReplaceRuns(u)
  {
    if IsAlnum(c) {
      ReplaceRunsAlnum(c, u);
    } else {
      ReplaceRunsRun([c], u);
      assert "-" == [c];
    }
  }

  /** Putting a letter, a digit, or a hyphen before a non-hyphen, in front of
      a hyphen-joined string keeps it hyphen-joined. */
  lemma HyphenJoinedCons(c: char, s: string)
    requires HyphenJoined(s) && (IsAlnum(c) || c == '-')
    requires c == '-' && s != [] ==> s[0] != '-'
    ensures HyphenJoined([c] + s)
  {
    var r := [c] + s;
    forall k | 0 < k < |r| ensures r[k] == s[k - 1] {
    }
  }

  /** `re.sub(r"-{2,}", "-", s)` */
  function CollapseHyphens(s: string): string
    decreases |s|
  {
    if s == [] then []
    else if s[0] == '-' then "-" + CollapseHyphens(LStripBy(s[1..], IsHyphen))
    else [s[0]] + CollapseHyphens(s[1..])
  }

  /** `slugify(s)` */
  function Slugify(s: string): (r: string)
    ensures IsSlug(r)
    ensures Alnums(Lower(s)) == [] ==> r == Fallback
    ensures Alnums(Lower(s)) != [] ==> Alnums(r) == Alnums(Lower(s))
  {
    var lowered := Lower(Strip(s));
    var replaced := ReplaceRuns(lowered);
    ReplaceRunsShape(lowered);
    var t := StripBy(CollapseHyphens(replaced), IsHyphen);
    SlugifyShape(replaced, t);
    AlnumsLowerStrip(s);
    assert Alnums(t) == Alnums(Lower(s));
    FallbackIsSlug();
    if t == [] then Fallback else SlugHasAlnum(t); t
  }

  /** A slug holds at least one letter or digit. */
  lemma SlugHasAlnum(t: string)
    requires IsSlug(t)
    ensures Alnums(t) != []
  {
    assert IsAlnum(t[0]);
  }

  /** Collapsing and stripping hyphens leaves a slug, unless nothing is
      left, and keeps every letter and digit. */
  lemma SlugifyShape(replaced: string, t: string)
    requires HyphenJoined(replaced)
    requires t == StripBy(CollapseHyphens(replaced), IsHyphen)
    ensures t != [] ==> IsSlug(t)
    ensures Alnums(t) == Alnums(replaced)
  {
    CollapseFixed(replaced);
    assert t == StripBy(replaced, IsHyphen);
    StrippedJoined(replaced);
    assert forall c :: IsHyphen(c) ==> !IsAlnum(c);
    AlnumsStrip(replaced, IsHyphen);
  }

  /** Stripping the hyphens off a hyphen-joined string leaves a slug, unless
      nothing is left. */
  lemma StrippedJoined(c: string)
    requires HyphenJoined(c)
    ensures StripBy(c, IsHyphen) != [] ==> IsSlug(StripBy(c, IsHyphen))
  {
    var t := StripBy(c, IsHyphen);
    var i := StripStart(c, IsHyphen);
    HyphenJoinedSlice(c, i, |t|);
  }

  lemma FallbackIsSlug()
    ensures IsSlug(Fallback)
  {
    assert Fallback == ['u', 'n', 'n', 'a', 'm', 'e', 'd'];
  }

  lemma HyphenJoinedSlice(s: string, i: nat, n: nat)
    requires HyphenJoined(s) && i + n <= |s|
    ensures HyphenJoined(s[i..i + n])
  {
    var t := s[i..i + n];
    forall k | 0 <= k < |t| ensures IsAlnum(t[k]) || t[k] == '-' {
      assert t[k] == s[i + k];
    }
    forall k | 0 < k < |t| && t[k - 1] == '-' ensures t[k] != '-' {
      assert t[k - 1] == s[i + k - 1] && t[k] == s[i + k];
    }
  }

  lemma AlnumsStrip(s: string, drop: char -> bool)
    requires forall c :: drop(c) ==> !IsAlnum(c)
    ensures Alnums(StripBy(s, drop)) == Alnums(s)
  {
    AlnumsLStrip(s, drop);
    AlnumsRStrip(LStripBy(s, drop), drop);
  }

  /** Dropping characters that are neither letters nor digits keeps `Alnums`. */
  lemma {:induction false} AlnumsLStrip(s: string, drop: char -> bool)
    requires forall c :: drop(c) ==> !IsAlnum(c)
    ensures Alnums(LStripBy(s, drop)) == Alnums(s)
  {
    if s != [] && drop(s[0]) { AlnumsLStrip(s[1..], drop); }
  }

  lemma {:induction false} AlnumsRStrip(s: string, drop: char -> bool)
    requires forall c :: drop(c) ==> !IsAlnum(c)
    ensures Alnums(RStripBy(s, drop)) == Alnums(s)
  {
    if s != [] && drop(s[|s| - 1]) {
      var t := s[..|s| - 1];
      AlnumsRStrip(t, drop);
      assert s == t + [s[|s| - 1]];
      AlnumsAppend(t, [s[|s| - 1]]);
    }
  }

  lemma LowerKeepsSpace(c: char)
    ensures IsSpace(LowerChar(c)) == IsSpace(c)
  {
  }

  lemma {:induction false} LowerLStrip(s: string)
    ensures Lower(LStripBy(s, IsSpace)) == LStripBy(Lower(s), IsSpace)
  {
    if s != [] {
      LowerKeepsSpace(s[0]);
      if IsSpace(s[0]) {
        assert Lower(s)[1..] == Lower(s[1..]);
        LowerLStrip(s[1..]);
      }
    }
  }

  lemma {:induction false} LowerRStrip(s: string)
    ensures Lower(RStripBy(s, IsSpace)) == RStripBy(Lower(s), IsSpace)
  {
    if s != [] {
      LowerKeepsSpace(s[|s| - 1]);
      if IsSpace(s[|s| - 1]) {
        assert Lower(s)[..|s| - 1] == Lower(s[..|s| - 1]);
        LowerRStrip(s[..|s| - 1]);
      }
    }
  }

  /** Stripping whitespace before lower-casing loses no letter or digit. */
  lemma AlnumsLowerStrip(s: string)
    ensures Alnums(Lower(Strip(s))) == Alnums(Lower(s))
  {
    var l := LStripBy(s, IsSpace);
    LowerLStrip(s);
    LowerRStrip(l);
    AlnumsStrip(Lower(s), IsSpace);
  }

  /** `re.sub(r"-{2,}", "-", s)` changes nothing where no hyphen follows another. */
  lemma {:induction false} CollapseFixed(s: string)
    requires forall k :: 0 < k < |s| && s[k - 1] == '-' ==> s[k] != '-'
    ensures CollapseHyphens(s) == s
  {
    if s != [] {
      var t := s[1..];
      NoDoubleTail(s);
      CollapseFixed(t);
      if s[0] == '-' {
        assert LStripBy(t, IsHyphen) == t;
      }
      assert s == [s[0]] + t;
    }
  }

  lemma NoDoubleTail(s: string)
    requires s != [] && forall k :: 0 < k < |s| && s[k - 1] == '-' ==> s[k] != '-'
    ensures var t := s[1..]; forall k :: 0 < k < |t| && t[k - 1] == '-' ==> t[k] != '-'
    ensures s[0] == '-' && |s| > 1 ==> s[1] != '-'
  {
    var t := s[1..];
    forall k | 0 < k < |t| && t[k - 1] == '-' ensures t[k] != '-' {
      assert t[k - 1] == s[k] && t[k] == s[k + 1];
    }
  }

  /** A hyphen-joined string has no run of two or more non-alphanumerics. */
  lemma {:induction false} ReplaceRunsFixed(s: string)
    requires HyphenJoined(s)
    ensures ReplaceRuns(s) == s
    decreases |s|
  {
    if s != [] {
      var c, t := s[0], s[1..];
      HyphenJoinedTail(s);
      ReplaceRunsFixed(t);
      if t == [] {
        assert s == [c];
      } else {
        ReplaceRunsHead(c, t, IsAlnum(t[0]));
        assert s == [c] + t;
      }
    }
  }

  /** What a hyphen-joined string holds after its first character. */
  lemma HyphenJoinedTail(s: string)
    requires HyphenJoined(s) && s != []
    ensures HyphenJoined(s[1..])
    ensures IsAlnum(s[0]) || s[0] == '-'
    ensures s[0] == '-' && |s| > 1 ==> IsAlnum(s[1])
  {
    HyphenJoinedSlice(s, 1, |s| - 1);
    assert s[1..1 + (|s| - 1)] == s[1..];
  }

  /** A slug is its own slug. */
  lemma SlugFixed(s: string)
    requires IsSlug(s)
    ensures Slugify(s) == s
  {
    SlugStagesFixed(s);
  }

  /** Each stage of `slugify` leaves a slug as it is. */
  lemma SlugStagesFixed(s: string)
    requires IsSlug(s)
    ensures Lower(Strip(s)) == s && ReplaceRuns(s) == s
    ensures StripBy(CollapseHyphens(s), IsHyphen) == s
  {
    SlugStripLower(s);
    ReplaceRunsFixed(s);
    SlugCollapseStrip(s);
  }

  /** Stripping spaces and lower-casing leave a slug as it is. */
  lemma SlugStripLower(s: string)
    requires IsSlug(s)
    ensures Lower(Strip(s)) == s
  {
    StripByFixed(s, IsSpace);
    LowerSlug(s);
  }

  /** Collapsing hyphens and stripping hyphens leave a slug as it is. */
  lemma SlugCollapseStrip(s: string)
    requires IsSlug(s)
    ensures StripBy(CollapseHyphens(s), IsHyphen) == s
  {
    CollapseFixed(s);
    StripByFixed(s, IsHyphen);
  }

  /** Two slugs joined by a hyphen form a slug. */
  lemma SlugJoin(a: string, b: string)
    requires IsSlug(a) && IsSlug(b)
    ensures IsSlug(a + "-" + b)
  {
    var j := a + "-" + b;
    forall k | 0 <= k < |j| ensures IsAlnum(j[k]) || j[k] == '-' {
      if k < |a| { assert j[k] == a[k]; }
      else if k > |a| { assert j[k] == b[k - |a| - 1]; }
    }
    forall k | 0 < k < |j| ensures j[k - 1] == '-' ==> j[k] != '-' {
      if k < |a| { assert j[k - 1] == a[k - 1] && j[k] == a[k]; }
      else if k == |a| { assert j[k - 1] == a[|a| - 1]; }
      else if k == |a| + 1 { assert j[k] == b[0]; }
      else { assert j[k - 1] == b[k - |a| - 2] && j[k] == b[k - |a| - 1]; }
    }
    assert j[0] == a[0] && j[|j| - 1] == b[|b| - 1];
  }

  /** Lower-casing leaves a slug unchanged. */
  lemma LowerSlug(a: string)
    requires HyphenJoined(a)
    ensures Lower(a) == a
  {
    var l := Lower(a);
    forall i | 0 <= i < |a| ensures l[i] == a[i] {
      assert IsAlnum(a[i]) || a[i] == '-';
    }
  }

  /** Lower-casing `a + m + b` touches only `m` when `a` and `b` are slugs. */
  lemma LowerAround(a: string, m: string, b: string)
    requires IsSlug(a) && IsSlug(b)
    ensures Lower(a + m + b) == a + Lower(m) + b
  {
    var s, r := a + m + b, a + Lower(m) + b;
    forall k | 0 <= k < |s| ensures Lower(s)[k] == r[k] {
      if k < |a| {
        assert s[k] == a[k] && r[k] == a[k];
      } else if k < |a| + |m| {
        assert s[k] == m[k - |a|] && r[k] == Lower(m)[k - |a|];
      } else {
        assert s[k] == b[k - |a| - |m|] && r[k] == b[k - |a| - |m|];
      }
    }
  }

  /** The replacement step on `a + m + b` puts one hyphen where `m` was. */
  lemma ReplaceAround(a: string, m: string, b: string)
    requires IsSlug(a) && IsSlug(b) && m != []
    requires forall k :: 0 <= k < |m| ==> !IsAlnum(m[k])
    ensures ReplaceRuns(a + m + b) == a + "-" + b
  {
    ReplaceRunsJoinedPrefix(a, m + b);
    AppendAssoc(a, m, b);
    ReplaceRunsRun(m, b);
    ReplaceRunsFixed(b);
  }

  /** Text whose replacement step already gives a slug slugifies to it. */
  lemma SlugifyReplaced(s: string, j: string)
    requires IsSlug(j) && ReplaceRuns(Lower(Strip(s))) == j
    ensures Slugify(s) == j
  {
    CollapseFixed(j);
    StripByFixed(j, IsHyphen);
  }

  /** Words separated by a run of other characters are joined by one
      hyphen: the slug of `a + m + b` is `a-b` for slugs `a` and `b` and a
      separator `m` without letters or digits, even after lower-casing. */
  lemma SlugifyJoin(a: string, m: string, b: string)
    requires IsSlug(a) && IsSlug(b) && m != []
    requires forall k :: 0 <= k < |m| ==> !IsAlnum(LowerChar(m[k]))
    ensures Slugify(a + m + b) == a + "-" + b
  {
    var s := a + m + b;
    assert s[0] == a[0] && s[|s| - 1] == b[|b| - 1];
    StripByFixed(s, IsSpace);
    LowerAround(a, m, b);
    ReplaceAround(a, Lower(m), b);
    SlugJoin(a, b);
    SlugifyReplaced(s, a + "-" + b);
  }

  /** `slugify` is idempotent. */
  lemma SlugifyIdempotent(s: string)
    ensures Slugify(Slugify(s)) == Slugify(s)
  {
    SlugFixed(Slugify(s));
  }
}
