/** The orders the migration report sorts by, and `sorted(set(xs))`.
    Python compares strings by code point and lists element by element, a
    proper prefix coming first; `pathlib` paths compare as the lists of their
    `/`-separated parts. */
module Order {
  import opened Text

  ghost predicate StrictTotalOrder<T(!new)>(lt: (T, T) -> bool) {
    && (forall a :: !lt(a, a))
    && (forall a, b, c :: lt(a, b) && lt(b, c) ==> lt(a, c))
    && (forall a, b :: a != b ==> lt(a, b) || lt(b, a))
  }

  /** Lexicographic order on sequences, as Python orders `str` and `list`. */
  function Lex<T(==)>(a: seq<T>, b: seq<T>, lt: (T, T) -> bool): bool {
    if a == [] then b != []
    else if b == [] then false
    else if a[0] == b[0] then Lex(a[1..], b[1..], lt)
    else lt(a[0], b[0])
  }

  lemma {:induction false} LexIrreflexive<T>(a: seq<T>, lt: (T, T) -> bool)
    ensures !Lex(a, a, lt)
  {
    if a != [] { LexIrreflexive(a[1..], lt); }
  }

  lemma {:induction false} LexTransitive<T(!new)>(a: seq<T>, b: seq<T>, c: seq<T>, lt: (T, T) -> bool)
    requires StrictTotalOrder(lt)
    requires Lex(a, b, lt) && Lex(b, c, lt)
    ensures Lex(a, c, lt)
  {
    if a != [] && b != [] && c != [] {
      if a[0] == b[0] && b[0] == c[0] {
        LexTransitive(a[1..], b[1..], c[1..], lt);
      }
    }
  }

  lemma {:induction false} LexTotal<T(!new)>(a: seq<T>, b: seq<T>, lt: (T, T) -> bool)
    requires StrictTotalOrder(lt)
    requires a != b
    ensures Lex(a, b, lt) || Lex(b, a, lt)
  {
    if a != [] && b != [] && a[0] == b[0] {
      assert a == [a[0]] + a[1..] && b == [b[0]] + b[1..];
      LexTotal(a[1..], b[1..], lt);
    }
  }

  predicate CharLess(a: char, b: char) { a < b }

  /** `a < b` on Python strings. */
  predicate StrLess(a: string, b: string) { Lex(a, b, CharLess) }

  /** The parts `pathlib` compares: `str(p).split("/")`. */
  function PathParts(p: string): (parts: seq<string>)
    ensures Join("/", parts) == p
  {
    SplitMax(p, "/", |p|)
  }

  /** `p < q` on `pathlib` paths. */
  predicate PathLess(p: string, q: string) { Lex(PathParts(p), PathParts(q), StrLess) }

  lemma StrLessIsStrictTotal()
    ensures StrictTotalOrder(StrLess)
  {
    assert StrictTotalOrder(CharLess);
    forall a: string ensures !StrLess(a, a) { LexIrreflexive(a, CharLess); }
    forall a: string, b: string, c: string | StrLess(a, b) && StrLess(b, c) ensures StrLess(a, c) {
      LexTransitive(a, b, c, CharLess);
    }
    forall a: string, b: string | a != b ensures StrLess(a, b) || StrLess(b, a) {
      LexTotal(a, b, CharLess);
    }
  }

  lemma PathLessIsStrictTotal()
    ensures StrictTotalOrder(PathLess)
  {
    StrLessIsStrictTotal();
    forall a: string ensures !PathLess(a, a) { LexIrreflexive(PathParts(a), StrLess); }
    forall a: string, b: string, c: string | PathLess(a, b) && PathLess(b, c) ensures PathLess(a, c) {
      LexTransitive(PathParts(a), PathParts(b), PathParts(c), StrLess);
    }
    forall a: string, b: string | a != b ensures PathLess(a, b) || PathLess(b, a) {
      assert PathParts(a) != PathParts(b);
      LexTotal(PathParts(a), PathParts(b), StrLess);
    }
  }

  ghost predicate StrictlySorted<T(!new)>(s: seq<T>, lt: (T, T) -> bool) {
    forall i, j :: 0 <= i < j < |s| ==> lt(s[i], s[j])
  }

  /** Insert `x` into a strictly sorted sequence unless it is already there. */
  function InsertUnique<T(==,!new)>(x: T, s: seq<T>, lt: (T, T) -> bool): (r: seq<T>)
    requires StrictTotalOrder(lt) && StrictlySorted(s, lt)
    ensures StrictlySorted(r, lt)
    ensures forall y :: y in r <==> y == x || y in s
  {
    if s == [] then [x]
    else if x == s[0] then s
    else if lt(x, s[0]) then
      assert forall j :: 0 < j < |s| ==> lt(x, s[j]);
      [x] + s
    else
      var rest := InsertUnique(x, s[1..], lt);
      assert forall y :: y in rest ==> lt(s[0], y);
      [s[0]] + rest
  }

  /** `sorted(set(xs))`: the distinct elements of `xs` in increasing order. */
  function SortUnique<T(==,!new)>(xs: seq<T>, lt: (T, T) -> bool): (r: seq<T>)
    requires StrictTotalOrder(lt)
    ensures StrictlySorted(r, lt)
    ensures forall y :: y in r <==> y in xs
  {
    if xs == [] then []
    else InsertUnique(xs[|xs| - 1], SortUnique(xs[..|xs| - 1], lt), lt)
  }

  lemma HeadIsLeast<T(!new)>(s: seq<T>, y: T, lt: (T, T) -> bool)
    requires StrictlySorted(s, lt) && y in s
    ensures y == s[0] || lt(s[0], y)
  {
    var k :| 0 <= k < |s| && s[k] == y;
    if k > 0 { assert lt(s[0], s[k]); }
  }

  /** A strictly sorted sequence is fixed by its elements: `SortUnique` has
      exactly one possible answer. */
  lemma {:induction false} SortedUnique<T(!new)>(a: seq<T>, b: seq<T>, lt: (T, T) -> bool)
    requires StrictTotalOrder(lt)
    requires StrictlySorted(a, lt) && StrictlySorted(b, lt)
    requires forall y :: y in a <==> y in b
    ensures a == b
  {
    if a != [] { assert a[0] in a; }
    if b != [] { assert b[0] in b; }
    if a != [] && b != [] {
      HeadIsLeast(b, a[0], lt);
      HeadIsLeast(a, b[0], lt);
      assert a[0] == b[0];
      forall y ensures y in a[1..] <==> y in b[1..] {
        if y in a[1..] {
          var i :| 1 <= i < |a| && a[i] == y;
          assert lt(a[0], y);
          assert y in a && y in b;
          var k :| 0 <= k < |b| && b[k] == y;
          assert k != 0;
          assert b[1..][k - 1] == y;
        }
        if y in b[1..] {
          var i :| 1 <= i < |b| && b[i] == y;
          assert lt(b[0], y);
          assert y in b && y in a;
          var k :| 0 <= k < |a| && a[k] == y;
          assert k != 0;
          assert a[1..][k - 1] == y;
        }
      }
      SortedUnique(a[1..], b[1..], lt);
      assert a == [a[0]] + a[1..] && b == [b[0]] + b[1..];
    }
  }
}
