/** The output directory choice at tools/migrate_claude_project.py:83-89:
    `.migration_out/<target>`, or when that exists the first
    `.migration_out/<target>_<i>` with `i >= 1` that does not. The entries
    already present under `.migration_out` are given as a set of names. */
module OutputDir {
  import opened Text

  /** `f"{target}_{i}"` */
  function Numbered(target: string, i: nat): string {
    target + "_" + Decimal(i)
  }

  /** Distinct numbers give distinct names. */
  lemma NumberedInjective(target: string, i: nat, j: nat)
    requires Numbered(target, i) == Numbered(target, j)
    ensures i == j
  {
    var p := target + "_";
    assert Numbered(target, i)[|p|..] == Decimal(i);
    assert Numbered(target, j)[|p|..] == Decimal(j);
    DecimalInjective(i, j);
  }

  /** A numbered name is never the plain target name. */
  lemma NumberedDiffers(target: string, i: nat)
    ensures Numbered(target, i) != target
  {
    assert |Numbered(target, i)| > |target|;
  }

  /** `name` is what the source picks: it is unused; it is `target` when that
      is unused; otherwise it is `target_i` for the least `i >= 1` that is
      unused. */
  ghost predicate IsChoice(target: string, existing: set<string>, name: string) {
    && name !in existing
    && (target !in existing ==> name == target)
    && (target in existing ==>
          exists i :: 1 <= i && name == Numbered(target, i) &&
            forall j :: 1 <= j < i ==> Numbered(target, j) in existing)
  }

  /** The names the loop has tried before reaching `i`. */
  ghost function Tried(target: string, i: nat): set<string> {
    set j | 1 <= j < i :: Numbered(target, j)
  }

  /** Trying `i` adds its name, which was not tried before. */
  lemma TriedNext(target: string, i: nat)
    requires 1 <= i
    ensures Tried(target, i + 1) == Tried(target, i) + {Numbered(target, i)}
    ensures Numbered(target, i) !in Tried(target, i)
  {
    if Numbered(target, i) in Tried(target, i) {
      var j :| 1 <= j < i && Numbered(target, j) == Numbered(target, i);
      NumberedInjective(target, i, j);
    }
  }

  /** The source's `while` loop counting `i` up from 1. */
  method ChooseOutputDir(target: string, existing: set<string>) returns (name: string)
    ensures IsChoice(target, existing, name)
  {
    if target !in existing {
      return target;
    }
    var i := 1;
    while Numbered(target, i) in existing
      invariant 1 <= i
      invariant forall j :: 1 <= j < i ==> Numbered(target, j) in existing
      invariant Tried(target, i) <= existing
      decreases |existing - Tried(target, i)|
    {
      TriedNext(target, i);
      assert existing - Tried(target, i + 1) < existing - Tried(target, i);
      i := i + 1;
    }
    return Numbered(target, i);
  }

  /** There is only one possible choice. */
  lemma ChoiceUnique(target: string, existing: set<string>, a: string, b: string)
    requires IsChoice(target, existing, a) && IsChoice(target, existing, b)
    ensures a == b
  {
    if target in existing {
      var i :| 1 <= i && a == Numbered(target, i) &&
        forall j :: 1 <= j < i ==> Numbered(target, j) in existing;
      var k :| 1 <= k && b == Numbered(target, k) &&
        forall j :: 1 <= j < k ==> Numbered(target, j) in existing;
    }
  }

  /** Running the converter again and again yields `target`, `target_1`,
      `target_2`. */
  lemma RerunsNumbered(target: string)
    ensures IsChoice(target, {}, target)
    ensures IsChoice(target, {target}, Numbered(target, 1))
    ensures IsChoice(target, {target, Numbered(target, 1)}, Numbered(target, 2))
  {
    NumberedDiffers(target, 1);
    NumberedDiffers(target, 2);
    if Numbered(target, 2) == Numbered(target, 1) {
      NumberedInjective(target, 2, 1);
    }
  }
}
