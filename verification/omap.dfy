/** A Python `dict` with string keys as the converter uses it: assigning an
    existing key replaces its value where it stands, a new key is appended,
    and iteration (and so JSON output) follows that order. */
module OrderedMap {
  import opened Text

  type OMap<V> = seq<(string, V)>

  predicate HasKey<V>(m: OMap<V>, k: string) {
    exists i :: 0 <= i < |m| && m[i].0 == k
  }

  predicate DistinctKeys<V>(m: OMap<V>) {
    forall i, j :: 0 <= i < j < |m| ==> m[i].0 != m[j].0
  }

  /** The position of key `k`, if present. */
  function IndexOf<V>(m: OMap<V>, k: string): (r: Option<nat>)
    ensures r.Some? ==> r.value < |m| && m[r.value].0 == k
    ensures r.Some? ==> forall j :: 0 <= j < r.value ==> m[j].0 != k
    ensures r.None? ==> forall j :: 0 <= j < |m| ==> m[j].0 != k
  {
    if m == [] then None
    else if m[0].0 == k then Some(0)
    else match IndexOf(m[1..], k)
      case None => None
      case Some(i) => Some(i + 1)
  }

  lemma IndexOfIs<V>(m: OMap<V>, k: string, i: nat)
    requires i < |m| && m[i].0 == k && forall j :: 0 <= j < i ==> m[j].0 != k
    ensures IndexOf(m, k) == Some(i)
  {
  }

  /** `m.get(k)` */
  function Lookup<V>(m: OMap<V>, k: string): Option<V> {
    match IndexOf(m, k)
    case Some(i) => Some(m[i].1)
    case None => None
  }

  /** `m[k] = v` */
  function Put<V>(m: OMap<V>, k: string, v: V): OMap<V> {
    match IndexOf(m, k)
    case Some(i) => m[i := (k, v)]
    case None => m + [(k, v)]
  }

  /** A key is present exactly when a lookup finds it. */
  lemma LookupHasKey<V>(m: OMap<V>, k: string)
    ensures Lookup(m, k).Some? <==> HasKey(m, k)
  {
    if HasKey(m, k) {
      var i :| 0 <= i < |m| && m[i].0 == k;
    }
  }

  /** Assignment keeps the position of every present key and appends a new
      one at the end. */
  lemma PutOrder<V>(m: OMap<V>, k: string, v: V)
    ensures HasKey(m, k) ==> |Put(m, k, v)| == |m|
    ensures !HasKey(m, k) ==> Put(m, k, v) == m + [(k, v)]
    ensures forall j :: 0 <= j < |m| ==> Put(m, k, v)[j].0 == m[j].0
  {
    LookupHasKey(m, k);
  }

  /** After `m[k] = v`, `k` maps to `v` and every other key is unchanged. */
  lemma PutLookup<V>(m: OMap<V>, k: string, v: V, k': string)
    ensures Lookup(Put(m, k, v), k') == if k' == k then Some(v) else Lookup(m, k')
  {
    var r := Put(m, k, v);
    PutOrder(m, k, v);
    match IndexOf(m, k') {
      case Some(i) =>
        IndexOfIs(r, k', i);
      case None =>
        if k' == k {
          IndexOfIs(r, k', |m|);
        } else {
          assert forall j :: 0 <= j < |r| ==> r[j].0 != k';
        }
    }
  }

  /** `list(m.keys())` */
  function Keys<V>(m: OMap<V>): (r: seq<string>)
    ensures |r| == |m| && forall i :: 0 <= i < |m| ==> r[i] == m[i].0
  {
    seq(|m|, i requires 0 <= i < |m| => m[i].0)
  }

  /** Assignment keeps keys distinct. */
  lemma PutDistinct<V>(m: OMap<V>, k: string, v: V)
    requires DistinctKeys(m)
    ensures DistinctKeys(Put(m, k, v))
  {
    PutOrder(m, k, v);
  }

  /** Assigning each pair of `ps` in turn. */
  function PutAll<V>(m: OMap<V>, ps: seq<(string, V)>): OMap<V>
    decreases |ps|
  {
    if ps == [] then m else Put(PutAll(m, ps[..|ps| - 1]), ps[|ps| - 1].0, ps[|ps| - 1].1)
  }

  /** A key is present after the assignments exactly when it was before or
      one of them names it. */
  lemma {:induction false} PutAllKeys<V>(m: OMap<V>, ps: seq<(string, V)>, k: string)
    ensures HasKey(PutAll(m, ps), k) <==> HasKey(m, k) || HasKey(ps, k)
    decreases |ps|
  {
    if ps != [] {
      var n := |ps| - 1;
      var before := PutAll(m, ps[..n]);
      PutAllKeys(m, ps[..n], k);
      PutLookup(before, ps[n].0, ps[n].1, k);
      LookupHasKey(before, k);
      LookupHasKey(Put(before, ps[n].0, ps[n].1), k);
      if HasKey(ps, k) {
        var i :| 0 <= i < |ps| && ps[i].0 == k;
        if i < n { assert ps[..n][i] == ps[i]; }
      }
      if HasKey(ps[..n], k) {
        var i :| 0 <= i < n && ps[..n][i].0 == k;
        assert ps[i] == ps[..n][i];
      }
    }
  }

  /** The value of a key is the one of the last assignment naming it. */
  lemma {:induction false} PutAllLastWins<V>(m: OMap<V>, ps: seq<(string, V)>, i: nat)
    requires i < |ps| && forall j :: i < j < |ps| ==> ps[j].0 != ps[i].0
    ensures Lookup(PutAll(m, ps), ps[i].0) == Some(ps[i].1)
    decreases |ps|
  {
    var n := |ps| - 1;
    PutLookup(PutAll(m, ps[..n]), ps[n].0, ps[n].1, ps[i].0);
    if i < n {
      assert ps[..n][i] == ps[i];
      PutAllLastWins(m, ps[..n], i);
    }
  }

  lemma {:induction false} PutAllDistinct<V>(m: OMap<V>, ps: seq<(string, V)>)
    requires DistinctKeys(m)
    ensures DistinctKeys(PutAll(m, ps))
    decreases |ps|
  {
    if ps != [] {
      var n := |ps| - 1;
      PutAllDistinct(m, ps[..n]);
      PutDistinct(PutAll(m, ps[..n]), ps[n].0, ps[n].1);
    }
  }
}
