/**
 * Python dicts whose keys are rewritten by a comprehension. A dict is the
 * sequence of its items in insertion order; assigning to a present key
 * replaces its value where it stands, assigning to a new key appends.
 */
module Dicts {
  import opened Wrappers

  type Dict<K, V> = seq<(K, V)>

  function Keys<K(==), V>(d: Dict<K, V>): set<K> {
    set i | 0 <= i < |d| :: d[i].0
  }

  /** Every key occurs once, as in any Python dict. */
  predicate DistinctKeys<K(==), V>(d: Dict<K, V>) {
    forall i, j :: 0 <= i < j < |d| ==> d[i].0 != d[j].0
  }

  lemma KeysCons<K, V>(d: Dict<K, V>)
    requires d != []
    ensures Keys(d) == {d[0].0} + Keys(d[1..])
  {
    forall k | k in Keys(d) ensures k in {d[0].0} + Keys(d[1..]) {
      var i :| 0 <= i < |d| && d[i].0 == k;
      if i > 0 {
        assert d[1..][i - 1].0 == k;
      }
    }
    forall k | k in Keys(d[1..]) ensures k in Keys(d) {
      var i :| 0 <= i < |d[1..]| && d[1..][i].0 == k;
      assert d[i + 1].0 == k;
    }
  }

  lemma KeysSnoc<K, V>(d: Dict<K, V>)
    requires d != []
    ensures Keys(d) == Keys(d[..|d| - 1]) + {d[|d| - 1].0}
  {
    var p := d[..|d| - 1];
    forall k | k in Keys(d) ensures k in Keys(p) + {d[|d| - 1].0} {
      var i :| 0 <= i < |d| && d[i].0 == k;
      if i < |d| - 1 {
        assert p[i].0 == k;
      }
    }
  }

  /** d[k], or None where Python raises KeyError. */
  function Get<K(==), V>(d: Dict<K, V>, k: K): (r: Option<V>)
    ensures r.Some? <==> k in Keys(d)
    ensures r.Some? ==> exists i :: 0 <= i < |d| && d[i] == (k, r.value)
  {
    if d == [] then None
    else
      KeysCons(d);
      if d[0].0 == k then Some(d[0].1)
      else
        var r := Get(d[1..], k);
        assert r.Some? ==> exists i :: 0 <= i < |d| && d[i] == (k, r.value) by {
          if r.Some? {
            var i :| 0 <= i < |d[1..]| && d[1..][i] == (k, r.value);
            assert d[i + 1] == (k, r.value);
          }
        }
        r
  }

  /** In a dict every item is what a lookup of its key returns. */
  lemma {:induction false} GetAt<K, V>(d: Dict<K, V>, i: nat)
    requires DistinctKeys(d) && i < |d|
    ensures Get(d, d[i].0) == Some(d[i].1)
  {
    if i > 0 {
      assert d[1..][i - 1] == d[i];
      GetAt(d[1..], i - 1);
    }
  }

  /** d[k] = v */
  function Put<K(==), V>(d: Dict<K, V>, k: K, v: V): (r: Dict<K, V>)
    ensures Keys(r) == Keys(d) + {k}
    ensures DistinctKeys(d) ==> DistinctKeys(r)
    ensures k !in Keys(d) ==> r == d + [(k, v)]
  {
    if d == [] then
      assert Keys([(k, v)]) == {k} by { KeysCons([(k, v)]); }
      [(k, v)]
    else
      KeysCons(d);
      if d[0].0 == k then
        var r := [(k, v)] + d[1..];
        KeysCons(r);
        assert r[1..] == d[1..];
        r
      else
        var rest := Put(d[1..], k, v);
        var r := [d[0]] + rest;
        KeysCons(r);
        assert r[1..] == rest;
        assert DistinctKeys(d) ==> DistinctKeys(r) by {
          if DistinctKeys(d) {
            assert DistinctKeys(d[1..]);
            forall i, j | 0 <= i < j < |r| ensures r[i].0 != r[j].0 {
              if i == 0 {
                assert r[j].0 in Keys(rest);
                assert d[0].0 !in Keys(d[1..]);
              }
            }
          }
        }
        r
  }

  lemma {:induction false} PutGet<K, V>(d: Dict<K, V>, k: K, v: V, k': K)
    ensures Get(Put(d, k, v), k') == if k' == k then Some(v) else Get(d, k')
  {
    if d != [] && d[0].0 != k {
      PutGet(d[1..], k, v, k');
      assert ([d[0]] + Put(d[1..], k, v))[1..] == Put(d[1..], k, v);
    } else if d != [] {
      assert ([(k, v)] + d[1..])[1..] == d[1..];
    }
  }

  /**
   * The dict comprehension {f(k): v for k, v in d.items()}: items are put in
   * order, so where two keys meet under f the later value wins.
   */
  function Comprehend<K(==), L(==), V>(d: Dict<K, V>, f: K -> L): Dict<L, V> {
    if d == [] then []
    else Put(Comprehend(d[..|d| - 1], f), f(d[|d| - 1].0), d[|d| - 1].1)
  }

  /** The comprehension is a dict, and its keys are the images of the keys of d. */
  lemma {:induction false} ComprehendKeys<K, L, V>(d: Dict<K, V>, f: K -> L)
    ensures DistinctKeys(Comprehend(d, f))
    ensures Keys(Comprehend(d, f)) == set k | k in Keys(d) :: f(k)
  {
    if d != [] {
      KeysSnoc(d);
      ComprehendKeys(d[..|d| - 1], f);
    }
  }

  /** A key of the comprehension holds the value of the last item that f sends there. */
  lemma {:induction false} ComprehendLastWins<K, L, V>(d: Dict<K, V>, f: K -> L, i: nat)
    requires i < |d|
    requires forall j :: i < j < |d| ==> f(d[j].0) != f(d[i].0)
    ensures Get(Comprehend(d, f), f(d[i].0)) == Some(d[i].1)
  {
    var p := d[..|d| - 1];
    PutGet(Comprehend(p, f), f(d[|d| - 1].0), d[|d| - 1].1, f(d[i].0));
    if i < |d| - 1 {
      assert p[i] == d[i];
      ComprehendLastWins(p, f, i);
    }
  }

  /** Every value of the comprehension is the value of an item whose key f sends there. */
  lemma {:induction false} ComprehendValue<K, L, V>(d: Dict<K, V>, f: K -> L, l: L)
    requires Get(Comprehend(d, f), l).Some?
    ensures exists i :: 0 <= i < |d| && f(d[i].0) == l && d[i].1 == Get(Comprehend(d, f), l).value
  {
    var p := d[..|d| - 1];
    var last := d[|d| - 1];
    PutGet(Comprehend(p, f), f(last.0), last.1, l);
    if f(last.0) != l {
      ComprehendValue(p, f, l);
      var i :| 0 <= i < |p| && f(p[i].0) == l && p[i].1 == Get(Comprehend(p, f), l).value;
      assert d[i] == p[i];
    }
  }

  /** f keeps the keys of d apart (which makes them distinct, too). */
  predicate InjectiveOnKeys<K(==), L(==), V>(d: Dict<K, V>, f: K -> L) {
    forall i, j :: 0 <= i < |d| && 0 <= j < |d| && f(d[i].0) == f(d[j].0) ==> i == j
  }

  /** Where every item holds the same value, the comprehension finds that value under the image of any key. */
  lemma ComprehendUniform<K, L, V>(d: Dict<K, V>, f: K -> L, v: V, i: nat)
    requires i < |d|
    requires forall j :: 0 <= j < |d| ==> d[j].1 == v
    ensures Get(Comprehend(d, f), f(d[i].0)) == Some(v)
  {
    ComprehendKeys(d, f);
    assert d[i].0 in Keys(d);
    ComprehendValue(d, f, f(d[i].0));
  }

  /** When f keeps the keys apart, the comprehension finds what d finds. */
  lemma ComprehendInjective<K, L, V>(d: Dict<K, V>, f: K -> L, k: K)
    requires InjectiveOnKeys(d, f)
    requires k in Keys(d)
    ensures Get(Comprehend(d, f), f(k)) == Get(d, k)
  {
    var i :| 0 <= i < |d| && d[i].0 == k;
    ComprehendLastWins(d, f, i);
    GetAt(d, i);
  }

  /** A comprehension that sends every key of a dict to itself gives back the dict. */
  lemma {:induction false} ComprehendFixed<K, V>(d: Dict<K, V>, f: K -> K)
    requires DistinctKeys(d)
    requires forall i :: 0 <= i < |d| ==> f(d[i].0) == d[i].0
    ensures Comprehend(d, f) == d
  {
    if d != [] {
      var p, last := d[..|d| - 1], d[|d| - 1];
      DistinctSnoc(d);
      assert forall i :: 0 <= i < |p| ==> f(p[i].0) == p[i].0 by {
        forall i | 0 <= i < |p| ensures f(p[i].0) == p[i].0 {
          assert p[i] == d[i];
        }
      }
      ComprehendFixed(p, f);
      assert Put(p, last.0, last.1) == p + [last];
      assert Comprehend(d, f) == Put(p, last.0, last.1);
      assert p + [last] == d;
    }
  }

  /** Without its last item a dict is a dict that lacks that item's key. */
  lemma DistinctSnoc<K, V>(d: Dict<K, V>)
    requires DistinctKeys(d) && d != []
    ensures DistinctKeys(d[..|d| - 1]) && d[|d| - 1].0 !in Keys(d[..|d| - 1])
  {
  }

  /** The dict as a map, later items winning. */
  function ToMap<K(==), V>(d: Dict<K, V>): (m: map<K, V>)
    ensures m.Keys == Keys(d)
  {
    if d == [] then map[]
    else
      KeysSnoc(d);
      ToMap(d[..|d| - 1])[d[|d| - 1].0 := d[|d| - 1].1]
  }

  lemma {:induction false} ToMapAt<K, V>(d: Dict<K, V>, i: nat)
    requires DistinctKeys(d) && i < |d|
    ensures ToMap(d)[d[i].0] == d[i].1
  {
    if i < |d| - 1 {
      var p := d[..|d| - 1];
      assert p[i] == d[i];
      ToMapAt(p, i);
    }
  }
}
