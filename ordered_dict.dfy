/**
 * Python's insertion-ordered `dict`, as a sequence of key/value pairs in
 * insertion order. Assigning to a present key keeps its position; `del`
 * closes the gap; iteration follows the sequence.
 */
module OrderedDict {
  import opened Wrappers

  type Dict<K, V> = seq<(K, V)>

  function Keys<K(==), V>(d: Dict<K, V>): set<K> {
    set i | 0 <= i < |d| :: d[i].0
  }

  /** No key occurs twice: the shape every Python dict has. */
  predicate Distinct<K(==), V>(d: Dict<K, V>) {
    forall i, j :: 0 <= i < j < |d| ==> d[i].0 != d[j].0
  }

  /**
   * The value the dict holds for `k` (its first entry with key `k`), or None:
   * the reading that the assignment and `del` lemmas are stated with.
   */
  function Get<K(==), V>(d: Dict<K, V>, k: K): (r: Option<V>)
    ensures r.Some? <==> k in Keys(d)
    ensures r.Some? ==> (k, r.value) in d
  {
    if d == [] then None
    else if d[0].0 == k then Some(d[0].1)
    else
      assert Keys(d) == {d[0].0} + Keys(d[1..]) by { KeysCons(d); }
      Get(d[1..], k)
  }

  /** `d[k] = v`: overwrite in place when `k` is present, append otherwise. */
  function Set<K(==), V>(d: Dict<K, V>, k: K, v: V): (r: Dict<K, V>)
    ensures Keys(r) == Keys(d) + {k}
    ensures |r| == if k in Keys(d) then |d| else |d| + 1
    ensures k !in Keys(d) ==> r == d + [(k, v)]
  {
    if d == [] then assert [(k, v)][0].0 == k; [(k, v)]
    else
      var r := if d[0].0 == k then [(k, v)] + d[1..] else [d[0]] + Set(d[1..], k, v);
      KeysCons(d); KeysCons(r); r
  }

  /** `if k not in d: d[k] = v`, the guard of `add_thread`. */
  function AddIfAbsent<K(==), V>(d: Dict<K, V>, k: K, v: V): (r: Dict<K, V>)
    ensures Keys(r) == Keys(d) + {k}
    ensures Distinct(d) ==> Distinct(r)
    ensures k in Keys(d) ==> r == d
    ensures k !in Keys(d) ==> r == d + [(k, v)]
  {
    if k in Keys(d) then d
    else
      KeysSnoc(d, (k, v));
      if Distinct(d) then DistinctSnoc(d, (k, v)); d + [(k, v)] else d + [(k, v)]
  }

  /**
   * `del d[k]`: drop the entry with key `k`, keeping the others in order.
   * Python raises KeyError for an absent key; here the dict comes back
   * unchanged.
   */
  function Remove<K(==), V>(d: Dict<K, V>, k: K): (r: Dict<K, V>)
    ensures Keys(r) <= Keys(d)
    ensures k !in Keys(d) ==> r == d
    ensures |r| == if k in Keys(d) then |d| - 1 else |d|
  {
    if d == [] then []
    else
      var r := if d[0].0 == k then d[1..] else [d[0]] + Remove(d[1..], k);
      KeysCons(d); KeysCons(r); r
  }

  lemma KeysCons<K, V>(d: Dict<K, V>)
    ensures d != [] ==> Keys(d) == {d[0].0} + Keys(d[1..])
  {
    if d != [] {
      forall x | x in Keys(d) ensures x in {d[0].0} + Keys(d[1..]) {
        var i :| 0 <= i < |d| && d[i].0 == x;
        if i > 0 { assert d[1..][i - 1].0 == x; }
      }
      forall x | x in Keys(d[1..]) ensures x in Keys(d) {
        var i :| 0 <= i < |d[1..]| && d[1..][i].0 == x;
        assert d[i + 1].0 == x;
      }
    }
  }

  lemma DistinctTail<K, V>(d: Dict<K, V>)
    requires Distinct(d) && d != []
    ensures Distinct(d[1..]) && d[0].0 !in Keys(d[1..])
  {
    forall i, j | 0 <= i < j < |d[1..]| ensures d[1..][i].0 != d[1..][j].0 {
      assert d[1..][i] == d[i + 1] && d[1..][j] == d[j + 1];
    }
    forall i | 0 <= i < |d[1..]| ensures d[1..][i].0 != d[0].0 {
      assert d[1..][i] == d[i + 1];
    }
  }

  lemma DistinctCons<K, V>(x: (K, V), d: Dict<K, V>)
    requires Distinct(d) && x.0 !in Keys(d)
    ensures Distinct([x] + d)
  {
    var e := [x] + d;
    forall i, j | 0 <= i < j < |e| ensures e[i].0 != e[j].0 {
      if i == 0 {
        assert e[j] == d[j - 1];
      } else {
        assert e[i] == d[i - 1] && e[j] == d[j - 1];
      }
    }
  }

  /** After `d[k] = v`, reading `k` gives `v`. */
  lemma {:induction false} GetSetSame<K, V>(d: Dict<K, V>, k: K, v: V)
    ensures Get(Set(d, k, v), k) == Some(v)
  {
    if d != [] && d[0].0 != k {
      GetSetSame(d[1..], k, v);
    }
  }

  /** After `d[k] = v`, every other key reads as before. */
  lemma {:induction false} GetSetOther<K, V>(d: Dict<K, V>, k: K, v: V, j: K)
    requires j != k
    ensures Get(Set(d, k, v), j) == Get(d, j)
  {
    if d != [] && d[0].0 != k {
      GetSetOther(d[1..], k, v, j);
    }
  }

  /**
   * `d[k] = v` on a present key overwrites that entry in its position and
   * leaves every other entry where and what it was.
   */
  lemma {:induction false} SetPresentInPlace<K, V>(d: Dict<K, V>, k: K, v: V, i: nat)
    requires Distinct(d) && i < |d| && d[i].0 == k
    ensures Set(d, k, v) == d[i := (k, v)]
  {
    if i > 0 {
      DistinctTail(d);
      assert d[1..][i - 1].0 == k;
      SetPresentInPlace(d[1..], k, v, i - 1);
      assert [d[0]] + d[1..][i - 1 := (k, v)] == d[i := (k, v)];
    } else {
      assert [(k, v)] + d[1..] == d[0 := (k, v)];
    }
  }

  /** `d[k] = v` keeps a dict free of duplicate keys. */
  lemma {:induction false} SetDistinct<K, V>(d: Dict<K, V>, k: K, v: V)
    requires Distinct(d)
    ensures Distinct(Set(d, k, v))
  {
    if d == [] {
    } else if d[0].0 == k {
      DistinctTail(d);
      DistinctCons((k, v), d[1..]);
    } else {
      DistinctTail(d);
      SetDistinct(d[1..], k, v);
      DistinctCons(d[0], Set(d[1..], k, v));
    }
  }

  /** After `del d[k]`, `k` is gone from a duplicate-free dict. */
  lemma {:induction false} RemoveKeys<K, V>(d: Dict<K, V>, k: K)
    requires Distinct(d)
    ensures Keys(Remove(d, k)) == Keys(d) - {k}
    ensures Distinct(Remove(d, k))
  {
    if d == [] {
    } else if d[0].0 == k {
      DistinctTail(d);
      KeysCons(d);
    } else {
      DistinctTail(d);
      RemoveKeys(d[1..], k);
      KeysCons(d);
      KeysCons([d[0]] + Remove(d[1..], k));
      DistinctCons(d[0], Remove(d[1..], k));
    }
  }

  /** `del d[k]` leaves the value of every other key as it was. */
  lemma {:induction false} GetRemoveOther<K, V>(d: Dict<K, V>, k: K, j: K)
    requires j != k
    ensures Get(Remove(d, k), j) == Get(d, j)
  {
    if d != [] && d[0].0 != k {
      GetRemoveOther(d[1..], k, j);
    }
  }

  /**
   * `del d[k]` on a present key removes exactly that entry: the remaining
   * entries keep their relative order.
   */
  lemma {:induction false} RemoveAt<K, V>(d: Dict<K, V>, k: K, i: nat)
    requires Distinct(d) && i < |d| && d[i].0 == k
    ensures Remove(d, k) == d[..i] + d[i + 1..]
  {
    if i > 0 {
      DistinctTail(d);
      assert d[1..][i - 1].0 == k;
      assert d[0].0 != k;
      RemoveAt(d[1..], k, i - 1);
      assert d[1..][..i - 1] == d[1..i] && d[1..][i..] == d[i + 1..];
      assert [d[0]] + d[1..i] == d[..i];
    }
  }

  /** Every entry of `Set(d, k, v)` is the new one or was already in `d`. */
  lemma {:induction false} SetEntries<K, V>(d: Dict<K, V>, k: K, v: V)
    ensures forall i :: 0 <= i < |Set(d, k, v)| ==> Set(d, k, v)[i] == (k, v) || Set(d, k, v)[i] in d
  {
    if d != [] && d[0].0 != k {
      SetEntries(d[1..], k, v);
      var r := Set(d, k, v);
      assert r == [d[0]] + Set(d[1..], k, v);
      forall i | 0 <= i < |r| ensures r[i] == (k, v) || r[i] in d {
        if i > 0 {
          assert r[i] == Set(d[1..], k, v)[i - 1];
          assert forall e :: e in d[1..] ==> e in d;
        }
      }
    } else if d != [] {
      assert forall e :: e in d[1..] ==> e in d;
    }
  }

  lemma KeysSnoc<K, V>(d: Dict<K, V>, x: (K, V))
    ensures Keys(d + [x]) == Keys(d) + {x.0}
  {
    var e := d + [x];
    forall y | y in Keys(e) ensures y in Keys(d) + {x.0} {
      var i :| 0 <= i < |e| && e[i].0 == y;
      if i < |d| { assert d[i].0 == y; }
    }
    forall y | y in Keys(d) ensures y in Keys(e) {
      var i :| 0 <= i < |d| && d[i].0 == y;
      assert e[i].0 == y;
    }
    assert e[|d|].0 == x.0;
  }

  lemma DistinctSnoc<K, V>(d: Dict<K, V>, x: (K, V))
    requires Distinct(d) && x.0 !in Keys(d)
    ensures Distinct(d + [x])
  {
    var e := d + [x];
    forall i, j | 0 <= i < j < |e| ensures e[i].0 != e[j].0 {
      assert e[i] == d[i];
      if j < |d| { assert e[j] == d[j]; }
    }
  }

  /** Every entry left by `del d[k]` was an entry of `d`. */
  lemma {:induction false} RemoveEntries<K, V>(d: Dict<K, V>, k: K)
    ensures forall i :: 0 <= i < |Remove(d, k)| ==> Remove(d, k)[i] in d
  {
    if d != [] {
      assert forall e :: e in d[1..] ==> e in d;
      if d[0].0 != k {
        RemoveEntries(d[1..], k);
        var r := Remove(d, k);
        forall i | 0 <= i < |r| ensures r[i] in d {
          if i > 0 { assert r[i] == Remove(d[1..], k)[i - 1]; }
        }
      }
    }
  }
}
