/**
 Python dicts as the sequence of their items in insertion order. A dict
 never holds a key twice (`Valid`); assigning to a present key keeps its
 position and replaces its value, assigning to a new key appends it.
 */
module OrderedMap {
  import opened Wrappers

  /** The keys of `m`, in order. */
  function Keys<K, V>(m: seq<(K, V)>): (ks: seq<K>)
    ensures |ks| == |m|
    ensures forall i :: 0 <= i < |m| ==> ks[i] == m[i].0
  {
    seq(|m|, i requires 0 <= i < |m| => m[i].0)
  }

  /** No element occurs twice. */
  predicate Distinct<K(==)>(ks: seq<K>)
  {
    forall i, j :: 0 <= i < j < |ks| ==> ks[i] != ks[j]
  }

  /** No key occurs twice. */
  predicate Valid<K(==), V>(m: seq<(K, V)>)
  {
    Distinct(Keys(m))
  }

  /** `d.get(k)`: the value stored under `k`, or `None` when `k` is absent. */
  function Get<K(==), V>(m: seq<(K, V)>, k: K): Option<V>
    decreases |m|
  {
    if |m| == 0 then None
    else if m[0].0 == k then Some(m[0].1)
    else Get(m[1..], k)
  }

  /** `k in d`: `Get` finds a value exactly for the keys of `m`, and that value is paired with `k` in `m`. */
  lemma {:induction false} GetFindsKeys<K(!new), V>(m: seq<(K, V)>, k: K)
    ensures Get(m, k).Some? <==> k in Keys(m)
    ensures Get(m, k).Some? ==> (k, Get(m, k).value) in m
    decreases |m|
  {
    if |m| > 0 {
      assert Keys(m) == [m[0].0] + Keys(m[1..]);
      GetFindsKeys(m[1..], k);
    }
  }

  /** `d[k] = v`: afterwards `k` holds `v` and every other key holds what it held. */
  function Put<K(==,!new), V>(m: seq<(K, V)>, k: K, v: V): (r: seq<(K, V)>)
    ensures Get(r, k) == Some(v)
    ensures forall k' :: k' != k ==> Get(r, k') == Get(m, k')
    decreases |m|
  {
    if |m| == 0 then [(k, v)]
    else if m[0].0 == k then [(k, v)] + m[1..]
    else
      var r := [m[0]] + Put(m[1..], k, v);
      assert r[1..] == Put(m[1..], k, v);
      r
  }

  /** Assigning to a new key appends it. */
  lemma {:induction false} PutAppends<K(!new), V>(m: seq<(K, V)>, k: K, v: V)
    requires k !in Keys(m)
    ensures Put(m, k, v) == m + [(k, v)]
    decreases |m|
  {
    if |m| > 0 {
      assert m[0].0 == Keys(m)[0];
      assert Keys(m[1..]) == Keys(m)[1..];
      PutAppends(m[1..], k, v);
      assert [m[0]] + (m[1..] + [(k, v)]) == m + [(k, v)];
    }
  }

  /** Assigning to a present key keeps the keys, and so the key's position. */
  lemma PutKeepsKeys<K(!new), V>(m: seq<(K, V)>, k: K, v: V)
    requires k in Keys(m)
    ensures Keys(Put(m, k, v)) == Keys(m)
  {
    PutKeepsKeyOrder(m, k, v);
  }

  /** Assigning to a present key changes no key at any position. */
  lemma {:induction false} PutKeepsKeyOrder<K(!new), V>(m: seq<(K, V)>, k: K, v: V)
    requires k in Keys(m)
    ensures |Put(m, k, v)| == |m|
    ensures forall i :: 0 <= i < |m| ==> Put(m, k, v)[i].0 == m[i].0
    decreases |m|
  {
    if m[0].0 != k {
      assert Keys(m)[1..] == Keys(m[1..]);
      PutKeepsKeyOrder(m[1..], k, v);
    }
  }

  /** Every item after `d[k] = v` was an item before, or is `(k, v)`. */
  lemma {:induction false} PutItems<K(!new), V>(m: seq<(K, V)>, k: K, v: V)
    ensures forall p :: p in Put(m, k, v) ==> p in m || p == (k, v)
    decreases |m|
  {
    if |m| > 0 && m[0].0 != k {
      PutItems(m[1..], k, v);
    }
  }

  /** Assigning into a dict leaves a dict. */
  lemma PutKeepsDict<K(!new), V>(m: seq<(K, V)>, k: K, v: V)
    requires Valid(m)
    ensures Valid(Put(m, k, v))
  {
    var r := Put(m, k, v);
    if k in Keys(m) {
      PutKeepsKeys(m, k, v);
    } else {
      PutAppends(m, k, v);
      assert Keys(r) == Keys(m) + [k];
    }
  }

  /** The distinct elements of `ks`, each where it first occurs. */
  function FirstOccurrences<K(==,!new)>(ks: seq<K>): (r: seq<K>)
    ensures forall k :: k in r <==> k in ks
    decreases |ks|
  {
    if |ks| == 0 then []
    else
      var prefix := ks[..|ks| - 1];
      assert ks == prefix + [ks[|ks| - 1]];
      if ks[|ks| - 1] in prefix then FirstOccurrences(prefix)
      else FirstOccurrences(prefix) + [ks[|ks| - 1]]
  }

  /** The value of the last pair whose key is `k`, found by scanning `pairs` from the end. */
  function LastValue<K(==,!new), V>(pairs: seq<(K, V)>, k: K): (r: Option<V>)
    ensures r.Some? <==> k in Keys(pairs)
    decreases |pairs|
  {
    if |pairs| == 0 then None
    else
      assert Keys(pairs) == Keys(pairs[..|pairs| - 1]) + [pairs[|pairs| - 1].0];
      if pairs[|pairs| - 1].0 == k then Some(pairs[|pairs| - 1].1)
      else LastValue(pairs[..|pairs| - 1], k)
  }

  /**
   The dict built from `{}` by assigning `d[k] = v` for each pair of `pairs`
   in order: each key sits where it was first assigned and holds the value
   it was last assigned, and every item is one of the assignments.
   */
  function FromAssignments<K(==,!new), V>(pairs: seq<(K, V)>): (r: seq<(K, V)>)
    ensures Valid(r)
    ensures Keys(r) == FirstOccurrences(Keys(pairs))
    ensures forall k :: Get(r, k) == LastValue(pairs, k)
    ensures forall p :: p in r ==> p in pairs
    decreases |pairs|
  {
    if |pairs| == 0 then []
    else
      var prefix := pairs[..|pairs| - 1];
      var last := pairs[|pairs| - 1];
      assert Keys(pairs) == Keys(prefix) + [last.0];
      assert pairs == prefix + [last];
      var m := FromAssignments(prefix);
      assert last.0 in Keys(m) <==> last.0 in Keys(prefix);
      PutKeepsDict(m, last.0, last.1);
      PutItems(m, last.0, last.1);
      if last.0 in Keys(m) then
        PutKeepsKeys(m, last.0, last.1);
        Put(m, last.0, last.1)
      else
        PutAppends(m, last.0, last.1);
        Put(m, last.0, last.1)
  }

  /** `m.update(n)`: assigns every item of `n` into `m`, in `n`'s order. */
  function Update<K(==,!new), V>(m: seq<(K, V)>, n: seq<(K, V)>): (r: seq<(K, V)>)
    ensures Valid(m) ==> Valid(r)
    ensures forall k :: Get(r, k) == if k in Keys(n) then LastValue(n, k) else Get(m, k)
    decreases |n|
  {
    if |n| == 0 then m
    else
      var prefix := n[..|n| - 1];
      var last := n[|n| - 1];
      assert Keys(n) == Keys(prefix) + [last.0];
      var u := Update(m, prefix);
      var r := Put(u, last.0, last.1);
      if Valid(m) then PutKeepsDict(u, last.0, last.1); r else r
  }

  /** Updating the dict built from `a` with the items of `b` is assigning `a` then `b`. */
  lemma {:induction false} UpdateFromAssignments<K(!new), V>(a: seq<(K, V)>, b: seq<(K, V)>)
    ensures Update(FromAssignments(a), b) == FromAssignments(a + b)
    decreases |b|
  {
    if |b| == 0 {
      assert a + b == a;
    } else {
      var prefix := b[..|b| - 1];
      var last := b[|b| - 1];
      assert (a + b)[..|a + b| - 1] == a + prefix;
      assert (a + b)[|a + b| - 1] == last;
      UpdateFromAssignments(a, prefix);
    }
  }

  /** Re-assigning the items of a dict, in order, rebuilds that dict. */
  lemma {:induction false} FromAssignmentsOfDict<K(!new), V>(m: seq<(K, V)>)
    requires Valid(m)
    ensures FromAssignments(m) == m
    decreases |m|
  {
    if |m| > 0 {
      var prefix := m[..|m| - 1];
      var last := m[|m| - 1];
      FromAssignmentsOfDict(prefix);
      assert last.0 !in Keys(prefix);
      PutAppends(prefix, last.0, last.1);
      assert prefix + [last] == m;
    }
  }

  /** `m.update(n)` on a dict is the dict built by assigning `m`'s items, then `n`'s. */
  lemma UpdateIsAssignments<K(!new), V>(m: seq<(K, V)>, n: seq<(K, V)>)
    requires Valid(m)
    ensures Update(m, n) == FromAssignments(m + n)
  {
    FromAssignmentsOfDict(m);
    UpdateFromAssignments(m, n);
  }

  /** In a dict, the only pair with key `k` is the one `Get` finds. */
  lemma GetIsLastValue<K(!new), V>(m: seq<(K, V)>, k: K)
    requires Valid(m)
    ensures Get(m, k) == LastValue(m, k)
  {
    FromAssignmentsOfDict(m);
  }

  /** A later block of assignments wins over an earlier one for every key it assigns. */
  lemma {:induction false} LastValueConcat<K(!new), V>(a: seq<(K, V)>, b: seq<(K, V)>, k: K)
    ensures LastValue(a + b, k) == if k in Keys(b) then LastValue(b, k) else LastValue(a, k)
    decreases |b|
  {
    if |b| > 0 {
      var prefix := b[..|b| - 1];
      assert (a + b)[..|a + b| - 1] == a + prefix;
      assert Keys(b) == Keys(prefix) + [b[|b| - 1].0];
      LastValueConcat(a, prefix, k);
    } else {
      assert a + b == a;
    }
  }

  /** A pair that no later pair re-assigns supplies its key's last value. */
  lemma {:induction false} LastValueAt<K(!new), V>(pairs: seq<(K, V)>, i: nat)
    requires i < |pairs|
    requires forall j :: i < j < |pairs| ==> pairs[j].0 != pairs[i].0
    ensures LastValue(pairs, pairs[i].0) == Some(pairs[i].1)
    decreases |pairs|
  {
    if i < |pairs| - 1 {
      LastValueAt(pairs[..|pairs| - 1], i);
    }
  }

  /** When every assignment to `k` assigns `v`, the last one does too. */
  lemma {:induction false} LastValueUniform<K(!new), V>(pairs: seq<(K, V)>, k: K, v: V)
    requires k in Keys(pairs)
    requires forall i :: 0 <= i < |pairs| && pairs[i].0 == k ==> pairs[i].1 == v
    ensures LastValue(pairs, k) == Some(v)
    decreases |pairs|
  {
    var prefix := pairs[..|pairs| - 1];
    if pairs[|pairs| - 1].0 != k {
      assert Keys(pairs) == Keys(prefix) + [pairs[|pairs| - 1].0];
      LastValueUniform(prefix, k, v);
    }
  }
}
