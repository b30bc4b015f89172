/** Python's insertion-ordered `dict`, as a sequence of entries with
    distinct keys. Iteration order (`d.items()`) is the sequence order. */
module OrderedDict {
  import opened Outcomes

  datatype Entry<K, V> = Entry(key: K, value: V)

  type Dict<K, V> = seq<Entry<K, V>>

  predicate HasKey<K(==), V>(d: Dict<K, V>, k: K) {
    exists i :: 0 <= i < |d| && d[i].key == k
  }

  /** No key occurs twice: the invariant every Python dict keeps. */
  predicate DistinctKeys<K(==), V>(d: Dict<K, V>) {
    forall i, j :: 0 <= i < j < |d| ==> d[i].key != d[j].key
  }

  /** The position of the first entry with key `k`. */
  function Find<K(==), V>(d: Dict<K, V>, k: K): (r: Option<nat>)
    ensures r.None? <==> !HasKey(d, k)
    ensures r.Some? ==> r.value < |d| && d[r.value].key == k
    ensures r.Some? ==> forall j :: 0 <= j < r.value ==> d[j].key != k
  {
    if |d| == 0 then None
    else if d[0].key == k then Some(0)
    else
      match Find(d[1..], k)
      case None => None
      case Some(i) => Some(i + 1)
  }

  /** `d.get(k)`: the value stored under `k`, or `None`. */
  function Get<K(==), V>(d: Dict<K, V>, k: K): (r: Option<V>)
    ensures r.None? <==> !HasKey(d, k)
    ensures DistinctKeys(d) ==>
      forall i :: 0 <= i < |d| && d[i].key == k ==> r == Some(d[i].value)
  {
    match Find(d, k)
    case None => None
    case Some(i) => Some(d[i].value)
  }

  /** `d[k] = v`: a present key keeps its position and takes the new
      value; a new key is appended. */
  function Put<K(==), V>(d: Dict<K, V>, k: K, v: V): (r: Dict<K, V>)
    requires DistinctKeys(d)
    ensures DistinctKeys(r)
    ensures |r| == if HasKey(d, k) then |d| else |d| + 1
    ensures forall i :: 0 <= i < |d| ==> r[i].key == d[i].key
    ensures forall i :: 0 <= i < |d| && d[i].key != k ==> r[i] == d[i]
    ensures Get(r, k) == Some(v)
    ensures !HasKey(d, k) ==> r == d + [Entry(k, v)]
    ensures forall i :: 0 <= i < |r| ==> r[i] == Entry(k, v) || (i < |d| && r[i] == d[i])
  {
    match Find(d, k)
    case Some(i) =>
      var r := d[i := Entry(k, v)];
      assert r[i].key == k;
      r
    case None =>
      var r := d + [Entry(k, v)];
      assert r[|d|].key == k;
      r
  }

  /** `d[k] = v` leaves every other key, and what it maps to, as it was. */
  lemma PutKeepsOthers<K, V>(d: Dict<K, V>, k: K, v: V, k': K)
    requires DistinctKeys(d) && k' != k
    ensures HasKey(Put(d, k, v), k') <==> HasKey(d, k')
    ensures Get(Put(d, k, v), k') == Get(d, k')
  {
    var r := Put(d, k, v);
    if HasKey(d, k') {
      var i :| 0 <= i < |d| && d[i].key == k';
      assert r[i] == d[i];
    }
    if HasKey(r, k') {
      var i :| 0 <= i < |r| && r[i].key == k';
      assert i < |d|;
    }
  }

  /** No key repeats in `ks`. */
  predicate Distinct<K(==)>(ks: seq<K>) {
    forall i, j :: 0 <= i < j < |ks| ==> ks[i] != ks[j]
  }

  /** Position `j` holds the last occurrence of its key in `ks`. */
  predicate LastOccurrence<K(==)>(ks: seq<K>, j: int)
    requires 0 <= j < |ks|
  {
    forall m :: j < m < |ks| ==> ks[m] != ks[j]
  }

  /** The position of the first occurrence of `k` in `ks`, or `|ks|` when
      `k` does not occur. */
  function FirstIndex<K(==)>(ks: seq<K>, k: K): (r: nat)
    ensures r <= |ks|
    ensures r < |ks| <==> k in ks
    ensures r < |ks| ==> ks[r] == k
    ensures forall m :: 0 <= m < r ==> ks[m] != k
  {
    if |ks| == 0 then 0
    else if ks[0] == k then 0
    else
      var r := 1 + FirstIndex(ks[1..], k);
      assert forall m :: 1 <= m < r ==> ks[m] == ks[1..][m - 1];
      r
  }

  /** Appending `k` moves no first occurrence: a key already in `ks` keeps
      its position, and `k` itself, if new, first occurs at the end. */
  lemma FirstIndexSnoc<K>(ks: seq<K>, k: K, x: K)
    ensures x in ks ==> FirstIndex(ks + [k], x) == FirstIndex(ks, x)
    ensures x !in ks && x == k ==> FirstIndex(ks + [k], x) == |ks|
  {
    var ks' := ks + [k];
    if x in ks {
      assert ks'[FirstIndex(ks, x)] == x;
    } else if x == k {
      assert ks'[|ks|] == x;
    }
  }

  /** `d` is what `for k, v in zip(ks, vs): d[k] = v` leaves in a dict that
      starts empty: each entry is one of the assignments, the keys are
      exactly those assigned, each key holds the value of its last
      assignment, the entries stand in the order their keys were first
      assigned, and without repeated keys the entries are the assignments
      in order. */
  ghost predicate Assigned<K, V>(ks: seq<K>, vs: seq<V>, d: Dict<K, V>)
    requires |ks| == |vs|
  {
    && DistinctKeys(d)
    && (forall e :: 0 <= e < |d| ==> exists j :: 0 <= j < |ks| && d[e] == Entry(ks[j], vs[j]))
    && (forall j :: 0 <= j < |ks| ==> HasKey(d, ks[j]))
    && (forall j :: 0 <= j < |ks| && LastOccurrence(ks, j) ==> Get(d, ks[j]) == Some(vs[j]))
    && (forall e1, e2 :: 0 <= e1 < e2 < |d| ==> FirstIndex(ks, d[e1].key) < FirstIndex(ks, d[e2].key))
    && (Distinct(ks) ==> |d| == |ks| && forall j :: 0 <= j < |ks| ==> d[j] == Entry(ks[j], vs[j]))
  }

  /** The empty dict is what no assignment leaves. */
  lemma AssignedNothing<K, V>()
    ensures Assigned<K, V>([], [], [])
  {
  }

  lemma AssignStepEntries<K, V>(ks: seq<K>, vs: seq<V>, d: Dict<K, V>, k: K, v: V)
    requires |ks| == |vs| && Assigned(ks, vs, d)
    ensures forall e :: 0 <= e < |Put(d, k, v)| ==>
      exists j :: 0 <= j < |ks + [k]| && Put(d, k, v)[e] == Entry((ks + [k])[j], (vs + [v])[j])
  {
    var r := Put(d, k, v);
    var ks', vs' := ks + [k], vs + [v];
    forall e | 0 <= e < |r|
      ensures exists j :: 0 <= j < |ks'| && r[e] == Entry(ks'[j], vs'[j])
    {
      if r[e] == Entry(k, v) {
        assert r[e] == Entry(ks'[|ks|], vs'[|ks|]);
      } else {
        var j :| 0 <= j < |ks| && d[e] == Entry(ks[j], vs[j]);
        assert r[e] == Entry(ks'[j], vs'[j]);
      }
    }
  }

  lemma AssignStepKeys<K, V>(ks: seq<K>, vs: seq<V>, d: Dict<K, V>, k: K, v: V)
    requires |ks| == |vs| && Assigned(ks, vs, d)
    ensures forall j :: 0 <= j < |ks + [k]| ==> HasKey(Put(d, k, v), (ks + [k])[j])
    ensures forall j :: 0 <= j < |ks + [k]| && LastOccurrence(ks + [k], j) ==>
      Get(Put(d, k, v), (ks + [k])[j]) == Some((vs + [v])[j])
  {
    var r := Put(d, k, v);
    var ks', vs' := ks + [k], vs + [v];
    forall k' | k' != k
      ensures HasKey(r, k') <==> HasKey(d, k')
      ensures Get(r, k') == Get(d, k')
    {
      PutKeepsOthers(d, k, v, k');
    }
    forall j | 0 <= j < |ks|
      ensures HasKey(r, ks'[j])
    {
      assert ks'[j] == ks[j];
    }
    forall j | 0 <= j < |ks'| && LastOccurrence(ks', j)
      ensures Get(r, ks'[j]) == Some(vs'[j])
    {
      if j < |ks| {
        assert ks'[j] != k by { assert ks'[|ks|] == k; }
        forall m | j < m < |ks|
          ensures ks[m] != ks[j]
        {
          assert ks'[m] == ks[m];
        }
      }
    }
  }

  lemma AssignStepDistinct<K, V>(ks: seq<K>, vs: seq<V>, d: Dict<K, V>, k: K, v: V)
    requires |ks| == |vs| && Assigned(ks, vs, d)
    ensures Distinct(ks + [k]) ==>
      |Put(d, k, v)| == |ks| + 1 &&
      forall j :: 0 <= j < |ks| + 1 ==> Put(d, k, v)[j] == Entry((ks + [k])[j], (vs + [v])[j])
  {
    var ks' := ks + [k];
    if Distinct(ks') {
      assert Distinct(ks) by {
        forall i, j | 0 <= i < j < |ks|
          ensures ks[i] != ks[j]
        {
          assert ks'[i] == ks[i] && ks'[j] == ks[j];
        }
      }
      assert k !in ks by {
        forall j | 0 <= j < |ks|
          ensures ks[j] != k
        {
          assert ks'[j] == ks[j] && ks'[|ks|] == k;
        }
      }
      assert !HasKey(d, k);
    }
  }

  lemma AssignStepOrder<K, V>(ks: seq<K>, vs: seq<V>, d: Dict<K, V>, k: K, v: V)
    requires |ks| == |vs| && Assigned(ks, vs, d)
    ensures forall e1, e2 :: 0 <= e1 < e2 < |Put(d, k, v)| ==>
      FirstIndex(ks + [k], Put(d, k, v)[e1].key) < FirstIndex(ks + [k], Put(d, k, v)[e2].key)
  {
    var r := Put(d, k, v);
    var ks' := ks + [k];
    forall e | 0 <= e < |d|
      ensures FirstIndex(ks', d[e].key) == FirstIndex(ks, d[e].key) < |ks|
    {
      var j :| 0 <= j < |ks| && d[e] == Entry(ks[j], vs[j]);
      assert ks[j] == d[e].key;
      FirstIndexSnoc(ks, k, d[e].key);
    }
    forall e1, e2 | 0 <= e1 < e2 < |r|
      ensures FirstIndex(ks', r[e1].key) < FirstIndex(ks', r[e2].key)
    {
      assert r[e1].key == d[e1].key;
      if e2 < |d| {
        assert r[e2].key == d[e2].key;
      } else {
        assert !HasKey(d, k) && r[e2].key == k;
        assert k !in ks by {
          forall j | 0 <= j < |ks|
            ensures ks[j] != k
          {
            assert HasKey(d, ks[j]);
          }
        }
        FirstIndexSnoc(ks, k, k);
      }
    }
  }

  /** One more assignment `d[k] = v` extends the description by `(k, v)`. */
  lemma AssignStep<K, V>(ks: seq<K>, vs: seq<V>, d: Dict<K, V>, k: K, v: V)
    requires |ks| == |vs| && Assigned(ks, vs, d)
    ensures Assigned(ks + [k], vs + [v], Put(d, k, v))
  {
    AssignStepEntries(ks, vs, d, k, v);
    AssignStepKeys(ks, vs, d, k, v);
    AssignStepDistinct(ks, vs, d, k, v);
    AssignStepOrder(ks, vs, d, k, v);
  }
}
