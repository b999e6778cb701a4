/** The abstract value of a hash table: an insertion-ordered association list. */
module OrderedMap {

  datatype Option<+T> = None | Some(value: T)

  datatype Entry<K, V> = Entry(key: K, value: V)

  ghost predicate Distinct<T>(s: seq<T>) {
    forall i, j :: 0 <= i < j < |s| ==> s[i] != s[j]
  }

  ghost predicate UniqueKeys<K, V>(m: seq<Entry<K, V>>) {
    forall i, j :: 0 <= i < j < |m| ==> m[i].key != m[j].key
  }

  function Find<K(==), V>(m: seq<Entry<K, V>>, k: K): Option<V> {
    if m == [] then None
    else if m[0].key == k then Some(m[0].value)
    else Find(m[1..], k)
  }

  /** Adding a present key fails and changes nothing. */
  function Add<K(==), V>(m: seq<Entry<K, V>>, k: K, v: V): seq<Entry<K, V>> {
    if Find(m, k).Some? then m else m + [Entry(k, v)]
  }

  function Remove<K(==), V>(m: seq<Entry<K, V>>, k: K): seq<Entry<K, V>> {
    if m == [] then []
    else if m[0].key == k then m[1..]
    else [m[0]] + Remove(m[1..], k)
  }

  /** A key is found exactly when it occurs, and then with the value it occurs with. */
  lemma {:induction false} FindAt<K, V>(m: seq<Entry<K, V>>, k: K)
    ensures Find(m, k).None? <==> forall i :: 0 <= i < |m| ==> m[i].key != k
    ensures UniqueKeys(m) ==>
      forall i :: 0 <= i < |m| && m[i].key == k ==> Find(m, k) == Some(m[i].value)
  {
    if m != [] && m[0].key != k {
      FindAt(m[1..], k);
      assert forall i :: 1 <= i < |m| ==> m[i] == m[1..][i - 1];
    }
  }

  /** Removing the key at index i takes out that entry and keeps the order of the others. */
  lemma {:induction false} RemoveFirst<K, V>(m: seq<Entry<K, V>>, i: nat)
    requires i < |m| && forall j :: 0 <= j < i ==> m[j].key != m[i].key
    ensures Remove(m, m[i].key) == m[..i] + m[i + 1..]
  {
    if i > 0 {
      RemoveFirst(m[1..], i - 1);
      assert m[1..][..i - 1] == m[1..i];
      assert m[1..][i..] == m[i + 1..];
      assert m[..i] == [m[0]] + m[1..i];
    }
  }

  lemma RemoveAt<K, V>(m: seq<Entry<K, V>>, i: nat)
    requires i < |m| && UniqueKeys(m)
    ensures Remove(m, m[i].key) == m[..i] + m[i + 1..]
  {
    RemoveFirst(m, i);
  }

  lemma {:induction false} RemoveAbsent<K, V>(m: seq<Entry<K, V>>, k: K)
    requires Find(m, k).None?
    ensures Remove(m, k) == m
  {
    if m != [] { RemoveAbsent(m[1..], k); }
  }

  lemma {:induction false} RemoveOther<K, V>(m: seq<Entry<K, V>>, k: K, other: K)
    requires other != k
    ensures Find(Remove(m, k), other) == Find(m, other)
  {
    if m != [] && m[0].key != k {
      RemoveOther(m[1..], k, other);
      assert Remove(m, k)[1..] == Remove(m[1..], k);
    }
  }

  lemma {:induction false} FindAppend<K, V>(m: seq<Entry<K, V>>, e: Entry<K, V>, k: K)
    ensures Find(m + [e], k) ==
      if Find(m, k).Some? then Find(m, k) else if e.key == k then Some(e.value) else None
  {
    if m == [] {
      assert Find([e][1..], k) == None;
    } else {
      assert (m + [e])[1..] == m[1..] + [e];
      FindAppend(m[1..], e, k);
    }
  }

  /** An added key reads back, a present key keeps its first value, and nothing else moves. */
  lemma AddLaws<K, V>(m: seq<Entry<K, V>>, k: K, v: V, other: K)
    requires UniqueKeys(m)
    ensures UniqueKeys(Add(m, k, v))
    ensures Find(Add(m, k, v), k) == if Find(m, k).Some? then Find(m, k) else Some(v)
    ensures other != k ==> Find(Add(m, k, v), other) == Find(m, other)
  {
    FindAt(m, k);
    FindAppend(m, Entry(k, v), k);
    FindAppend(m, Entry(k, v), other);
  }

  /** A removed key is gone, nothing else moves, and removing undoes adding. */
  lemma RemoveLaws<K, V>(m: seq<Entry<K, V>>, k: K, v: V, other: K)
    requires UniqueKeys(m)
    ensures UniqueKeys(Remove(m, k)) && Find(Remove(m, k), k).None?
    ensures other != k ==> Find(Remove(m, k), other) == Find(m, other)
    ensures Find(m, k).None? ==> Remove(Add(m, k, v), k) == m
  {
    FindAt(m, k);
    if i :| 0 <= i < |m| && m[i].key == k {
      RemoveAt(m, i);
      RemovedKeyIsGone(m, i);
      if other != k { FindSkip(m, i, other); }
    } else {
      RemoveAbsent(m, k);
      RemoveLast(m, Entry(k, v));
    }
  }

  lemma RemovedKeyIsGone<K, V>(m: seq<Entry<K, V>>, i: nat)
    requires i < |m| && UniqueKeys(m)
    ensures UniqueKeys(m[..i] + m[i + 1..]) && Find(m[..i] + m[i + 1..], m[i].key).None?
  {
    var r := m[..i] + m[i + 1..];
    assert forall j :: 0 <= j < |r| ==> r[j] == if j < i then m[j] else m[j + 1];
    FindAt(r, m[i].key);
  }

  lemma RemoveGone<K, V>(m: seq<Entry<K, V>>, k: K)
    requires UniqueKeys(m)
    ensures Find(Remove(m, k), k).None?
  {
    if i :| 0 <= i < |m| && m[i].key == k {
      RemoveAt(m, i);
      RemovedKeyIsGone(m, i);
    } else {
      FindAt(m, k);
      RemoveAbsent(m, k);
    }
  }

  lemma RemoveLast<K, V>(m: seq<Entry<K, V>>, e: Entry<K, V>)
    requires UniqueKeys(m + [e])
    ensures Remove(m + [e], e.key) == m
  {
    var a := m + [e];
    RemoveAt(a, |m|);
    assert a[..|m|] + a[|m| + 1..] == m;
  }

  lemma {:induction false} FindSkip<K, V>(m: seq<Entry<K, V>>, i: nat, other: K)
    requires i < |m| && m[i].key != other
    ensures Find(m[..i] + m[i + 1..], other) == Find(m, other)
  {
    if i == 0 {
      assert m[..0] + m[1..] == m[1..];
    } else {
      FindSkip(m[1..], i - 1, other);
      var r := m[..i] + m[i + 1..];
      assert r[1..] == m[1..][..i - 1] + m[1..][i..];
    }
  }

  /** Overwriting the value of a present key in place. */
  function Update<K(==), V>(m: seq<Entry<K, V>>, k: K, v: V): seq<Entry<K, V>> {
    if m == [] then []
    else if m[0].key == k then [Entry(k, v)] + m[1..]
    else [m[0]] + Update(m[1..], k, v)
  }

  lemma {:induction false} UpdateKeys<K, V>(m: seq<Entry<K, V>>, k: K, v: V)
    ensures |Update(m, k, v)| == |m| && forall i :: 0 <= i < |m| ==> Update(m, k, v)[i].key == m[i].key
  {
    if m != [] && m[0].key != k { UpdateKeys(m[1..], k, v); }
  }

  lemma {:induction false} UpdateFind<K, V>(m: seq<Entry<K, V>>, k: K, v: V, other: K)
    ensures Find(Update(m, k, v), k) == if Find(m, k).Some? then Some(v) else None
    ensures other != k ==> Find(Update(m, k, v), other) == Find(m, other)
  {
    if m != [] {
      var u := Update(m, k, v);
      if m[0].key == k {
        assert u[1..] == m[1..];
      } else {
        UpdateFind(m[1..], k, v, other);
        assert u[1..] == Update(m[1..], k, v);
      }
    }
  }

  lemma UpdateLaws<K, V>(m: seq<Entry<K, V>>, k: K, v: V, other: K)
    ensures |Update(m, k, v)| == |m| && forall i :: 0 <= i < |m| ==> Update(m, k, v)[i].key == m[i].key
    ensures Find(Update(m, k, v), k) == if Find(m, k).Some? then Some(v) else None
    ensures other != k ==> Find(Update(m, k, v), other) == Find(m, other)
    ensures UniqueKeys(m) ==> UniqueKeys(Update(m, k, v))
  {
    UpdateKeys(m, k, v);
    UpdateFind(m, k, v, other);
  }

  /** A found value occurs in the list. */
  lemma {:induction false} FindOccurs<K, V>(m: seq<Entry<K, V>>, k: K)
    requires Find(m, k).Some?
    ensures Entry(k, Find(m, k).value) in m
  {
    if m[0].key != k { FindOccurs(m[1..], k); }
  }
}
