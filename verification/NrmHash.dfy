/** The nrm_hash_* interface over a uthash table, and the simulation of every run of it by the
    insertion-ordered map. */
module NrmHash {
  import opened NrmError
  import opened OrderedMap
  import opened UtHashLinks
  import opened UtHash

  /** The content of a table as its users see it. */
  lemma ContentsAreEntries<V>(t: Table<V>, k: Key)
    requires t.Valid()
    ensures UniqueKeys(t.Contents())
    ensures OrderedMap.Find(t.Contents(), k).None? <==> forall i :: 0 <= i < |t.items| ==> t.items[i].key != k
    ensures forall i :: 0 <= i < |t.items| && t.items[i].key == k ==>
      OrderedMap.Find(t.Contents(), k) == Some(t.items[i].value)
  {
    FindAt(t.Contents(), k);
    assert forall i :: 0 <= i < |t.items| ==>
      t.Contents()[i].key == t.items[i].key && t.Contents()[i].value == t.items[i].value;
  }

  /** nrm_hash_add. */
  method Add<V>(t: Table<V>, uuid: Key, ptr: V) returns (err: Status)
    requires t.Valid()
    modifies t, t.buckets, t.items
    ensures t.Valid() && t.Contents() == OrderedMap.Add(old(t.Contents()), uuid, ptr)
    ensures err == if OrderedMap.Find(old(t.Contents()), uuid).Some? then NrmFailure else NrmSuccess
    ensures forall i :: 0 <= i < |t.items| ==> t.items[i] in old(t.items) || fresh(t.items[i])
    ensures t.buckets == old(t.buckets) || fresh(t.buckets)
  {
    ContentsAreEntries(t, uuid);
    var local := t.Find(uuid);
    if local != null {
      return NrmFailure;
    }
    t.AddKeyptr(uuid, ptr);
    err := NrmSuccess;
  }

  /** nrm_hash_find. */
  method Find<V>(t: Table<V>, uuid: Key) returns (err: Status, ptr: Option<V>)
    requires t.Valid()
    ensures ptr == OrderedMap.Find(t.Contents(), uuid)
    ensures err == if t.Contents() == [] then NrmEinval else if ptr.None? then NrmEnotfound else NrmSuccess
  {
    if t.head == null {
      return NrmEinval, None;
    }
    ContentsAreEntries(t, uuid);
    var tmp := t.Find(uuid);
    if tmp == null {
      return NrmEnotfound, None;
    }
    return NrmSuccess, Some(tmp.value);
  }

  /** Looking a key up and deleting the element found (HASH_FIND then HASH_DELETE). */
  method Delete<V>(t: Table<V>, uuid: Key) returns (found: bool)
    requires t.Valid()
    modifies t, t.buckets, t.items
    ensures t.Valid() && t.Contents() == OrderedMap.Remove(old(t.Contents()), uuid)
    ensures found == OrderedMap.Find(old(t.Contents()), uuid).Some?
    ensures (forall i :: 0 <= i < |t.items| ==> t.items[i] in old(t.items)) && t.buckets == old(t.buckets)
  {
    ContentsAreEntries(t, uuid);
    var tmp := t.Find(uuid);
    found := tmp != null;
    if found {
      DeleteElement(t, tmp);
    } else {
      RemoveAbsent(t.Contents(), uuid);
    }
  }

  method DeleteElement<V>(t: Table<V>, del: Handle<V>)
    requires t.Valid() && del in t.items && UniqueKeys(t.Contents())
    modifies t, t.buckets, t.items
    ensures t.Valid() && t.Contents() == OrderedMap.Remove(old(t.Contents()), del.key)
    ensures (forall i :: 0 <= i < |t.items| ==> t.items[i] in old(t.items)) && t.buckets == old(t.buckets)
  {
    ghost var k :| 0 <= k < |t.items| && t.items[k] == del;
    RemoveAt(t.Contents(), k);
    EntriesWithout(t.items, k);
    t.Delete(del, k);
  }

  lemma EntriesWithout<V>(items: seq<Handle<V>>, k: nat)
    requires k < |items|
    ensures EntriesOf(Without(items, k)) == EntriesOf(items)[..k] + EntriesOf(items)[k + 1..]
  {
  }

  /** nrm_hash_size. */
  method Size<V>(t: Table<V>) returns (err: Status, len: nat)
    requires t.Valid()
    ensures len == |t.Contents()|
    ensures err == if t.Contents() == [] then NrmEinval else NrmSuccess
  {
    if t.head == null {
      return NrmEinval, 0;
    }
    return NrmSuccess, t.numItems;
  }

  /** nrm_hash_foreach: every live entry once, in insertion order. */
  method ForEach<V>(t: Table<V>) returns (visited: seq<Entry<Key, V>>)
    requires t.Valid()
    ensures visited == t.Contents()
  {
    visited := [];
    var it := t.head;
    while it != null
      invariant |visited| <= |t.items| && it == At(t.items, |visited|)
      invariant visited == t.Contents()[..|visited|]
      decreases |t.items| - |visited|
    {
      visited := visited + [Entry(it.key, it.value)];
      it := it.next;
    }
  }

  /** nrm_hash_destroy: iterate with a saved successor while deleting. */
  method Destroy<V>(t: Table<V>)
    requires t.Valid()
    modifies t, t.buckets, t.items
    ensures t.Valid() && t.Contents() == [] && t.head == null
  {
    var it := t.head;
    var tmp: Handle?<V> := if it != null then it.next else null;
    while it != null
      invariant t.Valid() && it == At(t.items, 0) && tmp == At(t.items, 1)
      invariant (forall i :: 0 <= i < |t.items| ==> t.items[i] in old(t.items)) && t.buckets == old(t.buckets)
      decreases |t.items|
    {
      t.Delete(it, 0);
      it := tmp;
      tmp := if tmp != null then tmp.next else null;
    }
  }

  // ---------- every run ----------

  datatype Op<V> = OpAdd(key: Key, value: V) | OpFind(key: Key) | OpDelete(key: Key)
  datatype Reply<V> = Added(err: Status) | Found(value: Option<V>) | Deleted(found: bool)

  function ApplyOp<V>(m: seq<Entry<Key, V>>, op: Op<V>): (seq<Entry<Key, V>>, Reply<V>) {
    match op
    case OpAdd(k, v) =>
      (OrderedMap.Add(m, k, v), Added(if OrderedMap.Find(m, k).Some? then NrmFailure else NrmSuccess))
    case OpFind(k) => (m, Found(OrderedMap.Find(m, k)))
    case OpDelete(k) => (OrderedMap.Remove(m, k), Deleted(OrderedMap.Find(m, k).Some?))
  }

  function RunSpec<V>(m: seq<Entry<Key, V>>, ops: seq<Op<V>>): (seq<Entry<Key, V>>, seq<Reply<V>>)
    decreases |ops|
  {
    if ops == [] then (m, [])
    else
      var (m1, r) := ApplyOp(m, ops[0]);
      var (m2, rs) := RunSpec(m1, ops[1..]);
      (m2, [r] + rs)
  }

  lemma {:induction false} RunSnoc<V>(m: seq<Entry<Key, V>>, ops: seq<Op<V>>, op: Op<V>)
    ensures var (m1, rs) := RunSpec(m, ops); var (m2, r) := ApplyOp(m1, op);
      RunSpec(m, ops + [op]) == (m2, rs + [r])
    decreases |ops|
  {
    if ops == [] {
      var (m1, r) := ApplyOp(m, op);
      assert ops + [op] == [op] && [op][1..] == [];
      assert RunSpec(m1, []) == (m1, []) && [r] + [] == [] + [r];
    } else {
      assert (ops + [op])[1..] == ops[1..] + [op];
      var (m1, r) := ApplyOp(m, ops[0]);
      RunSnoc(m1, ops[1..], op);
      var (m2, rs) := RunSpec(m1, ops[1..]);
      assert [r] + (rs + [ApplyOp(m2, op).1]) == ([r] + rs) + [ApplyOp(m2, op).1];
    }
  }

  /** Any sequence of operations on a fresh table, with whatever expansions it causes, leaves a valid
      table and answers exactly as the insertion-ordered map does. */
  method Run<V>(hash: Key -> nat, ops: seq<Op<V>>) returns (t: Table<V>, replies: seq<Reply<V>>)
    ensures t.Valid() && (t.Contents(), replies) == RunSpec([], ops)
  {
    t := new Table(hash);
    replies := [];
    assert ops[..0] == [];
    for i := 0 to |ops|
      invariant t.Valid() && fresh(t) && fresh(t.buckets) && forall i :: 0 <= i < |t.items| ==> fresh(t.items[i])
      invariant (t.Contents(), replies) == RunSpec([], ops[..i])
    {
      assert ops[..i + 1] == ops[..i] + [ops[i]];
      RunSnoc<V>([], ops[..i], ops[i]);
      var r := Step(t, ops[i]);
      replies := replies + [r];
    }
    assert ops[..|ops|] == ops;
  }

  method Step<V>(t: Table<V>, op: Op<V>) returns (r: Reply<V>)
    requires t.Valid()
    modifies t, t.buckets, t.items
    ensures t.Valid() && (t.Contents(), r) == ApplyOp(old(t.Contents()), op)
    ensures forall i :: 0 <= i < |t.items| ==> t.items[i] in old(t.items) || fresh(t.items[i])
    ensures t.buckets == old(t.buckets) || fresh(t.buckets)
  {
    match op
    case OpAdd(k, v) =>
      var err := Add(t, k, v);
      r := Added(err);
    case OpFind(k) =>
      var _, v := Find(t, k);
      r := Found(v);
    case OpDelete(k) =>
      var found := Delete(t, k);
      r := Deleted(found);
  }
}
