/** The uthash table operations on their fields, each tied to the insertion-ordered map the
    table stands for. */
module UtHash {
  import opened BitOps
  import opened OrderedMap
  import opened UtHashLinks

  ghost function EntriesOf<V>(items: seq<Handle<V>>): seq<Entry<Key, V>> {
    seq(|items|, i requires 0 <= i < |items| => Entry(items[i].key, items[i].value))
  }

  /** `head` is the caller's table pointer; the other fields are those of UT_hash_table, which
      exists only while `head` is not null. */
  class Table<V> {
    const hash: Key -> nat
    var head: Handle?<V>
    var tail: Handle?<V>
    var buckets: array<Bucket<V>>
    var numBuckets: nat
    var log2NumBuckets: nat
    var numItems: nat
    var idealChainMaxlen: nat
    var nonidealItems: nat
    var ineffExpands: nat
    var noexpand: bool

    ghost var items: seq<Handle<V>>
    ghost var chains: seq<seq<Handle<V>>>

    /** The application-order list is well linked both ways. */
    ghost predicate AppOk()
      reads this`head, this`tail, this`items, items`prev, items`next
    {
      && ItemsOk(items, hash) && AppLinked(items)
      && head == At(items, 0)
      && (items != [] ==> tail == items[|items| - 1])
    }

    /** The bucket structure: a power of two of buckets whose chains hold exactly the items. */
    ghost predicate TblOk()
      reads this`items, this`chains, this`buckets, this`numBuckets, this`log2NumBuckets, this`numItems
      reads buckets, items`hhPrev, items`hhNext
    {
      && SizesOk() && ChainsOk(chains, buckets[..], ToSet(items))
    }

    ghost predicate SizesOk()
      reads this`items, this`buckets, this`numBuckets, this`log2NumBuckets, this`numItems
    {
      && buckets.Length == numBuckets == Pow2(log2NumBuckets)
      && numItems == |items|
    }

    ghost predicate Valid()
      reads this, buckets, items
    {
      && AppOk()
      && (items != [] ==> TblOk())
    }

    /** The entries in insertion order. */
    ghost function Contents(): seq<Entry<Key, V>>
      reads this`items
    {
      EntriesOf(items)
    }

    constructor (hash: Key -> nat)
      ensures Valid() && Contents() == [] && this.hash == hash && fresh(buckets)
    {
      this.hash := hash;
      head, tail, items := null, null, [];
      buckets := new Bucket<V>[0];
      numBuckets, log2NumBuckets, numItems := 0, 0, 0;
      idealChainMaxlen, nonidealItems, ineffExpands, noexpand := 0, 0, 0, false;
      chains := [];
    }

    /** HASH_EXPAND_BUCKETS. */
    method ExpandBuckets()
      requires items != [] && TblOk()
      modifies this`buckets, this`numBuckets, this`log2NumBuckets, this`idealChainMaxlen
      modifies this`nonidealItems, this`ineffExpands, this`noexpand, this`chains
      modifies items`hhPrev, items`hhNext
      ensures TblOk() && fresh(buckets)
      ensures numBuckets == 2 * old(numBuckets) && log2NumBuckets == old(log2NumBuckets) + 1
      ensures JustExpanded()
      ensures ineffExpands == if nonidealItems > numItems / 2 then old(ineffExpands) + 1 else 0
      ensures noexpand == (old(noexpand) || ineffExpands > 1)
    {
      Rehash();
      Judge();
    }

    /** The two halves of the expansion proper. */
    method Rehash()
      requires items != [] && TblOk()
      modifies this`buckets, this`numBuckets, this`log2NumBuckets, this`chains
      modifies this`idealChainMaxlen, this`nonidealItems
      modifies items`hhPrev, items`hhNext
      ensures TblOk() && fresh(buckets) && JustExpanded()
      ensures numBuckets == 2 * old(numBuckets) && log2NumBuckets == old(log2NumBuckets) + 1
    {
      var newBuckets, ideal, nonideal;
      ghost var newChains;
      newBuckets, ideal, nonideal, newChains := Redistribute();
      Install(newBuckets, ideal, nonideal, newChains);
    }

    /** The first half of the expansion: every element into its bucket among twice as many. */
    method Redistribute()
      returns (newBuckets: array<Bucket<V>>, ideal: nat, nonideal: nat, ghost newChains: seq<seq<Handle<V>>>)
      requires items != [] && TblOk()
      modifies items`hhPrev, items`hhNext
      ensures fresh(newBuckets) && newBuckets.Length == Pow2(log2NumBuckets + 1)
      ensures ChainsOk(newChains, newBuckets[..], ToSet(items))
      ensures ideal == CeilShift(numItems, log2NumBuckets + 1)
      ensures Accounted(newBuckets[..], ideal, nonideal)
    {
      newBuckets, ideal := Prepare();
      AllHaveBuckets(ToSet(items), log2NumBuckets + 1);
      nonideal, newChains := DrainAll(buckets, newBuckets, ideal, chains, ToSet(items));
    }

    /** Twice as many empty buckets, and the ideal chain length among them. */
    method Prepare() returns (newBuckets: array<Bucket<V>>, ideal: nat)
      requires items != [] && SizesOk()
      ensures fresh(newBuckets) && newBuckets.Length == Pow2(log2NumBuckets + 1)
      ensures forall b :: 0 <= b < newBuckets.Length ==> newBuckets[b] == Bucket(null, 0, 0)
      ensures ideal == CeilShift(numItems, log2NumBuckets + 1) >= 1
    {
      var n2 := numBuckets * 2;
      ghost var chains;
      newBuckets, chains := MakeBuckets(n2);
      ideal := Shr(numItems, log2NumBuckets + 1) + (if And(numItems, n2 - 1) != 0 then 1 else 0);
      CeilShiftIsCeil(numItems, log2NumBuckets + 1);
    }

    /** The second half: the new bucket array replaces the old. */
    method Install(newBuckets: array<Bucket<V>>, ideal: nat, nonideal: nat, ghost newChains: seq<seq<Handle<V>>>)
      requires SizesOk() && items != [] && newBuckets.Length == Pow2(log2NumBuckets + 1)
      requires ChainsOk(newChains, newBuckets[..], ToSet(items)) && ideal == CeilShift(numItems, log2NumBuckets + 1)
      requires Accounted(newBuckets[..], ideal, nonideal)
      modifies this`buckets, this`numBuckets, this`log2NumBuckets, this`chains
      modifies this`idealChainMaxlen, this`nonidealItems
      ensures TblOk() && JustExpanded() && buckets == newBuckets
      ensures numBuckets == 2 * old(numBuckets) && log2NumBuckets == old(log2NumBuckets) + 1
    {
      CeilShiftIsCeil(numItems, log2NumBuckets + 1);
      idealChainMaxlen, nonidealItems := ideal, nonideal;
      numBuckets := numBuckets * 2;
      log2NumBuckets := log2NumBuckets + 1;
      buckets, chains := newBuckets, newChains;
    }

    /** Two ineffective expansions in a row inhibit any further one. */
    method Judge()
      modifies this`ineffExpands, this`noexpand
      ensures ineffExpands == if nonidealItems > numItems / 2 then old(ineffExpands) + 1 else 0
      ensures noexpand == (old(noexpand) || ineffExpands > 1)
    {
      assert Shr(numItems, 1) == numItems / 2;
      ineffExpands := if nonidealItems > Shr(numItems, 1) then ineffExpands + 1 else 0;
      if ineffExpands > 1 {
        noexpand := true;
      }
    }

    /** HASH_ADD_TO_BKT: `x` is already in the application list but in no bucket yet. */
    method AddToBkt(x: Handle<V>) returns (expanded: bool, b: nat)
      requires x in items && AppOk() && SizesOk() && ChainsOk(chains, buckets[..], ToSet(items) - {x})
      modifies this`buckets, this`numBuckets, this`log2NumBuckets, this`idealChainMaxlen
      modifies this`nonidealItems, this`ineffExpands, this`noexpand, this`chains
      modifies buckets, items`hhPrev, items`hhNext
      ensures Valid() && (if expanded then fresh(buckets) else buckets == old(buckets))
      ensures numBuckets == if expanded then 2 * old(numBuckets) else old(numBuckets)
      ensures expanded ==> JustExpanded()
      ensures b < old(buckets.Length) && b == ToBkt(x.hashv, old(numBuckets))
      ensures expanded <==>
        (!old(noexpand) &&
         old(buckets[..])[b].count + 1 >= (old(buckets[..])[b].expandMult + 1) * HASH_BKT_CAPACITY_THRESH)
    {
      ToBktIsLow(x.hashv, log2NumBuckets);
      b := ToBkt(x.hashv, numBuckets);
      ghost var was := buckets[b];
      assert was == buckets[..][b];
      LinkIn(x, b);
      assert buckets[b].count == was.count + 1 && buckets[b].expandMult == was.expandMult;
      expanded := ExpandIfFull(b);
    }

    /** What HASH_EXPAND_BUCKETS establishes: the ideal length is the ceiling of items over buckets,
        and the buckets are accounted for against it. */
    ghost predicate JustExpanded()
      reads this`buckets, this`numBuckets, this`numItems, this`idealChainMaxlen, this`nonidealItems, buckets
    {
      && (idealChainMaxlen - 1) * numBuckets < numItems <= idealChainMaxlen * numBuckets
      && Accounted(buckets[..], idealChainMaxlen, nonidealItems)
    }

    method ExpandIfFull(b: nat) returns (expanded: bool)
      requires b < buckets.Length && items != [] && Valid()
      modifies this`buckets, this`numBuckets, this`log2NumBuckets, this`idealChainMaxlen
      modifies this`nonidealItems, this`ineffExpands, this`noexpand, this`chains
      modifies items`hhPrev, items`hhNext
      ensures Valid() && (if expanded then fresh(buckets) else buckets == old(buckets))
      ensures numBuckets == if expanded then 2 * old(numBuckets) else old(numBuckets)
      ensures expanded ==> JustExpanded()
      ensures expanded <==>
        (!old(noexpand) && old(buckets[b].count) >= (old(buckets[b].expandMult) + 1) * HASH_BKT_CAPACITY_THRESH)
    {
      expanded := buckets[b].count >= (buckets[b].expandMult + 1) * HASH_BKT_CAPACITY_THRESH && !noexpand;
      if expanded {
        ExpandBuckets();
      }
    }

    method LinkIn(x: Handle<V>, b: nat)
      requires AppOk() && x in items && SizesOk() && ChainsOk(chains, buckets[..], ToSet(items) - {x})
      requires b < buckets.Length && b == ToBkt(x.hashv, numBuckets)
      modifies this`chains, buckets, items`hhPrev, items`hhNext
      ensures Valid()
      ensures buckets[b].count == old(buckets[b].count) + 1 && buckets[b].expandMult == old(buckets[b].expandMult)
    {
      CountAndLink(x, b);
      assert AppOk();
    }

    method CountAndLink(x: Handle<V>, b: nat)
      requires x in items && SizesOk() && ChainsOk(chains, buckets[..], ToSet(items) - {x})
      requires b < buckets.Length && b == ToBkt(x.hashv, numBuckets)
      modifies this`chains, buckets, items`hhPrev, items`hhNext
      ensures TblOk()
      ensures buckets[b].count == old(buckets[b].count) + 1 && buckets[b].expandMult == old(buckets[b].expandMult)
    {
      ghost var members, after := ToSet(items), chains[b := [x] + chains[b]];
      assert members - {x} + {x} == members;
      assert forall y :: y in members ==> y in items;
      CountIn(buckets, b, x, chains, members - {x});
      SetChains(after);
    }

    method SetChains(ghost after: seq<seq<Handle<V>>>)
      requires SizesOk() && ChainsOk(after, buckets[..], ToSet(items))
      modifies this`chains
      ensures TblOk()
    {
      chains := after;
    }

    /** HASH_APPEND_LIST. */
    method AppendList(add: Handle<V>)
      requires AppOk() && items != [] && add !in items && add.hashv == hash(add.key)
      requires forall i :: 0 <= i < |items| ==> items[i].key != add.key
      modifies this`tail, this`items, add`prev, add`next, items`next
      ensures AppOk() && items == old(items) + [add]
    {
      AppendNode(tail, add, items);
      tail, items := add, items + [add];
    }

    /** The element that becomes the head of an empty table. */
    method SetHead(add: Handle<V>)
      requires add.hashv == hash(add.key)
      modifies this`head, this`tail, this`items, add`prev, add`next
      ensures AppOk() && items == [add]
    {
      add.next, add.prev := null, null;
      tail, head, items := add, add, [add];
    }

    /** HASH_MAKE_TABLE, with the count of the first item. */
    method MakeTable()
      requires |items| == 1
      modifies this`buckets, this`chains, this`numBuckets, this`log2NumBuckets, this`numItems
      modifies this`idealChainMaxlen, this`nonidealItems, this`ineffExpands, this`noexpand
      ensures SizesOk() && fresh(buckets) && ChainsOk(chains, buckets[..], {})
      ensures numBuckets == HASH_INITIAL_NUM_BUCKETS && !noexpand && ineffExpands == 0
    {
      numBuckets, log2NumBuckets := HASH_INITIAL_NUM_BUCKETS, HASH_INITIAL_NUM_BUCKETS_LOG2;
      numItems, idealChainMaxlen, nonidealItems, ineffExpands, noexpand := 1, 0, 0, 0, false;
      assert Pow2(5) == 2 * Pow2(4) == 4 * Pow2(3) == 8 * Pow2(2) == 32;
      buckets, chains := MakeBuckets<V>(HASH_INITIAL_NUM_BUCKETS);
    }

    /** HASH_ADD_KEYPTR, for a key that is not present. */
    method AddKeyptr(key: Key, value: V)
      requires Valid() && forall i :: 0 <= i < |items| ==> items[i].key != key
      modifies this, buckets, items
      ensures Valid() && Contents() == old(Contents()) + [Entry(key, value)]
      ensures forall i :: 0 <= i < |items| ==> items[i] in old(items) || fresh(items[i])
      ensures buckets == old(buckets) || fresh(buckets)
    {
      var add := new Handle(key, hash(key), value);
      if head == null {
        AddFirst(add);
      } else {
        AddNext(add);
      }
    }

    method AddFirst(add: Handle<V>)
      requires items == [] && add.hashv == hash(add.key)
      modifies this, add
      ensures Valid() && items == [add] && fresh(buckets)
    {
      SetHead(add);
      MakeTable();
      assert ToSet(items) - {add} == {};
      var _, _ := AddToBkt(add);
    }

    method AddNext(add: Handle<V>)
      requires Valid() && items != [] && add !in items && add.hashv == hash(add.key)
      requires forall i :: 0 <= i < |items| ==> items[i].key != add.key
      modifies this, buckets, items, add
      ensures Valid() && items == old(items) + [add] && (buckets == old(buckets) || fresh(buckets))
    {
      AppendItem(add);
      var _, _ := AddToBkt(add);
    }

    method AppendItem(add: Handle<V>)
      requires Valid() && items != [] && add !in items && add.hashv == hash(add.key)
      requires forall i :: 0 <= i < |items| ==> items[i].key != add.key
      modifies this`tail, this`items, this`numItems, add`prev, add`next, items`next
      ensures AppOk() && items == old(items) + [add]
      ensures SizesOk() && ChainsOk(chains, buckets[..], ToSet(items) - {add})
    {
      SetOfAppended(items, add);
      AppendList(add);
      assert ChainsOk(chains, buckets[..], ToSet(items) - {add});
      numItems := numItems + 1;
    }

    /** HASH_FIND: the element with this key, or null when there is none. */
    method Find(key: Key) returns (out: Handle?<V>)
      requires Valid()
      ensures out != null ==> out in items && out.key == key
      ensures out == null ==> forall i :: 0 <= i < |items| ==> items[i].key != key
    {
      out := null;
      if head != null {
        var hashv := hash(key);
        ToBktIsLow(hashv, log2NumBuckets);
        var b := ToBkt(hashv, numBuckets);
        out := FindInBkt(b, key, hashv);
        forall i | 0 <= i < |items| && items[i].key == key
          ensures out != null
        {
          assert InChain(chains, items[i]);
        }
      }
    }

    /** HASH_FIND_IN_BKT: walk one chain, comparing hash, length and bytes. */
    method FindInBkt(b: nat, key: Key, hashv: nat) returns (out: Handle?<V>)
      requires TblOk() && b < numBuckets && hashv == hash(key)
      requires forall x :: x in ToSet(items) ==> x.hashv == hash(x.key)
      ensures out != null ==> out in chains[b] && out in items && out.key == key
      ensures out == null ==> forall x :: x in chains[b] ==> x.key != key
    {
      ghost var c := chains[b];
      ghost var j := 0;
      assert HeadsOk(chains, buckets[..]) && ChainLinked(c);
      out := buckets[b].hhHead;
      while out != null
        invariant 0 <= j <= |c| && out == At(c, j)
        invariant forall i :: 0 <= i < j ==> c[i].key != key
        decreases |c| - j
      {
        if out.hashv == hashv && |out.key| == |key| {
          if out.key == key {
            break;
          }
        }
        assert c[j] in ToSet(items);
        out := out.hhNext;
        j := j + 1;
      }
    }

    /** HASH_DELETE_HH. */
    method Delete(del: Handle<V>, ghost k: nat)
      requires Valid() && k < |items| && items[k] == del
      modifies this, buckets, items
      ensures Valid() && items == Without(old(items), k) && buckets == old(buckets)
    {
      assert items[k].prev == At(items, k - 1) && items[k].next == At(items, k + 1);
      if del.prev == null && del.next == null {
        assert k == 0 && |items| == 1;
        head, items := null, [];
      } else {
        ghost var members := ToSet(items);
        UnlinkItem(del, k);
        UnlinkBkt(del, members);
      }
    }

    /** The application-order half of HASH_DELETE_HH. */
    method UnlinkApp(del: Handle<V>, ghost k: nat)
      requires AppOk() && k < |items| && items[k] == del && |items| >= 2
      modifies this`head, this`tail, this`items, items`prev, items`next
      ensures AppOk() && items == Without(old(items), k) && ToSet(items) == old(ToSet(items)) - {del}
    {
      ItemsWithout(items, hash, k);
      UnlinkEnds(del, k);
      UnlinkNode(del, items, k);
      items := Without(items, k);
    }

    method UnlinkEnds(del: Handle<V>, ghost k: nat)
      requires AppOk() && k < |items| && items[k] == del && |items| >= 2
      modifies this`head, this`tail
      ensures head == At(Without(items, k), 0) && tail == At(Without(items, k), |items| - 2)
    {
      assert items[k].prev == At(items, k - 1) && items[k].next == At(items, k + 1);
      if del == tail {
        tail := del.prev;
      }
      if del.prev == null {
        head := del.next;
      }
    }

    method UnlinkItem(del: Handle<V>, ghost k: nat)
      requires Valid() && k < |items| && items[k] == del && |items| >= 2
      modifies this`head, this`tail, this`items, items`prev, items`next
      ensures AppOk() && items == Without(old(items), k) && AllBut(del, old(ToSet(items)))
    {
      ghost var members := ToSet(items);
      UnlinkApp(del, k);
      assert ChainsOk(chains, buckets[..], members);
    }

    /** The buckets still hold `del`, which the application list has let go. */
    ghost predicate AllBut(del: Handle<V>, members: set<Handle<V>>)
      reads this`items, this`chains, this`buckets, this`numBuckets, this`log2NumBuckets, this`numItems
      reads buckets, members`hhPrev, members`hhNext
    {
      && items != [] && numItems == |items| + 1
      && buckets.Length == numBuckets == Pow2(log2NumBuckets)
      && ChainsOk(chains, buckets[..], members) && del in members && ToSet(items) == members - {del}
    }

    /** The bucket half of HASH_DELETE_HH. */
    method UnlinkBkt(del: Handle<V>, ghost members: set<Handle<V>>)
      requires AppOk() && AllBut(del, members)
      modifies this`chains, this`numItems, buckets, members`hhPrev, members`hhNext
      ensures Valid()
    {
      DelInBkt(del, members);
      assert AppOk();
      numItems := numItems - 1;
      assert TblOk();
    }

    method DelInBkt(del: Handle<V>, ghost members: set<Handle<V>>)
      requires AllBut(del, members)
      modifies this`chains, buckets, members`hhPrev, members`hhNext
      ensures ChainsOk(chains, buckets[..], ToSet(items))
    {
      assert InChain(chains, del);
      var b := ToBkt(del.hashv, numBuckets);
      ghost var j :| 0 <= j < |chains[b]| && chains[b][j] == del;
      UnlinkChain(buckets, b, del, j, chains, members);
      chains := chains[b := Without(chains[b], j)];
    }

    /** Following `next` from the head gives the items, and following `hhNext` from each bucket its chain. */
    ghost predicate Walkable()
      reads this, buckets, items, set b, i | 0 <= b < |chains| && 0 <= i < |chains[b]| :: chains[b][i]
    {
      && head == At(items, 0)
      && (head != null ==>
            && (forall i {:trigger items[i].next} :: 0 <= i < |items| ==> items[i].next == At(items, i + 1))
            && buckets.Length == numBuckets == |chains|
            && (forall b :: 0 <= b < numBuckets ==> buckets[b].hhHead == At(chains[b], 0) && NextLinked(chains[b], 0)))
    }

    /** What HASH_FSCK is after: every back link is the element before, and every count is right. */
    ghost predicate Consistent()
      requires Walkable()
      reads this, buckets, items, set b, i | 0 <= b < |chains| && 0 <= i < |chains[b]| :: chains[b][i]
    {
      head != null ==>
        && (forall b :: 0 <= b < numBuckets ==> BackLinked(chains[b]) && buckets[b].count == |chains[b]|)
        && SumLen(chains) == numItems == |items|
        && AppBackLinked(items)
    }

    /** HASH_FSCK: walk every chain and the application list, checking back links and counts. On any table whose
        walks end, it finds nothing wrong if and only if the table is consistent. */
    method Fsck() returns (ok: bool)
      requires Walkable()
      ensures ok <==> Consistent()
    {
      ok := true;
      if head != null {
        var count := 0;
        for b := 0 to numBuckets
          invariant count == SumLen(chains[..b])
          invariant ok <==> forall j :: 0 <= j < b ==> BackLinked(chains[j]) && buckets[j].count == |chains[j]|
        {
          var n, good := FsckBkt(b);
          ok := ok && good && n == buckets[b].count;
          count := count + n;
          SumLenPrefix(chains, b);
        }
        assert chains[..numBuckets] == chains;
        ok := ok && count == numItems;
        var n, good := FsckApp();
        ok := ok && good && n == numItems;
      }
    }

    method FsckBkt(b: nat) returns (count: nat, ok: bool)
      requires Walkable() && head != null && b < numBuckets
      ensures count == |chains[b]| && (ok <==> BackLinked(chains[b]))
    {
      ghost var c := chains[b];
      assert NextLinked(c, 0);
      count, ok := 0, true;
      var prev: Handle?<V>, thh := null, buckets[b].hhHead;
      while thh != null
        invariant count <= |c| && thh == At(c, count) && prev == At(c, count - 1)
        invariant ok <==> forall i :: 0 <= i < count ==> c[i].hhPrev == At(c, i - 1)
        decreases |c| - count
      {
        ok := ok && prev == thh.hhPrev;
        count := count + 1;
        prev, thh := thh, thh.hhNext;
      }
    }

    method FsckApp() returns (count: nat, ok: bool)
      requires Walkable() && head != null
      ensures count == |items| && (ok <==> AppBackLinked(items))
    {
      count, ok := 0, true;
      var prev: Handle?<V>, thh := null, head;
      while thh != null
        invariant count <= |items| && thh == At(items, count) && prev == At(items, count - 1)
        invariant ok <==> forall i :: 0 <= i < count ==> items[i].prev == At(items, i - 1)
        decreases |items| - count
      {
        ok := ok && prev == thh.prev;
        count := count + 1;
        prev, thh := thh, thh.next;
      }
    }
  }

  ghost predicate BackLinked<V>(c: seq<Handle<V>>)
    reads c`hhPrev
  {
    forall i :: 0 <= i < |c| ==> c[i].hhPrev == At(c, i - 1)
  }

  ghost predicate AppBackLinked<V>(s: seq<Handle<V>>)
    reads s`prev
  {
    forall i :: 0 <= i < |s| ==> s[i].prev == At(s, i - 1)
  }

  /** Every table the operations can produce passes HASH_FSCK. */
  lemma ValidIsConsistent<V>(t: Table<V>)
    requires t.Valid()
    ensures t.Walkable() && t.Consistent()
  {
    if t.head != null {
      DistinctCount(t.items);
      assert HeadsOk(t.chains, t.buckets[..]);
      forall b | 0 <= b < t.numBuckets
        ensures t.buckets[b].hhHead == At(t.chains[b], 0) && t.buckets[b].count == |t.chains[b]|
        ensures NextLinked(t.chains[b], 0) && BackLinked(t.chains[b])
      {
        assert t.buckets[..][b] == t.buckets[b] && ChainLinked(t.chains[b]);
      }
    }
  }

  lemma AllHaveBuckets<V>(members: set<Handle<V>>, k: nat)
    ensures forall x :: x in members ==> ToBkt(x.hashv, Pow2(k)) < Pow2(k)
  {
    forall x | x in members
      ensures ToBkt(x.hashv, Pow2(k)) < Pow2(k)
    {
      ToBktIsLow(x.hashv, k);
    }
  }

  lemma SetOfAppended<T>(s: seq<T>, x: T)
    requires x !in s
    ensures ToSet(s + [x]) - {x} == ToSet(s)
  {
  }

  lemma SumLenPrefix<T>(cs: seq<seq<T>>, b: nat)
    requires b < |cs|
    ensures SumLen(cs[..b + 1]) == SumLen(cs[..b]) + |cs[b]|
  {
    if b == 0 {
      assert cs[..1] == [cs[0]];
    } else {
      SumLenPrefix(cs[1..], b - 1);
      assert cs[..b + 1][1..] == cs[1..][..b] && cs[..b][1..] == cs[1..][..b - 1];
    }
  }

  lemma {:induction false} DistinctCount<T>(s: seq<T>)
    requires Distinct(s)
    ensures |ToSet(s)| == |s|
  {
    if s != [] {
      DistinctCount(s[1..]);
      assert ToSet(s) == ToSet(s[1..]) + {s[0]};
    }
  }

  method MakeBuckets<V>(n: nat) returns (buckets: array<Bucket<V>>, ghost chains: seq<seq<Handle<V>>>)
    requires n >= 1
    ensures fresh(buckets) && buckets.Length == n && ChainsOk(chains, buckets[..], {})
    ensures forall b :: 0 <= b < n ==> buckets[b] == Bucket(null, 0, 0)
  {
    buckets := new Bucket<V>[n](_ => Bucket(null, 0, 0));
    chains := seq(n, _ => []);
    EmptyChainsOk(chains, buckets[..], 0);
  }

  /** `ceil(n / 2^k)` with a shift and a mask. */
  function CeilShift(n: nat, k: nat): nat {
    Shr(n, k) + if And(n, Pow2(k) - 1) != 0 then 1 else 0
  }

  lemma CeilShiftIsCeil(n: nat, k: nat)
    requires n >= 1
    ensures (CeilShift(n, k) - 1) * Pow2(k) < n <= CeilShift(n, k) * Pow2(k)
    ensures CeilShift(n, k) >= 1
  {
    ShrLowSplit(n, k);
    MaskIsLow(n, k);
    CeilArith(n, Pow2(k), Shr(n, k), Low(n, k));
  }

  lemma CeilArith(n: nat, p: nat, q: nat, r: nat)
    requires r < p && n == q * p + r && n >= 1
    ensures r == 0 ==> q >= 1 && (q - 1) * p < n <= q * p
    ensures r != 0 ==> q * p < n <= (q + 1) * p
  {
    assert (q - 1) * p == q * p - p && (q + 1) * p == q * p + p;
  }
}
