/** The uthash table: elements linked twice, once in insertion order (`prev`/`next`) and once in
    bucket chains (`hhPrev`/`hhNext`), with bucket doubling. The hash function is an arbitrary
    parameter. */
module UtHashLinks {
  import opened BitOps
  import opened OrderedMap

  type Byte = x: int | 0 <= x < 256
  type Key = seq<Byte>

  const HASH_INITIAL_NUM_BUCKETS: nat := 32
  const HASH_INITIAL_NUM_BUCKETS_LOG2: nat := 5
  const HASH_BKT_CAPACITY_THRESH: nat := 10

  /** An element with its hash handle. */
  class Handle<V> {
    const key: Key
    const hashv: nat
    const value: V
    var prev: Handle?<V>
    var next: Handle?<V>
    var hhPrev: Handle?<V>
    var hhNext: Handle?<V>

    constructor (key: Key, hashv: nat, value: V)
      ensures this.key == key && this.hashv == hashv && this.value == value
    {
      this.key, this.hashv, this.value := key, hashv, value;
      prev, next, hhPrev, hhNext := null, null, null, null;
    }
  }

  datatype Bucket<V> = Bucket(hhHead: Handle?<V>, count: nat, expandMult: nat)

  /** HASH_TO_BKT. */
  function ToBkt(hashv: nat, numBuckets: nat): nat
    requires numBuckets >= 1
  {
    And(hashv, numBuckets - 1)
  }

  lemma ToBktIsLow(hashv: nat, k: nat)
    ensures ToBkt(hashv, Pow2(k)) == Low(hashv, k) < Pow2(k)
  {
    MaskIsLow(hashv, k);
  }

  /** Doubling the buckets sends bucket i to i or to i plus the old number of buckets. */
  lemma ToBktDoubled(hashv: nat, k: nat)
    ensures var i := ToBkt(hashv, Pow2(k));
      ToBkt(hashv, Pow2(k + 1)) == i || ToBkt(hashv, Pow2(k + 1)) == i + Pow2(k)
    ensures ToBkt(hashv, Pow2(k)) == hashv % Pow2(k)
  {
    ToBktIsLow(hashv, k);
    ToBktIsLow(hashv, k + 1);
    LowStep(hashv, k);
    MaskShiftAreModDiv(hashv, k);
  }

  // ---------- the two linkings ----------

  function At<V>(s: seq<Handle<V>>, i: int): Handle?<V> {
    if 0 <= i < |s| then s[i] else null
  }

  ghost function AsSet<V>(h: Handle?<V>): set<Handle<V>> {
    if h == null then {} else {h}
  }

  ghost predicate AppLinked<V>(s: seq<Handle<V>>)
    reads s`prev, s`next
  {
    && (forall i {:trigger s[i].prev} :: 0 <= i < |s| ==> s[i].prev == At(s, i - 1))
    && (forall i {:trigger s[i].next} :: 0 <= i < |s| ==> s[i].next == At(s, i + 1))
  }

  /** No element and no key twice, and the hash of each key cached. */
  ghost predicate ItemsOk<V>(items: seq<Handle<V>>, hash: Key -> nat) {
    && Distinct(items)
    && (forall i, j :: 0 <= i < j < |items| ==> items[i].key != items[j].key)
    && (forall i :: 0 <= i < |items| ==> items[i].hashv == hash(items[i].key))
  }

  ghost predicate ChainLinked<V>(c: seq<Handle<V>>)
    reads c`hhPrev, c`hhNext
  {
    && (forall i {:trigger c[i].hhPrev} :: 0 <= i < |c| ==> c[i].hhPrev == At(c, i - 1))
    && (forall i {:trigger c[i].hhNext} :: 0 <= i < |c| ==> c[i].hhNext == At(c, i + 1))
  }

  ghost predicate AllLinked<V>(chains: seq<seq<Handle<V>>>, members: set<Handle<V>>)
    requires forall b, i :: 0 <= b < |chains| && 0 <= i < |chains[b]| ==> chains[b][i] in members
    reads members`hhPrev, members`hhNext
  {
    forall b :: 0 <= b < |chains| ==> ChainLinked(chains[b])
  }

  function SumLen<T>(cs: seq<seq<T>>): nat {
    if cs == [] then 0 else |cs[0]| + SumLen(cs[1..])
  }

  lemma {:induction false} SumLenUpdate<T>(cs: seq<seq<T>>, b: nat, c: seq<T>)
    requires b < |cs|
    ensures SumLen(cs[b := c]) == SumLen(cs) - |cs[b]| + |c|
  {
    if b == 0 {
      assert cs[0 := c][1..] == cs[1..];
    } else {
      SumLenUpdate(cs[1..], b - 1, c);
      assert cs[b := c][1..] == cs[1..][b - 1 := c];
    }
  }

  lemma {:induction false} SumLenEmpty<T>(cs: seq<seq<T>>)
    requires forall b :: 0 <= b < |cs| ==> cs[b] == []
    ensures SumLen(cs) == 0
  {
    if cs != [] { SumLenEmpty(cs[1..]); }
  }

  /** What HASH_FSCK checks of the buckets, plus what it takes for granted: `chains` spells out
      the chain of every bucket, and together they hold exactly `members`. */
  ghost predicate ChainsOk<V>(chains: seq<seq<Handle<V>>>, bkts: seq<Bucket<V>>, members: set<Handle<V>>)
    reads members`hhPrev, members`hhNext
  {
    && |chains| == |bkts| >= 1
    && Located(chains, members)
    && AllLinked(chains, members)
    && HeadsOk(chains, bkts)
    && SumLen(chains) == |members|
  }

  ghost predicate HeadsOk<V>(chains: seq<seq<Handle<V>>>, bkts: seq<Bucket<V>>)
    requires |chains| == |bkts|
  {
    forall b :: 0 <= b < |chains| ==> bkts[b].hhHead == At(chains[b], 0) && bkts[b].count == |chains[b]|
  }

  /** Every member sits once, in the chain of its own bucket. */
  ghost predicate Located<V>(chains: seq<seq<Handle<V>>>, members: set<Handle<V>>)
    requires |chains| >= 1
  {
    && (forall b, i :: 0 <= b < |chains| && 0 <= i < |chains[b]| ==>
          chains[b][i] in members && ToBkt(chains[b][i].hashv, |chains|) == b)
    && (forall b :: 0 <= b < |chains| ==> Distinct(chains[b]))
    && (forall x :: x in members ==> InChain(chains, x))
  }

  ghost predicate InChain<V>(chains: seq<seq<Handle<V>>>, x: Handle<V>)
    requires |chains| >= 1
  {
    && ToBkt(x.hashv, |chains|) < |chains|
    && x in chains[ToBkt(x.hashv, |chains|)]
  }

  /** The writes that put an element at the front of its bucket's chain. */
  method PushHandle<V>(bkts: array<Bucket<V>>, b: nat, x: Handle<V>)
    requires b < bkts.Length
    modifies bkts, x`hhPrev, x`hhNext, AsSet(bkts[b].hhHead)`hhPrev
    ensures x.hhNext == old(bkts[b].hhHead)
    ensures old(bkts[b].hhHead) != x ==> x.hhPrev == null
    ensures old(bkts[b].hhHead) != null ==> old(bkts[b].hhHead).hhPrev == x
    ensures bkts[..] == old(bkts[..])[b := old(bkts[b]).(hhHead := x)]
  {
    var first := bkts[b].hhHead;
    x.hhNext := first;
    x.hhPrev := null;
    if first != null {
      first.hhPrev := x;
    }
    bkts[b] := bkts[b].(hhHead := x);
  }

  /** Bucket `b` has counted one more element than its chain holds; nothing else differs. */
  ghost predicate Bumped<V>(was: seq<Bucket<V>>, bkts: seq<Bucket<V>>, b: nat)
    requires b < |was| == |bkts|
  {
    bkts == was[b := Bucket(was[b].hhHead, was[b].count + 1, bkts[b].expandMult)]
  }

  /** Linking in an element, already counted, at the front of its chain (the link part of
      HASH_ADD_TO_BKT and of the inner loop of HASH_EXPAND_BUCKETS). */
  method LinkFront<V>(bkts: array<Bucket<V>>, b: nat, x: Handle<V>, ghost was: seq<Bucket<V>>,
                      ghost chains: seq<seq<Handle<V>>>, ghost members: set<Handle<V>>)
    requires b < bkts.Length == |was| && ToBkt(x.hashv, bkts.Length) == b
    requires x !in members && ChainsOk(chains, was, members) && Bumped(was, bkts[..], b)
    modifies bkts, x`hhPrev, x`hhNext, members`hhPrev
    ensures bkts[..] == old(bkts[..])[b := old(bkts[b]).(hhHead := x)]
    ensures ChainsOk(chains[b := [x] + chains[b]], bkts[..], members + {x})
  {
    ghost var bkt := Bucket(x, was[b].count + 1, bkts[..][b].expandMult);
    HeadsPush(chains, was, b, bkt, x, members);
    LocatedPush(chains, b, x, members);
    RelinkFront(bkts, b, x, chains, members);
    assert bkts[..] == was[b := bkt];
  }

  method BumpCount<V>(bkts: array<Bucket<V>>, b: nat)
    requires b < bkts.Length
    modifies bkts
    ensures Bumped(old(bkts[..]), bkts[..], b) && bkts[b].expandMult == old(bkts[b].expandMult)
  {
    bkts[b] := bkts[b].(count := bkts[b].count + 1);
  }

  /** The count and the links of HASH_ADD_TO_BKT. */
  method CountIn<V>(bkts: array<Bucket<V>>, b: nat, x: Handle<V>,
                    ghost chains: seq<seq<Handle<V>>>, ghost members: set<Handle<V>>)
    requires b < bkts.Length && ToBkt(x.hashv, bkts.Length) == b
    requires x !in members && ChainsOk(chains, bkts[..], members)
    modifies bkts, x`hhPrev, x`hhNext, members`hhPrev
    ensures ChainsOk(chains[b := [x] + chains[b]], bkts[..], members + {x})
    ensures bkts[b].count == old(bkts[b].count) + 1 && bkts[b].expandMult == old(bkts[b].expandMult)
  {
    ghost var was := bkts[..];
    BumpCount(bkts, b);
    LinkFront(bkts, b, x, was, chains, members);
  }

  method RelinkFront<V>(bkts: array<Bucket<V>>, b: nat, x: Handle<V>,
                        ghost chains: seq<seq<Handle<V>>>, ghost members: set<Handle<V>>)
    requires b < bkts.Length == |chains| && ToBkt(x.hashv, bkts.Length) == b && bkts[b].hhHead == At(chains[b], 0)
    requires x !in members && Located(chains, members) && AllLinked(chains, members)
    requires Located(chains[b := [x] + chains[b]], members + {x})
    modifies bkts, x`hhPrev, x`hhNext, members`hhPrev
    ensures bkts[..] == old(bkts[..])[b := old(bkts[b]).(hhHead := x)]
    ensures AllLinked(chains[b := [x] + chains[b]], members + {x})
  {
    PushHandle(bkts, b, x);
    OtherChainsKept(chains, b);
    PushLinks(chains[b], x);
  }

  /** A chain none of whose elements changes its links stays linked. */
  twostate lemma OtherChainsKept<V>(chains: seq<seq<Handle<V>>>, new b: nat)
    requires forall b' :: 0 <= b' < |chains| ==> old(ChainLinked(chains[b']))
    requires forall b', i :: 0 <= b' < |chains| && b' != b && 0 <= i < |chains[b']| ==>
      chains[b'][i].hhPrev == old(chains[b'][i].hhPrev)
    requires forall b', i :: 0 <= b' < |chains| && b' != b && 0 <= i < |chains[b']| ==>
      chains[b'][i].hhNext == old(chains[b'][i].hhNext)
    ensures forall b' :: 0 <= b' < |chains| && b' != b ==> ChainLinked(chains[b'])
  {
  }

  twostate lemma PushLinks<V>(c: seq<Handle<V>>, new x: Handle<V>)
    requires x !in c
    requires Distinct(c)
    requires old(ChainLinked(c))
    requires x.hhPrev == null
    requires x.hhNext == At(c, 0)
    requires c != [] ==> c[0].hhPrev == x
    requires forall i :: 0 <= i < |c| ==> c[i].hhNext == old(c[i].hhNext)
    requires forall i :: 1 <= i < |c| ==> c[i].hhPrev == old(c[i].hhPrev)
    ensures ChainLinked([x] + c)
  {
    var d := [x] + c;
    forall i | 0 <= i < |d|
      ensures d[i].hhPrev == At(d, i - 1) && d[i].hhNext == At(d, i + 1)
    {
      if i > 0 { assert d[i] == c[i - 1]; }
    }
  }

  lemma HeadsPush<V>(chains: seq<seq<Handle<V>>>, was: seq<Bucket<V>>, b: nat, bkt: Bucket<V>, x: Handle<V>,
                     members: set<Handle<V>>)
    requires b < |chains| == |was| && HeadsOk(chains, was) && bkt.hhHead == x && bkt.count == was[b].count + 1
    requires x !in members && SumLen(chains) == |members|
    ensures HeadsOk(chains[b := [x] + chains[b]], was[b := bkt])
    ensures SumLen(chains[b := [x] + chains[b]]) == |members + {x}|
  {
    SumLenUpdate(chains, b, [x] + chains[b]);
  }

  lemma LocatedPush<V>(chains: seq<seq<Handle<V>>>, b: nat, x: Handle<V>, members: set<Handle<V>>)
    requires b < |chains| && ToBkt(x.hashv, |chains|) == b
    requires x !in members && Located(chains, members)
    ensures Located(chains[b := [x] + chains[b]], members + {x})
  {
    var c := [x] + chains[b];
    var chains' := chains[b := c];
    assert forall i :: 1 <= i < |c| ==> c[i] == chains[b][i - 1];
    forall y | y in members + {x}
      ensures InChain(chains', y)
    {
      if y == x {
        assert c[0] == x;
      } else {
        assert InChain(chains, y);
        assert y in chains[b] ==> y in c;
      }
    }
  }

  // ---------- expansion accounting ----------

  /** The number of elements beyond position `ideal` of their chain. */
  function Excess<V>(bkts: seq<Bucket<V>>, ideal: nat): nat {
    if bkts == [] then 0
    else (if bkts[0].count > ideal then bkts[0].count - ideal else 0) + Excess(bkts[1..], ideal)
  }

  /** The multiplier of a bucket brackets its count in units of the ideal length. */
  ghost predicate MultOk<V>(b: Bucket<V>, ideal: nat) {
    && b.count <= (b.expandMult + 1) * ideal
    && (b.expandMult > 0 ==> (b.expandMult - 1) * ideal < b.count && ideal < b.count)
  }

  ghost predicate Accounted<V>(bkts: seq<Bucket<V>>, ideal: nat, nonideal: nat) {
    && nonideal == Excess(bkts, ideal)
    && forall b :: 0 <= b < |bkts| ==> MultOk(bkts[b], ideal)
  }

  lemma {:induction false} ExcessUpdate<V>(bkts: seq<Bucket<V>>, b: nat, x: Bucket<V>, ideal: nat)
    requires b < |bkts| && x.count == bkts[b].count + 1
    ensures Excess(bkts[b := x], ideal) == Excess(bkts, ideal) + (if x.count > ideal then 1 else 0)
  {
    if b == 0 {
      assert bkts[0 := x][1..] == bkts[1..];
    } else {
      ExcessUpdate(bkts[1..], b - 1, x, ideal);
      assert bkts[b := x][1..] == bkts[1..][b - 1 := x];
    }
  }

  lemma {:induction false} ExcessEmpty<V>(bkts: seq<Bucket<V>>, ideal: nat)
    requires forall b :: 0 <= b < |bkts| ==> bkts[b].count == 0
    ensures Excess(bkts, ideal) == 0
  {
    if bkts != [] { ExcessEmpty(bkts[1..], ideal); }
  }

  lemma MultStep(count: nat, mult: nat, ideal: nat)
    requires ideal >= 1 && count <= (mult + 1) * ideal
    ensures count + 1 > mult * ideal ==> count + 1 <= (mult + 2) * ideal
    ensures count + 1 <= mult * ideal ==> count + 1 <= (mult + 1) * ideal
  {
    assert (mult + 1) * ideal == mult * ideal + ideal;
    assert (mult + 2) * ideal == mult * ideal + 2 * ideal;
  }

  /** The counting part of the inner loop of HASH_EXPAND_BUCKETS. */
  method Account<V>(bkts: array<Bucket<V>>, b: nat, ideal: nat, nonideal: nat)
    returns (nonideal': nat)
    requires ideal >= 1 && b < bkts.Length && Accounted(bkts[..], ideal, nonideal)
    modifies bkts
    ensures Bumped(old(bkts[..]), bkts[..], b)
    ensures Accounted(bkts[..], ideal, nonideal')
  {
    ghost var was := bkts[..];
    var bkt := bkts[b];
    assert MultOk(was[b], ideal);
    MultStep(was[b].count, was[b].expandMult, ideal);
    nonideal' := nonideal;
    bkt := bkt.(count := bkt.count + 1);
    if bkt.count > ideal {
      nonideal' := nonideal + 1;
      if bkt.count > bkt.expandMult * ideal {
        bkt := bkt.(expandMult := bkt.expandMult + 1);
      }
    }
    bkts[b] := bkt;
    assert bkts[..] == was[b := bkt];
    AccountedUpdate(was, b, bkt, ideal, nonideal);
  }

  lemma AccountedUpdate<V>(was: seq<Bucket<V>>, b: nat, bkt: Bucket<V>, ideal: nat, nonideal: nat)
    requires b < |was| && bkt.count == was[b].count + 1
    requires Accounted(was, ideal, nonideal) && MultOk(bkt, ideal)
    ensures Accounted(was[b := bkt], ideal, nonideal + if bkt.count > ideal then 1 else 0)
  {
    ExcessUpdate(was, b, bkt, ideal);
  }

  lemma AccountedHead<V>(bkts: seq<Bucket<V>>, b: nat, h: Handle?<V>, ideal: nat, nonideal: nat)
    requires b < |bkts| && Accounted(bkts, ideal, nonideal)
    ensures Accounted(bkts[b := bkts[b].(hhHead := h)], ideal, nonideal)
  {
    ExcessHead(bkts, b, h, ideal);
  }

  lemma {:induction false} ExcessHead<V>(bkts: seq<Bucket<V>>, b: nat, h: Handle?<V>, ideal: nat)
    requires b < |bkts|
    ensures Excess(bkts[b := bkts[b].(hhHead := h)], ideal) == Excess(bkts, ideal)
  {
    var bkts' := bkts[b := bkts[b].(hhHead := h)];
    if b == 0 {
      assert bkts'[1..] == bkts[1..];
    } else {
      ExcessHead(bkts[1..], b - 1, h, ideal);
      assert bkts'[1..] == bkts[1..][b - 1 := bkts[b].(hhHead := h)];
    }
  }

  /** One step of the inner loop of HASH_EXPAND_BUCKETS: the element is accounted for and goes to
      the front of its new bucket. */
  method MoveHandle<V>(bkts: array<Bucket<V>>, x: Handle<V>, ideal: nat, nonideal: nat,
                       ghost chains: seq<seq<Handle<V>>>, ghost members: set<Handle<V>>)
    returns (nonideal': nat, ghost chains': seq<seq<Handle<V>>>)
    requires ideal >= 1 && bkts.Length >= 1 && ToBkt(x.hashv, bkts.Length) < bkts.Length
    requires x !in members && ChainsOk(chains, bkts[..], members) && Accounted(bkts[..], ideal, nonideal)
    modifies bkts, x`hhPrev, x`hhNext, members`hhPrev
    ensures ChainsOk(chains', bkts[..], members + {x})
    ensures Accounted(bkts[..], ideal, nonideal')
  {
    var b := ToBkt(x.hashv, bkts.Length);
    ghost var was := bkts[..];
    nonideal' := Account(bkts, b, ideal, nonideal);
    AccountedHead(bkts[..], b, x, ideal, nonideal');
    chains' := chains[b := [x] + chains[b]];
    LinkFront(bkts, b, x, was, chains, members);
  }

  ghost predicate NextLinked<V>(c: seq<Handle<V>>, from: nat)
    reads c`hhNext
  {
    forall i {:trigger c[i].hhNext} :: from <= i < |c| ==> c[i].hhNext == At(c, i + 1)
  }

  ghost function ToSet<T>(s: seq<T>): set<T> {
    set x | x in s
  }

  /** The first `j` elements of the old chain `c` are in the new buckets, beside `members`; the
      rest can still be reached through `hhNext`. */
  ghost predicate Walking<V>(c: seq<Handle<V>>, j: nat, chains: seq<seq<Handle<V>>>, bkts: seq<Bucket<V>>,
                             members: set<Handle<V>>)
    requires j <= |c|
    reads c`hhNext, members`hhPrev, members`hhNext, c`hhPrev
  {
    && Distinct(c) && (forall i :: 0 <= i < |c| ==> c[i] !in members)
    && NextLinked(c, j)
    && ChainsOk(chains, bkts, members + ToSet(c[..j]))
  }

  method MoveAt<V>(thh: Handle<V>, bkts: array<Bucket<V>>, ideal: nat, nonideal: nat, ghost c: seq<Handle<V>>,
                   ghost j: nat, ghost chains: seq<seq<Handle<V>>>, ghost members: set<Handle<V>>)
    returns (next: Handle?<V>, nonideal': nat, ghost chains': seq<seq<Handle<V>>>)
    requires ideal >= 1 && bkts.Length >= 1 && j < |c| && thh == c[j] && ToBkt(thh.hashv, bkts.Length) < bkts.Length
    requires Walking(c, j, chains, bkts[..], members) && Accounted(bkts[..], ideal, nonideal)
    modifies bkts, thh`hhPrev, thh`hhNext, members`hhPrev, c`hhPrev
    ensures next == At(c, j + 1)
    ensures Walking(c, j + 1, chains', bkts[..], members)
    ensures Accounted(bkts[..], ideal, nonideal')
  {
    next := thh.hhNext;
    ghost var done := members + ToSet(c[..j]);
    assert members + ToSet(c[..j + 1]) == done + {thh};
    nonideal', chains' := MoveHandle(bkts, thh, ideal, nonideal, chains, done);
  }

  /** The inner loop of HASH_EXPAND_BUCKETS: walk one old chain, saving `hhNext` before the
      element is relinked. */
  method MoveChain<V>(first: Handle?<V>, bkts: array<Bucket<V>>, ideal: nat, nonideal: nat,
                      ghost c: seq<Handle<V>>, ghost chains: seq<seq<Handle<V>>>, ghost members: set<Handle<V>>)
    returns (nonideal': nat, ghost chains': seq<seq<Handle<V>>>)
    requires ideal >= 1 && bkts.Length >= 1 && first == At(c, 0)
    requires forall i :: 0 <= i < |c| ==> ToBkt(c[i].hashv, bkts.Length) < bkts.Length
    requires Walking(c, 0, chains, bkts[..], members) && Accounted(bkts[..], ideal, nonideal)
    modifies bkts, c`hhPrev, c`hhNext, members`hhPrev
    ensures Walking(c, |c|, chains', bkts[..], members)
    ensures Accounted(bkts[..], ideal, nonideal')
  {
    nonideal', chains' := nonideal, chains;
    var thh := first;
    ghost var j := 0;
    while thh != null
      invariant 0 <= j <= |c| && thh == At(c, j)
      invariant Walking(c, j, chains', bkts[..], members)
      invariant Accounted(bkts[..], ideal, nonideal')
      decreases |c| - j
    {
      thh, nonideal', chains' := MoveAt(thh, bkts, ideal, nonideal', c, j, chains', members);
      j := j + 1;
    }
    assert j == |c|;
  }

  ghost function Before<V>(members: set<Handle<V>>, n: nat, i: nat): set<Handle<V>>
    requires n >= 1
  {
    set x | x in members && ToBkt(x.hashv, n) < i
  }

  /** Buckets below `i` have been emptied into the new buckets; the others can still be walked. */
  ghost predicate Draining<V>(chains: seq<seq<Handle<V>>>, i: nat, members: set<Handle<V>>,
                              newChains: seq<seq<Handle<V>>>, newBkts: seq<Bucket<V>>)
    requires |chains| >= 1 && i <= |chains| && Located(chains, members)
    reads members`hhPrev, members`hhNext
  {
    && (forall b :: i <= b < |chains| ==> NextLinked(chains[b], 0))
    && ChainsOk(newChains, newBkts, Before(members, |chains|, i))
  }

  lemma DrainSets<V>(chains: seq<seq<Handle<V>>>, i: nat, members: set<Handle<V>>)
    requires i < |chains| && Located(chains, members)
    ensures Before(members, |chains|, i) + ToSet(chains[i][..0]) == Before(members, |chains|, i)
    ensures Before(members, |chains|, i) + ToSet(chains[i][..|chains[i]|]) == Before(members, |chains|, i + 1)
  {
    assert chains[i][..|chains[i]|] == chains[i];
    assert forall x :: x in members ==> InChain(chains, x);
  }

  lemma ChainsApart<V>(chains: seq<seq<Handle<V>>>, i: nat, members: set<Handle<V>>)
    requires i < |chains| && Located(chains, members)
    ensures Distinct(chains[i])
    ensures forall j :: 0 <= j < |chains[i]| ==>
      chains[i][j] in members && chains[i][j] !in Before(members, |chains|, i)
    ensures forall b, j :: 0 <= b < |chains| && b != i && 0 <= j < |chains[b]| ==> chains[b][j] !in chains[i]
  {
  }

  /** One iteration of the outer loop of HASH_EXPAND_BUCKETS. */
  method DrainBucket<V>(first: Handle?<V>, bkts: array<Bucket<V>>, ideal: nat, nonideal: nat, ghost i: nat,
                        ghost chains: seq<seq<Handle<V>>>, ghost members: set<Handle<V>>,
                        ghost newChains: seq<seq<Handle<V>>>)
    returns (nonideal': nat, ghost newChains': seq<seq<Handle<V>>>)
    requires i < |chains| && Located(chains, members) && first == At(chains[i], 0)
    requires ideal >= 1 && bkts.Length >= 1 && forall x :: x in members ==> ToBkt(x.hashv, bkts.Length) < bkts.Length
    requires Draining(chains, i, members, newChains, bkts[..]) && Accounted(bkts[..], ideal, nonideal)
    modifies bkts, members`hhPrev, members`hhNext
    ensures Draining(chains, i + 1, members, newChains', bkts[..])
    ensures Accounted(bkts[..], ideal, nonideal')
  {
    DrainSets(chains, i, members);
    ChainsApart(chains, i, members);
    ghost var done := Before(members, |chains|, i);
    nonideal', newChains' := MoveChain(first, bkts, ideal, nonideal, chains[i], newChains, done);
  }

  /** The outer loop of HASH_EXPAND_BUCKETS. */
  method DrainAll<V>(source: array<Bucket<V>>, bkts: array<Bucket<V>>, ideal: nat,
                     ghost chains: seq<seq<Handle<V>>>, ghost members: set<Handle<V>>)
    returns (nonideal: nat, ghost newChains: seq<seq<Handle<V>>>)
    requires source != bkts && ChainsOk(chains, source[..], members)
    requires forall b :: 0 <= b < bkts.Length ==> bkts[b] == Bucket(null, 0, 0)
    requires ideal >= 1 && bkts.Length >= 1 && forall x :: x in members ==> ToBkt(x.hashv, bkts.Length) < bkts.Length
    modifies bkts, members`hhPrev, members`hhNext
    ensures ChainsOk(newChains, bkts[..], members) && Accounted(bkts[..], ideal, nonideal)
  {
    newChains := seq(bkts.Length, _ => []);
    nonideal := 0;
    EmptyChainsOk<V>(newChains, bkts[..], ideal);
    assert Before(members, |chains|, 0) == {};
    for i := 0 to source.Length
      invariant Draining(chains, i, members, newChains, bkts[..])
      invariant Accounted(bkts[..], ideal, nonideal)
    {
      assert HeadsOk(chains, source[..]);
      nonideal, newChains := DrainBucket(source[i].hhHead, bkts, ideal, nonideal, i, chains, members, newChains);
    }
    assert Before(members, |chains|, |chains|) == members by {
      assert forall x :: x in members ==> InChain(chains, x);
    }
  }

  lemma EmptyChainsOk<V>(chains: seq<seq<Handle<V>>>, bkts: seq<Bucket<V>>, ideal: nat)
    requires |chains| == |bkts| >= 1
    requires forall b :: 0 <= b < |chains| ==> chains[b] == [] && bkts[b] == Bucket(null, 0, 0)
    ensures ChainsOk(chains, bkts, {}) && Accounted(bkts, ideal, 0)
  {
    SumLenEmpty(chains);
    ExcessEmpty(bkts, ideal);
  }

  // ---------- removal from a chain ----------

  ghost function Without<T>(s: seq<T>, k: nat): seq<T>
    requires k < |s|
  {
    s[..k] + s[k + 1..]
  }

  /** The writes of HASH_DEL_IN_BKT. */
  method PopHandle<V>(bkts: array<Bucket<V>>, b: nat, del: Handle<V>)
    requires b < bkts.Length && bkts[b].count >= 1
    requires del.hhPrev != del && del.hhNext != del
    modifies bkts, AsSet(del.hhPrev)`hhNext, AsSet(del.hhNext)`hhPrev
    ensures del.hhPrev != null ==> del.hhPrev.hhNext == del.hhNext
    ensures del.hhNext != null ==> del.hhNext.hhPrev == del.hhPrev
    ensures bkts[..] == old(bkts[..])[b :=
      Bucket(if old(bkts[b].hhHead) == del then del.hhNext else old(bkts[b].hhHead),
             old(bkts[b].count) - 1, old(bkts[b].expandMult))]
  {
    bkts[b] := bkts[b].(count := bkts[b].count - 1);
    if bkts[b].hhHead == del {
      bkts[b] := bkts[b].(hhHead := del.hhNext);
    }
    if del.hhPrev != null {
      del.hhPrev.hhNext := del.hhNext;
    }
    if del.hhNext != null {
      del.hhNext.hhPrev := del.hhPrev;
    }
  }

  /** HASH_DEL_IN_BKT: take element `j` out of chain `b`. */
  method UnlinkChain<V>(bkts: array<Bucket<V>>, b: nat, del: Handle<V>, ghost j: nat,
                        ghost chains: seq<seq<Handle<V>>>, ghost members: set<Handle<V>>)
    requires b < bkts.Length && ChainsOk(chains, bkts[..], members) && j < |chains[b]| && chains[b][j] == del
    modifies bkts, members`hhPrev, members`hhNext
    ensures ChainsOk(chains[b := Without(chains[b], j)], bkts[..], members - {del})
  {
    HeadsPop(chains, bkts[..], b, j, members);
    LocatedPop(chains, b, j, members);
    assert bkts[b].count == |chains[b]|;
    RelinkAround(bkts, b, del, j, chains, members);
  }

  method RelinkAround<V>(bkts: array<Bucket<V>>, b: nat, del: Handle<V>, ghost j: nat,
                         ghost chains: seq<seq<Handle<V>>>, ghost members: set<Handle<V>>)
    requires b < bkts.Length == |chains| && j < |chains[b]| && chains[b][j] == del && bkts[b].count >= 1
    requires Located(chains, members) && AllLinked(chains, members)
    requires Located(chains[b := Without(chains[b], j)], members - {del})
    modifies bkts, members`hhPrev, members`hhNext
    ensures bkts[..] == old(bkts[..])[b :=
      Bucket(if old(bkts[b]).hhHead == del then At(chains[b], j + 1) else old(bkts[b]).hhHead,
             old(bkts[b]).count - 1, old(bkts[b]).expandMult)]
    ensures AllLinked(chains[b := Without(chains[b], j)], members - {del})
  {
    ghost var c := chains[b];
    assert ChainLinked(c);
    assert c[j].hhPrev == At(c, j - 1) && c[j].hhNext == At(c, j + 1);
    PopHandle(bkts, b, del);
    OtherChainsKept(chains, b);
    PopLinks(c, j);
  }

  twostate lemma PopLinks<V>(c: seq<Handle<V>>, new j: nat)
    requires j < |c|
    requires Distinct(c)
    requires old(ChainLinked(c))
    requires j >= 1 ==> c[j - 1].hhNext == At(c, j + 1)
    requires j + 1 < |c| ==> c[j + 1].hhPrev == At(c, j - 1)
    requires forall i :: 0 <= i < |c| && i != j - 1 ==> c[i].hhNext == old(c[i].hhNext)
    requires forall i :: 0 <= i < |c| && i != j + 1 ==> c[i].hhPrev == old(c[i].hhPrev)
    ensures ChainLinked(Without(c, j))
  {
    var d := Without(c, j);
    forall i | 0 <= i < |d|
      ensures d[i].hhPrev == At(d, i - 1) && d[i].hhNext == At(d, i + 1)
    {
      var k := if i < j then i else i + 1;
      assert d[i] == c[k];
    }
  }

  lemma HeadsPop<V>(chains: seq<seq<Handle<V>>>, was: seq<Bucket<V>>, b: nat, j: nat, members: set<Handle<V>>)
    requires b < |chains| == |was| && HeadsOk(chains, was) && j < |chains[b]|
    requires Distinct(chains[b]) && chains[b][j] in members && SumLen(chains) == |members|
    ensures HeadsOk(chains[b := Without(chains[b], j)],
              was[b := Bucket(if was[b].hhHead == chains[b][j] then At(chains[b], j + 1) else was[b].hhHead,
                              was[b].count - 1, was[b].expandMult)])
    ensures SumLen(chains[b := Without(chains[b], j)]) == |members - {chains[b][j]}|
  {
    SumLenUpdate(chains, b, Without(chains[b], j));
  }

  lemma LocatedPop<V>(chains: seq<seq<Handle<V>>>, b: nat, j: nat, members: set<Handle<V>>)
    requires b < |chains| && Located(chains, members) && j < |chains[b]|
    ensures Located(chains[b := Without(chains[b], j)], members - {chains[b][j]})
  {
    var c, del := Without(chains[b], j), chains[b][j];
    var cs := chains[b := c];
    assert forall i :: 0 <= i < |c| ==> c[i] == chains[b][if i < j then i else i + 1];
    forall y | y in members - {del}
      ensures InChain(cs, y)
    {
      assert InChain(chains, y);
      if ToBkt(y.hashv, |chains|) == b {
        WithoutKeeps(chains[b], j, y);
      }
    }
  }

  lemma WithoutKeeps<T>(s: seq<T>, k: nat, y: T)
    requires k < |s| && y in s && y != s[k]
    ensures y in Without(s, k)
  {
    var i :| 0 <= i < |s| && s[i] == y;
    assert Without(s, k)[if i < k then i else i - 1] == y;
  }

  /** Taking one item out of the application list. */
  lemma ItemsWithout<V>(items: seq<Handle<V>>, hash: Key -> nat, k: nat)
    requires k < |items| && ItemsOk(items, hash)
    ensures ItemsOk(Without(items, k), hash)
    ensures items[k] !in Without(items, k) && ToSet(Without(items, k)) + {items[k]} == ToSet(items)
  {
    var w := Without(items, k);
    assert forall i :: 0 <= i < |w| ==> w[i] == items[if i < k then i else i + 1];
    forall y | y in items && y != items[k]
      ensures y in w
    {
      WithoutKeeps(items, k, y);
    }
  }

  twostate lemma AppPopLinks<V>(s: seq<Handle<V>>, new k: nat)
    requires k < |s|
    requires old(AppLinked(s))
    requires k >= 1 ==> s[k - 1].next == At(s, k + 1)
    requires k + 1 < |s| ==> s[k + 1].prev == At(s, k - 1)
    requires forall i :: 0 <= i < |s| && i != k - 1 ==> s[i].next == old(s[i].next)
    requires forall i :: 0 <= i < |s| && i != k + 1 ==> s[i].prev == old(s[i].prev)
    ensures AppLinked(Without(s, k))
  {
    var d := Without(s, k);
    forall i | 0 <= i < |d|
      ensures d[i].prev == At(d, i - 1) && d[i].next == At(d, i + 1)
    {
      assert d[i] == s[if i < k then i else i + 1];
    }
  }

  twostate lemma AppPushLinks<V>(s: seq<Handle<V>>, new x: Handle<V>)
    requires s != []
    requires old(AppLinked(s))
    requires x.prev == s[|s| - 1]
    requires x.next == null
    requires s[|s| - 1].next == x
    requires forall i :: 0 <= i < |s| - 1 ==> s[i].next == old(s[i].next)
    requires forall i :: 0 <= i < |s| ==> s[i].prev == old(s[i].prev)
    ensures AppLinked(s + [x])
  {
    var d := s + [x];
    forall i | 0 <= i < |d|
      ensures d[i].prev == At(d, i - 1) && d[i].next == At(d, i + 1)
    {
      if i < |s| { assert d[i] == s[i]; }
    }
  }

  /** The links of HASH_APPEND_LIST. */
  method AppendNode<V>(tail: Handle<V>, add: Handle<V>, ghost s: seq<Handle<V>>)
    requires s != [] && AppLinked(s) && Distinct(s) && tail == s[|s| - 1] && add !in s
    modifies add`prev, add`next, s`next
    ensures AppLinked(s + [add])
  {
    add.next := null;
    add.prev := tail;
    tail.next := add;
    AppPushLinks(s, add);
  }

  /** The application-order links of HASH_DELETE_HH. */
  method UnlinkNode<V>(del: Handle<V>, ghost s: seq<Handle<V>>, ghost k: nat)
    requires k < |s| && s[k] == del && AppLinked(s) && Distinct(s)
    modifies s`prev, s`next
    ensures AppLinked(Without(s, k))
  {
    assert s[k].prev == At(s, k - 1) && s[k].next == At(s, k + 1);
    if del.prev != null {
      del.prev.next := del.next;
    }
    if del.next != null {
      del.next.prev := del.prev;
    }
    AppPopLinks(s, k);
  }

  /** Across an expansion from 2^k buckets, what was in bucket i is in i or i + 2^k, and nothing
      else is. */
  lemma ExpansionSplitsBuckets<V>(k: nat, chains: seq<seq<Handle<V>>>, newChains: seq<seq<Handle<V>>>,
                                  members: set<Handle<V>>)
    requires |chains| == Pow2(k) && |newChains| == Pow2(k + 1)
    requires Located(chains, members) && Located(newChains, members)
    ensures forall i, x :: 0 <= i < |chains| ==> (x in chains[i] <==> x in newChains[i] || x in newChains[i + |chains|])
  {
    forall i, x | 0 <= i < |chains|
      ensures x in chains[i] <==> x in newChains[i] || x in newChains[i + |chains|]
    {
      assert x in members ==> InChain(chains, x) && InChain(newChains, x);
      ToBktIsLow(x.hashv, k);
      ToBktDoubled(x.hashv, k);
    }
  }
}
