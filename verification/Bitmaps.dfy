/** Bitmaps of 2048 bits in words of 64, the scopes made of them, and their messages. */
module Bitmaps {
  import opened BitOps

  const NBITS: nat := 64
  const SIZE: nat := 32
  const MAX: nat := 2048

  type Int32 = x: int | -0x8000_0000 <= x < 0x8000_0000

  type Mask = seq<nat>

  ghost predicate Ok(m: Mask) {
    |m| == SIZE && forall n :: 0 <= n < SIZE ==> m[n] < Pow2(NBITS)
  }

  predicate BitAt(m: Mask, i: nat)
    requires |m| == SIZE && i < MAX
  {
    Bit(m[i / NBITS], i % NBITS)
  }

  /** The set a bitmap stands for. */
  ghost function SetOf(m: Mask): set<nat>
    requires |m| == SIZE
  {
    set i | 0 <= i < MAX && BitAt(m, i)
  }

  /** The set bits below k, in ascending order. */
  function Members(m: Mask, k: nat): seq<Int32>
    requires |m| == SIZE && k <= MAX
  {
    if k == 0 then [] else Members(m, k - 1) + if BitAt(m, k - 1) then [k - 1] else []
  }

  function SetBit(m: Mask, i: nat): Mask
    requires |m| == SIZE && i < MAX
  {
    m[i / NBITS := Or(m[i / NBITS], Pow2(i % NBITS))]
  }

  function Zeros(n: nat): (m: Mask)
    ensures |m| == n && forall j :: 0 <= j < n ==> m[j] == 0
  {
    if n == 0 then [] else Zeros(n - 1) + [0]
  }

  const EMPTY: Mask := Zeros(SIZE)

  /** The conversion of a signed argument to unsigned int. */
  function AsUnsigned(x: Int32): nat {
    if x < 0 then x + 0x1_0000_0000 else x
  }

  /** nrm_bitmap_set refuses an index out of range. */
  function SetItem(m: Mask, x: Int32): (r: Mask)
    requires |m| == SIZE
    ensures |r| == SIZE
  {
    if AsUnsigned(x) < MAX then SetBit(m, AsUnsigned(x)) else m
  }

  function FromItems(items: seq<Int32>): (m: Mask)
    ensures |m| == SIZE
  {
    if items == [] then EMPTY else SetItem(FromItems(items[..|items| - 1]), items[|items| - 1])
  }

  class Bitmap {
    const mask: array<nat>

    ghost predicate Valid()
      reads mask
    {
      Ok(mask[..])
    }

    constructor ()
      ensures Valid() && fresh(mask) && mask[..] == EMPTY
    {
      mask := new nat[SIZE](_ => 0);
      new;
      assert mask[..] == EMPTY;
    }

    /** nrm_bitmap_isset. */
    method IsSet(i: nat) returns (r: int)
      requires Valid()
      ensures r == if i >= MAX then -1 else if BitAt(mask[..], i) then 1 else 0
    {
      if i >= MAX {
        return -1;
      }
      AndPow2(mask[i / NBITS], i % NBITS);
      r := if And(mask[i / NBITS], Pow2(i % NBITS)) != 0 then 1 else 0;
    }

    /** nrm_bitmap_set. */
    method Set(i: nat) returns (r: int)
      requires Valid()
      modifies mask
      ensures Valid() && r == (if i >= MAX then -1 else 0)
      ensures mask[..] == if i < MAX then SetBit(old(mask[..]), i) else old(mask[..])
    {
      if i >= MAX {
        return -1;
      }
      OrPow2Bound(mask[i / NBITS], i % NBITS, NBITS);
      mask[i / NBITS] := Or(mask[i / NBITS], Pow2(i % NBITS));
      r := 0;
    }

    /** nrm_bitmap_nset: shift each word through and add its low bits up. */
    method NSet() returns (nset: nat)
      requires Valid()
      ensures nset == |SetOf(mask[..])|
    {
      ghost var m := mask[..];
      nset := 0;
      for n := 0 to SIZE
        invariant nset == |Members(m, NBITS * n)|
      {
        var b := mask[n];
        for i := 0 to NBITS
          invariant b == Shr(m[n], i) && nset == |Members(m, NBITS * n + i)|
        {
          CountStep(m, n, i);
          nset := nset + if And(b, 1) != 0 then 1 else 0;
          b := b / 2;
        }
      }
      MembersOfSet(m);
    }

    /** nrm_bitmap_cmp: 0 exactly when the words are the same. */
    method Cmp(other: Bitmap) returns (r: int)
      requires Valid() && other.Valid()
      ensures r == 0 <==> SetOf(mask[..]) == SetOf(other.mask[..])
    {
      SameSetSameMask(mask[..], other.mask[..]);
      r := if mask[..] == other.mask[..] then 0 else 1;
    }

    /** nrm_bitmap_to_array: list the set bits, stopping as soon as all have been listed. */
    method ToArray() returns (items: seq<Int32>)
      requires Valid()
      ensures items == Members(mask[..], MAX)
    {
      var size := NSet();
      items := [];
      var i := 0;
      MembersOfSet(mask[..]);
      while i < MAX && |items| < size
        invariant i <= MAX && items == Members(mask[..], i)
      {
        var isset := IsSet(i);
        if isset != 0 {
          items := items + [i];
        }
        i := i + 1;
      }
      MembersGrow(mask[..], i, MAX);
    }

    /** nrm_bitmap_from_array: reset, then set every item; items out of range are refused. */
    method FromArray(items: seq<Int32>)
      requires Valid()
      modifies mask
      ensures Valid() && mask[..] == FromItems(items)
    {
      for n := 0 to SIZE
        invariant forall j :: 0 <= j < n ==> mask[j] == 0
        invariant Valid()
      {
        mask[n] := 0;
      }
      assert mask[..] == EMPTY && items[..0] == [];
      for i := 0 to |items|
        invariant Valid() && mask[..] == FromItems(items[..i])
      {
        assert items[..i + 1][..i] == items[..i];
        var _ := Set(AsUnsigned(items[i]));
      }
      assert items[..|items|] == items;
    }
  }

  // ---------- what the operations mean ----------

  predicate Ascending(s: seq<Int32>) {
    forall i, j :: 0 <= i < j < |s| ==> s[i] < s[j]
  }

  /** The set of the bits below k. */
  ghost function Below(m: Mask, k: nat): set<int>
    requires |m| == SIZE && k <= MAX
  {
    set x | 0 <= x < k && BitAt(m, x)
  }

  lemma BelowStep(m: Mask, k: nat)
    requires |m| == SIZE && 0 < k <= MAX
    ensures Below(m, k) == Below(m, k - 1) + if BitAt(m, k - 1) then {k - 1} else {}
  {
  }

  lemma {:induction false} MembersBelow(m: Mask, k: nat)
    requires |m| == SIZE && k <= MAX
    ensures |Members(m, k)| == |Below(m, k)|
    ensures forall x :: x in Members(m, k) <==> x in Below(m, k)
  {
    if k > 0 {
      MembersBelow(m, k - 1);
      BelowStep(m, k);
    }
  }

  lemma {:induction false} MembersAscend(m: Mask, k: nat)
    requires |m| == SIZE && k <= MAX
    ensures Ascending(Members(m, k)) && forall i :: 0 <= i < |Members(m, k)| ==> 0 <= Members(m, k)[i] < k
  {
    if k > 0 { MembersAscend(m, k - 1); }
  }

  /** The lowest bit of a word shifted i times is bit i. */
  lemma CountStep(m: Mask, n: nat, i: nat)
    requires |m| == SIZE && n < SIZE && i < NBITS
    ensures Shr(m[n], i + 1) == Shr(m[n], i) / 2
    ensures |Members(m, NBITS * n + i + 1)| ==
      |Members(m, NBITS * n + i)| + if And(Shr(m[n], i), 1) != 0 then 1 else 0
  {
    var k := NBITS * n + i;
    assert k / NBITS == n && k % NBITS == i;
    BitShr(m[n], i);
    AndPow2(Shr(m[n], i), 0);
  }

  /** The array of a bitmap lists its set in strictly ascending order, so its length is the cardinality. */
  lemma MembersOfSet(m: Mask)
    requires |m| == SIZE
    ensures Ascending(Members(m, MAX)) && |Members(m, MAX)| == |SetOf(m)|
    ensures forall x: nat :: x in Members(m, MAX) <==> x in SetOf(m)
  {
    MembersBelow(m, MAX);
    MembersAscend(m, MAX);
    assert SetOf(m) == Below(m, MAX);
  }

  lemma {:induction false} MembersGrow(m: Mask, k: nat, n: nat)
    requires |m| == SIZE && k <= n <= MAX
    ensures Members(m, k) <= Members(m, n)
  {
    if k < n { MembersGrow(m, k, n - 1); }
  }

  lemma SetBitOk(m: Mask, i: nat)
    requires Ok(m) && i < MAX
    ensures Ok(SetBit(m, i)) && SetOf(SetBit(m, i)) == SetOf(m) + {i}
  {
    OrPow2Bound(m[i / NBITS], i % NBITS, NBITS);
    var m' := SetBit(m, i);
    forall x: nat | x < MAX
      ensures BitAt(m', x) <==> BitAt(m, x) || x == i
    {
      OrPow2(m[i / NBITS], i % NBITS, x % NBITS);
    }
  }

  /** The in-range items of an array. */
  ghost function InRange(items: seq<Int32>): set<nat> {
    set x | 0 <= x < MAX && x in items
  }

  lemma EmptyOk()
    ensures Ok(EMPTY) && SetOf(EMPTY) == {}
  {
    forall x | 0 <= x < MAX
      ensures !BitAt(EMPTY, x)
    {
      BitZero(x % NBITS);
    }
  }

  lemma InRangeStep(front: seq<Int32>, last: Int32)
    ensures InRange(front + [last]) == InRange(front) + if AsUnsigned(last) < MAX then {AsUnsigned(last)} else {}
  {
    var items := front + [last];
    assert forall x :: x in items <==> x in front || x == last;
  }

  lemma {:induction false} FromItemsIsInRange(items: seq<Int32>)
    ensures Ok(FromItems(items)) && SetOf(FromItems(items)) == InRange(items)
  {
    if items == [] {
      EmptyOk();
    } else {
      var front, last := items[..|items| - 1], items[|items| - 1];
      FromItemsIsInRange(front);
      InRangeStep(front, last);
      assert items == front + [last];
      if AsUnsigned(last) < MAX {
        SetBitOk(FromItems(front), AsUnsigned(last));
      }
    }
  }

  /** Two bitmaps with the same set have the same words. */
  lemma SameSetSameMask(m: Mask, m': Mask)
    requires Ok(m) && Ok(m')
    ensures SetOf(m) == SetOf(m') <==> m == m'
  {
    if SetOf(m) == SetOf(m') {
      forall n | 0 <= n < SIZE
        ensures m[n] == m'[n]
      {
        forall j | 0 <= j < NBITS
          ensures Bit(m[n], j) <==> Bit(m'[n], j)
        {
          var i := NBITS * n + j;
          assert i / NBITS == n && i % NBITS == j;
          assert i in SetOf(m) <==> i in SetOf(m');
        }
        WordExtensional(m[n], m'[n], NBITS);
      }
    }
  }

  /** Reading a bitmap back from its array restores it. */
  lemma ArrayRoundTrip(m: Mask)
    requires Ok(m)
    ensures FromItems(Members(m, MAX)) == m
  {
    MembersOfSet(m);
    var items: seq<Int32> := Members(m, MAX);
    FromItemsIsInRange(items);
    assert InRange(items) == SetOf(m);
    SameSetSameMask(FromItems(items), m);
  }

  /** The array of a bitmap made from items is the in-range items, sorted and without repetition. */
  lemma ItemsRoundTrip(items: seq<Int32>)
    ensures var out := Members(FromItems(items), MAX);
      Ascending(out) && forall x: nat :: x in out <==> x < MAX && x in items
  {
    FromItemsIsInRange(items);
    MembersOfSet(FromItems(items));
  }

  // ---------- scopes ----------

  const CPU: nat := 0
  const NUMA: nat := 1
  const GPU: nat := 2
  const TYPES: nat := 3

  /** A scope as a value: its name and one bitmap for each type of resource. */
  datatype Scope = Scope(uuid: string, maps: seq<Mask>)

  datatype ScopeMsg = ScopeMsg(uuid: string, cpus: seq<Int32>, numas: seq<Int32>, gpus: seq<Int32>)

  ghost predicate ScopeOk(s: Scope) {
    |s.maps| == TYPES && forall i :: 0 <= i < TYPES ==> Ok(s.maps[i])
  }

  function ToMsg(s: Scope): ScopeMsg
    requires |s.maps| == TYPES && forall i :: 0 <= i < TYPES ==> |s.maps[i]| == SIZE
  {
    ScopeMsg(s.uuid, Members(s.maps[CPU], MAX), Members(s.maps[NUMA], MAX), Members(s.maps[GPU], MAX))
  }

  function FromMsg(msg: ScopeMsg): Scope {
    Scope(msg.uuid, [FromItems(msg.cpus), FromItems(msg.numas), FromItems(msg.gpus)])
  }

  ghost predicate SameResources(one: Scope, two: Scope)
    requires ScopeOk(one) && ScopeOk(two)
  {
    forall i :: 0 <= i < TYPES ==> SetOf(one.maps[i]) == SetOf(two.maps[i])
  }

  class NrmScope {
    const uuid: string
    const maps: seq<Bitmap>

    ghost predicate Valid()
      reads set i | 0 <= i < |maps| :: maps[i].mask
    {
      && |maps| == TYPES
      && (forall i :: 0 <= i < TYPES ==> maps[i].Valid())
      && maps[CPU].mask != maps[NUMA].mask
      && maps[NUMA].mask != maps[GPU].mask
      && maps[CPU].mask != maps[GPU].mask
    }

    ghost function Value(): Scope
      requires |maps| == TYPES
      reads set i | 0 <= i < |maps| :: maps[i].mask
    {
      Scope(uuid, [maps[CPU].mask[..], maps[NUMA].mask[..], maps[GPU].mask[..]])
    }

    constructor (name: string)
      ensures Valid() && uuid == name && Value() == Scope(name, [EMPTY, EMPTY, EMPTY])
      ensures forall i :: 0 <= i < TYPES ==> fresh(maps[i].mask)
    {
      var cpu := new Bitmap();
      var numa := new Bitmap();
      var gpu := new Bitmap();
      uuid, maps := name, [cpu, numa, gpu];
    }

    /** nrm_scope_add. */
    method Add(kind: nat, num: nat) returns (r: int)
      requires Valid() && kind < TYPES
      modifies maps[kind].mask
      ensures Valid() && r == (if num >= MAX then -1 else 0)
      ensures r == 0 ==> SetOf(maps[kind].mask[..]) == SetOf(old(maps[kind].mask[..])) + {num}
      ensures r != 0 ==> Value() == old(Value())
    {
      if num < MAX {
        SetBitOk(maps[kind].mask[..], num);
      }
      r := maps[kind].Set(num);
    }

    /** nrm_scope_length. */
    method Length(kind: nat) returns (n: nat)
      requires Valid() && kind < TYPES
      ensures n == |SetOf(Value().maps[kind])|
    {
      n := maps[kind].NSet();
    }

    /** nrm_scope_cmp: 0 exactly when each type of resource has the same set. */
    method Cmp(other: NrmScope) returns (r: int)
      requires Valid() && other.Valid()
      ensures r == 0 || r == 1
      ensures r == 0 <==> SameResources(Value(), other.Value())
    {
      for i := 0 to TYPES
        invariant forall j :: 0 <= j < i ==> SetOf(Value().maps[j]) == SetOf(other.Value().maps[j])
      {
        var c := maps[i].Cmp(other.maps[i]);
        if c != 0 {
          assert SetOf(Value().maps[i]) != SetOf(other.Value().maps[i]);
          return 1;
        }
      }
      return 0;
    }

    /** nrm_msg_scope_new. */
    method NewMsg() returns (msg: ScopeMsg)
      requires Valid()
      ensures msg == ToMsg(Value())
    {
      var cpus := maps[CPU].ToArray();
      var numas := maps[NUMA].ToArray();
      var gpus := maps[GPU].ToArray();
      msg := ScopeMsg(uuid, cpus, numas, gpus);
    }

    /** nrm_scope_create_frommsg. */
    static method CreateFromMsg(msg: ScopeMsg) returns (s: NrmScope)
      ensures s.Valid() && s.Value() == FromMsg(msg)
    {
      s := new NrmScope(msg.uuid);
      s.maps[CPU].FromArray(msg.cpus);
      s.maps[NUMA].FromArray(msg.numas);
      s.maps[GPU].FromArray(msg.gpus);
    }

    /** A scope sent and read back is indistinguishable from the one sent. */
    method SendAndReadBack() returns (s: NrmScope)
      requires Valid()
      ensures s.Valid() && s.Value() == Value()
    {
      var msg := NewMsg();
      s := CreateFromMsg(msg);
      ScopeRoundTrip(Value());
    }
  }

  /** A scope survives the message round trip: its name and each of its bitmaps. */
  lemma ScopeRoundTrip(s: Scope)
    requires ScopeOk(s)
    ensures FromMsg(ToMsg(s)) == s
  {
    ArrayRoundTrip(s.maps[CPU]);
    ArrayRoundTrip(s.maps[NUMA]);
    ArrayRoundTrip(s.maps[GPU]);
  }

  /** The message of a scope lists, for each type of resource under its own field, exactly its resources. */
  lemma MessageListsResources(s: Scope, x: int)
    requires ScopeOk(s)
    ensures x in ToMsg(s).cpus <==> x in SetOf(s.maps[0])
    ensures x in ToMsg(s).numas <==> x in SetOf(s.maps[1])
    ensures x in ToMsg(s).gpus <==> x in SetOf(s.maps[2])
  {
    MembersBelow(s.maps[0], MAX);
    MembersBelow(s.maps[1], MAX);
    MembersBelow(s.maps[2], MAX);
  }

  /** Two scopes differ under nrm_scope_cmp exactly when their messages carry different resources. */
  lemma MessagesTellScopesApart(s: Scope, t: Scope)
    requires ScopeOk(s) && ScopeOk(t)
    ensures SameResources(s, t) <==> s.maps == t.maps
    ensures ToMsg(s) == ToMsg(t) <==> s.uuid == t.uuid && SameResources(s, t)
  {
    forall i | 0 <= i < TYPES
      ensures SetOf(s.maps[i]) == SetOf(t.maps[i]) <==> s.maps[i] == t.maps[i]
    {
      SameSetSameMask(s.maps[i], t.maps[i]);
    }
    ScopeRoundTrip(s);
    ScopeRoundTrip(t);
  }
}
