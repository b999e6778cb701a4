/** The ring buffer of utringbuffer.h under the nrm_ringbuffer interface. */
module RingBuffer {
  import opened OrderedMap
  import opened BitOps

  const EINVAL: int := 3
  const EDOM: int := 4

  /** The fields of a ring: its slots, the next slot to write, and whether it has wrapped. */
  datatype Ring<T> = Ring(d: seq<T>, i: nat, f: bool) {
    ghost predicate Ok() {
      i < |d|
    }

    function Len(): nat {
      if f then |d| else i
    }

    /** The slot of the j-th oldest element. */
    function RealIdx(j: nat): nat
      requires Ok()
    {
      if f then (j + i) % |d| else j
    }

    /** The age rank of the element in slot j. */
    function FakeIdx(j: nat): nat
      requires Ok()
    {
      if f then (j + |d| - i) % |d| else j
    }

    /** A pointer to an element is its slot; the null pointer is None. */
    function EltPtr(j: nat): Option<nat>
      requires Ok()
    {
      if j < Len() then Some(RealIdx(j)) else None
    }

    function Front(): Option<nat>
      requires Ok()
    {
      EltPtr(0)
    }

    function Back(): Option<nat>
      requires Ok()
    {
      if i == 0 && !f then None else EltPtr(Len() - 1)
    }

    function Next(e: Option<nat>): Option<nat>
      requires Ok()
    {
      match e
      case None => Front()
      case Some(slot) => EltPtr(FakeIdx(slot) + 1)
    }

    /** The index before the first is the largest unsigned number, which is past the end. */
    function Prev(e: Option<nat>): Option<nat>
      requires Ok()
    {
      match e
      case None => Back()
      case Some(slot) => if FakeIdx(slot) == 0 then None else EltPtr(FakeIdx(slot) - 1)
    }

    /** The elements, oldest first. */
    function Contents(): seq<T>
      requires Ok()
    {
      if f then d[i..] + d[..i] else d[..i]
    }
  }

  lemma Wrap(a: nat, n: nat)
    requires a < 2 * n
    ensures a % n == if a < n then a else a - n
  {
    if a >= n {
      ModUnique(a, n, 1, a - n);
    } else {
      ModUnique(a, n, 0, a);
    }
  }

  /** Logical and real indices are mutually inverse on the live range, and a real index finds the element of that
      rank. */
  lemma IndicesAreInverse<T>(r: Ring<T>, j: nat)
    requires r.Ok() && j < r.Len()
    ensures r.RealIdx(j) < r.Len() && r.FakeIdx(r.RealIdx(j)) == j
    ensures r.FakeIdx(j) < r.Len() && r.RealIdx(r.FakeIdx(j)) == j
    ensures |r.Contents()| == r.Len() && r.d[r.RealIdx(j)] == r.Contents()[j]
  {
    if r.f {
      var n := |r.d|;
      Wrap(j + r.i, n);
      Wrap(r.RealIdx(j) + n - r.i, n);
      Wrap(j + n - r.i, n);
      Wrap(r.FakeIdx(j) + r.i, n);
    }
  }

  /** Next and Prev move by one rank and fall off the ends; they undo each other in between. */
  lemma NeighbourRanks<T>(r: Ring<T>, j: nat)
    requires r.Ok() && j < r.Len()
    ensures r.Next(r.EltPtr(j)) == r.EltPtr(j + 1)
    ensures r.Prev(r.EltPtr(j)) == if j == 0 then None else r.EltPtr(j - 1)
    ensures r.Next(None) == r.EltPtr(0) && r.Prev(None) == r.EltPtr(r.Len() - 1)
    ensures j + 1 < r.Len() ==> r.Prev(r.Next(r.EltPtr(j))) == r.EltPtr(j)
  {
    IndicesAreInverse(r, j);
    if j + 1 < r.Len() {
      IndicesAreInverse(r, j + 1);
    }
  }

  lemma NextAdvances<T>(r: Ring<T>, slot: nat)
    requires r.Ok() && slot < r.Len()
    ensures r.FakeIdx(slot) < r.Len()
    ensures var e := r.Next(Some(slot)); e.Some? ==> e.value < r.Len() && r.FakeIdx(e.value) == r.FakeIdx(slot) + 1
  {
    IndicesAreInverse(r, slot);
    if r.FakeIdx(slot) + 1 < r.Len() {
      IndicesAreInverse(r, r.FakeIdx(slot) + 1);
    }
  }

  /** What a loop of utringbuffer_next visits from element e until the null pointer. */
  function Walk<T>(r: Ring<T>, e: Option<nat>): seq<T>
    requires r.Ok() && (e.Some? ==> e.value < r.Len())
    decreases if e.Some? then r.Len() - r.FakeIdx(e.value) + 1 else 0
  {
    match e
    case None => []
    case Some(slot) => NextAdvances(r, slot); [r.d[slot]] + Walk(r, r.Next(e))
  }

  lemma Uncons<T>(s: seq<T>, j: nat)
    requires j < |s|
    ensures s[j..] == [s[j]] + s[j + 1..]
  {
  }

  lemma {:induction false} WalkFrom<T>(r: Ring<T>, j: nat)
    requires r.Ok() && j <= r.Len()
    ensures |r.Contents()| == r.Len()
    ensures r.EltPtr(j).Some? ==> r.EltPtr(j).value < r.Len()
    ensures Walk(r, r.EltPtr(j)) == r.Contents()[j..]
    decreases r.Len() - j
  {
    if j < r.Len() {
      IndicesAreInverse(r, j);
      NeighbourRanks(r, j);
      WalkFrom(r, j + 1);
      Uncons(r.Contents(), j);
    }
  }

  /** A traversal from the front visits every element once, oldest first, and stops. */
  lemma TraversalIsContents<T>(r: Ring<T>)
    requires r.Ok()
    ensures r.Front().Some? ==> r.Front().value < r.Len()
    ensures Walk(r, r.Front()) == r.Contents()
  {
    WalkFrom(r, 0);
  }

  // ---------- the elements kept ----------

  datatype Op<T> = Push(x: T) | Clear

  /** The last n of s, or all of it. */
  function Last<T>(s: seq<T>, n: nat): seq<T> {
    if |s| <= n then s else s[|s| - n..]
  }

  /** What is pushed after the last clear. */
  function SinceClear<T>(ops: seq<Op<T>>): seq<T> {
    if ops == [] then []
    else
      match ops[|ops| - 1]
      case Push(x) => SinceClear(ops[..|ops| - 1]) + [x]
      case Clear => []
  }

  lemma LastOfLast<T>(s: seq<T>, x: T, n: nat)
    requires n > 0
    ensures Last(Last(s, n) + [x], n) == Last(s + [x], n)
  {
  }

  lemma PushedContents<T>(r: Ring<T>, s: Ring<T>, x: T)
    requires r.Ok() && s.d == r.d[r.i := x]
    requires if r.i + 1 == |r.d| then s.i == 0 && s.f else s.i == r.i + 1 && s.f == r.f
    ensures s.Contents() == Last(r.Contents() + [x], |r.d|)
  {
    var c := r.Contents() + [x];
    if r.f {
      assert c[1..] == r.d[r.i + 1..] + (r.d[..r.i] + [x]);
      assert s.d[r.i + 1..] == r.d[r.i + 1..];
    }
    assert s.d[..r.i + 1] == r.d[..r.i] + [x];
  }

  class RingBuffer<T(0)> {
    var i: nat
    var f: bool
    const n: nat
    const d: array<T>

    ghost predicate Valid()
      reads this
    {
      i < n == d.Length
    }

    ghost function Value(): (r: Ring<T>)
      requires Valid()
      reads this, d
      ensures r.Ok() && |r.d| == n
    {
      Ring(d[..], i, f)
    }

    ghost function Contents(): seq<T>
      requires Valid()
      reads this, d
    {
      Value().Contents()
    }

    constructor (size: nat)
      requires size > 0
      ensures Valid() && n == size && Contents() == [] && fresh(d)
    {
      i, f, n := 0, false, size;
      d := new T[size];
    }

    /** nrm_ringbuffer_create. */
    static method Create(size: nat, elementSize: nat) returns (err: int, ring: RingBuffer?<T>)
      ensures err == if elementSize == 0 || size == 0 then -EINVAL else 0
      ensures err == 0 <==> ring != null
      ensures ring != null ==> ring.Valid() && ring.n == size && ring.Contents() == []
      ensures ring != null ==> fresh(ring) && fresh(ring.d)
    {
      if elementSize == 0 || size == 0 {
        return -EINVAL, null;
      }
      ring := new RingBuffer(size);
      err := 0;
    }

    /** nrm_ringbuffer_push_back: the oldest element gives way once the ring has wrapped. */
    method PushBack(x: T)
      requires Valid()
      modifies this, d
      ensures Valid()
      ensures Contents() == Last(old(Contents()) + [x], n)
    {
      d[i] := x;
      i := i + 1;
      if i == n {
        i, f := 0, true;
      }
      PushedContents(old(Value()), Value(), x);
    }

    /** nrm_ringbuffer_clear. */
    method Clear()
      requires Valid()
      modifies this
      ensures Valid() && Contents() == []
    {
      i, f := 0, false;
    }

    /** nrm_ringbuffer_length. */
    method Length() returns (len: nat)
      requires Valid()
      ensures len == |Contents()| <= n
    {
      len := if f then n else i;
    }

    /** utringbuffer_eltptr. */
    method EltPtr(j: nat) returns (e: Option<nat>)
      requires Valid()
      ensures e == Value().EltPtr(j)
      ensures e.Some? <==> j < |Contents()|
      ensures e.Some? ==> e.value < n && d[e.value] == Contents()[j]
    {
      var len := Length();
      if j >= len {
        return None;
      }
      IndicesAreInverse(Value(), j);
      e := Some(if f then (j + i) % n else j);
    }

    /** nrm_ringbuffer_get: the j-th oldest element, or -EDOM. */
    method Get(j: nat) returns (err: int, out: Option<nat>)
      requires Valid()
      ensures err == if j < |Contents()| then 0 else -EDOM
      ensures err == 0 <==> out.Some?
      ensures err == 0 ==> out.value < n && d[out.value] == Contents()[j]
    {
      out := EltPtr(j);
      err := if out.None? then -EDOM else 0;
    }

    /** nrm_ringbuffer_back: the newest element, or -EDOM. */
    method Back() returns (err: int, out: Option<nat>)
      requires Valid()
      ensures err == if Contents() == [] then -EDOM else 0
      ensures err == 0 <==> out.Some?
      ensures err == 0 ==> out.value < n && d[out.value] == Contents()[|Contents()| - 1]
    {
      if i == 0 && !f {
        return -EDOM, None;
      }
      var len := Length();
      err, out := Get(len - 1);
    }

    /** nrm_ringbuffer_isempty. */
    method IsEmpty() returns (r: bool)
      requires Valid()
      ensures r <==> Contents() == []
    {
      r := i == 0 && !f;
    }

    /** nrm_ringbuffer_isfull. */
    method IsFull() returns (r: bool)
      requires Valid()
      ensures r <==> |Contents()| == n
    {
      r := f;
    }

    /** Any run from an empty ring leaves the last n elements pushed since the last clear. */
    method Run(ops: seq<Op<T>>)
      requires Valid() && Contents() == []
      modifies this, d
      ensures Valid() && Contents() == Last(SinceClear(ops), n)
    {
      assert ops[..0] == [];
      for k := 0 to |ops|
        invariant Valid() && Contents() == Last(SinceClear(ops[..k]), n)
      {
        assert ops[..k + 1][..k] == ops[..k];
        match ops[k]
        case Push(x) =>
          LastOfLast(SinceClear(ops[..k]), x, n);
          PushBack(x);
        case Clear =>
          Clear();
      }
      assert ops[..|ops|] == ops;
    }
  }
}
