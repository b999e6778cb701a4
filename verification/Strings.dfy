/** Reference-counted strings and their separator-joins. */
module Strings {

  /** The non-empty strings of a vector, in order. */
  function NonEmpty(texts: seq<string>): seq<string> {
    if texts == [] then []
    else NonEmpty(texts[..|texts| - 1]) + if texts[|texts| - 1] == [] then [] else [texts[|texts| - 1]]
  }

  /** Of two vectors in a row, those of the first and then those of the second: every non-empty text, and no other. */
  lemma {:induction false} NonEmptyConcat(a: seq<string>, b: seq<string>)
    ensures NonEmpty(a + b) == NonEmpty(a) + NonEmpty(b)
    ensures |a| == 1 ==> NonEmpty(a) == if a[0] == [] then [] else a
  {
    if b == [] {
      assert a + b == a;
    } else {
      assert (a + b)[..|a + b| - 1] == a + b[..|b| - 1];
      NonEmptyConcat(a, b[..|b| - 1]);
    }
    if |a| == 1 { assert a[..0] == [] && [a[0]] == a; }
  }

  /** The texts with the separator between each two. */
  function Intercalate(c: char, texts: seq<string>): string {
    if |texts| == 0 then []
    else if |texts| == 1 then texts[0]
    else texts[0] + [c] + Intercalate(c, texts[1..])
  }

  /** The pieces of a string between its separators. */
  function Split(c: char, s: string): (pieces: seq<string>)
    ensures pieces != [] && forall k :: 0 <= k < |pieces| ==> c !in pieces[k]
  {
    if s == [] then [[]]
    else
      var rest := Split(c, s[1..]);
      if s[0] == c then [[]] + rest else [[s[0]] + rest[0]] + rest[1..]
  }

  lemma {:induction false} IntercalateSnoc(c: char, texts: seq<string>, t: string)
    requires texts != []
    ensures Intercalate(c, texts + [t]) == Intercalate(c, texts) + [c] + t
  {
    var all := texts + [t];
    if |texts| > 1 {
      assert all[1..] == texts[1..] + [t];
      IntercalateSnoc(c, texts[1..], t);
    } else {
      assert all[1..] == [t];
    }
  }

  lemma {:induction false} SplitPrefix(c: char, t: string, s: string)
    requires c !in t
    ensures Split(c, t + [c] + s) == [t] + Split(c, s)
    ensures Split(c, t) == [t]
  {
    var whole := t + [c] + s;
    if t == [] {
      assert whole[1..] == s;
    } else {
      assert whole[1..] == t[1..] + [c] + s;
      assert [t[0]] + t[1..] == t;
      SplitPrefix(c, t[1..], s);
    }
  }

  lemma {:induction false} SplitOfJoin(c: char, texts: seq<string>)
    requires texts != [] && forall k :: 0 <= k < |texts| ==> c !in texts[k]
    ensures Split(c, Intercalate(c, texts)) == texts
  {
    SplitPrefix(c, texts[0], Intercalate(c, texts[1..]));
    if |texts| > 1 { SplitOfJoin(c, texts[1..]); }
  }

  /** Joining loses nothing exactly when no text holds the separator. */
  lemma JoinIsInvertible(c: char, texts: seq<string>)
    requires texts != []
    ensures Split(c, Intercalate(c, texts)) == texts <==> forall k :: 0 <= k < |texts| ==> c !in texts[k]
  {
    if forall k :: 0 <= k < |texts| ==> c !in texts[k] {
      SplitOfJoin(c, texts);
    }
  }

  /** The separator-join of the non-empty texts. */
  function Joined(c: char, texts: seq<string>): string {
    Intercalate(c, NonEmpty(texts))
  }

  lemma {:induction false} NonEmptyTexts(texts: seq<string>)
    ensures forall k :: 0 <= k < |NonEmpty(texts)| ==> NonEmpty(texts)[k] != []
  {
    if texts != [] { NonEmptyTexts(texts[..|texts| - 1]); }
  }

  lemma JoinedStep(c: char, texts: seq<string>, t: string)
    ensures Joined(c, texts + [t]) ==
      if t == [] then Joined(c, texts) else if Joined(c, texts) == [] then t else Joined(c, texts) + [c] + t
  {
    assert (texts + [t])[..|texts|] == texts;
    NonEmptyTexts(texts);
    var kept := NonEmpty(texts);
    if t == [] {
      assert NonEmpty(texts + [t]) == kept;
    } else if kept == [] {
      assert NonEmpty(texts + [t]) == [t];
    } else {
      assert kept[0] != [];
      IntercalateSnoc(c, kept, t);
    }
  }

  class NrmString {
    const text: string
    var rc: nat
    /** Every value the count has had, oldest first. */
    ghost var counts: seq<nat>

    ghost predicate Live()
      reads this
    {
      rc > 0 && counts != [] && counts[|counts| - 1] == rc
    }

    /** nrm_string_fromchar and nrm_string_frombuf. */
    constructor (t: string)
      ensures text == t && rc == 1 && Live()
    {
      text, rc, counts := t, 1, [1];
    }

    /** nrm_string_incref. */
    method IncRef()
      requires Live()
      modifies this
      ensures Live() && rc == old(rc) + 1 && counts == old(counts) + [rc]
    {
      rc := rc + 1;
      counts := counts + [rc];
    }

    /** nrm_string_decref: the string is freed when the count reaches zero. */
    method DecRef()
      requires Live()
      modifies this
      ensures rc == old(rc) - 1 && counts == old(counts) + [rc]
      ensures rc > 0 ==> Live()
    {
      rc := rc - 1;
      counts := counts + [rc];
    }
  }

  /** nrm_string_join. */
  method Join(dest: NrmString, c: char, src: NrmString?) returns (r: NrmString)
    requires dest.Live() && (src != null ==> src.Live())
    modifies dest
    ensures src == null ==> r == dest && dest.rc == old(dest.rc) && dest.counts == old(dest.counts)
    ensures src != null ==> fresh(r) && r.rc == 1 && r.Live() && r.text == dest.text + [c] + src.text
    ensures src != null ==> dest.rc == old(dest.rc) - 1 && dest.counts == old(dest.counts) + [dest.rc]
  {
    if src == null {
      return dest;
    }
    r := new NrmString(dest.text + [c] + src.text);
    dest.DecRef();
  }

  function TextOf(s: NrmString?): string {
    if s == null then [] else s.text
  }

  function TextsOf(v: seq<NrmString?>): (r: seq<string>) {
    if v == [] then [] else TextsOf(v[..|v| - 1]) + [TextOf(v[|v| - 1])]
  }

  /** Since the history was `was`, no count has been below `low`. */
  ghost predicate NeverBelow(counts: seq<nat>, was: seq<nat>, low: nat) {
    was <= counts && forall k :: |was| <= k < |counts| ==> counts[k] >= low
  }

  lemma NeverBelowGrows(counts: seq<nat>, was: seq<nat>, low: nat, x: nat)
    requires NeverBelow(counts, was, low) && x >= low
    ensures NeverBelow(counts + [x], was, low)
  {
  }

  /** The count of s has not been below `low` since its history was `was`, and is now `low`, or one more if held. */
  ghost predicate Kept(s: NrmString, was: seq<nat>, low: nat, held: bool)
    reads s
  {
    s.Live() && s.rc == low + (if held then 1 else 0) && NeverBelow(s.counts, was, low)
  }

  /** A history and a starting count for each string of a vector. */
  datatype Before = Before(was: seq<nat>, low: nat)

  ghost predicate AllKept(v: seq<NrmString?>, before: seq<Before>, ret: NrmString)
    requires |before| == |v|
    reads v
  {
    forall j :: 0 <= j < |v| && v[j] != null ==>
      before[j].low > 0 && Kept(v[j], before[j].was, before[j].low, v[j] == ret)
  }

  /** One turn of the loop on a non-empty string. */
  method Accumulate(c: char, v: seq<NrmString?>, s: NrmString, ret: NrmString, ghost before: seq<Before>)
    returns (r: NrmString)
    requires |before| == |v| && AllKept(v, before, ret) && s in v && s.text != []
    requires if ret in v then ret.text != [] else ret.rc == 1 && ret.Live()
    modifies v, ret
    ensures r.text == if ret.text == [] then s.text else ret.text + [c] + s.text
    ensures AllKept(v, before, r) && if r in v then r.text != [] else fresh(r) && r.rc == 1 && r.Live()
  {
    if |ret.text| != 0 {
      ghost var counts := ret.counts;
      r := Join(ret, c, s);
      forall j | 0 <= j < |v| && v[j] == ret
        ensures NeverBelow(ret.counts, before[j].was, before[j].low)
      {
        NeverBelowGrows(counts, before[j].was, before[j].low, ret.rc);
      }
    } else {
      r := s;
      forall j | 0 <= j < |v| && v[j] == s
        ensures NeverBelow(s.counts + [s.rc + 1], before[j].was, before[j].low)
      {
        NeverBelowGrows(s.counts, before[j].was, before[j].low, s.rc + 1);
      }
      s.IncRef();
    }
  }

  /** nrm_string_vjoin: the join of the non-empty strings of a vector. The result is new, or is one of the inputs with
      one more reference; at no step is an input's count below what it was. */
  method VJoin(c: char, v: seq<NrmString?>) returns (ret: NrmString)
    requires forall j :: 0 <= j < |v| && v[j] != null ==> v[j].Live()
    modifies v
    ensures ret.text == Joined(c, TextsOf(v))
    ensures ret in v || (fresh(ret) && ret.rc == 1 && ret.Live())
    ensures forall j :: 0 <= j < |v| && v[j] != null ==> Kept(v[j], old(v[j].counts), old(v[j].rc), v[j] == ret)
  {
    ret := new NrmString("");
    ghost var before := seq(|v|, j requires 0 <= j < |v| reads v =>
      if v[j] == null then Before([], 0) else Before(v[j].counts, v[j].rc));
    assert v[..0] == [];
    for i := 0 to |v|
      invariant ret.text == Joined(c, TextsOf(v[..i]))
      invariant if ret in v then ret.text != [] else fresh(ret) && ret.rc == 1 && ret.Live()
      invariant AllKept(v, before, ret)
    {
      assert v[..i + 1][..i] == v[..i];
      JoinedStep(c, TextsOf(v[..i]), TextOf(v[i]));
      if |TextOf(v[i])| == 0 {
        continue;
      }
      ret := Accumulate(c, v, v[i], ret, before);
    }
    assert v[..|v|] == v;
  }

  /** Releasing the result once restores every input's count, whether the result is new or one of them. */
  method VJoinAndRelease(c: char, v: seq<NrmString?>) returns (text: string)
    requires forall j :: 0 <= j < |v| && v[j] != null ==> v[j].Live()
    modifies v
    ensures text == Joined(c, TextsOf(v))
    ensures forall j :: 0 <= j < |v| && v[j] != null ==> Kept(v[j], old(v[j].counts), old(v[j].rc), false)
  {
    var ret := VJoin(c, v);
    text := ret.text;
    ret.DecRef();
  }
}
