/** Actuators: the admissible values, and the correction of a requested value to an admissible one. */
module Actuators {
  import opened NrmError
  import opened Sorting

  /** The largest finite double, the initial distance of the nearest-choice search. */
  const DBL_MAX: real := 179769313486231570814527423731704356798070567525844996598917476803157260780028538760589558632766878171540458953514382464234321326889464182768467546703537516986049910576551282076245490090389328944075868508455133942304583236903222948165808559332123348274797826204144723168738177180919299881250404026184124858368.0

  datatype Kind = Discrete(choices: seq<real>) | Continuous(lo: real, hi: real)

  function Abs(x: real): real {
    if x < 0.0 then -x else x
  }

  /** The values the validate functions accept. */
  predicate Admissible(k: Kind, v: real) {
    match k
    case Discrete(choices) => v in choices
    case Continuous(lo, hi) => lo <= v <= hi
  }

  /** The search loop: `ret` is the best so far, at distance `dist`. */
  function Scan(choices: seq<real>, v: real, ret: real, dist: real): real {
    if choices == [] then ret
    else if Abs(v - choices[0]) < dist then Scan(choices[1..], v, choices[0], Abs(v - choices[0]))
    else Scan(choices[1..], v, ret, dist)
  }

  /** The corrected_value operations; an actuator without choices leaves the value alone. */
  function Corrected(k: Kind, v: real): real {
    match k
    case Discrete(choices) =>
      if choices == [] then v
      else if v < choices[0] then choices[0]
      else if v > choices[|choices| - 1] then choices[|choices| - 1]
      else Scan(choices, v, v, DBL_MAX)
    case Continuous(lo, hi) => if v < lo then lo else if v > hi then hi else v
  }

  class Actuator {
    const uuid: string
    var clientid: string
    var value: real
    var kind: Kind

    constructor (uuid: string, clientid: string, value: real, kind: Kind)
      ensures this.uuid == uuid && this.clientid == clientid && this.value == value && this.kind == kind
    {
      this.uuid, this.clientid, this.value, this.kind := uuid, clientid, value, kind;
    }

    /** nrm_actuator_discrete_set_choices. */
    method SetChoices(choices: seq<real>) returns (err: Status)
      requires kind.Discrete?
      modifies this`kind
      ensures kind.Discrete?
      ensures choices == [] ==> err == NrmEinval && kind == old(kind)
      ensures choices != [] ==> err == NrmSuccess && Sorted(kind.choices) && multiset(kind.choices) == multiset(choices)
    {
      if |choices| == 0 {
        return NrmEinval;
      }
      SortSorts(choices);
      kind := Discrete(Sort(choices));
      err := NrmSuccess;
    }

    /** nrm_actuator_continuous_set_limits. */
    method SetLimits(min: real, max: real) returns (err: Status)
      requires kind.Continuous?
      modifies this`kind
      ensures err == NrmSuccess && kind == Continuous(min, max)
    {
      kind := Continuous(min, max);
      err := NrmSuccess;
    }

    /** nrm_actuator_corrected_value: the loop computes Corrected. */
    method CorrectedValue(value: real) returns (err: Status, ret: real)
      ensures ret == Corrected(kind, value)
      ensures err == if kind == Discrete([]) then NrmEinval else NrmSuccess
    {
      ret, err := value, NrmSuccess;
      match kind
      case Continuous(lo, hi) =>
        if value < lo {
          ret := lo;
        } else if value > hi {
          ret := hi;
        }
      case Discrete(choices) =>
        var length := |choices|;
        if length == 0 {
          return NrmEinval, value;
        }
        var min, max := choices[0], choices[length - 1];
        if value < min {
          return NrmSuccess, min;
        }
        if value > max {
          return NrmSuccess, max;
        }
        var dist := DBL_MAX;
        for i := 0 to length
          invariant Scan(choices[i..], value, ret, dist) == Scan(choices, value, value, DBL_MAX)
        {
          var d := choices[i];
          assert choices[i..][1..] == choices[i + 1..];
          if Abs(value - d) < dist {
            ret := d;
            dist := Abs(value - ret);
          }
        }
    }

    /** nrm_actuator_validate_value. */
    method ValidateValue(value: real) returns (err: Status)
      ensures err == if Admissible(kind, value) then NrmSuccess else NrmEdom
    {
      match kind
      case Continuous(lo, hi) =>
        err := if value < lo || value > hi then NrmEdom else NrmSuccess;
      case Discrete(choices) =>
        var i := 0;
        while i < |choices|
          invariant 0 <= i <= |choices| && value !in choices[..i]
        {
          if choices[i] == value {
            break;
          }
          i := i + 1;
        }
        err := if i == |choices| then NrmEdom else NrmSuccess;
    }
  }

  // ---------- what the correction means ----------

  /** A choice at minimal distance, the lowest one on ties. */
  ghost predicate IsNearest(choices: seq<real>, v: real, r: real) {
    && r in choices
    && forall d :: d in choices ==> Abs(v - r) <= Abs(v - d) && (Abs(v - d) == Abs(v - r) ==> r <= d)
  }

  /** The search never starts when every choice is DBL_MAX away or more. */
  ghost predicate InReach(choices: seq<real>, v: real) {
    choices != [] && (v < choices[0] || v > choices[|choices| - 1] || SomeCloser(choices, v, DBL_MAX))
  }

  ghost predicate SomeCloser(choices: seq<real>, v: real, dist: real) {
    exists d :: d in choices && Abs(v - d) < dist
  }

  lemma {:induction false} ScanResult(choices: seq<real>, v: real, ret: real, dist: real)
    requires Sorted(choices)
    ensures var r := Scan(choices, v, ret, dist);
      if SomeCloser(choices, v, dist) then IsNearest(choices, v, r) else r == ret
  {
    if choices != [] {
      var c, rest := choices[0], choices[1..];
      var dist' := if Abs(v - c) < dist then Abs(v - c) else dist;
      ScanResult(rest, v, if Abs(v - c) < dist then c else ret, dist');
      NearestCons(choices, v, dist, Scan(choices, v, ret, dist));
    }
  }

  /** How the nearest choice of a tail extends to the whole. */
  lemma NearestCons(choices: seq<real>, v: real, dist: real, r: real)
    requires choices != [] && Sorted(choices)
    ensures var c, rest := choices[0], choices[1..]; var near := Abs(v - c);
      && (near < dist && SomeCloser(rest, v, near) && IsNearest(rest, v, r) ==> IsNearest(choices, v, r))
      && (near < dist && !SomeCloser(rest, v, near) ==> IsNearest(choices, v, c))
      && (near >= dist && SomeCloser(rest, v, dist) && IsNearest(rest, v, r) ==> IsNearest(choices, v, r))
      && (SomeCloser(choices, v, dist) <==> near < dist || SomeCloser(rest, v, dist))
  {
    var c, rest := choices[0], choices[1..];
    assert forall d :: d in choices <==> d == c || d in rest;
    assert forall d :: d in rest ==> c <= d;
  }

  /** A discrete correction yields the nearest choice exactly when some choice is in reach; otherwise
      the value passes unchanged, and it is not a choice. */
  lemma DiscreteCorrection(choices: seq<real>, v: real)
    requires Sorted(choices)
    ensures var r := Corrected(Discrete(choices), v);
      if InReach(choices, v) then IsNearest(choices, v, r) else r == v && v !in choices
  {
    if choices != [] {
      ScanResult(choices, v, v, DBL_MAX);
      assert choices[0] in choices && choices[|choices| - 1] in choices;
      if v in choices { assert Abs(v - v) < DBL_MAX; }
    }
  }

  /** A continuous correction yields the value within ordered limits that is nearest to the request. */
  lemma ContinuousCorrection(lo: real, hi: real, v: real, w: real)
    requires lo <= w <= hi
    ensures var r := Corrected(Continuous(lo, hi), v);
      lo <= r <= hi && Abs(v - r) <= Abs(v - w) && (Abs(v - w) == Abs(v - r) ==> w == r)
  {
  }

  /** Correcting twice is correcting once. */
  lemma CorrectionIdempotent(k: Kind, v: real)
    requires k.Discrete? ==> Sorted(k.choices)
    requires k.Continuous? ==> k.lo <= k.hi
    ensures Corrected(k, Corrected(k, v)) == Corrected(k, v)
  {
    if k.Discrete? {
      var r := Corrected(k, v);
      DiscreteCorrection(k.choices, v);
      DiscreteCorrection(k.choices, r);
      if r in k.choices { assert Abs(r - r) == 0.0; }
    }
  }

  /** A larger request is never corrected to a smaller value. */
  lemma CorrectionMonotone(k: Kind, v1: real, v2: real)
    requires k.Discrete? ==> Sorted(k.choices)
    requires k.Continuous? ==> k.lo <= k.hi
    requires v1 <= v2
    ensures Corrected(k, v1) <= Corrected(k, v2)
  {
    if k.Discrete? && k.choices != [] {
      var c := k.choices;
      DiscreteCorrection(c, v1);
      DiscreteCorrection(c, v2);
      assert c[0] in c && c[|c| - 1] in c;
      if InReach(c, v1) && InReach(c, v2) {
        NearestMonotone(c, v1, v2, Corrected(k, v1), Corrected(k, v2));
      } else {
        OutOfReachMonotone(c, v1, v2);
      }
    }
  }

  lemma NearestMonotone(c: seq<real>, v1: real, v2: real, r1: real, r2: real)
    requires v1 <= v2 && IsNearest(c, v1, r1) && IsNearest(c, v2, r2)
    ensures r1 <= r2
  {
    assert Abs(v1 - r1) <= Abs(v1 - r2) && Abs(v2 - r2) <= Abs(v2 - r1);
  }

  lemma OutOfReachMonotone(c: seq<real>, v1: real, v2: real)
    requires Sorted(c) && c != [] && v1 <= v2 && !(InReach(c, v1) && InReach(c, v2))
    ensures Corrected(Discrete(c), v1) <= Corrected(Discrete(c), v2)
  {
    DiscreteCorrection(c, v1);
    DiscreteCorrection(c, v2);
    var r1, r2 := Corrected(Discrete(c), v1), Corrected(Discrete(c), v2);
    assert c[0] in c && c[|c| - 1] in c;
    if InReach(c, v2) {
      assert Abs(v1 - r2) >= DBL_MAX;
      if v2 <= c[|c| - 1] && v2 >= c[0] {
        var d :| d in c && Abs(v2 - d) < DBL_MAX;
        assert Abs(v2 - r2) <= Abs(v2 - d);
      }
    } else if InReach(c, v1) {
      assert Abs(v2 - r1) >= DBL_MAX;
      if v1 <= c[|c| - 1] && v1 >= c[0] {
        var d :| d in c && Abs(v1 - d) < DBL_MAX;
        assert Abs(v1 - r1) <= Abs(v1 - d);
      }
    }
  }

  /** An actuator that can always be corrected: ordered limits, or choices without a gap as wide as the
      whole range of doubles. */
  ghost predicate WellFormed(k: Kind) {
    match k
    case Discrete(c) => c != [] && forall i :: 0 <= i < |c| - 1 ==> c[i + 1] - c[i] < 2.0 * DBL_MAX
    case Continuous(lo, hi) => lo <= hi
  }

  ghost predicate AlwaysAdmissible(k: Kind) {
    forall v :: Admissible(k, Corrected(k, v))
  }

  /** Every corrected value passes validation if and only if the actuator is well formed. */
  lemma CorrectionAdmissible(k: Kind)
    requires k.Discrete? ==> Sorted(k.choices)
    ensures AlwaysAdmissible(k) <==> WellFormed(k)
  {
    match k
    case Continuous(lo, hi) =>
      if WellFormed(k) {
        assert AlwaysAdmissible(k);
      } else {
        assert !Admissible(k, Corrected(k, lo));
      }
    case Discrete(c) =>
      if WellFormed(k) {
        forall v
          ensures Admissible(k, Corrected(k, v))
        {
          DiscreteCorrection(c, v);
          SomeChoiceInReach(c, v);
        }
      } else if c == [] {
        assert !Admissible(k, Corrected(k, 0.0));
      } else {
        var i :| 0 <= i < |c| - 1 && c[i + 1] - c[i] >= 2.0 * DBL_MAX;
        var mid := (c[i] + c[i + 1]) / 2.0;
        DiscreteCorrection(c, mid);
        assert forall j :: 0 <= j < |c| ==> c[j] <= c[i] || c[i + 1] <= c[j];
        assert !Admissible(k, Corrected(k, mid));
      }
  }

  lemma {:induction false} SomeChoiceInReach(c: seq<real>, v: real)
    requires Sorted(c) && WellFormed(Discrete(c))
    ensures InReach(c, v)
    decreases |c|
  {
    if c[0] <= v <= c[|c| - 1] {
      if |c| == 1 || v - c[0] < DBL_MAX {
        assert c[0] in c && Abs(v - c[0]) < DBL_MAX;
      } else if v < c[1] {
        assert c[1] in c && Abs(v - c[1]) < DBL_MAX;
      } else {
        SomeChoiceInReach(c[1..], v);
        var d :| d in c[1..] && Abs(v - d) < DBL_MAX;
        assert d in c;
      }
    }
  }

  /** The corner: with only the two extreme doubles to choose from, zero is left as it is. */
  lemma ExtremeChoicesAreNotCorrected()
    ensures var k := Discrete([-DBL_MAX, DBL_MAX]);
      Sorted(k.choices) && Corrected(k, 0.0) == 0.0 && !Admissible(k, Corrected(k, 0.0))
  {
    var c := [-DBL_MAX, DBL_MAX];
    DiscreteCorrection(c, 0.0);
    assert forall d :: d in c ==> Abs(0.0 - d) >= DBL_MAX;
  }
}
