/** The europar21 controller: a PI law on the power cap in a linearised domain, over the reals. The exponential
    and the logarithm are parameters of which only what matters is assumed. */
module Control {
  import opened EventBase
  import opened Median
  import opened Actuators

  datatype Config = Config(active: bool, a: real, b: real, alpha: real, beta: real, Kl: real, t: real, e: real,
                           tobj: real, min: real, max: real)

  type RealFn = real -> real

  ghost predicate ExpLog(exp: RealFn, log: RealFn) {
    && (forall x :: exp(x) > 0.0)
    && (forall x, y :: x < y ==> exp(x) < exp(y))
    && (forall x :: log(exp(x)) == x)
    && (forall y :: y > 0.0 ==> exp(log(y)) == y)
  }

  /** The divisions of the controller are defined. */
  predicate Usable(g: Config) {
    g.a != 0.0 && g.alpha != 0.0 && g.Kl * g.tobj != 0.0
  }

  function Exponent(g: Config, value: real): real {
    -g.alpha * (g.a * value + g.b - g.beta)
  }

  function Linearize(exp: RealFn, g: Config, value: real): real {
    -exp(Exponent(g, value))
  }

  function Delinearize(log: RealFn, g: Config, value: real): real
    requires Usable(g)
  {
    (-log(-value) / g.alpha + g.beta - g.b) / g.a
  }

  function Error(g: Config, maxL: real, prog: real): real {
    g.e * g.Kl * (1.0 + maxL) - prog
  }

  function Thresholding(val: real, min: real, max: real): real {
    var low := if val < max then val else max;
    if low > min then low else min
  }

  function ActionL(Ki: real, deltaTi: real, Kp: real, e: real, prevE: real, prevL: real): real {
    (Ki * deltaTi + Kp) * e - Kp * prevE + prevL
  }

  function Ki(g: Config): real
    requires Usable(g)
  {
    1.0 / (g.Kl * g.tobj / 3.0)
  }

  function Kp(g: Config): real
    requires Usable(g)
  {
    g.t / (g.Kl * g.tobj)
  }

  /** What the controller remembers, and the power cap it reads back from the actuator. */
  datatype Ctl = Ctl(prevE: real, lastAction: int, cap: real)

  /** Progress nowhere near Kl: control is disabled and the maximum used. */
  predicate Fallback(g: Config, prog: real) {
    prog < (1.0 - g.e) * g.Kl || prog > 2.0 * g.Kl
  }

  /** The unclamped action in the linearised domain. */
  function Act(exp: RealFn, g: Config, s: Ctl, prog: real): real
    requires Usable(g)
  {
    var newE := Error(g, Linearize(exp, g, g.max), prog);
    ActionL(Ki(g), 1.0, Kp(g), newE, s.prevE, Linearize(exp, g, s.cap))
  }

  /** nrm_control_europar21_action on the progress of the window. */
  function Law(exp: RealFn, log: RealFn, g: Config, s: Ctl, prog: real): Ctl
    requires Usable(g)
  {
    if !g.active then s
    else if Fallback(g, prog) then s.(cap := g.max, prevE := 0.0)
    else
      var minL, maxL := Linearize(exp, g, g.min), Linearize(exp, g, g.max);
      var threshold := Thresholding(Act(exp, g, s, prog), minL, maxL);
      s.(cap := Delinearize(log, g, threshold), prevE := Error(g, maxL, prog))
  }

  class EuroPar21 {
    const g: Config
    const exp: RealFn
    const log: RealFn
    const minL: real
    const maxL: real
    var prevE: real
    var lastAction: int

    ghost predicate Valid() {
      Usable(g) && minL == Linearize(exp, g, g.min) && maxL == Linearize(exp, g, g.max)
    }

    ghost function State(cap: real): Ctl
      reads this
    {
      Ctl(prevE, lastAction, cap)
    }

    /** nrm_control_europar21_create: bounds linearised once, memory zeroed. */
    constructor (g: Config, exp: RealFn, log: RealFn, now: int)
      requires Usable(g)
      ensures Valid() && State(0.0) == Ctl(0.0, now, 0.0)
      ensures this.g == g && this.exp == exp && this.log == log
    {
      this.g, this.exp, this.log := g, exp, log;
      minL, maxL := Linearize(exp, g, g.min), Linearize(exp, g, g.max);
      prevE, lastAction := 0.0, now;
    }

    /** nrm_control_europar21_action: `value` is the output as read from the actuator, `now` the clock. */
    method Action(events: seq<Event>, value: real, now: int) returns (out: real)
      requires Valid() && DistinctTimes(events)
      modifies this
      ensures |events| <= 1 ==> State(out) == old(State(value))
      ensures |events| > 1 ==>
        State(out) == Law(exp, log, g, old(State(value)), MedianOf(Rates(events))).(lastAction := now)
    {
      out := value;
      if |events| <= 1 {
        return;
      }
      var prog := Events2Progress(events);
      if g.active {
        if Fallback(g, prog) {
          out := g.max;
          prevE := 0.0;
        } else {
          var pcapL := Linearize(exp, g, value);
          var newE := Error(g, maxL, prog);
          var actL := ActionL(Ki(g), 1.0, Kp(g), newE, prevE, pcapL);
          var threshold := Thresholding(actL, minL, maxL);
          prevE := newE;
          out := Delinearize(log, g, threshold);
        }
      }
      lastAction := now;
    }
  }

  // ---------- the linearised domain ----------

  lemma MulStrict(k: real, v: real, w: real)
    requires v < w
    ensures k > 0.0 ==> k * v < k * w
    ensures k < 0.0 ==> k * v > k * w
  {
    var d := w - v;
    assert k * w == k * v + k * d;
    if k > 0.0 { assert k * d > 0.0; }
    if k < 0.0 { assert k * d < 0.0; }
  }

  /** The exponent falls with the value when alpha * a > 0, and rises when alpha * a < 0. */
  lemma ExponentMonotone(g: Config, v: real, w: real)
    requires v < w
    ensures g.alpha * g.a > 0.0 ==> Exponent(g, v) > Exponent(g, w)
    ensures g.alpha * g.a < 0.0 ==> Exponent(g, v) < Exponent(g, w)
  {
    MulStrict(g.alpha * g.a, v, w);
    ExponentForm(g.alpha, g.a, g.b - g.beta, v);
    ExponentForm(g.alpha, g.a, g.b - g.beta, w);
  }

  lemma ExponentForm(alpha: real, a: real, c: real, v: real)
    ensures -alpha * (a * v + c) == -((alpha * a) * v) - alpha * c
  {
    var p := a * v;
    assert alpha * (p + c) == alpha * p + alpha * c;
  }

  /** Linearising is strictly increasing when alpha * a > 0, strictly decreasing when alpha * a < 0, and always
      negative. */
  lemma LinearizeMonotone(exp: RealFn, log: RealFn, g: Config, v: real, w: real)
    requires ExpLog(exp, log) && v < w
    ensures Linearize(exp, g, v) < 0.0
    ensures g.alpha * g.a > 0.0 ==> Linearize(exp, g, v) < Linearize(exp, g, w)
    ensures g.alpha * g.a < 0.0 ==> Linearize(exp, g, v) > Linearize(exp, g, w)
  {
    ExponentMonotone(g, v, w);
    ExpOrdered(exp, log, Exponent(g, v), Exponent(g, w));
  }

  lemma ExpOrdered(exp: RealFn, log: RealFn, x: real, y: real)
    requires ExpLog(exp, log)
    ensures exp(x) > 0.0 && (x < y ==> exp(x) < exp(y)) && (y < x ==> exp(y) < exp(x))
  {
  }

  /** On the negative half line, linearising undoes delinearising. */
  lemma LinearizeDelinearize(exp: RealFn, log: RealFn, g: Config, x: real)
    requires ExpLog(exp, log) && Usable(g) && x < 0.0
    ensures Linearize(exp, g, Delinearize(log, g, x)) == x
  {
    var y := log(-x);
    var q := -y / g.alpha;
    var v := Delinearize(log, g, x);
    assert v == (q + g.beta - g.b) / g.a;
    DivMul(q + g.beta - g.b, g.a);
    assert g.a * v + g.b - g.beta == q;
    DivMul(-y, g.alpha);
    MulCong(-g.alpha, g.a * v + g.b - g.beta, q);
    assert Exponent(g, v) == y;
    assert exp(y) == -x;
  }

  lemma MulCong(a: real, x: real, y: real)
    requires x == y
    ensures a * x == a * y
  {
  }

  lemma DivMul(x: real, a: real)
    requires a != 0.0
    ensures a * (x / a) == x && -a * (x / a) == -x
  {
  }

  /** Delinearising undoes linearising. */
  lemma DelinearizeLinearize(exp: RealFn, log: RealFn, g: Config, v: real)
    requires ExpLog(exp, log) && Usable(g)
    ensures Delinearize(log, g, Linearize(exp, g, v)) == v
  {
    var q := g.a * v + g.b - g.beta;
    var y := -g.alpha * q;
    assert log(exp(y)) == y;
    MulDiv(g.alpha, q);
    assert -y / g.alpha == q;
    MulDiv(g.a, v);
    assert q + g.beta - g.b == g.a * v;
  }

  lemma MulDiv(a: real, x: real)
    requires a != 0.0
    ensures (a * x) / a == x && -(-a * x) / a == x
  {
    assert -(-a * x) == a * x;
  }

  lemma LinearizeNegative(exp: RealFn, log: RealFn, g: Config, v: real)
    requires ExpLog(exp, log)
    ensures Linearize(exp, g, v) < 0.0
  {
    LinearizeMonotone(exp, log, g, v, v + 1.0);
  }

  // ---------- outputs stay within bounds ----------

  lemma ThresholdOf(val: real, min: real, max: real)
    ensures var r := Thresholding(val, min, max);
      && (min <= max ==> min <= r <= max && (min <= val <= max ==> r == val))
      && (min >= max ==> r == min)
  {
  }

  /** Every output an active controller writes lies in [min, max], and so does the linearised state: whatever
      the cap, the memory and the progress were, and even with the fallback. */
  lemma OutputWithinBounds(exp: RealFn, log: RealFn, g: Config, s: Ctl, prog: real)
    requires ExpLog(exp, log) && Usable(g) && g.active && g.min <= g.max
    ensures var cap := Law(exp, log, g, s, prog).cap;
      && g.min <= cap <= g.max
      && (g.alpha * g.a > 0.0 ==> Linearize(exp, g, g.min) <= Linearize(exp, g, cap) <= Linearize(exp, g, g.max))
  {
    var cap := Law(exp, log, g, s, prog).cap;
    if !Fallback(g, prog) {
      ProductSign(g.alpha, g.a);
      if g.alpha * g.a > 0.0 {
        ClampedOutputWithin(exp, log, g, s, prog);
      } else {
        ReversedGainPinsMinimum(exp, log, g, s, prog);
      }
    }
    MonotoneAround(exp, log, g, cap);
  }

  lemma ClampedOutputWithin(exp: RealFn, log: RealFn, g: Config, s: Ctl, prog: real)
    requires ExpLog(exp, log) && Usable(g) && g.active && g.min <= g.max && g.alpha * g.a > 0.0 && !Fallback(g, prog)
    ensures g.min <= Law(exp, log, g, s, prog).cap <= g.max
  {
    var minL, maxL := Linearize(exp, g, g.min), Linearize(exp, g, g.max);
    var val := Act(exp, g, s, prog);
    MonotoneAround(exp, log, g, g.max);
    ThresholdOf(val, minL, maxL);
    LinearizeNegative(exp, log, g, g.max);
    LinearizeDelinearize(exp, log, g, Thresholding(val, minL, maxL));
    WithinIfLinearisedWithin(exp, log, g, Law(exp, log, g, s, prog).cap);
  }

  lemma ProductSign(x: real, y: real)
    requires x != 0.0 && y != 0.0
    ensures x * y > 0.0 || x * y < 0.0
  {
    MulDiv(x, y);
  }

  lemma MonotoneAround(exp: RealFn, log: RealFn, g: Config, cap: real)
    requires ExpLog(exp, log) && g.min <= cap <= g.max
    ensures g.alpha * g.a > 0.0 ==> Linearize(exp, g, g.min) <= Linearize(exp, g, cap) <= Linearize(exp, g, g.max)
    ensures g.alpha * g.a < 0.0 ==> Linearize(exp, g, g.min) >= Linearize(exp, g, cap) >= Linearize(exp, g, g.max)
  {
    if g.min < cap { LinearizeMonotone(exp, log, g, g.min, cap); }
    if cap < g.max { LinearizeMonotone(exp, log, g, cap, g.max); }
  }

  lemma WithinIfLinearisedWithin(exp: RealFn, log: RealFn, g: Config, cap: real)
    requires ExpLog(exp, log) && g.alpha * g.a > 0.0 && g.min <= g.max
    requires Linearize(exp, g, g.min) <= Linearize(exp, g, cap) <= Linearize(exp, g, g.max)
    ensures g.min <= cap <= g.max
  {
    if cap < g.min { LinearizeMonotone(exp, log, g, cap, g.min); }
    if cap > g.max { LinearizeMonotone(exp, log, g, g.max, cap); }
  }

  /** With alpha * a < 0 the linearised bounds swap, and every regular output is the minimum. */
  lemma ReversedGainPinsMinimum(exp: RealFn, log: RealFn, g: Config, s: Ctl, prog: real)
    requires ExpLog(exp, log) && Usable(g) && g.active && g.min <= g.max && g.alpha * g.a < 0.0 && !Fallback(g, prog)
    ensures Law(exp, log, g, s, prog).cap == g.min
  {
    var minL, maxL := Linearize(exp, g, g.min), Linearize(exp, g, g.max);
    if g.min < g.max { LinearizeMonotone(exp, log, g, g.min, g.max); }
    ThresholdOf(Act(exp, g, s, prog), minL, maxL);
    DelinearizeLinearize(exp, log, g, g.min);
  }

  /** With alpha * a > 0 a regular output is the minimum exactly when the law asks for no more than that. */
  lemma MinimumWhenAskedFor(exp: RealFn, log: RealFn, g: Config, s: Ctl, prog: real)
    requires ExpLog(exp, log) && Usable(g) && g.active && g.min < g.max && g.alpha * g.a > 0.0 && !Fallback(g, prog)
    ensures Law(exp, log, g, s, prog).cap == g.min <==> Act(exp, g, s, prog) <= Linearize(exp, g, g.min)
  {
    var minL, maxL := Linearize(exp, g, g.min), Linearize(exp, g, g.max);
    var r := Thresholding(Act(exp, g, s, prog), minL, maxL);
    LinearizeMonotone(exp, log, g, g.min, g.max);
    LinearizeNegative(exp, log, g, g.max);
    LinearizeDelinearize(exp, log, g, r);
    DelinearizeLinearize(exp, log, g, g.min);
  }

  // ---------- the law written out ----------

  /** The progress the controller aims at: the share e of what the maximal cap yields. */
  function Target(exp: RealFn, g: Config): real {
    g.e * (g.Kl * (1.0 + Linearize(exp, g, g.max)))
  }

  /** The linearised cap a PI law asks for, from the configuration alone: with time constant tobj / 3 for the integral
      part and t for the proportional one. */
  function Asked(exp: RealFn, g: Config, s: Ctl, prog: real): real
    requires g.Kl * g.tobj != 0.0
  {
    Linearize(exp, g, s.cap) + ((3.0 + g.t) * (Target(exp, g) - prog) - g.t * s.prevE) / (g.Kl * g.tobj)
  }

  /** In the logarithm, linearising is affine in the cap, with slope alpha * a and value 0 where a * cap + b is beta. */
  lemma LinearizeInLog(exp: RealFn, log: RealFn, g: Config, v: real)
    requires ExpLog(exp, log)
    ensures log(-Linearize(exp, g, v)) == -((g.alpha * g.a) * v) - g.alpha * (g.b - g.beta)
  {
    var x := Exponent(g, v);
    assert log(exp(x)) == x;
    ExponentForm(g.alpha, g.a, g.b - g.beta, v);
  }

  lemma GainsOverCommon(kl: real, tobj: real, t: real, e: real, prevE: real)
    requires kl * tobj != 0.0
    ensures (1.0 / (kl * tobj / 3.0) * 1.0 + t / (kl * tobj)) * e - t / (kl * tobj) * prevE ==
      ((3.0 + t) * e - t * prevE) / (kl * tobj)
  {
    var c := kl * tobj;
    var i := 1.0 / c;
    DivMul(1.0, c);
    DivByInverse(t, c, i);
    DivByInverse((3.0 + t) * e - t * prevE, c, i);
    ThirdInverse(c, i);
    Distribute(t, i, e, prevE);
  }

  lemma DivByInverse(x: real, c: real, i: real)
    requires c != 0.0 && c * i == 1.0
    ensures x / c == x * i
  {
    var q := x / c;
    DivMul(x, c);
    assert q == q * (c * i);
    assert q * (c * i) == (c * q) * i;
  }

  lemma ThirdInverse(c: real, i: real)
    requires c != 0.0 && c * i == 1.0
    ensures 1.0 / (c / 3.0) == 3.0 * i
  {
    var d := c / 3.0;
    assert d * (3.0 * i) == c * i;
    DivByInverse(1.0, d, 3.0 * i);
  }

  lemma Distribute(t: real, i: real, e: real, prevE: real)
    ensures (3.0 * i + t * i) * e - (t * i) * prevE == ((3.0 + t) * e - t * prevE) * i
  {
    assert ((3.0 + t) * e) * i == (3.0 * i + t * i) * e;
    assert (t * prevE) * i == (t * i) * prevE;
  }

  lemma ActIsAsked(exp: RealFn, g: Config, s: Ctl, prog: real)
    requires Usable(g)
    ensures Error(g, Linearize(exp, g, g.max), prog) == Target(exp, g) - prog
    ensures Act(exp, g, s, prog) == Asked(exp, g, s, prog)
  {
    var maxL := Linearize(exp, g, g.max);
    assert g.e * g.Kl * (1.0 + maxL) == g.e * (g.Kl * (1.0 + maxL));
    GainsOverCommon(g.Kl, g.tobj, g.t, Target(exp, g) - prog, s.prevE);
  }

  /** Far from Kl, less than its share 1 - e or more than twice it, the maximum is used and the memory cleared. */
  lemma FallbackUsesMaximum(exp: RealFn, log: RealFn, g: Config, s: Ctl, prog: real)
    requires Usable(g)
    ensures !g.active ==> Law(exp, log, g, s, prog) == s
    ensures g.active && (prog < g.Kl - g.e * g.Kl || g.Kl + g.Kl < prog) ==>
      Law(exp, log, g, s, prog) == Ctl(0.0, s.lastAction, g.max)
  {
    assert (1.0 - g.e) * g.Kl == g.Kl - g.e * g.Kl;
  }

  /** Elsewhere the memory becomes the distance to the target and the cap, in the linearised domain, what the PI law
      asks for, or the bound it exceeds. */
  lemma LawWrittenOut(exp: RealFn, log: RealFn, g: Config, s: Ctl, prog: real)
    requires ExpLog(exp, log) && Usable(g) && g.active && g.min <= g.max && g.alpha * g.a > 0.0
    requires g.Kl - g.e * g.Kl <= prog <= g.Kl + g.Kl
    ensures var s' := Law(exp, log, g, s, prog); var u := Asked(exp, g, s, prog);
      && s'.prevE == Target(exp, g) - prog && s'.lastAction == s.lastAction
      && (u <= Linearize(exp, g, g.min) ==> s'.cap == g.min)
      && (Linearize(exp, g, g.max) <= u ==> s'.cap == g.max)
      && (Linearize(exp, g, g.min) <= u <= Linearize(exp, g, g.max) ==> Linearize(exp, g, s'.cap) == u)
  {
    assert (1.0 - g.e) * g.Kl == g.Kl - g.e * g.Kl;
    ActIsAsked(exp, g, s, prog);
    var u := Asked(exp, g, s, prog);
    MonotoneAround(exp, log, g, g.max);
    LinearizeNegative(exp, log, g, g.max);
    DelinearizeLinearize(exp, log, g, g.min);
    DelinearizeLinearize(exp, log, g, g.max);
    if u <= Linearize(exp, g, g.max) { LinearizeDelinearize(exp, log, g, u); }
  }

  /** The output is strictly within the range, so it was not clamped. */
  predicate Inside(g: Config, cap: real) {
    g.min < cap < g.max
  }

  lemma InsideIsAsked(exp: RealFn, log: RealFn, g: Config, s: Ctl, prog: real)
    requires ExpLog(exp, log) && Usable(g) && g.active && g.alpha * g.a > 0.0
    requires g.Kl - g.e * g.Kl <= prog <= g.Kl + g.Kl && Inside(g, Law(exp, log, g, s, prog).cap)
    ensures Linearize(exp, g, Law(exp, log, g, s, prog).cap) == Asked(exp, g, s, prog)
  {
    LawWrittenOut(exp, log, g, s, prog);
  }

  lemma AskedApart(exp: RealFn, g: Config, s: Ctl, p: real, q: real)
    requires g.Kl * g.tobj != 0.0
    ensures Asked(exp, g, s, p) - Asked(exp, g, s, q) == (3.0 + g.t) / (g.Kl * g.tobj) * (q - p)
  {
    AskedDiffer(g.Kl * g.tobj, g.t, Target(exp, g), s.prevE, p, q);
  }

  lemma AskedDiffer(c: real, t: real, target: real, prevE: real, p: real, q: real)
    requires c != 0.0
    ensures ((3.0 + t) * (target - p) - t * prevE) / c - ((3.0 + t) * (target - q) - t * prevE) / c ==
      (3.0 + t) / c * (q - p)
  {
    var i := 1.0 / c;
    DivMul(1.0, c);
    DivByInverse((3.0 + t) * (target - p) - t * prevE, c, i);
    DivByInverse((3.0 + t) * (target - q) - t * prevE, c, i);
    DivByInverse(3.0 + t, c, i);
    Spread(3.0 + t, i, target - p, target - q, t * prevE);
  }

  lemma Spread(k: real, i: real, x: real, y: real, z: real)
    ensures (k * x - z) * i - (k * y - z) * i == k * i * (x - y)
  {
    var a, b := k * x, k * y;
    assert (a - z) * i - (b - z) * i == (a - b) * i;
    assert a - b == k * (x - y);
  }

  /** From the same state, two progresses whose outputs are not clamped give linearised caps that differ by their
      difference, reversed and scaled with both gains. */
  lemma CapsDifferAsProgress(exp: RealFn, log: RealFn, g: Config, s: Ctl, p: real, q: real)
    requires ExpLog(exp, log) && Usable(g) && g.active && g.alpha * g.a > 0.0
    requires g.Kl - g.e * g.Kl <= p <= g.Kl + g.Kl && Inside(g, Law(exp, log, g, s, p).cap)
    requires g.Kl - g.e * g.Kl <= q <= g.Kl + g.Kl && Inside(g, Law(exp, log, g, s, q).cap)
    ensures Linearize(exp, g, Law(exp, log, g, s, p).cap) - Linearize(exp, g, Law(exp, log, g, s, q).cap) ==
      (3.0 + g.t) / (g.Kl * g.tobj) * (q - p)
  {
    InsideIsAsked(exp, log, g, s, p);
    InsideIsAsked(exp, log, g, s, q);
    AskedApart(exp, g, s, p, q);
  }

  /** So with positive gains, less progress gives the larger cap, and the larger cap is given to less progress. */
  lemma LessProgressLargerCap(exp: RealFn, log: RealFn, g: Config, s: Ctl, p: real, q: real)
    requires ExpLog(exp, log) && Usable(g) && g.active && g.alpha * g.a > 0.0 && (3.0 + g.t) / (g.Kl * g.tobj) > 0.0
    requires g.Kl - g.e * g.Kl <= p <= g.Kl + g.Kl && Inside(g, Law(exp, log, g, s, p).cap)
    requires g.Kl - g.e * g.Kl <= q <= g.Kl + g.Kl && Inside(g, Law(exp, log, g, s, q).cap)
    ensures p < q <==> Law(exp, log, g, s, p).cap > Law(exp, log, g, s, q).cap
  {
    InsideIsAsked(exp, log, g, s, p);
    InsideIsAsked(exp, log, g, s, q);
    AskedOrdered(exp, g, s, p, q);
    LinearizeOrders(exp, log, g, Law(exp, log, g, s, p).cap, Law(exp, log, g, s, q).cap);
  }

  lemma AskedOrdered(exp: RealFn, g: Config, s: Ctl, p: real, q: real)
    requires g.Kl * g.tobj != 0.0 && (3.0 + g.t) / (g.Kl * g.tobj) > 0.0
    ensures p < q <==> Asked(exp, g, s, p) - Asked(exp, g, s, q) > 0.0
  {
    AskedApart(exp, g, s, p, q);
    PositiveProduct((3.0 + g.t) / (g.Kl * g.tobj), q - p);
  }

  lemma PositiveProduct(k: real, d: real)
    requires k > 0.0
    ensures k * d > 0.0 <==> d > 0.0
  {
    if d > 0.0 { assert k * d > 0.0; }
    if d < 0.0 { assert k * (-d) > 0.0; }
  }

  lemma LinearizeOrders(exp: RealFn, log: RealFn, g: Config, x: real, y: real)
    requires ExpLog(exp, log) && g.alpha * g.a > 0.0
    ensures Linearize(exp, g, x) - Linearize(exp, g, y) > 0.0 <==> x > y
  {
    if x < y { LinearizeMonotone(exp, log, g, x, y); }
    if y < x { LinearizeMonotone(exp, log, g, y, x); }
  }

  lemma AskedSettled(exp: RealFn, g: Config, s: Ctl, prog: real)
    requires g.Kl * g.tobj != 0.0 && s.prevE == Target(exp, g) - prog
    ensures Asked(exp, g, s, prog) == Linearize(exp, g, s.cap) <==> prog == Target(exp, g)
  {
    SettledQuotient(g.Kl * g.tobj, g.t, s.prevE);
  }

  lemma SettledQuotient(c: real, t: real, e: real)
    requires c != 0.0
    ensures ((3.0 + t) * e - t * e) / c == 0.0 <==> e == 0.0
  {
    assert (3.0 + t) * e - t * e == 3.0 * e;
    DivMul(3.0 * e, c);
  }

  /** And once the error has settled, an unclamped step leaves the loop where it is exactly at the target. */
  lemma StandstillAtTarget(exp: RealFn, log: RealFn, g: Config, s: Ctl, prog: real)
    requires ExpLog(exp, log) && Usable(g) && g.active && g.alpha * g.a > 0.0 && g.min <= g.max
    requires g.Kl - g.e * g.Kl <= prog <= g.Kl + g.Kl && s.prevE == Target(exp, g) - prog
    requires Linearize(exp, g, g.min) <= Asked(exp, g, s, prog) <= Linearize(exp, g, g.max)
    ensures Law(exp, log, g, s, prog) == s <==> prog == Target(exp, g)
  {
    var s' := Law(exp, log, g, s, prog);
    LawWrittenOut(exp, log, g, s, prog);
    LinearizeOrders(exp, log, g, s.cap, s'.cap);
    LinearizeOrders(exp, log, g, s'.cap, s.cap);
    AskedSettled(exp, g, s, prog);
  }

  // ---------- the closed loop ----------

  /** One control step closed through an actuator: the output is corrected and read back as the next cap. */
  function ClosedStep(exp: RealFn, log: RealFn, g: Config, k: Kind, s: Ctl, prog: real): Ctl
    requires Usable(g)
  {
    var s' := Law(exp, log, g, s, prog);
    s'.(cap := Corrected(k, s'.cap))
  }

  function ClosedRun(exp: RealFn, log: RealFn, g: Config, k: Kind, s: Ctl, progs: seq<real>): Ctl
    requires Usable(g)
    decreases |progs|
  {
    if progs == [] then s else ClosedRun(exp, log, g, k, ClosedStep(exp, log, g, k, s, progs[0]), progs[1..])
  }

  /** A continuous actuator that can take every value of the configured range. */
  predicate Covers(k: Kind, g: Config) {
    k.Continuous? && k.lo <= g.min <= g.max <= k.hi
  }

  /** Over every run, the cap read back after a control step is in [min, max]. */
  lemma {:induction false} CapStaysWithinBounds(exp: RealFn, log: RealFn, g: Config, k: Kind, s: Ctl, progs: seq<real>)
    requires ExpLog(exp, log) && Usable(g) && g.active && Covers(k, g)
    requires progs != [] || g.min <= s.cap <= g.max
    ensures g.min <= ClosedRun(exp, log, g, k, s, progs).cap <= g.max
    decreases |progs|
  {
    if progs != [] {
      OutputWithinBounds(exp, log, g, s, progs[0]);
      CapStaysWithinBounds(exp, log, g, k, ClosedStep(exp, log, g, k, s, progs[0]), progs[1..]);
    }
  }

  /** The step neither falls back nor is clamped. */
  predicate Regular(exp: RealFn, g: Config, s: Ctl, prog: real)
    requires Usable(g)
  {
    !Fallback(g, prog) && Linearize(exp, g, g.min) <= Act(exp, g, s, prog) <= Linearize(exp, g, g.max)
  }

  predicate RegularRun(exp: RealFn, log: RealFn, g: Config, k: Kind, s: Ctl, progs: seq<real>)
    requires Usable(g)
    decreases |progs|
  {
    progs == [] ||
    (Regular(exp, g, s, progs[0]) && RegularRun(exp, log, g, k, ClosedStep(exp, log, g, k, s, progs[0]), progs[1..]))
  }

  function SumErrors(exp: RealFn, g: Config, progs: seq<real>): real {
    if progs == [] then 0.0 else Error(g, Linearize(exp, g, g.max), progs[0]) + SumErrors(exp, g, progs[1..])
  }

  /** The error of the last step, or the remembered one before any. */
  function LastError(exp: RealFn, g: Config, prevE: real, progs: seq<real>): real {
    if progs == [] then prevE else Error(g, Linearize(exp, g, g.max), progs[|progs| - 1])
  }

  /** A regular step through a covering actuator moves the linearised cap by the incremental law exactly. */
  lemma RegularStep(exp: RealFn, log: RealFn, g: Config, k: Kind, s: Ctl, prog: real)
    requires ExpLog(exp, log) && Usable(g) && g.active && g.alpha * g.a > 0.0 && Covers(k, g)
    requires Regular(exp, g, s, prog)
    ensures var s' := ClosedStep(exp, log, g, k, s, prog); var e := Error(g, Linearize(exp, g, g.max), prog);
      s'.prevE == e && Linearize(exp, g, s'.cap) == Linearize(exp, g, s.cap) + Drive(g, s.prevE, e, e)
  {
    var minL, maxL := Linearize(exp, g, g.min), Linearize(exp, g, g.max);
    var x, e := Act(exp, g, s, prog), Error(g, maxL, prog);
    ThresholdOf(x, minL, maxL);
    LinearizeNegative(exp, log, g, g.max);
    LinearizeDelinearize(exp, log, g, x);
    OutputWithinBounds(exp, log, g, s, prog);
    IncrementalForm(Ki(g), Kp(g), e, s.prevE, Linearize(exp, g, s.cap));
  }

  lemma IncrementalForm(ki: real, kp: real, e: real, prevE: real, l: real)
    ensures ActionL(ki, 1.0, kp, e, prevE, l) == l + kp * (e - prevE) + ki * e
  {
  }

  /** What the gains make of a change of error and an accumulated error. */
  function Drive(g: Config, from: real, to: real, sum: real): real
    requires Usable(g)
  {
    Kp(g) * (to - from) + Ki(g) * sum
  }

  /** In every run of regular steps, the incremental law read back through the actuator is the positional PI law:
      proportional to the last error and to the sum of the errors. */
  lemma {:induction false} PositionalLaw(exp: RealFn, log: RealFn, g: Config, k: Kind, s: Ctl, progs: seq<real>)
    requires ExpLog(exp, log) && Usable(g) && g.active && g.alpha * g.a > 0.0 && Covers(k, g)
    requires RegularRun(exp, log, g, k, s, progs)
    ensures ClosedRun(exp, log, g, k, s, progs).prevE == LastError(exp, g, s.prevE, progs)
    ensures Linearize(exp, g, ClosedRun(exp, log, g, k, s, progs).cap) == Linearize(exp, g, s.cap)
      + Drive(g, s.prevE, LastError(exp, g, s.prevE, progs), SumErrors(exp, g, progs))
    decreases |progs|
  {
    if progs == [] {
      Standstill(g, s.prevE);
    } else {
      var s1, rest := ClosedStep(exp, log, g, k, s, progs[0]), progs[1..];
      RegularStep(exp, log, g, k, s, progs[0]);
      PositionalLaw(exp, log, g, k, s1, rest);
      var last := LastError(exp, g, s.prevE, progs);
      assert LastError(exp, g, s1.prevE, rest) == last;
      Telescope(g, s.prevE, s1.prevE, last, SumErrors(exp, g, rest));
    }
  }

  lemma Standstill(g: Config, e: real)
    requires Usable(g)
    ensures Drive(g, e, e, 0.0) == 0.0
  {
    assert e - e == 0.0;
  }

  lemma Telescope(g: Config, e0: real, e1: real, en: real, sum: real)
    requires Usable(g)
    ensures Drive(g, e0, e1, e1) + Drive(g, e1, en, sum) == Drive(g, e0, en, e1 + sum)
  {
    TelescopeGains(Kp(g), Ki(g), e0, e1, en, sum);
  }

  lemma TelescopeGains(kp: real, ki: real, e0: real, e1: real, en: real, sum: real)
    ensures (kp * (e1 - e0) + ki * e1) + (kp * (en - e1) + ki * sum) == kp * (en - e0) + ki * (e1 + sum)
  {
  }

  /** With the error settled, a regular step leaves the loop where it is if and only if progress is on target. */
  lemma FixedPointIsTarget(exp: RealFn, log: RealFn, g: Config, k: Kind, s: Ctl, prog: real)
    requires ExpLog(exp, log) && Usable(g) && g.active && g.alpha * g.a > 0.0 && Covers(k, g)
    requires Regular(exp, g, s, prog)
    requires s.prevE == Error(g, Linearize(exp, g, g.max), prog)
    ensures ClosedStep(exp, log, g, k, s, prog) == s <==> Error(g, Linearize(exp, g, g.max), prog) == 0.0
  {
    var s' := ClosedStep(exp, log, g, k, s, prog);
    RegularStep(exp, log, g, k, s, prog);
    DelinearizeLinearize(exp, log, g, s.cap);
    DelinearizeLinearize(exp, log, g, s'.cap);
    SettledDrive(g, s.prevE);
    assert s'.lastAction == s.lastAction;
  }

  lemma SettledDrive(g: Config, e: real)
    requires Usable(g)
    ensures Drive(g, e, e, e) == 0.0 <==> e == 0.0
  {
    var c := g.Kl * g.tobj / 3.0;
    DivMul(1.0, c);
    NoZeroDivisors(c, Ki(g), e);
    assert e - e == 0.0;
  }

  lemma NoZeroDivisors(c: real, k: real, e: real)
    requires c * k == 1.0
    ensures k * e == 0.0 <==> e == 0.0
  {
    assert c * (k * e) == (c * k) * e;
  }
}
