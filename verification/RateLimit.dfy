/** The rate limiter of the OpenMP preload: threads count region starts into one shared total, which is sent and
    reset when enough time has passed. The lock around each call makes a run a sequence of calls. */
module RateLimit {

  datatype Timespec = Timespec(sec: int, nsec: int)

  /** nrm_time_tons. */
  function Tons(t: Timespec): int {
    t.nsec + 1000000000 * t.sec
  }

  /** nrm_time_diff. */
  function Diff(start: Timespec, end: Timespec): (d: int)
    ensures d == Tons(end) - Tons(start)
  {
    (end.nsec - start.nsec) + 1000000000 * (end.sec - start.sec)
  }

  /** nrm_time_fromns: seconds and the remainder, both rounded towards zero. */
  function FromNs(ns: int): Timespec {
    if ns >= 0 then Timespec(ns / 1000000000, ns % 1000000000)
    else Timespec(-(-ns / 1000000000), -(-ns % 1000000000))
  }

  /** Nanoseconds survive the way to seconds and back, and the remainder is less than a second. */
  lemma NsRoundTrip(ns: int)
    ensures Tons(FromNs(ns)) == ns && -1000000000 < FromNs(ns).nsec < 1000000000
    ensures ns >= 0 ==> FromNs(ns).nsec >= 0
  {
  }

  /** And so do times whose nanoseconds are less than a second. */
  lemma TimeRoundTrip(t: Timespec)
    requires t.sec >= 0 && 0 <= t.nsec < 1000000000
    ensures FromNs(Tons(t)) == t
  {
  }

  type Uint64 = x: int | 0 <= x < 0x1_0000_0000_0000_0000

  /** The cast of the configured limit to a signed number. */
  function AsInt64(x: Uint64): (r: int)
    ensures -0x8000_0000_0000_0000 <= r < 0x8000_0000_0000_0000
    ensures (r - x) % 0x1_0000_0000_0000_0000 == 0
  {
    if x < 0x8000_0000_0000_0000 then x else x - 0x1_0000_0000_0000_0000
  }

  /** An event message: when and how many. */
  datatype Report = Report(time: Timespec, value: real)

  datatype State = State(count: real, last: Timespec, sent: seq<Report>)

  function Send(s: State, limit: Uint64, now: Timespec): State {
    var count := s.count + 1.0;
    if Diff(s.last, now) > AsInt64(limit) then State(0.0, now, s.sent + [Report(now, count)])
    else s.(count := count)
  }

  /** The calls of a run, each with the clock it reads; the clock is set by others and may go backward. */
  function Run(s: State, limit: Uint64, clocks: seq<Timespec>): State {
    if clocks == [] then s
    else Send(Run(s, limit, clocks[..|clocks| - 1]), limit, clocks[|clocks| - 1])
  }

  function Flush(s: State, now: Timespec): State {
    State(s.count, now, if s.count > 0.0 then s.sent + [Report(now, s.count)] else s.sent)
  }

  /** The zero-initialised globals once nrm_ompt_ratelimit_init has read the clock. */
  function Start(now: Timespec): State {
    State(0.0, now, [])
  }

  function Total(sent: seq<Report>): real {
    if sent == [] then 0.0 else Total(sent[..|sent| - 1]) + sent[|sent| - 1].value
  }

  class Limiter {
    var globalCount: real
    var lastSend: Timespec
    var sent: seq<Report>
    const limit: Uint64

    ghost function Value(): State
      reads this
    {
      State(globalCount, lastSend, sent)
    }

    /** nrm_ompt_ratelimit_init. */
    constructor (ratelimit: Uint64, now: Timespec)
      ensures limit == ratelimit && Value() == Start(now)
    {
      globalCount, lastSend, sent, limit := 0.0, now, [], ratelimit;
    }

    /** nrm_ompt_send_event. */
    method SendEvent(now: Timespec)
      modifies this
      ensures Value() == Send(old(Value()), limit, now)
    {
      var diff := Diff(lastSend, now);
      globalCount := globalCount + 1.0;
      if diff > AsInt64(limit) {
        sent := sent + [Report(now, globalCount)];
        globalCount := 0.0;
        lastSend := now;
      }
    }

    /** nrm_ompt_ratelimit_finalize: what is pending is sent; the count keeps its value. */
    method Finalize(now: Timespec)
      modifies this
      ensures Value() == Flush(old(Value()), now)
    {
      lastSend := now;
      if globalCount > 0.0 {
        sent := sent + [Report(lastSend, globalCount)];
      }
    }

    /** The calls of a whole life, in the order they take the lock, and the end. */
    method Life(clocks: seq<Timespec>, end: Timespec)
      modifies this
      ensures Value() == Flush(Run(old(Value()), limit, clocks), end)
    {
      assert clocks[..0] == [];
      for i := 0 to |clocks|
        invariant Value() == Run(old(Value()), limit, clocks[..i])
      {
        assert clocks[..i + 1][..i] == clocks[..i];
        SendEvent(clocks[i]);
      }
      assert clocks[..|clocks|] == clocks;
      Finalize(end);
    }
  }

  lemma TotalAppend(sent: seq<Report>, e: Report)
    ensures Total(sent + [e]) == Total(sent) + e.value
  {
    assert (sent + [e])[..|sent|] == sent;
  }

  /** What has been sent and what is pending are the calls made; nothing is sent empty. */
  ghost predicate Accounts(s: State, calls: nat) {
    && Total(s.sent) + s.count == calls as real
    && (s.count == 0.0 || s.count >= 1.0)
    && forall k :: 0 <= k < |s.sent| ==> s.sent[k].value >= 1.0
  }

  lemma {:induction false} Conservation(t0: Timespec, limit: Uint64, clocks: seq<Timespec>)
    ensures Accounts(Run(Start(t0), limit, clocks), |clocks|)
  {
    if clocks != [] {
      var before := clocks[..|clocks| - 1];
      Conservation(t0, limit, before);
      var s := Run(Start(t0), limit, before);
      TotalAppend(s.sent, Report(clocks[|clocks| - 1], s.count + 1.0));
    }
  }

  /** Finalising leaves nothing unreported: the amounts sent add up to the calls made. */
  lemma {:induction false} FlushSendsAll(s: State, calls: nat, end: Timespec)
    requires Accounts(s, calls)
    ensures Total(Flush(s, end).sent) == calls as real && Flush(s, end).last == end
    ensures Flush(s, end).sent == if s.count >= 1.0 then s.sent + [Report(end, s.count)] else s.sent
    ensures forall k :: 0 <= k < |Flush(s, end).sent| ==> Flush(s, end).sent[k].value >= 1.0
  {
    var e := Report(end, s.count);
    TotalAppend(s.sent, e);
    if s.count > 0.0 {
      assert Flush(s, end).sent == s.sent + [e];
    } else {
      assert Flush(s, end).sent == s.sent;
    }
  }

  /** Over a whole life, whatever the clocks. */
  lemma EveryCallIsReportedOnce(t0: Timespec, limit: Uint64, clocks: seq<Timespec>, end: Timespec)
    ensures Total(Flush(Run(Start(t0), limit, clocks), end).sent) == |clocks| as real
  {
    Conservation(t0, limit, clocks);
    FlushSendsAll(Run(Start(t0), limit, clocks), |clocks|, end);
  }

  /** Finalising does not reset the count, so a second one would report the rest again: harmless exactly when
      nothing was pending. */
  lemma SecondFinalizeRepeats(s: State, calls: nat, end: Timespec, again: Timespec)
    requires Accounts(s, calls)
    ensures Total(Flush(Flush(s, end), again).sent) == calls as real <==> s.count == 0.0
  {
    FlushSendsAll(s, calls, end);
    TotalAppend(Flush(s, end).sent, Report(again, s.count));
  }

  /** Messages j and k are at least k - j limits apart, by the clocks they carry. */
  ghost predicate Spaced(sent: seq<Report>, limit: Uint64, j: nat, k: nat)
    requires j < |sent| && k < |sent|
  {
    Tons(sent[k].time) - Tons(sent[j].time) >= (k - j) * (AsInt64(limit) + 1)
  }

  // ---------- what is pending, and when it is sent ----------

  /** The last m calls are pending: each read a clock at most the limit past the last sending time, and the call before
      them, if there is one, is the one reported last. */
  ghost predicate PendingAre(t0: Timespec, s: State, limit: Uint64, clocks: seq<Timespec>, m: nat) {
    && m <= |clocks| && s.count == m as real
    && (forall k :: |clocks| - m <= k < |clocks| ==> Tons(clocks[k]) - Tons(s.last) <= AsInt64(limit))
    && (if m == |clocks| then s.last == t0 && s.sent == []
        else s.last == clocks[|clocks| - m - 1] && s.sent != [] && s.sent[|s.sent| - 1].time == s.last)
  }

  /** In every run, what is pending are the calls since the last report, and none of them was due. */
  lemma {:induction false} PendingCalls(t0: Timespec, limit: Uint64, clocks: seq<Timespec>) returns (m: nat)
    ensures PendingAre(t0, Run(Start(t0), limit, clocks), limit, clocks, m)
  {
    if clocks == [] {
      m := 0;
    } else {
      var before, now := clocks[..|clocks| - 1], clocks[|clocks| - 1];
      var m0 := PendingCalls(t0, limit, before);
      var s := Run(Start(t0), limit, before);
      m := if Tons(now) - Tons(s.last) > AsInt64(limit) then 0 else m0 + 1;
    }
  }

  /** So a call is reported at its own clock, with all the calls since the last report, if and only if it comes later
      than the limit after that report. */
  lemma LateCallIsReported(t0: Timespec, limit: Uint64, clocks: seq<Timespec>, now: Timespec, m: nat)
    requires PendingAre(t0, Run(Start(t0), limit, clocks), limit, clocks, m)
    ensures var s := Run(Start(t0), limit, clocks); var s' := Run(Start(t0), limit, clocks + [now]);
      if Tons(now) - Tons(s.last) > AsInt64(limit) then s' == State(0.0, now, s.sent + [Report(now, (m + 1) as real)])
      else s' == State((m + 1) as real, s.last, s.sent)
  {
    assert (clocks + [now])[..|clocks|] == clocks;
  }

  lemma OneMore(k: int, g: int)
    ensures (k + 1) * g == k * g + g
  {
  }

  /** Every message moves the last sending time by more than the limit, however the clock behaves. */
  lemma {:induction false} RunSpacing(t0: Timespec, limit: Uint64, clocks: seq<Timespec>)
    ensures var s := Run(Start(t0), limit, clocks); Tons(s.last) >= Tons(t0) + |s.sent| * (AsInt64(limit) + 1)
    ensures var s := Run(Start(t0), limit, clocks); s.last == if s.sent == [] then t0 else s.sent[|s.sent| - 1].time
    ensures var s := Run(Start(t0), limit, clocks); forall j, k :: 0 <= j < k < |s.sent| ==> Spaced(s.sent, limit, j, k)
  {
    if clocks != [] {
      var before := clocks[..|clocks| - 1];
      RunSpacing(t0, limit, before);
      var s := Run(Start(t0), limit, before);
      var s' := Run(Start(t0), limit, clocks);
      SendSpacing(t0, s, limit, clocks[|clocks| - 1]);
      assert s' == Send(s, limit, clocks[|clocks| - 1]);
    }
  }

  lemma SendSpacing(t0: Timespec, s: State, limit: Uint64, now: Timespec)
    requires Tons(s.last) >= Tons(t0) + |s.sent| * (AsInt64(limit) + 1)
    requires s.last == if s.sent == [] then t0 else s.sent[|s.sent| - 1].time
    requires forall j, k :: 0 <= j < k < |s.sent| ==> Spaced(s.sent, limit, j, k)
    ensures var r := Send(s, limit, now); Tons(r.last) >= Tons(t0) + |r.sent| * (AsInt64(limit) + 1)
    ensures var r := Send(s, limit, now); forall j, k :: 0 <= j < k < |r.sent| ==> Spaced(r.sent, limit, j, k)
  {
    var r := Send(s, limit, now);
    var g := AsInt64(limit) + 1;
    OneMore(|s.sent|, g);
    if r.sent != s.sent {
      forall j, k | 0 <= j < k < |r.sent|
        ensures Spaced(r.sent, limit, j, k)
      {
        if k < |s.sent| {
          assert Spaced(s.sent, limit, j, k);
        } else {
          if j < k - 1 {
            assert Spaced(s.sent, limit, j, k - 1);
          }
          OneMore(k - 1 - j, g);
        }
      }
    }
  }
}
