/**
 The fixed-window limiter (src/proxy.rs): one window per identity and route, under a joined key.
 Instants are nanoseconds on the monotonic clock.
 */
module RateLimiter {
  import opened Config

  const SECOND: nat := 1_000_000_000
  const WINDOW: nat := 60 * SECOND

  datatype Window = Window(started: nat, count: u32)

  /** `Instant::duration_since`, which saturates at zero. */
  function Elapsed(now: nat, started: nat): nat {
    if now >= started then now - started else 0
  }

  /** One call on one window: roll over when it is a minute old, then admit while below the limit. */
  function Admit(w: Window, now: nat, limit: u32): (r: (Window, bool))
    ensures w.count <= limit ==> r.0.count <= limit
    ensures limit > 0 ==> r.0.count > 0
  {
    var w' := if now >= w.started + WINDOW then Window(now, 0) else w;
    if w'.count >= limit then (w', false) else (Window(w'.started, w'.count + 1), true)
  }

  /** Whole seconds since the start, as the limiter counts them, against the plain comparison. */
  lemma Rollover(now: nat, started: nat)
    ensures Elapsed(now, started) / 1_000_000_000 >= 60 <==> now >= started + WINDOW
  {
  }

  function JoinKey(identity: string, routeId: string): string {
    identity + "\0" + routeId
  }

  function WindowFor(windows: map<string, Window>, key: string, now: nat): Window {
    if key in windows then windows[key] else Window(now, 0)
  }

  function Step(windows: map<string, Window>, key: string, now: nat, limit: u32): (map<string, Window>, bool) {
    var (w, admitted) := Admit(WindowFor(windows, key, now), now, limit);
    (windows[key := w], admitted)
  }

  /** The shared limiter; `Check` runs with the lock held. */
  class RequestRateLimiter {
    var windows: map<string, Window>

    constructor ()
      ensures windows == map[]
    {
      windows := map[];
    }

    /** `RequestRateLimiter::check`, with the clock reading as a parameter. */
    method Check(identity: string, routeId: string, limit: u32, now: nat) returns (admitted: bool)
      modifies this
      ensures (windows, admitted) == Step(old(windows), JoinKey(identity, routeId), now, limit)
    {
      var key := JoinKey(identity, routeId);
      if key !in windows {
        windows := windows[key := Window(now, 0)];
      }
      Rollover(now, windows[key].started);
      if Elapsed(now, windows[key].started) / SECOND >= 60 {
        windows := windows[key := Window(now, 0)];
      }
      if windows[key].count >= limit {
        assert windows == old(windows)[key := windows[key]];
        return false;
      }
      windows := windows[key := Window(windows[key].started, windows[key].count + 1)];
      assert windows == old(windows)[key := windows[key]];
      return true;
    }
  }

  // ---------------------------------------------------------------- one window over a run

  /** The two instants of a call: the clock is read first, then the lock is awaited and taken. */
  datatype Stamp = Stamp(now: nat, locked: nat)

  /** A call that takes the lock at once. */
  function Instant(t: nat): Stamp {
    Stamp(t, t)
  }

  datatype Clock = Reading | Locking

  function When(s: Stamp, clock: Clock): nat {
    if clock == Reading then s.now else s.locked
  }

  /** The reading is not older than `lag` at the chosen instant. */
  predicate Fresh(t: Stamp, clock: Clock, lag: nat) {
    t.now <= When(t, clock) <= t.now + lag
  }

  /** In lock order the chosen instants do not decrease, and every reading is fresh. */
  predicate Timely(ts: seq<Stamp>, clock: Clock, lag: nat) {
    ts == [] ||
    var n := |ts| - 1;
    && Timely(ts[..n], clock, lag) && Fresh(ts[n], clock, lag)
    && (n > 0 ==> When(ts[n - 1], clock) <= When(ts[n], clock))
  }

  /** The same in terms of positions. */
  lemma {:induction false} TimelyUpTo(ts: seq<Stamp>, n: nat)
    requires n <= |ts| && forall i :: 0 <= i < n - 1 ==> ts[i].now <= ts[i + 1].now
    ensures Timely(ts[..n], Reading, 0)
  {
    if n == 0 {
    } else {
      TimelyUpTo(ts, n - 1);
      assert ts[..n][..n - 1] == ts[..n - 1];
    }
  }

  /** The window and the verdict after the calls `ts`. */
  function LastCall(ts: seq<Stamp>, limit: u32): (r: (Window, bool))
    requires ts != []
    ensures r.0.count <= limit
    ensures limit > 0 ==> r.0.count > 0
  {
    var now, before := ts[|ts| - 1].now, ts[..|ts| - 1];
    Admit(if before == [] then Window(now, 0) else LastCall(before, limit).0, now, limit)
  }

  /** Admissions at instants in [lo, hi). */
  function Admissions(ts: seq<Stamp>, limit: u32, clock: Clock, lo: int, hi: int): nat {
    if ts == [] then 0
    else Admissions(ts[..|ts| - 1], limit, clock, lo, hi)
         + if LastCall(ts, limit).1 && lo <= When(ts[|ts| - 1], clock) < hi then 1 else 0
  }

  lemma AdmissionsLast(ts: seq<Stamp>, before: seq<Stamp>, t: Stamp, limit: u32, clock: Clock, lo: int, hi: int)
    requires ts == before + [t]
    ensures Admissions(ts, limit, clock, lo, hi) ==
            Admissions(before, limit, clock, lo, hi) +
            if LastCall(ts, limit).1 && lo <= When(t, clock) < hi then 1 else 0
  {
  }

  /** What the last call did to the window before it, whatever the clock does. */
  lemma LastCallCases(ts: seq<Stamp>, limit: u32)
    requires |ts| >= 2
    ensures var now, w, (w', admitted) := ts[|ts| - 1].now, LastCall(ts[..|ts| - 1], limit).0, LastCall(ts, limit);
            if now >= w.started + WINDOW
            then w'.started == now && w'.count == (if admitted then 1 else 0)
            else w'.started == w.started && w'.count == w.count + (if admitted then 1 else 0)
  {
  }

  lemma {:induction false} StartedBeforeLast(ts: seq<Stamp>, limit: u32, clock: Clock, lag: nat)
    requires ts != [] && Timely(ts, clock, lag)
    ensures LastCall(ts, limit).0.started <= When(ts[|ts| - 1], clock)
    ensures ts[|ts| - 1].now < LastCall(ts, limit).0.started + WINDOW
  {
    if |ts| < 2 {
    } else {
      StartedBeforeLast(ts[..|ts| - 1], limit, clock, lag);
      LastCallCases(ts, limit);
    }
  }

  /** `m` full windows, by addition. */
  function Full(m: nat, limit: nat): nat {
    if m == 0 then 0 else Full(m - 1, limit) + limit
  }

  lemma {:induction false} FullIsProduct(m: nat, limit: nat)
    ensures Full(m, limit) == m * limit
  {
    if m == 0 {
    } else {
      FullIsProduct(m - 1, limit);
      assert (m - 1) * limit == m * limit - limit;
    }
  }

  /** A span that begins after the last call holds nothing. */
  lemma {:induction false} NothingLater(ts: seq<Stamp>, limit: u32, clock: Clock, lag: nat, lo: int, hi: int)
    requires Timely(ts, clock, lag) && (ts != [] ==> When(ts[|ts| - 1], clock) < lo)
    ensures Admissions(ts, limit, clock, lo, hi) == 0
  {
    if ts == [] {
    } else {
      NothingLater(ts[..|ts| - 1], limit, clock, lag, lo, hi);
    }
  }

  /** The most that a number of windows can add to a span: all their calls, but for the one that opens the first. */
  function Most(windows: nat, limit: nat): nat {
    if windows == 0 || limit == 0 then 0 else windows * limit - 1
  }

  /** Each further 60 seconds between the span and the current window costs at most one more full window, and the
      call that opened the earliest of them lies before the span. */
  lemma {:induction false} Spread(ts: seq<Stamp>, limit: u32, clock: Clock, lag: nat, lo: int, hi: int, m: nat)
    requires ts != [] && Timely(ts, clock, lag) && limit > 0
    requires LastCall(ts, limit).0.started < lo - lag + m * WINDOW
    ensures Admissions(ts, limit, clock, lo, hi) < Full(m, limit) + LastCall(ts, limit).0.count
  {
    var before := ts[..|ts| - 1];
    if |ts| >= 2 {
      LastCallCases(ts, limit);
      if ts[|ts| - 1].now < LastCall(before, limit).0.started + WINDOW {
        Spread(before, limit, clock, lag, lo, hi, m);
      } else if m >= 1 {
        Spread(before, limit, clock, lag, lo, hi, m - 1);
      } else {
        NothingLater(ts, limit, clock, lag, lo, hi);
      }
    } else {
      assert before == [];
      if m == 0 {
        NothingLater(ts, limit, clock, lag, lo, hi);
      } else {
        assert Full(m, limit) >= limit;
      }
    }
  }

  lemma {:induction false} NothingAtZero(ts: seq<Stamp>, clock: Clock, lo: int, hi: int)
    ensures Admissions(ts, 0, clock, lo, hi) == 0
  {
    if ts == [] {
    } else {
      NothingAtZero(ts[..|ts| - 1], clock, lo, hi);
    }
  }

  /** With readings at most j minutes old, at most k + j + 1 windows meet any span of k minutes. */
  lemma {:induction false} SpanBound(ts: seq<Stamp>, limit: u32, clock: Clock, lo: int, k: nat, j: nat)
    requires Timely(ts, clock, j * WINDOW)
    ensures Admissions(ts, limit, clock, lo, lo + k * WINDOW) <= Most(k + j + 1, limit)
  {
    var hi := lo + k * WINDOW;
    if limit == 0 {
      NothingAtZero(ts, clock, lo, hi);
    } else if ts == [] {
    } else {
      FullIsProduct(k + j + 1, limit);
      if When(ts[|ts| - 1], clock) >= hi {
        SpanBound(ts[..|ts| - 1], limit, clock, lo, k, j);
      } else {
        StartedBeforeLast(ts, limit, clock, j * WINDOW);
        Spread(ts, limit, clock, j * WINDOW, lo, hi, k + j);
      }
    }
  }

  /** What the window counts was admitted since it opened. */
  lemma {:induction false} CountIsRecent(ts: seq<Stamp>, limit: u32, clock: Clock, lag: nat, lo: int, hi: int)
    requires ts != [] && Timely(ts, clock, lag) && lo <= LastCall(ts, limit).0.started && hi > When(ts[|ts| - 1], clock)
    ensures LastCall(ts, limit).0.count <= Admissions(ts, limit, clock, lo, hi)
  {
    StartedBeforeLast(ts, limit, clock, lag);
    if |ts| < 2 {
    } else {
      LastCallCases(ts, limit);
      if ts[|ts| - 1].now < LastCall(ts[..|ts| - 1], limit).0.started + WINDOW {
        CountIsRecent(ts[..|ts| - 1], limit, clock, lag, lo, hi);
      }
    }
  }

  /** A refusal has `limit` admissions behind it, at most a minute and the lag before it. */
  lemma RefusalIsRecent(ts: seq<Stamp>, limit: u32, clock: Clock, lag: nat)
    requires ts != [] && Timely(ts, clock, lag) && !LastCall(ts, limit).1
    ensures var at := When(ts[|ts| - 1], clock);
            Admissions(ts, limit, clock, at + 1 - WINDOW - lag, at + 1) >= limit
  {
    var at := When(ts[|ts| - 1], clock);
    StartedBeforeLast(ts, limit, clock, lag);
    CountIsRecent(ts, limit, clock, lag, at + 1 - WINDOW - lag, at + 1);
  }

  // ---------------------------------------------------------------- exact counts, with readings in lock order

  /** No admission lies at or beyond the end of the current window. */
  lemma {:induction false} NothingBeyond(ts: seq<Stamp>, limit: u32, lo: int, hi: int)
    requires ts != [] && Timely(ts, Reading, 0) && lo >= LastCall(ts, limit).0.started + WINDOW
    ensures Admissions(ts, limit, Reading, lo, hi) == 0
  {
    StartedBeforeLast(ts, limit, Reading, 0);
    NothingLater(ts, limit, Reading, 0, lo, hi);
  }

  /** The counter is exactly the number of admissions since the window opened. */
  lemma {:induction false} CountIsExact(ts: seq<Stamp>, limit: u32, hi: int)
    requires ts != [] && Timely(ts, Reading, 0) && hi > ts[|ts| - 1].now
    ensures Admissions(ts, limit, Reading, LastCall(ts, limit).0.started, hi) == LastCall(ts, limit).0.count
  {
    var before := ts[..|ts| - 1];
    if |ts| >= 2 {
      LastCallCases(ts, limit);
      if ts[|ts| - 1].now >= LastCall(before, limit).0.started + WINDOW {
        NothingBeyond(before, limit, ts[|ts| - 1].now, hi);
      } else {
        CountIsExact(before, limit, hi);
        StartedBeforeLast(ts, limit, Reading, 0);
      }
    } else {
      assert before == [];
    }
  }

  /** A refusal has its reason: the current window, younger than a minute, holds exactly `limit` admissions. */
  lemma RefusalReason(ts: seq<Stamp>, limit: u32)
    requires ts != [] && Timely(ts, Reading, 0) && !LastCall(ts, limit).1
    ensures var now, start := ts[|ts| - 1].now, LastCall(ts, limit).0.started;
            && now - WINDOW < start <= now
            && Admissions(ts, limit, Reading, start, now + 1) == limit
  {
    StartedBeforeLast(ts, limit, Reading, 0);
    CountIsExact(ts, limit, ts[|ts| - 1].now + 1);
  }

  lemma {:induction false} SpanSplit(ts: seq<Stamp>, limit: u32, clock: Clock, lo: int, mid: int, hi: int)
    requires lo <= mid <= hi
    ensures Admissions(ts, limit, clock, lo, hi) ==
            Admissions(ts, limit, clock, lo, mid) + Admissions(ts, limit, clock, mid, hi)
  {
    if ts == [] {
    } else {
      SpanSplit(ts[..|ts| - 1], limit, clock, lo, mid, hi);
    }
  }

  /** Within the last minute there are at least `limit` and fewer than twice `limit` admissions; exactly
      `limit` if and only if none of them belongs to an earlier window. */
  lemma RefusalWithinMinute(ts: seq<Stamp>, limit: u32)
    requires ts != [] && Timely(ts, Reading, 0) && !LastCall(ts, limit).1
    ensures var now, start := ts[|ts| - 1].now, LastCall(ts, limit).0.started;
            var lastMinute := Admissions(ts, limit, Reading, now + 1 - WINDOW, now + 1);
            && limit <= lastMinute <= Most(2, limit)
            && (lastMinute == limit <==> Admissions(ts, limit, Reading, now + 1 - WINDOW, start) == 0)
  {
    var now, start := ts[|ts| - 1].now, LastCall(ts, limit).0.started;
    RefusalReason(ts, limit);
    SpanSplit(ts, limit, Reading, now + 1 - WINDOW, start, now + 1);
    SpanBound(ts, limit, Reading, now + 1 - WINDOW, 1, 0);
  }

  // ---------------------------------------------------------------- the shared map over a run

  datatype Call = Call(identity: string, routeId: string, stamp: Stamp)

  function KeyOf(c: Call): string {
    JoinKey(c.identity, c.routeId)
  }

  predicate TimelyCalls(calls: seq<Call>, clock: Clock, lag: nat) {
    calls == [] ||
    var n := |calls| - 1;
    && TimelyCalls(calls[..n], clock, lag) && Fresh(calls[n].stamp, clock, lag)
    && (n > 0 ==> When(calls[n - 1].stamp, clock) <= When(calls[n].stamp, clock))
  }

  /** Clock readings do not decrease in the order in which the lock is taken. */
  predicate ClockOrdered(calls: seq<Call>) {
    TimelyCalls(calls, Reading, 0)
  }

  /** The map after the calls, starting from the empty limiter. */
  function Windows(calls: seq<Call>, limit: u32): map<string, Window> {
    if calls == [] then map[]
    else
      var c := calls[|calls| - 1];
      Step(Windows(calls[..|calls| - 1], limit), KeyOf(c), c.stamp.now, limit).0
  }

  /** Whether the last call was admitted. */
  function Admitted(calls: seq<Call>, limit: u32): bool
    requires calls != []
  {
    var c := calls[|calls| - 1];
    Step(Windows(calls[..|calls| - 1], limit), KeyOf(c), c.stamp.now, limit).1
  }

  /** No window ever counts beyond the limit, whatever the clock does. */
  lemma {:induction false} NeverOverLimit(calls: seq<Call>, limit: u32)
    ensures forall key :: key in Windows(calls, limit) ==> Windows(calls, limit)[key].count <= limit
  {
    if calls == [] {
    } else {
      NeverOverLimit(calls[..|calls| - 1], limit);
    }
  }

  /** The stamps of the calls under one key. */
  function KeyTimes(calls: seq<Call>, key: string): seq<Stamp> {
    if calls == [] then []
    else
      var c := calls[|calls| - 1];
      KeyTimes(calls[..|calls| - 1], key) + if KeyOf(c) == key then [c.stamp] else []
  }

  lemma {:induction false} KeyTimesTimely(calls: seq<Call>, key: string, clock: Clock, lag: nat)
    requires TimelyCalls(calls, clock, lag)
    ensures var ts := KeyTimes(calls, key);
            Timely(ts, clock, lag) &&
            (ts != [] ==> calls != [] && When(ts[|ts| - 1], clock) <= When(calls[|calls| - 1].stamp, clock))
  {
    if calls == [] {
    } else {
      var before, ts := calls[..|calls| - 1], KeyTimes(calls, key);
      KeyTimesTimely(before, key, clock, lag);
      if KeyOf(calls[|calls| - 1]) == key {
        assert ts[..|ts| - 1] == KeyTimes(before, key);
      } else {
        assert ts == KeyTimes(before, key);
      }
    }
  }

  /** The shared map is a product of independent windows. */
  lemma {:induction false} Projection(calls: seq<Call>, limit: u32, key: string)
    ensures key in Windows(calls, limit) <==> KeyTimes(calls, key) != []
    ensures key in Windows(calls, limit) ==>
              Windows(calls, limit)[key] == LastCall(KeyTimes(calls, key), limit).0
    ensures calls != [] && KeyOf(calls[|calls| - 1]) == key ==>
              Admitted(calls, limit) == LastCall(KeyTimes(calls, key), limit).1
  {
    if calls == [] {
    } else {
      var before := calls[..|calls| - 1];
      Projection(before, limit, key);
      var ts := KeyTimes(calls, key);
      if KeyOf(calls[|calls| - 1]) == key {
        assert ts[..|ts| - 1] == KeyTimes(before, key);
      } else {
        assert ts == KeyTimes(before, key);
      }
    }
  }

  /** Admissions under a key, and those of one identity and route, at instants in [lo, hi). */
  function KeyAdmissions(calls: seq<Call>, limit: u32, key: string, clock: Clock, lo: int, hi: int): nat {
    if calls == [] then 0
    else
      var c := calls[|calls| - 1];
      KeyAdmissions(calls[..|calls| - 1], limit, key, clock, lo, hi)
      + if Admitted(calls, limit) && KeyOf(c) == key && lo <= When(c.stamp, clock) < hi then 1 else 0
  }

  function PairAdmissions(calls: seq<Call>, limit: u32, identity: string, routeId: string,
                          clock: Clock, lo: int, hi: int): nat
  {
    if calls == [] then 0
    else
      var c := calls[|calls| - 1];
      PairAdmissions(calls[..|calls| - 1], limit, identity, routeId, clock, lo, hi)
      + if Admitted(calls, limit) && OfPair(c, identity, routeId, clock, lo, hi) then 1 else 0
  }

  predicate OfPair(c: Call, identity: string, routeId: string, clock: Clock, lo: int, hi: int) {
    c.identity == identity && c.routeId == routeId && lo <= When(c.stamp, clock) < hi
  }

  lemma {:induction false} KeyAdmissionsProject(calls: seq<Call>, limit: u32, key: string, clock: Clock, lo: int, hi: int)
    ensures KeyAdmissions(calls, limit, key, clock, lo, hi) == Admissions(KeyTimes(calls, key), limit, clock, lo, hi)
  {
    if calls == [] {
    } else {
      var before, c := calls[..|calls| - 1], calls[|calls| - 1];
      KeyAdmissionsProject(before, limit, key, clock, lo, hi);
      var ts := KeyTimes(calls, key);
      if KeyOf(c) == key {
        Projection(calls, limit, key);
        AdmissionsLast(ts, KeyTimes(before, key), c.stamp, limit, clock, lo, hi);
        KeyAdmissionsLast(calls, before, c, limit, key, clock, lo, hi);
      } else {
        assert ts == KeyTimes(before, key);
      }
    }
  }

  lemma KeyAdmissionsLast(calls: seq<Call>, before: seq<Call>, c: Call, limit: u32, key: string, clock: Clock, lo: int, hi: int)
    requires calls == before + [c]
    ensures KeyAdmissions(calls, limit, key, clock, lo, hi) ==
            KeyAdmissions(before, limit, key, clock, lo, hi) +
            if Admitted(calls, limit) && KeyOf(c) == key && lo <= When(c.stamp, clock) < hi then 1 else 0
  {
  }

  lemma {:induction false} PairWithinKey(calls: seq<Call>, limit: u32, identity: string, routeId: string,
                                         clock: Clock, lo: int, hi: int)
    ensures PairAdmissions(calls, limit, identity, routeId, clock, lo, hi)
         <= KeyAdmissions(calls, limit, JoinKey(identity, routeId), clock, lo, hi)
  {
    if calls == [] {
    } else {
      PairWithinKey(calls[..|calls| - 1], limit, identity, routeId, clock, lo, hi);
    }
  }

  /** The positions of a pair's admitted calls in the span. */
  ghost function AdmittedPositions(calls: seq<Call>, limit: u32, identity: string, routeId: string,
                                   clock: Clock, lo: int, hi: int): set<nat>
  {
    set k: nat | k < |calls| && AdmittedAt(calls, limit, k) && OfPair(calls[k], identity, routeId, clock, lo, hi)
  }

  ghost predicate AdmittedAt(calls: seq<Call>, limit: u32, k: nat) {
    k < |calls| && Admitted(calls[..k + 1], limit)
  }

  lemma AdmittedEarlier(calls: seq<Call>, limit: u32, k: nat)
    requires k + 1 < |calls|
    ensures AdmittedAt(calls[..|calls| - 1], limit, k) == AdmittedAt(calls, limit, k)
  {
    assert calls[..|calls| - 1][..k + 1] == calls[..k + 1];
  }

  lemma OneMore(all: set<nat>, earlier: set<nat>, n: nat, flag: bool)
    requires n !in earlier && forall k: nat :: k in all <==> k in earlier || (k == n && flag)
    ensures |all| == |earlier| + if flag then 1 else 0
  {
    assert all == if flag then earlier + {n} else earlier;
  }

  lemma {:induction false} PositionsAreAdmissions(
    calls: seq<Call>, limit: u32, identity: string, routeId: string, clock: Clock, lo: int, hi: int)
    ensures |AdmittedPositions(calls, limit, identity, routeId, clock, lo, hi)| ==
            PairAdmissions(calls, limit, identity, routeId, clock, lo, hi)
  {
    var all := AdmittedPositions(calls, limit, identity, routeId, clock, lo, hi);
    if calls == [] {
      assert all == {};
    } else {
      var n := |calls| - 1;
      PositionsAreAdmissions(calls[..n], limit, identity, routeId, clock, lo, hi);
      PositionsStep(calls, limit, identity, routeId, clock, lo, hi);
      var flag := Admitted(calls, limit) && OfPair(calls[n], identity, routeId, clock, lo, hi);
      OneMore(all, AdmittedPositions(calls[..n], limit, identity, routeId, clock, lo, hi), n, flag);
    }
  }

  lemma PositionsStep(calls: seq<Call>, limit: u32, identity: string, routeId: string, clock: Clock, lo: int, hi: int)
    requires calls != []
    ensures var n := |calls| - 1;
            var all, earlier := AdmittedPositions(calls, limit, identity, routeId, clock, lo, hi),
                                AdmittedPositions(calls[..n], limit, identity, routeId, clock, lo, hi);
            && n !in earlier
            && forall k: nat :: k in all <==>
                 k in earlier || (k == n && Admitted(calls, limit) && OfPair(calls[n], identity, routeId, clock, lo, hi))
  {
    var n := |calls| - 1;
    var all, earlier := AdmittedPositions(calls, limit, identity, routeId, clock, lo, hi),
                        AdmittedPositions(calls[..n], limit, identity, routeId, clock, lo, hi);
    assert calls[..n + 1] == calls;
    forall k: nat ensures k in all <==>
      k in earlier || (k == n && Admitted(calls, limit) && OfPair(calls[n], identity, routeId, clock, lo, hi))
    {
      if k < n { AdmittedEarlier(calls, limit, k); }
    }
  }

  /**
   Over every run: any span of k minutes holds fewer than (k + j + 1) * limit admissions of a pair, where readings
   are at most j minutes old. By clock reading, with readings in lock order, j is zero; by the instant of the
   lock, the order is that of the lock itself and j bounds how long a call waits for it.
   */
  lemma AdmissionBound(calls: seq<Call>, limit: u32, identity: string, routeId: string, clock: Clock, lo: int, k: nat, j: nat)
    requires TimelyCalls(calls, clock, j * WINDOW)
    ensures PairAdmissions(calls, limit, identity, routeId, clock, lo, lo + k * WINDOW) <= Most(k + j + 1, limit)
  {
    PairWithinKey(calls, limit, identity, routeId, clock, lo, lo + k * WINDOW);
    KeyBound(calls, limit, JoinKey(identity, routeId), clock, lo, k, j);
  }

  lemma KeyBound(calls: seq<Call>, limit: u32, key: string, clock: Clock, lo: int, k: nat, j: nat)
    requires TimelyCalls(calls, clock, j * WINDOW)
    ensures KeyAdmissions(calls, limit, key, clock, lo, lo + k * WINDOW) <= Most(k + j + 1, limit)
  {
    KeyTimesTimely(calls, key, clock, j * WINDOW);
    KeyAdmissionsProject(calls, limit, key, clock, lo, lo + k * WINDOW);
    SpanBound(KeyTimes(calls, key), limit, clock, lo, k, j);
  }

  /** What is read in a span is admitted in the span and the lag. */
  lemma {:induction false} ReadThenAdmitted(calls: seq<Call>, limit: u32, identity: string, routeId: string, lag: nat, lo: int, hi: int)
    requires TimelyCalls(calls, Locking, lag)
    ensures PairAdmissions(calls, limit, identity, routeId, Reading, lo, hi)
         <= PairAdmissions(calls, limit, identity, routeId, Locking, lo, hi + lag)
  {
    if calls == [] {
    } else {
      ReadThenAdmitted(calls[..|calls| - 1], limit, identity, routeId, lag, lo, hi);
    }
  }

  /** By clock reading, in whatever order the readings come to the lock: with waits of at most j minutes, any span
      of k minutes holds fewer than (k + 2 * j + 1) * limit admissions of a pair. */
  lemma ReadingBound(calls: seq<Call>, limit: u32, identity: string, routeId: string, lo: int, k: nat, j: nat)
    requires TimelyCalls(calls, Locking, j * WINDOW)
    ensures PairAdmissions(calls, limit, identity, routeId, Reading, lo, lo + k * WINDOW) <= Most(k + 2 * j + 1, limit)
  {
    ReadThenAdmitted(calls, limit, identity, routeId, j * WINDOW, lo, lo + k * WINDOW);
    assert lo + k * WINDOW + j * WINDOW == lo + (k + j) * WINDOW;
    AdmissionBound(calls, limit, identity, routeId, Locking, lo, k + j, j);
  }

  // ---------------------------------------------------------------- joined keys

  predicate NulFree(s: string) {
    '\0' !in s
  }

  ghost predicate NulFreeCalls(calls: seq<Call>) {
    forall i :: 0 <= i < |calls| ==> NulFree(calls[i].identity)
  }

  /** The first NUL ends the identity. */
  lemma {:induction false} JoinKeyInjective(i: string, r: string, i': string, r': string)
    requires NulFree(i) && NulFree(i')
    ensures JoinKey(i, r) == JoinKey(i', r') <==> i == i' && r == r'
  {
    var k, k' := JoinKey(i, r), JoinKey(i', r');
    if k == k' {
      assert k[|i|] == '\0' && k'[|i'|] == '\0';
      assert |i| == |i'|;
      assert i == k[..|i|] && i' == k'[..|i|];
      assert r == k[|i| + 1..] && r' == k'[|i| + 1..];
    }
  }

  /** Another pair with the same key. */
  ghost predicate Collides(i: string, r: string, i': string, r': string) {
    JoinKey(i, r) == JoinKey(i', r') && (i != i' || r != r')
  }

  /** A pair shares its key with some other pair exactly when one of its two texts holds a NUL. */
  lemma CollisionIffNul(i: string, r: string)
    ensures (exists i', r' :: Collides(i, r, i', r')) <==> !NulFree(i) || !NulFree(r)
  {
    var key := JoinKey(i, r);
    if k :| 0 <= k < |i| && i[k] == '\0' {
      var i', r' := i[..k], i[k + 1..] + "\0" + r;
      assert key == i' + "\0" + r';
      assert Collides(i, r, i', r');
    }
    if k :| 0 <= k < |r| && r[k] == '\0' {
      var i', r' := i + "\0" + r[..k], r[k + 1..];
      assert key == i' + "\0" + r';
      assert Collides(i, r, i', r');
    }
    if NulFree(i) && NulFree(r) {
      forall i', r' ensures !Collides(i, r, i', r') { SoleNul(i, r, i', r'); }
    }
  }

  lemma SoleNul(i: string, r: string, i': string, r': string)
    requires NulFree(i) && NulFree(r)
    ensures !Collides(i, r, i', r')
  {
    var key := JoinKey(i, r);
    if key == JoinKey(i', r') {
      assert key[|i'|] == '\0';
      assert forall p :: 0 <= p < |key| && p != |i| ==> key[p] == if p < |i| then i[p] else r[p - |i| - 1];
      assert |i| == |i'|;
      assert i == key[..|i|] && i' == key[..|i|];
      assert r == key[|i| + 1..] && r' == key[|i| + 1..];
    }
  }

  /** The stamps of one pair's own calls. */
  function PairTimes(calls: seq<Call>, identity: string, routeId: string): seq<Stamp> {
    if calls == [] then []
    else
      var c := calls[|calls| - 1];
      PairTimes(calls[..|calls| - 1], identity, routeId)
      + if c.identity == identity && c.routeId == routeId then [c.stamp] else []
  }

  lemma {:induction false} KeyTimesArePairTimes(calls: seq<Call>, identity: string, routeId: string)
    requires NulFreeCalls(calls) && NulFree(identity)
    ensures KeyTimes(calls, JoinKey(identity, routeId)) == PairTimes(calls, identity, routeId)
  {
    if calls == [] {
    } else {
      var c := calls[|calls| - 1];
      KeyTimesArePairTimes(calls[..|calls| - 1], identity, routeId);
      JoinKeyInjective(c.identity, c.routeId, identity, routeId);
    }
  }

  /** No interference: a verdict is a function of the pair's own calls, so the joined-string map refines
      one keyed by pairs. */
  lemma OutcomeIsOwn(calls: seq<Call>, limit: u32)
    requires calls != [] && NulFreeCalls(calls)
    ensures var c := calls[|calls| - 1];
            var own := PairTimes(calls, c.identity, c.routeId);
            own != [] && Admitted(calls, limit) == LastCall(own, limit).1
  {
    var c := calls[|calls| - 1];
    Projection(calls, limit, KeyOf(c));
    KeyTimesArePairTimes(calls, c.identity, c.routeId);
  }

  lemma {:induction false} OwnKeyTimes(calls: seq<Call>, identity: string, routeId: string)
    requires NulFree(identity) && NulFree(routeId)
    ensures KeyTimes(calls, JoinKey(identity, routeId)) == PairTimes(calls, identity, routeId)
  {
    if calls == [] {
    } else {
      var c := calls[|calls| - 1];
      OwnKeyTimes(calls[..|calls| - 1], identity, routeId);
      SoleNul(identity, routeId, c.identity, c.routeId);
    }
  }

  /** The last call is one of the pair's, and its verdict is not the one that the pair's own calls give. */
  ghost predicate Interfered(calls: seq<Call>, limit: u32, identity: string, routeId: string) {
    && calls != [] && calls[|calls| - 1].identity == identity && calls[|calls| - 1].routeId == routeId
    && (PairTimes(calls, identity, routeId) == [] ||
        Admitted(calls, limit) != LastCall(PairTimes(calls, identity, routeId), limit).1)
  }

  /** Exactly the pairs that others can interfere with, in some run: those with a NUL in one of their texts. */
  lemma InterferenceIff(identity: string, routeId: string)
    ensures (exists calls: seq<Call>, limit: u32 :: Interfered(calls, limit, identity, routeId))
            <==> !NulFree(identity) || !NulFree(routeId)
  {
    if NulFree(identity) && NulFree(routeId) {
      forall calls: seq<Call>, limit: u32 ensures !Interfered(calls, limit, identity, routeId) {
        OwnKeyTimes(calls, identity, routeId);
        Projection(calls, limit, JoinKey(identity, routeId));
      }
    } else {
      CollisionIffNul(identity, routeId);
      var i', r' :| Collides(identity, routeId, i', r');
      CollisionInterferes(identity, routeId, i', r');
    }
  }

  /** The other pair takes the one admission of the shared window. */
  lemma CollisionInterferes(i: string, r: string, i': string, r': string)
    requires Collides(i, r, i', r')
    ensures Interfered([Call(i', r', Instant(0)), Call(i, r, Instant(0))], 1, i, r)
  {
    var first, second := Call(i', r', Instant(0)), Call(i, r, Instant(0));
    var calls := [first, second];
    assert calls[..1] == [first] && [first][..0] == [];
    assert Windows([first], 1) == map[JoinKey(i', r') := Window(0, 1)];
    assert !Admitted(calls, 1);
    assert PairTimes([first], i, r) == [];
    assert PairTimes(calls, i, r) == [Instant(0)];
    assert [Instant(0)][..0] == [];
  }

  lemma {:induction false} PairIsKey(
    calls: seq<Call>, limit: u32, identity: string, routeId: string, clock: Clock, lo: int, hi: int)
    requires NulFreeCalls(calls) && NulFree(identity)
    ensures PairAdmissions(calls, limit, identity, routeId, clock, lo, hi)
         == KeyAdmissions(calls, limit, JoinKey(identity, routeId), clock, lo, hi)
  {
    if calls == [] {
    } else {
      var c := calls[|calls| - 1];
      PairIsKey(calls[..|calls| - 1], limit, identity, routeId, clock, lo, hi);
      JoinKeyInjective(c.identity, c.routeId, identity, routeId);
    }
  }

  lemma PairAdmissionsProject(
    calls: seq<Call>, limit: u32, identity: string, routeId: string, clock: Clock, lo: int, hi: int)
    requires NulFreeCalls(calls) && NulFree(identity)
    ensures PairAdmissions(calls, limit, identity, routeId, clock, lo, hi)
         == Admissions(PairTimes(calls, identity, routeId), limit, clock, lo, hi)
  {
    PairIsKey(calls, limit, identity, routeId, clock, lo, hi);
    KeyAdmissionsProject(calls, limit, JoinKey(identity, routeId), clock, lo, hi);
    KeyTimesArePairTimes(calls, identity, routeId);
  }

  /** The refused pair's own calls. */
  lemma RefusedOwn(calls: seq<Call>, limit: u32, clock: Clock, lag: nat)
    requires calls != [] && TimelyCalls(calls, clock, lag) && NulFreeCalls(calls) && !Admitted(calls, limit)
    ensures var c := calls[|calls| - 1];
            var own := PairTimes(calls, c.identity, c.routeId);
            own != [] && own[|own| - 1] == c.stamp && Timely(own, clock, lag) && !LastCall(own, limit).1
  {
    var c := calls[|calls| - 1];
    OutcomeIsOwn(calls, limit);
    KeyTimesArePairTimes(calls, c.identity, c.routeId);
    KeyTimesTimely(calls, KeyOf(c), clock, lag);
  }

  /** Never a wrong refusal: the refused pair was itself admitted `limit` times, at most a minute and the lag ago. */
  lemma RefusalHasCause(calls: seq<Call>, limit: u32, clock: Clock, lag: nat)
    requires calls != [] && TimelyCalls(calls, clock, lag) && NulFreeCalls(calls) && !Admitted(calls, limit)
    ensures var c := calls[|calls| - 1];
            var at := When(c.stamp, clock);
            PairAdmissions(calls, limit, c.identity, c.routeId, clock, at + 1 - WINDOW - lag, at + 1) >= limit
  {
    var c := calls[|calls| - 1];
    RefusedOwn(calls, limit, clock, lag);
    RefusalIsRecent(PairTimes(calls, c.identity, c.routeId), limit, clock, lag);
    var at := When(c.stamp, clock);
    PairAdmissionsProject(calls, limit, c.identity, c.routeId, clock, at + 1 - WINDOW - lag, at + 1);
  }

  /** How the admissions behind a refusal are spread: `since` the window opened at `start`, in the `lastMinute`, and
      those of that minute that are `older` than the window. */
  predicate Deserved(limit: u32, now: nat, start: int, since: nat, lastMinute: nat, older: nat) {
    && now - WINDOW < start <= now && since == limit
    && limit <= lastMinute <= Most(2, limit) && (lastMinute == limit <==> older == 0)
  }

  /**
   With readings in lock order the count is exact: `limit` admissions since the pair's window opened, less
   than a minute ago; within the whole last minute at least `limit` and fewer than twice `limit`, and exactly
   `limit` if and only if no admission of the minute is older than the window.
   */
  lemma RefusalIsDeserved(calls: seq<Call>, limit: u32) returns (start: int)
    requires calls != [] && ClockOrdered(calls) && NulFreeCalls(calls) && !Admitted(calls, limit)
    ensures var c := calls[|calls| - 1];
            Deserved(limit, c.stamp.now, start,
                     PairAdmissions(calls, limit, c.identity, c.routeId, Reading, start, c.stamp.now + 1),
                     PairAdmissions(calls, limit, c.identity, c.routeId, Reading, c.stamp.now + 1 - WINDOW, c.stamp.now + 1),
                     PairAdmissions(calls, limit, c.identity, c.routeId, Reading, c.stamp.now + 1 - WINDOW, start))
  {
    var c := calls[|calls| - 1];
    start := OwnRefusal(calls, limit);
    SpansProject(calls, limit, c.identity, c.routeId, c.stamp.now + 1 - WINDOW, start, c.stamp.now + 1);
  }

  lemma SpansProject(calls: seq<Call>, limit: u32, identity: string, routeId: string, from: int, start: int, to: int)
    requires NulFreeCalls(calls) && NulFree(identity)
    ensures var own := PairTimes(calls, identity, routeId);
            && PairAdmissions(calls, limit, identity, routeId, Reading, start, to) == Admissions(own, limit, Reading, start, to)
            && PairAdmissions(calls, limit, identity, routeId, Reading, from, to) == Admissions(own, limit, Reading, from, to)
            && PairAdmissions(calls, limit, identity, routeId, Reading, from, start) == Admissions(own, limit, Reading, from, start)
  {
    PairAdmissionsProject(calls, limit, identity, routeId, Reading, start, to);
    PairAdmissionsProject(calls, limit, identity, routeId, Reading, from, to);
    PairAdmissionsProject(calls, limit, identity, routeId, Reading, from, start);
  }

  /** The same over the refused pair's own calls. */
  lemma OwnRefusal(calls: seq<Call>, limit: u32) returns (start: int)
    requires calls != [] && ClockOrdered(calls) && NulFreeCalls(calls) && !Admitted(calls, limit)
    ensures var c := calls[|calls| - 1];
            var own := PairTimes(calls, c.identity, c.routeId);
            Deserved(limit, c.stamp.now, start, Admissions(own, limit, Reading, start, c.stamp.now + 1),
                     Admissions(own, limit, Reading, c.stamp.now + 1 - WINDOW, c.stamp.now + 1),
                     Admissions(own, limit, Reading, c.stamp.now + 1 - WINDOW, start))
  {
    var c := calls[|calls| - 1];
    var own := PairTimes(calls, c.identity, c.routeId);
    RefusedOwn(calls, limit, Reading, 0);
    start := LastCall(own, limit).0.started;
    RefusalReason(own, limit);
    RefusalWithinMinute(own, limit);
  }

  // ---------------------------------------------------------------- where the stronger claims fail

  function Prompt(second: nat): Stamp {
    Instant(second * SECOND)
  }

  /** A refusal may have more than `limit` admissions behind it in its last minute. */
  lemma MoreThanLimitInAMinute()
    ensures var ts := [Prompt(0), Prompt(59), Prompt(60), Prompt(61), Prompt(62)];
            && Timely(ts, Reading, 0) && !LastCall(ts, 2).1
            && Admissions(ts, 2, Reading, 62 * SECOND + 1 - WINDOW, 62 * SECOND + 1) == 3
  {
    var ts := [Prompt(0), Prompt(59), Prompt(60), Prompt(61), Prompt(62)];
    assert ts[..5] == ts && ts[..4][..3] == ts[..3] && ts[..3][..2] == ts[..2] && ts[..2][..1] == ts[..1] && ts[..1][..0] == [];
    TimelyUpTo(ts, 5);
    assert LastCall(ts[..1], 2) == (Window(0, 1), true);
    assert LastCall(ts[..2], 2) == (Window(0, 2), true);
    assert LastCall(ts[..3], 2) == (Window(60 * SECOND, 1), true);
    assert LastCall(ts[..4], 2) == (Window(60 * SECOND, 2), true);
    var lo, hi := 62 * SECOND + 1 - WINDOW, 62 * SECOND + 1;
    assert Admissions(ts[..1], 2, Reading, lo, hi) == 0;
    assert Admissions(ts[..2], 2, Reading, lo, hi) == 1;
    assert Admissions(ts[..3], 2, Reading, lo, hi) == 2;
    assert Admissions(ts[..4], 2, Reading, lo, hi) == 3;
  }

  /** `n` calls at one instant. */
  function Burst(t: nat, n: nat): (ts: seq<Stamp>)
    ensures |ts| == n
  {
    if n == 0 then [] else Burst(t, n - 1) + [Instant(t)]
  }

  /** A call, the rest of its window a moment later, and then a full window at the start of each of `k` minutes. */
  function BusyRun(limit: nat, k: nat): (ts: seq<Stamp>)
    requires limit > 0
    ensures ts != []
  {
    if k == 0 then [Instant(0)] + Burst(1, limit - 1)
    else BusyRun(limit, k - 1) + [Instant(k * WINDOW)] + Burst(k * WINDOW, limit - 1)
  }

  /** Where a run of prompt calls stands: its last instant, its window, and its admissions from instant 1 on. */
  ghost predicate Stands(ts: seq<Stamp>, limit: u32, last: nat, w: Window, admitted: nat, hi: int) {
    && ts != [] && Timely(ts, Reading, 0) && ts[|ts| - 1].now == last
    && LastCall(ts, limit).0 == w && Admissions(ts, limit, Reading, 1, hi) == admitted
  }

  lemma OneCall(ts: seq<Stamp>, limit: u32, last: nat, w: Window, admitted: nat, hi: int, t: nat)
    requires Stands(ts, limit, last, w, admitted, hi) && last <= t && 1 <= t < hi && limit > 0
    ensures t >= w.started + WINDOW ==> Stands(ts + [Instant(t)], limit, t, Window(t, 1), admitted + 1, hi)
    ensures t < w.started + WINDOW && w.count < limit ==>
              Stands(ts + [Instant(t)], limit, t, Window(w.started, w.count + 1), admitted + 1, hi)
  {
    var ts' := ts + [Instant(t)];
    assert ts'[..|ts|] == ts;
  }

  lemma {:induction false} BurstFills(ts: seq<Stamp>, limit: u32, last: nat, w: Window, admitted: nat, hi: int, t: nat, n: nat)
    requires Stands(ts, limit, last, w, admitted, hi) && last <= t && 1 <= t < hi
    requires t < w.started + WINDOW && w.count + n <= limit && n > 0
    ensures Stands(ts + Burst(t, n), limit, t, Window(w.started, w.count + n), admitted + n, hi)
  {
    if n == 1 {
      assert Burst(t, 1) == [Instant(t)];
      OneCall(ts, limit, last, w, admitted, hi, t);
    } else {
      BurstFills(ts, limit, last, w, admitted, hi, t, n - 1);
      var ts' := ts + Burst(t, n - 1);
      assert ts + Burst(t, n) == ts' + [Instant(t)];
      OneCall(ts', limit, t, Window(w.started, w.count + n - 1), admitted + n - 1, hi, t);
    }
  }

  /** Fills the window that the last call opened. */
  lemma RestOfWindow(ts: seq<Stamp>, limit: u32, last: nat, w: Window, admitted: nat, hi: int, t: nat) returns (last': nat)
    requires Stands(ts, limit, last, w, admitted, hi) && last <= t && 1 <= t < hi && limit > 0
    requires t < w.started + WINDOW && w.count == 1
    ensures last' <= t
    ensures Stands(ts + Burst(t, limit - 1), limit, last', Window(w.started, limit), admitted + limit - 1, hi)
  {
    if limit == 1 {
      assert ts + Burst(t, 0) == ts;
      last' := last;
    } else {
      BurstFills(ts, limit, last, w, admitted, hi, t, limit - 1);
      last' := t;
    }
  }

  lemma {:induction false} BusyStands(limit: u32, k: nat, hi: int) returns (last: nat)
    requires limit > 0 && hi > k * WINDOW && hi > 1
    ensures last <= k * WINDOW + 1 && Full(k + 1, limit) >= 1
    ensures Stands(BusyRun(limit, k), limit, last, Window(k * WINDOW, limit), Full(k + 1, limit) - 1, hi)
  {
    if k == 0 {
      var first := [Instant(0)];
      assert first[..0] == [];
      assert Stands(first, limit, 0, Window(0, 1), 0, hi);
      last := RestOfWindow(first, limit, 0, Window(0, 1), 0, hi, 1);
      assert Full(1, limit) == limit;
    } else {
      var before := BusyRun(limit, k - 1);
      last := BusyStands(limit, k - 1, hi);
      var t := k * WINDOW;
      OneCall(before, limit, last, Window((k - 1) * WINDOW, limit), Full(k, limit) - 1, hi, t);
      last := RestOfWindow(before + [Instant(t)], limit, t, Window(t, 1), Full(k, limit), hi, t);
    }
  }

  /** The bound is sharp: for every limit and every number of minutes there is a run, with prompt calls, that
      attains it. */
  lemma BoundIsAttained(limit: u32, k: nat)
    requires limit > 0 && k > 0
    ensures Timely(BusyRun(limit, k), Reading, 0)
    ensures Admissions(BusyRun(limit, k), limit, Reading, 1, 1 + k * WINDOW) == Most(k + 1, limit)
  {
    FullIsProduct(k + 1, limit);
    var last := BusyStands(limit, k, 1 + k * WINDOW);
  }

  /** `n` rounds, one a minute: a prompt call that opens a window, then a call that read the clock at zero. */
  function LateRounds(n: nat): seq<Stamp> {
    if n == 0 then [] else LateRounds(n - 1) + [Prompt(60 * n), Stamp(0, 60 * n * SECOND)]
  }

  /** By clock reading there is no bound once readings may be out of lock order: one instant gathers an
      admission a minute. */
  lemma {:induction false} LateReadingsUnbounded(n: nat)
    ensures Timely(LateRounds(n), Locking, 60 * n * SECOND)
    ensures Admissions(LateRounds(n), 2, Reading, 0, 1) == n
  {
    LateRoundsTimely(n, 60 * n * SECOND);
    LateRoundsAdmitted(n);
  }

  lemma {:induction false} LateRoundsTimely(n: nat, lag: nat)
    requires lag >= 60 * n * SECOND
    ensures Timely(LateRounds(n), Locking, lag)
    ensures n > 0 ==> LateRounds(n) != [] && LateRounds(n)[|LateRounds(n)| - 1].locked == 60 * n * SECOND
  {
    if n == 0 {
    } else {
      LateRoundsTimely(n - 1, lag);
      var earlier, ts := LateRounds(n - 1), LateRounds(n);
      var mid := earlier + [Prompt(60 * n)];
      assert mid[..|mid| - 1] == earlier && ts[..|ts| - 1] == mid;
      assert Timely(mid, Locking, lag);
    }
  }

  lemma {:induction false} LateRoundsAdmitted(n: nat)
    ensures n > 0 ==> LastCall(LateRounds(n), 2).0 == Window(60 * n * SECOND, 2)
    ensures Admissions(LateRounds(n), 2, Reading, 0, 1) == n
  {
    if n == 0 {
    } else {
      LateRoundsAdmitted(n - 1);
      var earlier, ts := LateRounds(n - 1), LateRounds(n);
      var mid := earlier + [Prompt(60 * n)];
      assert mid[..|mid| - 1] == earlier && ts[..|ts| - 1] == mid;
      assert LastCall(mid, 2) == (Window(60 * n * SECOND, 1), true);
      assert LastCall(ts, 2) == (Window(60 * n * SECOND, 2), true);
      assert Admissions(mid, 2, Reading, 0, 1) == n - 1;
    }
  }

  /** With a NUL in an identity two pairs share a window: the second is refused without any admission of its own. */
  lemma NulMergesPairs()
    ensures var calls := [Call("a\0b", "c", Prompt(0)), Call("a", "b\0c", Prompt(0))];
            !Admitted(calls, 1) && PairAdmissions(calls, 1, "a", "b\0c", Reading, 0, 1) == 0
  {
    var calls := [Call("a\0b", "c", Prompt(0)), Call("a", "b\0c", Prompt(0))];
    var before := calls[..1];
    assert before[..0] == [];
    assert KeyOf(calls[0]) == "a\0b\0c" == KeyOf(calls[1]);
    assert Windows(before, 1) == map["a\0b\0c" := Window(0, 1)];
    assert PairAdmissions(before, 1, "a", "b\0c", Reading, 0, 1) == 0;
  }
}
