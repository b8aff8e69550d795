/** How many notifications rate_limit lets through. A window opens with the event that finds
    none open, not on a fixed grid, so "N per window" bounds each window; over an arbitrary
    interval the exact bound is a little under twice that. */
module FloodRate {
  import opened GoTime
  import opened Flood
  import opened SendTimes

  /** The most sends of one key that fit in a closed interval of length x: N at a single
      instant, 2N - 1 over less than a window, N more for every further window. */
  function Allowance(n: nat, w: nat, x: nat): nat
    requires n > 0 && w > 0
    decreases x
  {
    if x == 0 then n
    else if x < w then 2 * n - 1
    else n + Allowance(n, w, x - w)
  }

  lemma {:induction false} AllowanceGrows(n: nat, w: nat, x: nat, y: nat)
    requires n > 0 && w > 0 && x <= y
    ensures n <= Allowance(n, w, x) <= Allowance(n, w, y)
    ensures y > 0 ==> 2 * n - 1 <= Allowance(n, w, y)
    decreases y
  {
    if y >= w {
      AllowanceGrows(n, w, if x >= w then x - w else 0, y - w);
    }
  }

  /** In closed form: if m windows cover the interval, N per window and N more, less one
      unless they cover it exactly. */
  lemma {:induction false} AllowanceClosedForm(n: nat, w: nat, x: nat, m: nat)
    requires n > 0 && w > 0 && x <= m * w
    ensures Allowance(n, w, x) <= n * (m + 1) - (if x == m * w then 0 else 1)
    decreases m
  {
    if x >= w {
      var m' := m - 1;
      assert m' * w == m * w - w;
      assert n * (m + 1) == n * (m' + 1) + n;
      AllowanceClosedForm(n, w, x - w, m');
    } else if m > 0 {
      assert n * (m + 1) >= n * 2;
      assert m * w >= w;
    }
  }

  // ---- The windows of one key ----

  /** The windows a key has had, the latest outermost, with the sends each counted. */
  datatype Log = NoWindow | Window(earlier: Log, start: Instant, sends: seq<Instant>)

  function LogOf(r: Run, k: string): Log {
    match r
    case Begin(_) => NoWindow
    case After(past, AdmitStep(ev, now)) =>
      if ev.key == k then
        CountSend(Reopen(LogOf(past, k), OpensWindow(StateOf(past), k, now), now),
                  OutcomeAt(past, ev, now), now)
      else LogOf(past, k)
    case After(past, _) => LogOf(past, k)
  }

  function Reopen(log: Log, opens: bool, now: Instant): Log {
    if opens then Window(log, now, []) else log
  }

  function CountSend(log: Log, outcome: Outcome, now: Instant): Log {
    if outcome == Send && log.Window? then log.(sends := log.sends + [now]) else log
  }

  function LogCount(log: Log, a: Instant, b: Instant): nat {
    match log
    case NoWindow => 0
    case Window(earlier, _, sends) => LogCount(earlier, a, b) + CountIn(sends, a, b)
  }

  /** The windows are at least w apart; each has counted at most n sends, all within w of
      its start, the first of them at its start. */
  ghost predicate Spaced(log: Log, n: nat, w: nat) {
    match log
    case NoWindow => true
    case Window(earlier, start, sends) =>
      && Spaced(earlier, n, w)
      && (earlier.Window? ==> earlier.start + w <= start)
      && |sends| <= n
      && (forall i :: 0 <= i < |sends| ==> start <= sends[i] < start + w)
      && (sends != [] ==> sends[0] == start)
  }

  /** The log and the run agree about the latest window. */
  ghost predicate Tracks(r: Run, k: string, log: Log, w: nat) {
    && (k in StateOf(r).buckets ==>
          var b := StateOf(r).buckets[k];
          && log.Window? && b.windowStart == log.start && b.sent == |log.sends| && b.sent > 0)
    && (forall t :: NotAfter(r, t) && log.Window? ==>
          && log.start <= t
          && (k !in StateOf(r).buckets ==> log.start + w <= t))
  }

  lemma {:induction false} AdmitTracks(past: Run, cfg: Config, ev: Event, now: Instant)
    requires cfg.strategy == RateLimit && cfg.rateN > 0 && cfg.rateWindow > 0
    requires StateOf(past).cfg == cfg && NotAfter(past, now)
    requires var log := LogOf(past, ev.key);
      Spaced(log, cfg.rateN, cfg.rateWindow) && Tracks(past, ev.key, log, cfg.rateWindow)
    ensures var r := After(past, AdmitStep(ev, now)); var log := LogOf(r, ev.key);
      Spaced(log, cfg.rateN, cfg.rateWindow) && Tracks(r, ev.key, log, cfg.rateWindow)
  {
    var s, k := StateOf(past), ev.key;
    if k in s.buckets {
      SubReachesWindow(now, s.buckets[k].windowStart, cfg.rateWindow);
    }
    var reopened := Reopen(LogOf(past, k), OpensWindow(s, k, now), now);
    assert Spaced(reopened, cfg.rateN, cfg.rateWindow);
    var b := CurrentBucket(s, k, now);
    assert b.windowStart == reopened.start && b.sent == |reopened.sends|;
    var r := After(past, AdmitStep(ev, now));
    if b.sent < cfg.rateN {
      assert LogOf(r, k) == reopened.(sends := reopened.sends + [now]);
      assert StateOf(r).buckets[k] == b.(sent := b.sent + 1);
    } else {
      assert LogOf(r, k) == reopened;
      assert StateOf(r).buckets[k].sent == b.sent;
    }
  }

  lemma {:induction false} LoggedThroughout(r: Run, cfg: Config, k: string)
    requires FixedConfig(r, cfg) && Monotone(r)
    requires cfg.strategy == RateLimit && cfg.rateN > 0 && cfg.rateWindow > 0
    ensures var log := LogOf(r, k);
      Spaced(log, cfg.rateN, cfg.rateWindow) && Tracks(r, k, log, cfg.rateWindow)
  {
    match r
    case Begin(_) =>
    case After(past, step) =>
      LoggedThroughout(past, cfg, k);
      FixedConfigState(past, cfg);
      match step {
        case AdmitStep(ev, now) =>
          if ev.key == k {
            AdmitTracks(past, cfg, ev, now);
          }
        case TickStep(now, _) =>
          if k in StateOf(past).buckets {
            SubReachesWindow(now, StateOf(past).buckets[k].windowStart, cfg.rateWindow);
          }
        case ConfigureStep(_) =>
      }
  }

  lemma CountSendCounts(log: Log, outcome: Outcome, now: Instant, a: Instant, b: Instant)
    requires log.Window?
    ensures LogCount(CountSend(log, outcome, now), a, b)
      == LogCount(log, a, b) + if outcome == Send && a <= now <= b then 1 else 0
  {
    if outcome == Send {
      CountInAppend(log.sends, now, a, b);
    }
  }

  /** The log counts what the run sent. */
  lemma {:induction false} LogCounts(r: Run, cfg: Config, k: string, a: Instant, b: Instant)
    requires FixedConfig(r, cfg) && Monotone(r)
    requires cfg.strategy == RateLimit && cfg.rateN > 0 && cfg.rateWindow > 0
    ensures LogCount(LogOf(r, k), a, b) == SendsIn(r, k, a, b)
  {
    match r
    case Begin(_) =>
    case After(past, step) =>
      LogCounts(past, cfg, k, a, b);
      LoggedThroughout(past, cfg, k);
      if step.AdmitStep? && step.ev.key == k {
        var log := Reopen(LogOf(past, k), OpensWindow(StateOf(past), k, step.now), step.now);
        CountSendCounts(log, OutcomeAt(past, step.ev, step.now), step.now, a, b);
      }
  }

  // ---- The bound ----

  lemma {:induction false} CountsAtMost(times: seq<Instant>, a: Instant, b: Instant)
    ensures CountIn(times, a, b) <= |times|
    ensures times != [] && times[0] < a ==> CountIn(times, a, b) <= |times| - 1
  {
    if times != [] {
      CountsAtMost(times[..|times| - 1], a, b);
    }
  }

  lemma {:induction false} CountsNone(times: seq<Instant>, a: Instant, b: Instant)
    requires forall i :: 0 <= i < |times| ==> times[i] < a || b < times[i]
    ensures CountIn(times, a, b) == 0
  {
    if times != [] {
      CountsNone(times[..|times| - 1], a, b);
    }
  }

  lemma AllowanceStep(n: nat, w: nat, x: nat, y: nat)
    requires n > 0 && w > 0 && x + w <= y
    ensures Allowance(n, w, x) + n <= Allowance(n, w, y)
  {
    AllowanceGrows(n, w, x, y - w);
  }

  /** The sends one window adds to the count. */
  lemma WindowCount(log: Log, n: nat, w: nat, a: Instant, b: Instant)
    requires log.Window? && Spaced(log, n, w) && n > 0
    ensures CountIn(log.sends, a, b) <= n
    ensures log.start < a ==> CountIn(log.sends, a, b) <= n - 1
    ensures log.start + w <= a || b < log.start ==> CountIn(log.sends, a, b) == 0
  {
    CountsAtMost(log.sends, a, b);
    if log.start + w <= a || b < log.start {
      CountsNone(log.sends, a, b);
    }
  }

  /** The sends up to b, by where the latest window opened. */
  lemma {:induction false} LogWithinAllowance(log: Log, n: nat, w: nat, a: Instant, b: Instant)
    requires n > 0 && w > 0 && a <= b && Spaced(log, n, w)
    ensures log.NoWindow? || log.start + w <= a ==> LogCount(log, a, b) == 0
    ensures log.Window? && log.start < a ==> LogCount(log, a, b) <= n - 1
    ensures log.Window? && a <= log.start <= b ==> LogCount(log, a, b) <= Allowance(n, w, log.start - a)
    ensures LogCount(log, a, b) <= Allowance(n, w, b - a)
  {
    AllowanceGrows(n, w, 0, b - a);
    if log.Window? {
      var earlier, start := log.earlier, log.start;
      LogWithinAllowance(earlier, n, w, a, b);
      WindowCount(log, n, w, a, b);
      assert LogCount(log, a, b) == LogCount(earlier, a, b) + CountIn(log.sends, a, b);
      if a <= start <= b {
        AllowanceGrows(n, w, start - a, b - a);
        if earlier.Window? && a <= earlier.start {
          AllowanceStep(n, w, earlier.start - a, start - a);
        }
      }
    }
  }

  /** The sliding bound: over any run, with ticks anywhere, the immediate sends of one key
      in a closed interval that m windows cover number at most N(m + 1), and one less
      unless the windows cover it exactly. */
  lemma {:induction false} SlidingRateBound(r: Run, cfg: Config, k: string, a: Instant, b: Instant, m: nat)
    requires FixedConfig(r, cfg) && Monotone(r)
    requires cfg.strategy == RateLimit && cfg.rateN > 0 && cfg.rateWindow > 0
    requires a <= b <= a + m * cfg.rateWindow
    ensures SendsIn(r, k, a, b) <=
      cfg.rateN * (m + 1) - (if b == a + m * cfg.rateWindow then 0 else 1)
  {
    LoggedThroughout(r, cfg, k);
    LogCounts(r, cfg, k, a, b);
    LogWithinAllowance(LogOf(r, k), cfg.rateN, cfg.rateWindow, a, b);
    AllowanceClosedForm(cfg.rateN, cfg.rateWindow, b - a, m);
  }

  /** The most sends of a key in any stretch of one window's length. A window of one
      nanosecond is a single instant. */
  function PeakSends(cfg: Config): int {
    if cfg.rateWindow == 1 then cfg.rateN else 2 * cfg.rateN - 1
  }

  lemma {:induction false} SlidingWindowBound(r: Run, cfg: Config, k: string, a: Instant)
    requires FixedConfig(r, cfg) && Monotone(r)
    requires cfg.strategy == RateLimit && cfg.rateN > 0 && cfg.rateWindow > 0
    ensures SendsIn(r, k, a, a + cfg.rateWindow - 1) <= PeakSends(cfg)
  {
    var b := a + cfg.rateWindow - 1;
    LoggedThroughout(r, cfg, k);
    LogCounts(r, cfg, k, a, b);
    LogWithinAllowance(LogOf(r, k), cfg.rateN, cfg.rateWindow, a, b);
  }

  // ---- The bound is reached ----

  /** The run followed by m events at one time. */
  function Burst(r: Run, ev: Event, now: Instant, m: nat): Run {
    if m == 0 then r else After(Burst(r, ev, now, m - 1), AdmitStep(ev, now))
  }

  lemma {:induction false} OneIsSent(r: Run, cfg: Config, ev: Event, now: Instant, a: Instant, b: Instant)
    requires FixedConfig(r, cfg) && Monotone(r) && NotAfter(r, now) && cfg.strategy == RateLimit
    requires CurrentBucket(StateOf(r), ev.key, now).sent < cfg.rateN
    ensures var q, was := After(r, AdmitStep(ev, now)), CurrentBucket(StateOf(r), ev.key, now);
      && FixedConfig(q, cfg) && Monotone(q) && NotAfter(q, now)
      && SendsIn(q, ev.key, a, b) == SendsIn(r, ev.key, a, b) + (if a <= now <= b then 1 else 0)
      && ev.key in StateOf(q).buckets && StateOf(q).buckets[ev.key] == was.(sent := was.sent + 1)
  {
    FixedConfigState(r, cfg);
    assert OutcomeAt(r, ev, now) == Send;
  }

  /** A burst that fits in what is left of the window is sent whole. */
  lemma {:induction false} BurstIsSent(r: Run, cfg: Config, ev: Event, now: Instant, m: nat, a: Instant, b: Instant)
    requires FixedConfig(r, cfg) && Monotone(r) && NotAfter(r, now) && cfg.strategy == RateLimit
    requires cfg.rateWindow > 0 && Sub(now, CurrentBucket(StateOf(r), ev.key, now).windowStart) < cfg.rateWindow
    requires CurrentBucket(StateOf(r), ev.key, now).sent + m <= cfg.rateN
    ensures var q, was := Burst(r, ev, now, m), CurrentBucket(StateOf(r), ev.key, now);
      && FixedConfig(q, cfg) && Monotone(q) && NotAfter(q, now)
      && SendsIn(q, ev.key, a, b) == SendsIn(r, ev.key, a, b) + (if a <= now <= b then m else 0)
      && (m > 0 ==> ev.key in StateOf(q).buckets && StateOf(q).buckets[ev.key] == was.(sent := was.sent + m))
  {
    if m > 0 {
      var most := Burst(r, ev, now, m - 1);
      BurstIsSent(r, cfg, ev, now, m - 1, a, b);
      FixedConfigState(most, cfg);
      OneIsSent(most, cfg, ev, now, a, b);
    }
  }

  /** One event opens a window at 1, and N - 1 more come as it is about to close. */
  lemma FillLate(cfg: Config, ev: Event, b: Instant) returns (r: Run)
    requires cfg.strategy == RateLimit && cfg.rateN > 0 && 1 < cfg.rateWindow <= b
    ensures FixedConfig(r, cfg) && Monotone(r) && NotAfter(r, cfg.rateWindow)
    ensures SendsIn(r, ev.key, cfg.rateWindow, b) == cfg.rateN - 1
    ensures ev.key in StateOf(r).buckets && StateOf(r).buckets[ev.key].windowStart == 1
  {
    var w: int := cfg.rateWindow;
    var first := After(Begin(cfg), AdmitStep(ev, 1));
    OneIsSent(Begin(cfg), cfg, ev, 1, w, b);
    NotAfterLater(first, 1, w);
    OpenedOnce(first, cfg, ev, w);
    BurstIsSent(first, cfg, ev, w, cfg.rateN - 1, w, b);
    r := Burst(first, ev, w, cfg.rateN - 1);
  }

  /** As soon as it has closed N more are sent. */
  lemma {:induction false} ThenBurst(full: Run, cfg: Config, ev: Event, b: Instant) returns (r: Run)
    requires cfg.strategy == RateLimit && cfg.rateN > 0 && 1 < cfg.rateWindow < b
    requires FixedConfig(full, cfg) && Monotone(full) && NotAfter(full, cfg.rateWindow)
    requires ev.key in StateOf(full).buckets && StateOf(full).buckets[ev.key].windowStart == 1
    ensures FixedConfig(r, cfg) && Monotone(r)
    ensures SendsIn(r, ev.key, cfg.rateWindow, b) == SendsIn(full, ev.key, cfg.rateWindow, b) + cfg.rateN
  {
    var w: int := cfg.rateWindow;
    OpenedOnce(full, cfg, ev, w + 1);
    NotAfterLater(full, w, w + 1);
    BurstIsSent(full, cfg, ev, w + 1, cfg.rateN, w, b);
    r := Burst(full, ev, w + 1, cfg.rateN);
  }

  lemma BurstAtOnce(cfg: Config, ev: Event, now: Instant) returns (r: Run)
    requires cfg.strategy == RateLimit && cfg.rateN > 0 && cfg.rateWindow > 0
    ensures FixedConfig(r, cfg) && Monotone(r)
    ensures SendsIn(r, ev.key, now, now) == cfg.rateN
  {
    var start := Begin(cfg);
    BurstIsSent(start, cfg, ev, now, cfg.rateN, now, now);
    r := Burst(start, ev, now, cfg.rateN);
  }

  /** 2N - 1 within a window's length, for every N and every window; N when the window is a
      single instant. */
  lemma PeakIsReached(cfg: Config, ev: Event) returns (r: Run, a: Instant)
    requires cfg.strategy == RateLimit && cfg.rateN > 0 && cfg.rateWindow > 0
    ensures FixedConfig(r, cfg) && Monotone(r)
    ensures SendsIn(r, ev.key, a, a + cfg.rateWindow - 1) == PeakSends(cfg)
  {
    a := cfg.rateWindow;
    if cfg.rateWindow == 1 {
      r := BurstAtOnce(cfg, ev, a);
    } else {
      var full := FillLate(cfg, ev, a + cfg.rateWindow as int - 1);
      r := ThenBurst(full, cfg, ev, a + cfg.rateWindow as int - 1);
    }
  }

  /** Where the window opened at 1 stands at a later time. */
  lemma {:induction false} OpenedOnce(r: Run, cfg: Config, ev: Event, now: Instant)
    requires FixedConfig(r, cfg) && cfg.rateWindow > 1 && 1 <= now <= cfg.rateWindow + 1
    requires ev.key in StateOf(r).buckets && StateOf(r).buckets[ev.key].windowStart == 1
    ensures CurrentBucket(StateOf(r), ev.key, now) ==
      if now == cfg.rateWindow + 1 then Bucket(now, 0, []) else StateOf(r).buckets[ev.key]
  {
    FixedConfigState(r, cfg);
    SubReachesWindow(now, 1, cfg.rateWindow);
  }

  /** The documented limit read over any stretch of time: while times never go back, no key is
      sent more than N times within one window's length. */
  ghost predicate NeverMoreThanN(cfg: Config) {
    forall r: Run, k: string, a: Instant, b: Instant :: FixedConfig(r, cfg) && Monotone(r) && b == a + cfg.rateWindow - 1
      ==> SendsIn(r, k, a, b) <= cfg.rateN
  }

  /** Read so, and with such a clock, it holds exactly for N = 1 and for a window of a single
      nanosecond. */
  lemma NeverMoreThanNIff(cfg: Config)
    requires cfg.strategy == RateLimit && cfg.rateN > 0 && cfg.rateWindow > 0
    ensures NeverMoreThanN(cfg) <==> cfg.rateN == 1 || cfg.rateWindow == 1
  {
    if cfg.rateN == 1 || cfg.rateWindow == 1 {
      forall r: Run, k: string, a: Instant, b: Instant | FixedConfig(r, cfg) && Monotone(r) && b == a + cfg.rateWindow - 1
        ensures SendsIn(r, k, a, b) <= cfg.rateN
      {
        SlidingWindowBound(r, cfg, k, a);
      }
    } else {
      var r, a := PeakIsReached(cfg, Event("", "", "", 0, []));
      assert SendsIn(r, "", a, a + cfg.rateWindow - 1) > cfg.rateN;
    }
  }

  // ---- Without the clock ----

  /** An event, and a tick as the window closes. */
  function Overtake(r: Run, cfg: Config, ev: Event): Run {
    After(After(r, AdmitStep(ev, 1)), TickStep(cfg.rateWindow + 1, [ev.key]))
  }

  /** The tick has cleared the window away. */
  lemma {:induction false} OvertakeSendsOne(r: Run, cfg: Config, ev: Event)
    requires cfg.strategy == RateLimit && cfg.rateN > 0 && cfg.rateWindow > 0
    requires FixedConfig(r, cfg) && Faithful(r) && StateOf(r).buckets == map[]
    ensures var q := Overtake(r, cfg, ev);
      && FixedConfig(q, cfg) && Faithful(q) && StateOf(q).buckets == map[]
      && SendsIn(q, ev.key, 1, 1) == SendsIn(r, ev.key, 1, 1) + 1
  {
    FixedConfigState(r, cfg);
    var sent := After(r, AdmitStep(ev, 1));
    assert StateOf(sent).buckets == map[ev.key := Bucket(1, 1, [])];
    assert Enumerates([ev.key], {ev.key});
    SubReachesWindow(cfg.rateWindow + 1, 1, cfg.rateWindow);
  }

  /** Events that ticks overtake are not limited at all: for every N, every window and every m
      some run sends one key m times at a single instant. */
  lemma {:induction false} NoLimitWithoutClock(cfg: Config, ev: Event, m: nat) returns (r: Run)
    requires cfg.strategy == RateLimit && cfg.rateN > 0 && cfg.rateWindow > 0
    ensures FixedConfig(r, cfg) && Faithful(r) && StateOf(r).buckets == map[]
    ensures SendsIn(r, ev.key, 1, 1) == m
  {
    if m == 0 {
      r := Begin(cfg);
    } else {
      var most := NoLimitWithoutClock(cfg, ev, m - 1);
      OvertakeSendsOne(most, cfg, ev);
      r := Overtake(most, cfg, ev);
    }
  }
}
