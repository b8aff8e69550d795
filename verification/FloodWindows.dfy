/** What rate_limit means for one key, told without buckets, ticks or other keys: cut the
    key's events into windows, each opened by the first event that comes a window's length
    or more after the last opening; the first N events of a window are sent, the rest held. */
module FloodWindows {
  import opened GoTime
  import opened Flood
  import opened FloodConservation
  import Rollups
  import Text

  /** The latest window: when it opened, how many events it has, and those beyond the first n. */
  datatype Window = NoWindow | Window(start: Instant, count: nat, overflow: seq<Event>)

  function Extend(w: Window, ev: Event, now: Instant, n: int, length: Duration): Window {
    var at := if w.NoWindow? || Sub(now, w.start) >= length then Window(now, 0, []) else w;
    at.(count := at.count + 1, overflow := at.overflow + if at.count < n then [] else [ev])
  }

  /** An event of the key and its time. */
  datatype Arrival = Arrival(ev: Event, now: Instant)

  function LatestWindow(arrivals: seq<Arrival>, n: int, length: Duration): Window {
    if arrivals == [] then NoWindow
    else
      var last := arrivals[|arrivals| - 1];
      Extend(LatestWindow(arrivals[..|arrivals| - 1], n, length), last.ev, last.now, n, length)
  }

  /** The answers the cut into windows calls for. */
  function Expected(arrivals: seq<Arrival>, n: int, length: Duration): seq<Outcome> {
    if arrivals == [] then []
    else
      Expected(arrivals[..|arrivals| - 1], n, length)
      + [if LatestWindow(arrivals, n, length).count <= n then Send else Hold]
  }

  function ArrivalsOf(r: Run, k: string): seq<Arrival> {
    match r
    case Begin(_) => []
    case After(past, AdmitStep(ev, now)) =>
      ArrivalsOf(past, k) + if ev.key == k then [Arrival(ev, now)] else []
    case After(past, _) => ArrivalsOf(past, k)
  }

  function OutcomesOf(r: Run, k: string): seq<Outcome> {
    match r
    case Begin(_) => []
    case After(past, AdmitStep(ev, now)) =>
      OutcomesOf(past, k) + if ev.key == k then [OutcomeAt(past, ev, now)] else []
    case After(past, _) => OutcomesOf(past, k)
  }

  function WindowOf(r: Run, cfg: Config, k: string): Window {
    LatestWindow(ArrivalsOf(r, k), cfg.rateN, cfg.rateWindow)
  }

  /** A bucket is the latest window, the first N of its events only counted. */
  ghost predicate Holds(s: State, k: string, w: Window, cfg: Config) {
    k in s.buckets ==>
      var b := s.buckets[k];
      && w.Window? && b.windowStart == w.start && b.held == w.overflow
      && b.sent == (if w.count <= cfg.rateN then w.count else if cfg.rateN < 0 then 0 else cfg.rateN)
  }

  /** A window whose bucket is gone is over, at every later time. */
  ghost predicate Gone(r: Run, k: string, w: Window, cfg: Config) {
    k !in StateOf(r).buckets && w.Window? ==>
      forall t :: NotAfter(r, t) ==> Sub(t, w.start) >= cfg.rateWindow
  }

  ghost predicate Agrees(r: Run, k: string, w: Window, cfg: Config) {
    Holds(StateOf(r), k, w, cfg) && Gone(r, k, w, cfg)
  }

  lemma {:induction false} AdmitAgrees(past: Run, cfg: Config, ev: Event, now: Instant, w: Window)
    requires cfg.strategy == RateLimit && StateOf(past).cfg == cfg && NotAfter(past, now)
    requires Agrees(past, ev.key, w, cfg)
    ensures var w' := Extend(w, ev, now, cfg.rateN, cfg.rateWindow);
      && Agrees(After(past, AdmitStep(ev, now)), ev.key, w', cfg)
      && OutcomeAt(past, ev, now) == if w'.count <= cfg.rateN then Send else Hold
  {
  }

  lemma {:induction false} OtherKeyAgrees(past: Run, cfg: Config, ev: Event, now: Instant, k: string, w: Window)
    requires StateOf(past).cfg == cfg && Agrees(past, k, w, cfg) && ev.key != k
    ensures Agrees(After(past, AdmitStep(ev, now)), k, w, cfg)
  {
  }

  lemma ArrivalsExtend(arrivals: seq<Arrival>, ev: Event, now: Instant, n: int, length: Duration)
    ensures LatestWindow(arrivals + [Arrival(ev, now)], n, length)
      == Extend(LatestWindow(arrivals, n, length), ev, now, n, length)
  {
    assert (arrivals + [Arrival(ev, now)])[..|arrivals|] == arrivals;
  }

  lemma {:induction false} TickAgrees(past: Run, cfg: Config, k: string, now: Instant, order: seq<string>, w: Window)
    requires StateOf(past).cfg == cfg && cfg.strategy == RateLimit && Agrees(past, k, w, cfg)
    ensures Agrees(After(past, TickStep(now, order)), k, w, cfg)
  {
    var r := After(past, TickStep(now, order));
    if k !in StateOf(r).buckets && w.Window? {
      forall t | NotAfter(r, t) ensures Sub(t, w.start) >= cfg.rateWindow {
        assert NotAfter(past, t) && now <= t;
        assert Sub(now, w.start) <= Sub(t, w.start);
      }
    }
  }

  lemma {:induction false} WindowsThroughout(r: Run, cfg: Config, k: string)
    requires FixedConfig(r, cfg) && Monotone(r) && cfg.strategy == RateLimit
    ensures Agrees(r, k, WindowOf(r, cfg, k), cfg)
  {
    match r
    case Begin(_) =>
    case After(past, AdmitStep(ev, now)) =>
      WindowsThroughout(past, cfg, k);
      FixedConfigState(past, cfg);
      if ev.key == k {
        ArrivalsExtend(ArrivalsOf(past, k), ev, now, cfg.rateN, cfg.rateWindow);
        AdmitAgrees(past, cfg, ev, now, WindowOf(past, cfg, k));
      } else {
        assert ArrivalsOf(r, k) == ArrivalsOf(past, k);
        OtherKeyAgrees(past, cfg, ev, now, k, WindowOf(past, cfg, k));
      }
    case After(past, TickStep(now, order)) =>
      WindowsThroughout(past, cfg, k);
      FixedConfigState(past, cfg);
      TickAgrees(past, cfg, k, now, order, WindowOf(past, cfg, k));
    case After(past, ConfigureStep(_)) =>
      WindowsThroughout(past, cfg, k);
      FixedConfigState(past, cfg);
  }

  /** Over any run with ticks anywhere and any other keys' events in between, the answers to
      one key's events are those its own events call for. */
  lemma {:induction false} RateLimitRefinesWindows(r: Run, cfg: Config, k: string)
    requires FixedConfig(r, cfg) && Monotone(r) && cfg.strategy == RateLimit
    ensures OutcomesOf(r, k) == Expected(ArrivalsOf(r, k), cfg.rateN, cfg.rateWindow)
  {
    match r
    case Begin(_) =>
    case After(past, step) =>
      RateLimitRefinesWindows(past, cfg, k);
      WindowsThroughout(past, cfg, k);
      FixedConfigState(past, cfg);
      if step.AdmitStep? && step.ev.key == k {
        var arrivals, last := ArrivalsOf(past, k), Arrival(step.ev, step.now);
        ArrivalsExtend(arrivals, step.ev, step.now, cfg.rateN, cfg.rateWindow);
        AdmitAgrees(past, cfg, step.ev, step.now, WindowOf(past, cfg, k));
        assert (arrivals + [last])[..|arrivals|] == arrivals;
      } else {
        assert ArrivalsOf(r, k) == ArrivalsOf(past, k) && OutcomesOf(r, k) == OutcomesOf(past, k);
      }
  }

  /** A summary is never early and never partial: if a tick sums up key k, then k's latest
      window is over and the summary is all of that window beyond the first N; and if the
      window is over with such events still pending, the tick does sum it up. */
  lemma {:induction false} SummaryIsWindowOverflow(past: Run, cfg: Config, now: Instant, order: seq<string>, k: string)
    requires FixedConfig(past, cfg) && Monotone(past) && cfg.strategy == RateLimit
    requires Enumerates(order, StateOf(past).buckets.Keys)
    ensures var w, out := WindowOf(past, cfg, k), SummariesOf(BatchesAt(past, now, order), k);
      if w.Window? && PendingOf(StateOf(past), k) != [] && Sub(now, w.start) >= cfg.rateWindow
      then out == [Emitted(w.overflow)] && PendingOf(StateOf(past), k) == w.overflow
      else out == []
  {
    FixedConfigState(past, cfg);
    WindowsThroughout(past, cfg, k);
    TickEmits(StateOf(past), now, order, k, SummariesOf(BatchesAt(past, now, order), k));
  }

  /** The text of a summary, so: it counts the events of the closed window beyond the first N,
      and names the first of them. */
  lemma {:induction false} SummaryNamesOverflow(past: Run, cfg: Config, now: Instant, order: seq<string>, k: string,
                                                held: seq<Event>, r: Rollups.Rollup)
    requires FixedConfig(past, cfg) && Monotone(past) && cfg.strategy == RateLimit
    requires Enumerates(order, StateOf(past).buckets.Keys)
    requires SummariesOf(BatchesAt(past, now, order), k) == [Emitted(held)] && Rollups.IsSummary(r, held)
    ensures var w := WindowOf(past, cfg, k);
      && w.Window? && w.overflow != []
      && r.title == "Rate limit summary" && r.count == |w.overflow|
      && r.body == "+" + Text.Itoa(|w.overflow|) + " more " + w.overflow[0].name
                   + " suppressed during the rate-limit window"
  {
    SummaryIsWindowOverflow(past, cfg, now, order, k);
    assert [Emitted(held)][0] == Emitted(held);
  }
}
