/** The documentation promises that the events held under rate_limit are sent as one summary
    when their window closes. This is when the code collects them all into summaries, and in
    time; to whom a summary is then sent is in Delivery.dfy. */
module FloodPromise {
  import opened GoTime
  import opened Flood
  import opened FloodConservation

  // ---- Nothing is dropped ----

  /** No admission of the run meets an expired bucket that still holds events. */
  predicate NeverReplacesHeld(r: Run) {
    match r
    case Begin(_) => true
    case After(past, AdmitStep(ev, now)) =>
      NeverReplacesHeld(past) && !ReplacesHeld(StateOf(past), ev.key, now)
    case After(past, _) => NeverReplacesHeld(past)
  }

  lemma {:induction false} LosesNothing(r: Run)
    ensures Loss(r, One) == 0 <==> NeverReplacesHeld(r)
  {
    match r
    case Begin(_) =>
    case After(past, AdmitStep(ev, now)) =>
      LosesNothing(past);
      if ReplacesHeld(StateOf(past), ev.key, now) {
        WeighOne(StateOf(past).buckets[ev.key].held);
      }
    case After(past, _) =>
      LosesNothing(past);
  }

  /** Every held event is summarised or still in some bucket exactly in the runs in which no
      admission replaces a bucket that holds events. (It may be in that bucket for long: see
      CollectedInTimeIff.) */
  lemma {:induction false} HeldEventsSurviveIff(r: Run)
    requires Faithful(r)
    ensures Held(r, One) == Emission(r, One) + Pending(StateOf(r).buckets, One) <==> NeverReplacesHeld(r)
  {
    AllHeldConserved(r, One);
    LosesNothing(r);
  }

  // ---- And nothing is left behind ----

  /** The buckets whose window is over at `now`. */
  function Overdue(s: State, now: Instant): map<string, Bucket> {
    map key | key in s.buckets && Expired(s.cfg, s.buckets[key], now) :: s.buckets[key]
  }

  ghost predicate NothingOverdue(s: State, now: Instant) {
    forall k :: k in s.buckets && Expired(s.cfg, s.buckets[k], now) ==> s.buckets[k].held == []
  }

  ghost predicate Splits(m: map<string, Bucket>, a: map<string, Bucket>, b: map<string, Bucket>) {
    && (forall k :: k in m ==> (k in a && k !in b && a[k] == m[k]) || (k in b && k !in a && b[k] == m[k]))
    && (forall k :: k in a || k in b ==> k in m)
  }

  lemma {:induction false} PendingSplits(m: map<string, Bucket>, a: map<string, Bucket>, b: map<string, Bucket>,
                                         w: Event -> nat)
    requires Splits(m, a, b)
    ensures Pending(m, w) == Pending(a, w) + Pending(b, w)
    decreases |m|
  {
    if m == map[] {
      assert a == map[] && b == map[];
    } else {
      var k :| k in m;
      PendingSplit(m, k, w);
      PendingWithout(a, k, w);
      PendingWithout(b, k, w);
      PendingSplits(m - {k}, a - {k}, b - {k}, w);
    }
  }

  lemma PendingParts(s: State, now: Instant, w: Event -> nat)
    ensures Pending(s.buckets, w) == Pending(StillOpen(s, now), w) + Pending(Overdue(s, now), w)
  {
    PendingSplits(s.buckets, StillOpen(s, now), Overdue(s, now), w);
  }

  lemma {:induction false} NothingPending(buckets: map<string, Bucket>)
    ensures Pending(buckets, One) == 0 <==> forall k :: k in buckets ==> buckets[k].held == []
    decreases |buckets|
  {
    if buckets != map[] {
      var k :| k in buckets;
      PendingSplit(buckets, k, One);
      WeighOne(buckets[k].held);
      NothingPending(buckets - {k});
      assert forall l :: l in buckets <==> l == k || l in buckets - {k};
    }
  }

  lemma OverdueIsNothing(s: State, now: Instant)
    ensures Pending(Overdue(s, now), One) == 0 <==> NothingOverdue(s, now)
  {
    var over := Overdue(s, now);
    NothingPending(over);
    assert forall k :: k in over <==> k in s.buckets && Expired(s.cfg, s.buckets[k], now);
    assert forall k :: k in over ==> over[k] == s.buckets[k];
  }

  /** Collected in time, as it stands right after any tick: every held event is in a summary, or in
      a bucket whose window is not over. It is kept exactly if no admission has replaced a
      bucket that held events and, at the tick, rate_limit was on or no window that is over
      had events left. */
  lemma {:induction false} CollectedInTimeIff(past: Run, now: Instant, order: seq<string>)
    requires Faithful(After(past, TickStep(now, order)))
    ensures var r := After(past, TickStep(now, order));
      Held(r, One) == Emission(r, One) + Pending(StillOpen(StateOf(r), now), One) <==>
        && NeverReplacesHeld(past)
        && (StateOf(past).cfg.strategy == RateLimit || NothingOverdue(StateOf(past), now))
  {
    var r := After(past, TickStep(now, order));
    AllHeldConserved(r, One);
    LosesNothing(r);
    PendingParts(StateOf(r), now, One);
    OverdueIsNothing(StateOf(r), now);
    assert StateOf(r).cfg == StateOf(past).cfg;
    if StateOf(past).cfg.strategy == RateLimit {
      assert NothingOverdue(StateOf(r), now);
    } else {
      assert StateOf(r).buckets == StateOf(past).buckets;
    }
  }

  lemma {:induction false} FatesAreEmissions(r: Run, k: string, fates: seq<Fate>)
    requires NeverReplacesHeld(r) && fates == Fates(r, k)
    ensures forall i :: 0 <= i < |fates| ==> fates[i].Emitted?
  {
    match r
    case Begin(_) =>
    case After(past, step) =>
      FatesAreEmissions(past, k, Fates(past, k));
      if step.TickStep? {
        var batches := BatchesAt(past, step.now, step.order);
        SummariesAreEmissions(batches, k, SummariesOf(batches, k));
      }
  }

  lemma {:induction false} SummariesAreEmissions(batches: seq<Batch>, k: string, fates: seq<Fate>)
    requires fates == SummariesOf(batches, k)
    ensures forall i :: 0 <= i < |fates| ==> fates[i].Emitted?
  {
    if batches != [] {
      var most := batches[..|batches| - 1];
      SummariesAreEmissions(most, k, SummariesOf(most, k));
    }
  }

  // ---- Ticks in time ----

  /** A key's window as its history tells it: opened by the admission that finds none or one
      that is over, closed by the first tick that sees it over. */
  datatype Track = Closed | Open(start: Instant, count: nat)

  predicate IsOver(t: Track, now: Instant, cfg: Config) {
    t.Open? && Sub(now, t.start) >= cfg.rateWindow
  }

  function TrackOf(r: Run, k: string, cfg: Config): Track {
    match r
    case Begin(_) => Closed
    case After(past, AdmitStep(ev, now)) =>
      var t := TrackOf(past, k, cfg);
      if ev.key != k then t
      else if t.Closed? || IsOver(t, now, cfg) then Open(now, 1)
      else t.(count := t.count + 1)
    case After(past, TickStep(now, _)) =>
      var t := TrackOf(past, k, cfg);
      if IsOver(t, now, cfg) then Closed else t
    case After(past, _) => TrackOf(past, k, cfg)
  }

  /** No event comes upon a window of its key that is over, that no tick has closed yet, and
      that had more than N events. */
  predicate TickedInTime(r: Run, cfg: Config) {
    match r
    case Begin(_) => true
    case After(past, AdmitStep(ev, now)) =>
      var t := TrackOf(past, ev.key, cfg);
      TickedInTime(past, cfg) && !(IsOver(t, now, cfg) && t.count > cfg.rateN)
    case After(past, _) => TickedInTime(past, cfg)
  }

  /** A key's bucket is its open window. */
  ghost predicate Agrees(s: State, k: string, t: Track, cfg: Config) {
    && (k in s.buckets <==> t.Open?)
    && (t.Open? ==>
          var b := s.buckets[k];
          && b.windowStart == t.start && t.count >= 1
          && b.sent == (if t.count <= cfg.rateN then t.count else if cfg.rateN < 0 then 0 else cfg.rateN)
          && (b.held == [] <==> t.count <= cfg.rateN))
  }

  lemma AdmitAgrees(s: State, cfg: Config, ev: Event, now: Instant, k: string, t: Track)
    requires s.cfg == cfg && cfg.strategy == RateLimit && Agrees(s, k, t, cfg)
    ensures ev.key != k ==> Agrees(Admit(s, ev, now).0, k, t, cfg)
    ensures ev.key == k ==>
      Agrees(Admit(s, ev, now).0, k,
             if t.Closed? || IsOver(t, now, cfg) then Open(now, 1) else t.(count := t.count + 1), cfg)
  {
  }

  lemma {:induction false} AgreesThroughout(r: Run, cfg: Config, k: string)
    requires FixedConfig(r, cfg) && cfg.strategy == RateLimit
    ensures Agrees(StateOf(r), k, TrackOf(r, k, cfg), cfg)
  {
    match r
    case Begin(_) =>
    case After(past, step) =>
      AgreesThroughout(past, cfg, k);
      FixedConfigState(past, cfg);
      if step.AdmitStep? {
        AdmitAgrees(StateOf(past), cfg, step.ev, step.now, k, TrackOf(past, k, cfg));
      }
  }

  /** Nothing is dropped if and only if the ticks are in time, whatever the clock does. */
  lemma {:induction false} TimelyTicksIff(r: Run, cfg: Config)
    requires FixedConfig(r, cfg) && cfg.strategy == RateLimit
    ensures NeverReplacesHeld(r) <==> TickedInTime(r, cfg)
  {
    match r
    case Begin(_) =>
    case After(past, step) =>
      TimelyTicksIff(past, cfg);
      FixedConfigState(past, cfg);
      if step.AdmitStep? {
        AgreesThroughout(past, cfg, step.ev.key);
      }
  }

  /** With ticks in time, right after any tick: a key's held events are, in order, exactly
      those sent in summaries and then those of a window that is not over yet. */
  lemma {:induction false} TimelyTicksDeliver(past: Run, now: Instant, order: seq<string>, cfg: Config, k: string,
                                              fates: seq<Fate>)
    requires var r := After(past, TickStep(now, order));
      Faithful(r) && FixedConfig(r, cfg) && TickedInTime(r, cfg) && fates == Fates(r, k)
    requires cfg.strategy == RateLimit
    ensures var s := StateOf(After(past, TickStep(now, order)));
      && (forall i :: 0 <= i < |fates| ==> fates[i].Emitted?)
      && HeldOf(After(past, TickStep(now, order)), k) == EventsOf(fates) + PendingOf(s, k)
      && (PendingOf(s, k) != [] ==> Sub(now, s.buckets[k].windowStart) < cfg.rateWindow)
  {
    var r := After(past, TickStep(now, order));
    TimelyTicksIff(r, cfg);
    FatesAreEmissions(r, k, fates);
    HeldEventsConserved(r, k);
    FixedConfigState(past, cfg);
  }

  // ---- How it fails ----

  /** One trap held, and the next one after the window overtakes the tick: the held event is
      in no summary and in no bucket. */
  lemma OvertakenTickDrops(cfg: Config, ev: Event)
    requires cfg.strategy == RateLimit && cfg.rateN == 1 && cfg.rateWindow == 60
    ensures
      var r := After(After(After(Begin(cfg), AdmitStep(ev, 1)), AdmitStep(ev, 2)), AdmitStep(ev, 61));
      && Faithful(r) && FixedConfig(r, cfg) && Monotone(r)
      && HeldOf(r, ev.key) == [ev]
      && Fates(r, ev.key) == [Dropped([ev])]
      && PendingOf(StateOf(r), ev.key) == []
  {
    var start := Begin(cfg);
    assert Faithful(start) && FixedConfig(start, cfg) && Monotone(start);
    assert NotAfter(start, 1) && NotAfter(start, 2) && NotAfter(start, 61);
    assert HeldOf(start, ev.key) == [] && Fates(start, ev.key) == [];
    var sent := After(start, AdmitStep(ev, 1));
    assert StateOf(sent).buckets == map[ev.key := Bucket(1, 1, [])];
    assert Faithful(sent) && FixedConfig(sent, cfg) && Monotone(sent) && NotAfter(sent, 2) && NotAfter(sent, 61);
    assert HeldOf(sent, ev.key) == [] && Fates(sent, ev.key) == [];
    var held := After(sent, AdmitStep(ev, 2));
    assert CurrentBucket(StateOf(sent), ev.key, 2) == Bucket(1, 1, []);
    assert StateOf(held).buckets[ev.key] == Bucket(1, 1, [ev]);
    assert Faithful(held) && FixedConfig(held, cfg) && Monotone(held) && NotAfter(held, 61);
    assert HeldOf(held, ev.key) == [ev] && Fates(held, ev.key) == [];
    assert ReplacesHeld(StateOf(held), ev.key, 61) && OutcomeAt(held, ev, 61) == Send;
    assert Fates(After(held, AdmitStep(ev, 61)), ev.key) == Fates(held, ev.key) + [Dropped([ev])];
    assert HeldOf(After(held, AdmitStep(ev, 61)), ev.key) == HeldOf(held, ev.key) + [];
  }

  /** Switching the strategy while events are held strands them: the window closed long ago,
      ticks come and go, and the event is in no summary. */
  lemma SwitchStrandsHeldEvents(cfg: Config, ev: Event, later: Instant)
    requires cfg.strategy == RateLimit && cfg.rateN == 1 && cfg.rateWindow == 10 && later > 11
    ensures
      var held := After(After(Begin(cfg), AdmitStep(ev, 1)), AdmitStep(ev, 2));
      var r := After(After(held, ConfigureStep(cfg.(strategy := NoControl))), TickStep(later, [ev.key]));
      && Faithful(r) && Monotone(r) && NeverReplacesHeld(r)
      && HeldOf(r, ev.key) == [ev] && Fates(r, ev.key) == []
      && ev.key in StateOf(r).buckets && Sub(later, StateOf(r).buckets[ev.key].windowStart) >= cfg.rateWindow
  {
    var start := Begin(cfg);
    assert Faithful(start) && Monotone(start) && NotAfter(start, 1) && NotAfter(start, 2) && NotAfter(start, later);
    assert HeldOf(start, ev.key) == [] && Fates(start, ev.key) == [] && NeverReplacesHeld(start);
    var sent := After(start, AdmitStep(ev, 1));
    assert StateOf(sent).buckets == map[ev.key := Bucket(1, 1, [])];
    assert Faithful(sent) && Monotone(sent) && NotAfter(sent, 2) && NotAfter(sent, later) && NeverReplacesHeld(sent);
    assert HeldOf(sent, ev.key) == [] && Fates(sent, ev.key) == [];
    var held := After(sent, AdmitStep(ev, 2));
    assert CurrentBucket(StateOf(sent), ev.key, 2) == Bucket(1, 1, []);
    assert StateOf(held).buckets[ev.key] == Bucket(1, 1, [ev]);
    assert StateOf(held).buckets.Keys == {ev.key};
    assert Faithful(held) && Monotone(held) && NotAfter(held, later) && NeverReplacesHeld(held);
    assert HeldOf(held, ev.key) == [ev] && Fates(held, ev.key) == [];
    var off := After(held, ConfigureStep(cfg.(strategy := NoControl)));
    assert StateOf(off).buckets == StateOf(held).buckets && NeverReplacesHeld(off);
    assert Faithful(off) && Monotone(off) && NotAfter(off, later);
    assert HeldOf(off, ev.key) == [ev] && Fates(off, ev.key) == [];
    assert BatchesAt(off, later, [ev.key]) == [];
    SubReachesWindow(later, 1, cfg.rateWindow);
  }
}
