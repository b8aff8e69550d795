/** Ticks only tidy up: under one configuration, and while no event comes after a tick with a
    later time, no tick ever changes what Admit answers. */
module FloodTicks {
  import opened GoTime
  import opened Flood

  /** Everything Admit answered, in order. */
  function Outcomes(r: Run): seq<Outcome> {
    match r
    case Begin(_) => []
    case After(past, AdmitStep(ev, now)) => Outcomes(past) + [OutcomeAt(past, ev, now)]
    case After(past, _) => Outcomes(past)
  }

  function WithoutTicks(r: Run): Run {
    match r
    case Begin(_) => r
    case After(past, step) =>
      if step.TickStep? then WithoutTicks(past) else After(WithoutTicks(past), step)
  }

  /** No tick of the run bears a time after t. */
  predicate NoTickAfter(r: Run, t: Instant) {
    match r
    case Begin(_) => true
    case After(past, step) => NoTickAfter(past, t) && (step.TickStep? ==> step.now <= t)
  }

  /** No event bears a time before that of an earlier tick. Events may cross one another. */
  predicate NeverOvertaken(r: Run) {
    match r
    case Begin(_) => true
    case After(past, step) => NeverOvertaken(past) && (step.AdmitStep? ==> NoTickAfter(past, step.now))
  }

  lemma {:induction false} NotAfterTicks(r: Run, t: Instant)
    requires NotAfter(r, t)
    ensures NoTickAfter(r, t)
  {
    match r
    case Begin(_) =>
    case After(past, _) => NotAfterTicks(past, t);
  }

  /** Times that never go back are more than enough. */
  lemma {:induction false} MonotoneIsNeverOvertaken(r: Run)
    requires Monotone(r)
    ensures NeverOvertaken(r)
  {
    match r
    case Begin(_) =>
    case After(past, step) =>
      MonotoneIsNeverOvertaken(past);
      if step.AdmitStep? {
        NotAfterTicks(past, step.now);
      }
  }

  /** The run with ticks has lost only buckets that are expired at the time of every tick so
      far, and later. */
  ghost predicate Tidied(r: Run, s: State, t: State) {
    && s.cfg == t.cfg
    && s.lastSeen == t.lastSeen
    && (forall k :: k in s.buckets ==> k in t.buckets && t.buckets[k] == s.buckets[k])
    && (forall k, now :: k in t.buckets && k !in s.buckets && NoTickAfter(r, now)
          ==> Expired(t.cfg, t.buckets[k], now))
  }

  lemma {:induction false} TickTidies(past: Run, s: State, t: State, now: Instant, order: seq<string>)
    requires Tidied(past, s, t)
    ensures Tidied(After(past, TickStep(now, order)), Tick(s, now, order).0, t)
  {
    var r, s' := After(past, TickStep(now, order)), Tick(s, now, order).0;
    forall k, u | k in t.buckets && k !in s'.buckets && NoTickAfter(r, u)
      ensures Expired(t.cfg, t.buckets[k], u)
    {
      if k in s.buckets {
        assert Expired(t.cfg, t.buckets[k], now);
        assert Sub(now, t.buckets[k].windowStart) <= Sub(u, t.buckets[k].windowStart);
      } else {
        assert NoTickAfter(past, u);
      }
    }
  }

  lemma {:induction false} AdmitStaysTidied(past: Run, s: State, t: State, ev: Event, now: Instant)
    requires Tidied(past, s, t) && NoTickAfter(past, now)
    ensures Tidied(After(past, AdmitStep(ev, now)), Admit(s, ev, now).0, Admit(t, ev, now).0)
    ensures Admit(s, ev, now).1 == Admit(t, ev, now).1
  {
    if s.cfg.strategy == RateLimit {
      assert CurrentBucket(s, ev.key, now) == CurrentBucket(t, ev.key, now);
    }
  }

  lemma {:induction false} TidiedThroughout(r: Run, cfg: Config)
    requires FixedConfig(r, cfg) && NeverOvertaken(r)
    ensures Tidied(r, StateOf(r), StateOf(WithoutTicks(r)))
  {
    match r
    case Begin(_) =>
    case After(past, step) =>
      TidiedThroughout(past, cfg);
      FixedConfigState(past, cfg);
      var s, t := StateOf(past), StateOf(WithoutTicks(past));
      match step {
        case AdmitStep(ev, now) => AdmitStaysTidied(past, s, t, ev, now);
        case TickStep(now, order) => TickTidies(past, s, t, now, order);
        case ConfigureStep(_) =>
      }
  }

  /** Deleting every tick from a run changes no outcome. */
  lemma {:induction false} TickTransparency(r: Run, cfg: Config)
    requires FixedConfig(r, cfg) && NeverOvertaken(r)
    ensures Outcomes(WithoutTicks(r)) == Outcomes(r)
  {
    match r
    case Begin(_) =>
    case After(past, step) =>
      TickTransparency(past, cfg);
      TidiedThroughout(past, cfg);
      if step.AdmitStep? {
        AdmitStaysTidied(past, StateOf(past), StateOf(WithoutTicks(past)), step.ev, step.now);
      }
  }

  /** So how often, and when, the ticker fires is invisible to the trap path. */
  lemma {:induction false} TickScheduleIsInvisible(r: Run, q: Run, cfg: Config)
    requires FixedConfig(r, cfg) && NeverOvertaken(r)
    requires FixedConfig(q, cfg) && NeverOvertaken(q)
    requires WithoutTicks(r) == WithoutTicks(q)
    ensures Outcomes(r) == Outcomes(q)
  {
    TickTransparency(r, cfg);
    TickTransparency(q, cfg);
  }

  // ---- When a tick does show ----

  ghost predicate SentNotNegative(s: State) {
    forall k :: k in s.buckets ==> s.buckets[k].sent >= 0
  }

  lemma {:induction false} SentNeverNegative(r: Run)
    ensures SentNotNegative(StateOf(r))
  {
    match r
    case Begin(_) =>
    case After(past, _) => SentNeverNegative(past);
  }

  /** Exactly when a tick changes the answer to an event at `now`, after any run: the key
      has used up its window, the window is over at the tick's time, and it is not over at `now`. */
  lemma {:induction false} TickShowsIff(past: Run, at: Instant, order: seq<string>, ev: Event, now: Instant)
    ensures OutcomeAt(After(past, TickStep(at, order)), ev, now) != OutcomeAt(past, ev, now) <==>
      var s := StateOf(past);
      && s.cfg.strategy == RateLimit && ev.key in s.buckets
      && Expired(s.cfg, s.buckets[ev.key], at) && !Expired(s.cfg, s.buckets[ev.key], now)
      && s.buckets[ev.key].sent >= s.cfg.rateN > 0
  {
    var s := StateOf(past);
    SentNeverNegative(past);
    var t := Tick(s, at, order).0;
    assert t.cfg == s.cfg && t.lastSeen == s.lastSeen;
  }

  /** The clock hypothesis cannot go: a trap stamped before the tick that overtook it gets
      another answer when the tick is removed. */
  lemma TransparencyNeedsClock(ev: Event, cfg: Config)
    requires cfg.strategy == RateLimit && cfg.rateN == 1 && cfg.rateWindow == 10
    ensures
      var r := After(After(After(Begin(cfg), AdmitStep(ev, 1)), TickStep(20, [ev.key])), AdmitStep(ev, 5));
      FixedConfig(r, cfg) && Outcomes(r) == [Send, Send] && Outcomes(WithoutTicks(r)) == [Send, Hold]
  {
    var start := Begin(cfg);
    assert WithoutTicks(start) == start && FixedConfig(start, cfg) && Outcomes(start) == [];
    var first := After(start, AdmitStep(ev, 1));
    assert StateOf(first).buckets == map[ev.key := Bucket(1, 1, [])];
    assert WithoutTicks(first) == first && FixedConfig(first, cfg) && Outcomes(first) == [Send];
    var ticked := After(first, TickStep(20, [ev.key]));
    assert StateOf(ticked).buckets == map[];
    assert WithoutTicks(ticked) == first && FixedConfig(ticked, cfg) && Outcomes(ticked) == [Send];
    assert OutcomeAt(first, ev, 5) == Hold && OutcomeAt(ticked, ev, 5) == Send;
    assert Outcomes(After(first, AdmitStep(ev, 5))) == Outcomes(first) + [Hold];
    assert Outcomes(After(ticked, AdmitStep(ev, 5))) == Outcomes(ticked) + [Send];
  }

  /** Nor can the fixed configuration: a window shortened for the length of one tick. */
  lemma TransparencyNeedsFixedConfig(ev: Event, wide: Config, narrow: Config)
    requires wide.strategy == RateLimit && wide.rateN == 1 && wide.rateWindow == 10
    requires narrow == wide.(rateWindow := 1)
    ensures
      var shortened := After(After(Begin(wide), AdmitStep(ev, 1)), ConfigureStep(narrow));
      var r := After(After(After(shortened, TickStep(5, [ev.key])), ConfigureStep(wide)), AdmitStep(ev, 6));
      Monotone(r) && Outcomes(r) == [Send, Send] && Outcomes(WithoutTicks(r)) == [Send, Hold]
  {
    var start := Begin(wide);
    assert WithoutTicks(start) == start && Outcomes(start) == [];
    assert Monotone(start) && NotAfter(start, 1) && NotAfter(start, 5) && NotAfter(start, 6);
    var first := After(start, AdmitStep(ev, 1));
    assert StateOf(first).buckets == map[ev.key := Bucket(1, 1, [])];
    assert WithoutTicks(first) == first && Outcomes(first) == [Send];
    assert Monotone(first) && NotAfter(first, 5) && NotAfter(first, 6);
    var shortened := After(first, ConfigureStep(narrow));
    assert WithoutTicks(shortened) == shortened && Outcomes(shortened) == [Send];
    assert Monotone(shortened) && NotAfter(shortened, 5) && NotAfter(shortened, 6);
    var swept := After(shortened, TickStep(5, [ev.key]));
    assert StateOf(swept).buckets == map[];
    assert WithoutTicks(swept) == shortened && Outcomes(swept) == [Send];
    assert Monotone(swept) && NotAfter(swept, 6);
    var restored := After(swept, ConfigureStep(wide));
    assert Outcomes(restored) == [Send] && Monotone(restored) && NotAfter(restored, 6);
    assert OutcomeAt(restored, ev, 6) == Send;
    var unswept := After(shortened, ConfigureStep(wide));
    assert WithoutTicks(restored) == unswept && Outcomes(unswept) == [Send];
    assert StateOf(unswept).buckets == map[ev.key := Bucket(1, 1, [])] && StateOf(unswept).cfg == wide;
    assert OutcomeAt(unswept, ev, 6) == Hold;
    assert Outcomes(After(unswept, AdmitStep(ev, 6))) == Outcomes(unswept) + [Hold];
    assert Outcomes(After(restored, AdmitStep(ev, 6))) == Outcomes(restored) + [Send];
  }
}
