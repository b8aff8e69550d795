/** The flood controller's state machine, on values: each atomic step of the controller
    (Admit, the locked part of tick, Configure) as a function from state to state.
    The class in FloodController.dfy carries the steps out in place; the whole-run
    theorems are about these functions. */
module Flood {
  import opened GoTime
  import Sequences

  /** The strategy names; any other string stored in the settings behaves like "none". */
  datatype Strategy = NoControl | Dedupe | RateLimit | Digest | Unknown(name: string)

  datatype Config = Config(
    strategy: Strategy,
    dedupeWindow: Duration,
    rateN: int,
    rateWindow: Duration,
    digestInterval: Duration)

  datatype Outcome = Send | Suppress | Hold

  datatype Event = Event(
    key: string,
    name: string,
    severityName: string,
    severityRank: int,
    channelIds: seq<int>)

  datatype Bucket = Bucket(windowStart: Instant, sent: int, held: seq<Event>)

  datatype State = State(
    cfg: Config,
    lastSeen: map<string, Instant>,
    buckets: map<string, Bucket>,
    digest: seq<Event>,
    digestAt: Instant)

  /** The events behind one rollup. A summary remembers the key its bucket was filed
      under; the rollup text does not show it. */
  datatype Batch = Summary(key: string, events: seq<Event>) | DigestOf(events: seq<Event>)

  function New(cfg: Config): State {
    State(cfg, map[], map[], [], 0)
  }

  function Configure(s: State, cfg: Config): State {
    s.(cfg := cfg)
  }

  // ---- Admit ----

  predicate Repeats(s: State, ev: Event, now: Instant) {
    ev.key in s.lastSeen && Sub(now, s.lastSeen[ev.key]) < s.cfg.dedupeWindow
  }

  predicate Expired(cfg: Config, b: Bucket, now: Instant) {
    Sub(now, b.windowStart) >= cfg.rateWindow
  }

  /** Whether the event opens a new window, for want of an unexpired bucket. */
  predicate OpensWindow(s: State, key: string, now: Instant) {
    key !in s.buckets || Expired(s.cfg, s.buckets[key], now)
  }

  /** The bucket that counts the event. */
  function CurrentBucket(s: State, key: string, now: Instant): Bucket {
    if OpensWindow(s, key, now) then Bucket(now, 0, []) else s.buckets[key]
  }

  function Admit(s: State, ev: Event, now: Instant): (State, Outcome) {
    match s.cfg.strategy
    case Dedupe =>
      if Repeats(s, ev, now) then (s, Suppress)
      else (s.(lastSeen := s.lastSeen[ev.key := now]), Send)
    case RateLimit =>
      var b := CurrentBucket(s, ev.key, now);
      if b.sent < s.cfg.rateN then
        (s.(buckets := s.buckets[ev.key := b.(sent := b.sent + 1)]), Send)
      else
        (s.(buckets := s.buckets[ev.key := b.(held := b.held + [ev])]), Hold)
    case Digest =>
      var at := if IsZero(s.digestAt) then now else s.digestAt;
      (s.(digestAt := at, digest := s.digest + [ev]), Hold)
    case _ =>
      (s, Send)
  }

  // ---- tick ----

  /** The summaries of the expired buckets, in the order the map iteration meets them. */
  function Summaries(s: State, now: Instant, order: seq<string>): seq<Batch> {
    if order == [] then []
    else Summaries(s, now, order[..|order| - 1]) + SummaryOfKey(s, now, order[|order| - 1])
  }

  /** What meeting one more key adds. */
  function SummaryOfKey(s: State, now: Instant, key: string): seq<Batch> {
    if key in s.buckets && Expired(s.cfg, s.buckets[key], now) && s.buckets[key].held != []
    then [Summary(key, s.buckets[key].held)] else []
  }

  lemma SummariesMore(s: State, now: Instant, order: seq<string>, key: string)
    ensures Summaries(s, now, order + [key]) == Summaries(s, now, order) + SummaryOfKey(s, now, key)
  {
    Sequences.Snoc(order, key);
  }

  /** The buckets a rate_limit tick at `now` leaves standing. */
  function StillOpen(s: State, now: Instant): map<string, Bucket> {
    map key | key in s.buckets && !Expired(s.cfg, s.buckets[key], now) :: s.buckets[key]
  }

  predicate DigestDue(s: State, now: Instant) {
    && !IsZero(s.digestAt)
    && Sub(now, s.digestAt) >= s.cfg.digestInterval
    && s.digest != []
  }

  /** One tick. Go leaves the order in which `range` meets a map's keys open: `order` is
      the one this tick sees. */
  function Tick(s: State, now: Instant, order: seq<string>): (State, seq<Batch>) {
    match s.cfg.strategy
    case RateLimit =>
      (s.(buckets := StillOpen(s, now)), Summaries(s, now, order))
    case Digest =>
      if DigestDue(s, now) then (s.(digest := [], digestAt := now), [DigestOf(s.digest)])
      else (s, [])
    case _ =>
      (s, [])
  }

  /** `order` meets every key of the set once. */
  ghost predicate Enumerates(order: seq<string>, keys: set<string>) {
    && (forall i :: 0 <= i < |order| ==> order[i] in keys)
    && (forall i, j :: 0 <= i < j < |order| ==> order[i] != order[j])
    && (forall k :: k in keys ==> k in order)
  }

  // ---- Runs ----

  datatype Step =
    | AdmitStep(ev: Event, now: Instant)
    | TickStep(now: Instant, order: seq<string>)
    | ConfigureStep(cfg: Config)

  /** A run of the controller: any interleaving of its atomic steps, the latest outermost. */
  datatype Run = Begin(cfg: Config) | After(past: Run, step: Step)

  function Next(s: State, step: Step): State {
    match step
    case AdmitStep(ev, now) => Admit(s, ev, now).0
    case TickStep(now, order) => Tick(s, now, order).0
    case ConfigureStep(cfg) => Configure(s, cfg)
  }

  function StateOf(r: Run): State {
    match r
    case Begin(cfg) => New(cfg)
    case After(past, step) => Next(StateOf(past), step)
  }

  function OutcomeAt(past: Run, ev: Event, now: Instant): Outcome {
    Admit(StateOf(past), ev, now).1
  }

  function BatchesAt(past: Run, now: Instant, order: seq<string>): seq<Batch> {
    Tick(StateOf(past), now, order).1
  }

  /** Every tick of the run meets every bucket once. */
  ghost predicate Faithful(r: Run) {
    match r
    case Begin(_) => true
    case After(past, step) =>
      Faithful(past) && (step.TickStep? ==> Enumerates(step.order, StateOf(past).buckets.Keys))
  }

  /** No step of the run bears a time after t. */
  predicate NotAfter(r: Run, t: Instant) {
    match r
    case Begin(_) => true
    case After(past, step) => NotAfter(past, t) && (step.ConfigureStep? || step.now <= t)
  }

  /** The times of the run never go back. */
  predicate Monotone(r: Run) {
    match r
    case Begin(_) => true
    case After(past, step) => Monotone(past) && (step.ConfigureStep? || NotAfter(past, step.now))
  }

  /** The run's clock never reads Go's zero Time. */
  predicate ClockIsSet(r: Run) {
    match r
    case Begin(_) => true
    case After(past, step) => ClockIsSet(past) && (step.ConfigureStep? || !IsZero(step.now))
  }

  /** The whole run is under one configuration; reloading the same settings is allowed. */
  predicate FixedConfig(r: Run, cfg: Config) {
    match r
    case Begin(c) => c == cfg
    case After(past, step) => FixedConfig(past, cfg) && (step.ConfigureStep? ==> step.cfg == cfg)
  }

  lemma {:induction false} FixedConfigState(r: Run, cfg: Config)
    requires FixedConfig(r, cfg)
    ensures StateOf(r).cfg == cfg
  {
    match r
    case Begin(_) =>
    case After(past, _) => FixedConfigState(past, cfg);
  }

  lemma {:induction false} NotAfterLater(r: Run, t: Instant, u: Instant)
    requires NotAfter(r, t) && t <= u
    ensures NotAfter(r, u)
  {
    match r
    case Begin(_) =>
    case After(past, _) => NotAfterLater(past, t, u);
  }
}
