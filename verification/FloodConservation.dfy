/** Where the events held under rate_limit go: into a summary, to wait in a bucket, or away
    with a bucket that an admission replaces. */
module FloodConservation {
  import opened GoTime
  import opened Flood
  import Sequences

  // ---- One key, in order ----

  function HeldNow(s: State, ev: Event, now: Instant, k: string): seq<Event> {
    if ev.key == k && s.cfg.strategy == RateLimit && Admit(s, ev, now).1 == Hold then [ev] else []
  }

  /** The events of key k answered Hold under rate_limit, in order. */
  function HeldOf(r: Run, k: string): seq<Event> {
    match r
    case Begin(_) => []
    case After(past, AdmitStep(ev, now)) =>
      HeldOf(past, k) + HeldNow(StateOf(past), ev, now, k)
    case After(past, _) => HeldOf(past, k)
  }

  /** What becomes of a bucket's held events: rolled up into a summary, or thrown away with
      the bucket. */
  datatype Fate = Emitted(events: seq<Event>) | Dropped(events: seq<Event>)

  function SummariesOf(batches: seq<Batch>, k: string): seq<Fate> {
    if batches == [] then []
    else
      var b := batches[|batches| - 1];
      SummariesOf(batches[..|batches| - 1], k)
      + if b.Summary? && b.key == k then [Emitted(b.events)] else []
  }

  /** Whether admitting an event of key k at this point throws held events away. */
  predicate ReplacesHeld(s: State, k: string, now: Instant) {
    && s.cfg.strategy == RateLimit
    && k in s.buckets
    && Expired(s.cfg, s.buckets[k], now)
    && s.buckets[k].held != []
  }

  function DroppedNow(s: State, ev: Event, now: Instant, k: string): seq<Fate> {
    if ev.key == k && ReplacesHeld(s, k, now) then [Dropped(s.buckets[k].held)] else []
  }

  /** The fates of k's held events, batch by batch. */
  function Fates(r: Run, k: string): seq<Fate> {
    match r
    case Begin(_) => []
    case After(past, AdmitStep(ev, now)) =>
      Fates(past, k) + DroppedNow(StateOf(past), ev, now, k)
    case After(past, TickStep(now, order)) =>
      Fates(past, k) + SummariesOf(BatchesAt(past, now, order), k)
    case After(past, _) => Fates(past, k)
  }

  function EventsOf(fates: seq<Fate>): seq<Event> {
    if fates == [] then []
    else EventsOf(fates[..|fates| - 1]) + fates[|fates| - 1].events
  }

  function PendingOf(s: State, k: string): seq<Event> {
    if k in s.buckets then s.buckets[k].held else []
  }

  lemma {:induction false} EventsOfAppend(a: seq<Fate>, b: seq<Fate>)
    ensures EventsOf(a + b) == EventsOf(a) + EventsOf(b)
  {
    if b == [] {
      assert a + b == a;
    } else {
      assert (a + b)[..|a + b| - 1] == a + b[..|b| - 1];
      EventsOfAppend(a, b[..|b| - 1]);
    }
  }

  lemma {:induction false} SummariesOfAppend(a: seq<Batch>, b: seq<Batch>, k: string)
    ensures SummariesOf(a + b, k) == SummariesOf(a, k) + SummariesOf(b, k)
  {
    if b == [] {
      assert a + b == a;
    } else {
      assert (a + b)[..|a + b| - 1] == a + b[..|b| - 1];
      SummariesOfAppend(a, b[..|b| - 1], k);
    }
  }

  /** What the sweep does at one key, as far as k is concerned. */
  function SummaryAt(s: State, now: Instant, key: string, k: string): seq<Fate> {
    if key == k && k in s.buckets && Expired(s.cfg, s.buckets[k], now) && s.buckets[k].held != []
    then [Emitted(s.buckets[k].held)] else []
  }

  lemma SummariesStep(s: State, now: Instant, rest: seq<string>, last: string, k: string)
    ensures SummariesOf(Summaries(s, now, rest + [last]), k)
      == SummariesOf(Summaries(s, now, rest), k) + SummaryAt(s, now, last, k)
  {
    SummariesMore(s, now, rest, last);
    SummariesOfAppend(Summaries(s, now, rest), SummaryOfKey(s, now, last), k);
    SummariesOfKey(s, now, last, k);
  }

  lemma SummariesOfKey(s: State, now: Instant, key: string, k: string)
    ensures SummariesOf(SummaryOfKey(s, now, key), k) == SummaryAt(s, now, key, k)
  {
    var tail := SummaryOfKey(s, now, key);
    if tail != [] {
      assert tail[..0] == [];
    }
  }

  /** A sweep that meets every key once emits k's summary once if it is due, and not otherwise. */
  lemma {:induction false} SweepEmitsKeyOnce(s: State, now: Instant, order: seq<string>, k: string, fates: seq<Fate>)
    requires forall i, j :: 0 <= i < j < |order| ==> order[i] != order[j]
    requires fates == SummariesOf(Summaries(s, now, order), k)
    ensures fates == if k in order then SummaryAt(s, now, k, k) else []
  {
    if order != [] {
      var rest, last := order[..|order| - 1], order[|order| - 1];
      var before := SummariesOf(Summaries(s, now, rest), k);
      SweepEmitsKeyOnce(s, now, rest, k, before);
      SummariesStep(s, now, rest, last, k);
      assert order == rest + [last] && last !in rest;
      Sequences.Empty(before);
      Sequences.Empty(SummaryAt(s, now, last, k));
    }
  }

  /** What a tick emits for k, under any strategy. */
  lemma TickEmits(s: State, now: Instant, order: seq<string>, k: string, fates: seq<Fate>)
    requires forall i, j :: 0 <= i < j < |order| ==> order[i] != order[j]
    requires fates == SummariesOf(Tick(s, now, order).1, k)
    ensures fates == if s.cfg.strategy == RateLimit && k in order then SummaryAt(s, now, k, k) else []
  {
    if s.cfg.strategy == RateLimit {
      SweepEmitsKeyOnce(s, now, order, k, fates);
    }
  }

  lemma AdmitKeepsHeld(s: State, ev: Event, now: Instant, k: string)
    ensures PendingOf(s, k) + HeldNow(s, ev, now, k)
      == EventsOf(DroppedNow(s, ev, now, k)) + PendingOf(Admit(s, ev, now).0, k)
  {
    if ev.key == k && s.cfg.strategy == RateLimit {
      var kept := CurrentBucket(s, k, now).held;
      assert PendingOf(Admit(s, ev, now).0, k) == kept + HeldNow(s, ev, now, k);
      assert EventsOf(DroppedNow(s, ev, now, k)) == if ReplacesHeld(s, k, now) then s.buckets[k].held else [];
    } else {
      assert PendingOf(Admit(s, ev, now).0, k) == PendingOf(s, k);
    }
  }

  lemma EventsAt(s: State, now: Instant, k: string)
    ensures EventsOf(SummaryAt(s, now, k, k)) ==
      if k in s.buckets && Expired(s.cfg, s.buckets[k], now) then s.buckets[k].held else []
  {
    var out := SummaryAt(s, now, k, k);
    if out != [] {
      assert EventsOf(out) == EventsOf(out[..0]) + s.buckets[k].held;
    }
  }

  lemma TickKeepsHeld(s: State, now: Instant, order: seq<string>, k: string)
    requires Enumerates(order, s.buckets.Keys)
    ensures PendingOf(s, k) ==
      EventsOf(SummariesOf(Tick(s, now, order).1, k)) + PendingOf(Tick(s, now, order).0, k)
  {
    TickEmits(s, now, order, k, SummariesOf(Tick(s, now, order).1, k));
    EventsAt(s, now, k);
    assert k in order <==> k in s.buckets;
  }

  /** One step of the ledger: what is newly held or was pending has a new fate or is pending. */
  lemma LedgerStep(held: seq<Event>, fates: seq<Fate>, pending: seq<Event>,
                   newlyHeld: seq<Event>, newFates: seq<Fate>, stillPending: seq<Event>)
    requires held == EventsOf(fates) + pending
    requires pending + newlyHeld == EventsOf(newFates) + stillPending
    ensures held + newlyHeld == EventsOf(fates + newFates) + stillPending
  {
    calc {
      held + newlyHeld;
      (EventsOf(fates) + pending) + newlyHeld;
      EventsOf(fates) + (pending + newlyHeld);
      EventsOf(fates) + (EventsOf(newFates) + stillPending);
      (EventsOf(fates) + EventsOf(newFates)) + stillPending;
      { EventsOfAppend(fates, newFates); }
      EventsOf(fates + newFates) + stillPending;
    }
  }

  /** Conservation for one key: in every run, with any times and any reconfiguration, the
      held events of k are, in order, those emitted or dropped so far and then the pending. */
  lemma {:induction false} HeldEventsConserved(r: Run, k: string)
    requires Faithful(r)
    ensures HeldOf(r, k) == EventsOf(Fates(r, k)) + PendingOf(StateOf(r), k)
  {
    match r
    case Begin(_) =>
    case After(past, step) =>
      HeldEventsConserved(past, k);
      var s := StateOf(past);
      match step {
        case AdmitStep(ev, now) =>
          AdmitKeepsHeld(s, ev, now, k);
          LedgerStep(HeldOf(past, k), Fates(past, k), PendingOf(s, k),
                     HeldNow(s, ev, now, k), DroppedNow(s, ev, now, k), PendingOf(Next(s, step), k));
        case TickStep(now, order) =>
          TickKeepsHeld(s, now, order, k);
          LedgerStep(HeldOf(past, k), Fates(past, k), PendingOf(s, k),
                     [], SummariesOf(Tick(s, now, order).1, k), PendingOf(Next(s, step), k));
        case ConfigureStep(_) =>
      }
  }

  // ---- All keys together ----

  // Events are counted through an arbitrary weight: with weight 1 the totals are numbers of
  // events, and with the weight that is 1 on one event and 0 elsewhere they are that event's
  // multiplicities, so equations between totals for every weight are equations of multisets.

  function Weigh(events: seq<Event>, w: Event -> nat): nat {
    if events == [] then 0
    else Weigh(events[..|events| - 1], w) + w(events[|events| - 1])
  }

  /** The weight of everything now held in some bucket. */
  ghost function Pending(buckets: map<string, Bucket>, w: Event -> nat): nat
    decreases |buckets|
  {
    if buckets == map[] then 0
    else
      var k :| k in buckets;
      Weigh(buckets[k].held, w) + Pending(buckets - {k}, w)
  }

  function Summarised(batches: seq<Batch>, w: Event -> nat): nat {
    if batches == [] then 0
    else
      var b := batches[|batches| - 1];
      Summarised(batches[..|batches| - 1], w) + if b.Summary? then Weigh(b.events, w) else 0
  }

  function DroppedBy(s: State, ev: Event, now: Instant, w: Event -> nat): nat {
    if ReplacesHeld(s, ev.key, now) then Weigh(s.buckets[ev.key].held, w) else 0
  }

  /** What the run answered Hold under rate_limit. */
  function Held(r: Run, w: Event -> nat): nat {
    match r
    case Begin(_) => 0
    case After(past, AdmitStep(ev, now)) => Held(past, w) + Weigh(HeldNow(StateOf(past), ev, now, ev.key), w)
    case After(past, _) => Held(past, w)
  }

  /** What the run's ticks sent in summaries. */
  function Emission(r: Run, w: Event -> nat): nat {
    match r
    case Begin(_) => 0
    case After(past, TickStep(now, order)) => Emission(past, w) + Summarised(BatchesAt(past, now, order), w)
    case After(past, _) => Emission(past, w)
  }

  /** What was thrown away with replaced buckets. */
  function Loss(r: Run, w: Event -> nat): nat {
    match r
    case Begin(_) => 0
    case After(past, AdmitStep(ev, now)) => Loss(past, w) + DroppedBy(StateOf(past), ev, now, w)
    case After(past, _) => Loss(past, w)
  }

  lemma {:induction false} WeighAppend(a: seq<Event>, b: seq<Event>, w: Event -> nat)
    ensures Weigh(a + b, w) == Weigh(a, w) + Weigh(b, w)
  {
    if b == [] {
      assert a + b == a;
    } else {
      assert (a + b)[..|a + b| - 1] == a + b[..|b| - 1];
      WeighAppend(a, b[..|b| - 1], w);
    }
  }

  /** Pending does not depend on which key it counts first. */
  lemma {:induction false} PendingSplit(buckets: map<string, Bucket>, k: string, w: Event -> nat)
    requires k in buckets
    ensures Pending(buckets, w) == Weigh(buckets[k].held, w) + Pending(buckets - {k}, w)
    decreases |buckets|
  {
    var first :| first in buckets
      && Pending(buckets, w) == Weigh(buckets[first].held, w) + Pending(buckets - {first}, w);
    if first != k {
      PendingSplit(buckets - {first}, k, w);
      PendingSplit(buckets - {k}, first, w);
      assert buckets - {first} - {k} == buckets - {k} - {first};
    }
  }

  lemma PendingWithout(buckets: map<string, Bucket>, k: string, w: Event -> nat)
    ensures Pending(buckets, w) ==
      (if k in buckets then Weigh(buckets[k].held, w) else 0) + Pending(buckets - {k}, w)
  {
    if k in buckets {
      PendingSplit(buckets, k, w);
    } else {
      assert buckets - {k} == buckets;
    }
  }

  lemma PendingReplace(buckets: map<string, Bucket>, k: string, b: Bucket, w: Event -> nat)
    ensures Pending(buckets[k := b], w) + (if k in buckets then Weigh(buckets[k].held, w) else 0)
      == Pending(buckets, w) + Weigh(b.held, w)
  {
    PendingWithout(buckets, k, w);
    PendingSplit(buckets[k := b], k, w);
    assert buckets[k := b] - {k} == buckets - {k};
  }

  lemma AdmitConserves(s: State, ev: Event, now: Instant, w: Event -> nat)
    ensures Pending(s.buckets, w) + Weigh(HeldNow(s, ev, now, ev.key), w)
      == DroppedBy(s, ev, now, w) + Pending(Admit(s, ev, now).0.buckets, w)
  {
    if s.cfg.strategy == RateLimit {
      var b := CurrentBucket(s, ev.key, now);
      var newly := HeldNow(s, ev, now, ev.key);
      var b' := if newly == [] then b.(sent := b.sent + 1) else b.(held := b.held + newly);
      assert Admit(s, ev, now).0.buckets == s.buckets[ev.key := b'];
      WeighAppend(b.held, newly, w);
      PendingReplace(s.buckets, ev.key, b', w);
    }
  }

  lemma {:induction false} SummariesOfFewer(s: State, now: Instant, order: seq<string>, k: string)
    requires k !in order
    ensures Summaries(s.(buckets := s.buckets - {k}), now, order) == Summaries(s, now, order)
  {
    if order != [] {
      SummariesOfFewer(s, now, order[..|order| - 1], k);
    }
  }

  function DueFrom(s: State, now: Instant, k: string): seq<Event>
    requires k in s.buckets
  {
    if Expired(s.cfg, s.buckets[k], now) then s.buckets[k].held else []
  }

  lemma SweepLastSummary(s: State, now: Instant, rest: seq<string>, k: string, w: Event -> nat)
    requires k in s.buckets && k !in rest
    ensures Summarised(Summaries(s, now, rest + [k]), w)
      == Summarised(Summaries(s.(buckets := s.buckets - {k}), now, rest), w) + Weigh(DueFrom(s, now, k), w)
  {
    SummariesOfFewer(s, now, rest, k);
    SummariesMore(s, now, rest, k);
    var before := Summaries(s, now, rest);
    if DueFrom(s, now, k) != [] {
      Sequences.Snoc(before, Summary(k, s.buckets[k].held));
    } else {
      Sequences.Empty(before);
    }
  }

  lemma SweepLastBucket(s: State, now: Instant, k: string, w: Event -> nat)
    requires k in s.buckets
    ensures Pending(StillOpen(s, now), w) + Weigh(DueFrom(s, now, k), w)
      == Pending(StillOpen(s.(buckets := s.buckets - {k}), now), w) + Weigh(s.buckets[k].held, w)
  {
    PendingWithout(StillOpen(s, now), k, w);
    assert StillOpen(s, now) - {k} == StillOpen(s.(buckets := s.buckets - {k}), now);
  }

  lemma {:induction false} SweepConserves(s: State, now: Instant, order: seq<string>, w: Event -> nat)
    requires Enumerates(order, s.buckets.Keys)
    ensures Pending(s.buckets, w) == Summarised(Summaries(s, now, order), w) + Pending(StillOpen(s, now), w)
    decreases |order|
  {
    if order == [] {
      assert s.buckets == map[];
      assert StillOpen(s, now) == map[];
    } else {
      var rest, k := order[..|order| - 1], order[|order| - 1];
      assert order == rest + [k];
      var fewer := s.(buckets := s.buckets - {k});
      SweepConserves(fewer, now, rest, w);
      SweepLastSummary(s, now, rest, k, w);
      SweepLastBucket(s, now, k, w);
      PendingSplit(s.buckets, k, w);
    }
  }

  lemma TickConserves(s: State, now: Instant, order: seq<string>, w: Event -> nat)
    requires Enumerates(order, s.buckets.Keys)
    ensures Pending(s.buckets, w) ==
      Summarised(Tick(s, now, order).1, w) + Pending(Tick(s, now, order).0.buckets, w)
  {
    if s.cfg.strategy == RateLimit {
      SweepConserves(s, now, order, w);
    }
  }

  /** Conservation over the whole controller, as multisets of events: every held event has
      been emitted in a summary, is pending in a bucket, or was dropped with a replaced one. */
  lemma {:induction false} AllHeldConserved(r: Run, w: Event -> nat)
    requires Faithful(r)
    ensures Held(r, w) == Emission(r, w) + Pending(StateOf(r).buckets, w) + Loss(r, w)
  {
    match r
    case Begin(_) =>
    case After(past, step) =>
      AllHeldConserved(past, w);
      match step {
        case AdmitStep(ev, now) => AdmitConserves(StateOf(past), ev, now, w);
        case TickStep(now, order) => TickConserves(StateOf(past), now, order, w);
        case ConfigureStep(_) =>
      }
  }

  /** The weight that counts events. */
  function One(ev: Event): nat { 1 }

  lemma {:induction false} WeighOne(events: seq<Event>)
    ensures Weigh(events, One) == |events|
  {
    if events != [] {
      WeighOne(events[..|events| - 1]);
    }
  }
}
