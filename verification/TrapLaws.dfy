/** Flood control as traps see it, over histories of the whole pipeline: when a trap is
    suppressed, and what becomes of one that is held. */
module TrapLaws {
  import opened GoTime
  import opened Options
  import opened PipelineRuns
  import Delivery
  import Dispatch
  import F = Flood
  import FloodConservation
  import Pipeline
  import Rollups
  import Rules

  /** The settings flood control was last given. */
  function SettingsOf(h: History): F.Config {
    match h
    case Start(cfg, _) => cfg
    case After(_, Configure(cfg)) => cfg
    case After(past, _) => SettingsOf(past)
  }

  lemma {:induction false} SettingsInForce(h: History)
    requires Possible(h)
    ensures PipeOf(h).flood.cfg == SettingsOf(h)
  {
    match h
    case Start(_, _) =>
    case After(past, _) => SettingsInForce(past);
  }

  // ---- Dedupe ----

  /** When flood control, with dedupe on, last let a trap with this source and OID be sent. */
  function LastLetThrough(h: History, key: string): Option<Instant> {
    match h
    case Start(_, _) => None
    case After(past, Gate(_, trap, d, _)) =>
      var last := LastLetThrough(past, key);
      if d.bypassFloodControl || SettingsOf(past).strategy != F.Dedupe then last
      else if trap.event.sourceIp + "|" + trap.event.trapOid != key then last
      else if last != None && Sub(trap.receivedAt, last.value) < SettingsOf(past).dedupeWindow then last
      else Some(trap.receivedAt)
    case After(past, _) => LastLetThrough(past, key)
  }

  /** The map of last sends, key by key. */
  lemma {:induction false} LastSeenIsLetThrough(h: History, key: string)
    requires Possible(h)
    ensures LastLetThrough(h, key) ==
      if key in PipeOf(h).flood.lastSeen then Some(PipeOf(h).flood.lastSeen[key]) else None
  {
    match h
    case Start(_, _) =>
    case After(past, step) =>
      LastSeenIsLetThrough(past, key);
      SettingsInForce(past);
      if step.Gate? {
        EventDescribesTrap(step.trap, step.d, step.sev);
      }
  }

  /** A trap is suppressed if and only if its decision does not bypass flood control, dedupe is
      on, and the last trap with the same source and OID that dedupe let through was received
      less than the window before it. */
  lemma {:induction false} SuppressedTrapIff(past: History, t: nat, trap: Trap, d: Rules.Decision, sev: Option<Severity>)
    requires Possible(After(past, Gate(t, trap, d, sev)))
    ensures var last := LastLetThrough(past, trap.event.sourceIp + "|" + trap.event.trapOid);
      AnswerTo(After(past, Gate(t, trap, d, sev)), t) == Some(F.Suppress) <==>
        && !d.bypassFloodControl
        && SettingsOf(past).strategy == F.Dedupe
        && last != None && Sub(trap.receivedAt, last.value) < SettingsOf(past).dedupeWindow
  {
    var key := trap.event.sourceIp + "|" + trap.event.trapOid;
    LastSeenIsLetThrough(past, key);
    SettingsInForce(past);
    FloodShare(past);
    EventDescribesTrap(trap, d, sev);
  }

  /** A trap is held only under the two strategies that hold, and always under digest. */
  lemma {:induction false} HeldTrapOnlyIf(past: History, t: nat, trap: Trap, d: Rules.Decision, sev: Option<Severity>)
    requires Possible(After(past, Gate(t, trap, d, sev)))
    ensures var strategy, answer := SettingsOf(past).strategy, AnswerTo(After(past, Gate(t, trap, d, sev)), t);
      && (answer == Some(F.Hold) ==> !d.bypassFloodControl && (strategy == F.RateLimit || strategy == F.Digest))
      && (!d.bypassFloodControl && strategy == F.Digest ==> answer == Some(F.Hold))
      && (d.bypassFloodControl ==> answer == Some(F.Send))
  {
    SettingsInForce(past);
    FloodShare(past);
  }

  // ---- Held traps ----

  ghost predicate InBucket(s: F.State, key: string, ev: F.Event) {
    key in s.buckets && ev in s.buckets[key].held
  }

  ghost predicate Waiting(s: Pipe, ev: F.Event) {
    InBucket(s.flood, ev.key, ev) || ev in s.flood.digest
  }

  ghost predicate CollectedIn(s: Pipe, ev: F.Event, i: int) {
    0 <= i < |s.collected| && ev in s.collected[i].events
  }

  /** The events that went with buckets replaced while they held events. */
  ghost function LostOf(h: History): set<F.Event>
    requires Possible(h)
  {
    match h
    case Start(_, _) => {}
    case After(past, Gate(_, trap, d, _)) =>
      var s, key := PipeOf(past).flood, trap.event.sourceIp + "|" + trap.event.trapOid;
      if !d.bypassFloodControl && FloodConservation.ReplacesHeld(s, key, trap.receivedAt)
      then LostOf(past) + (set e | e in s.buckets[key].held) else LostOf(past)
    case After(past, _) => LostOf(past)
  }

  ghost predicate Somewhere(h: History, ev: F.Event)
    requires Possible(h)
  {
    Waiting(PipeOf(h), ev) || (exists i :: CollectedIn(PipeOf(h), ev, i)) || ev in LostOf(h)
  }

  /** A sweep takes all of an expired bucket. */
  lemma {:induction false} SweepTakesBucket(s: F.State, now: Instant, order: seq<string>, key: string, out: seq<F.Batch>)
    requires out == F.Summaries(s, now, order)
    requires key in order && key in s.buckets && F.Expired(s.cfg, s.buckets[key], now) && s.buckets[key].held != []
    ensures exists i :: 0 <= i < |out| && out[i] == F.Summary(key, s.buckets[key].held)
  {
    var most, last := order[..|order| - 1], order[|order| - 1];
    var before := F.Summaries(s, now, most);
    if last == key {
      assert out == before + [F.Summary(key, s.buckets[key].held)];
      assert out[|before|] == F.Summary(key, s.buckets[key].held);
    } else {
      assert order == most + [last];
      SweepTakesBucket(s, now, most, key, before);
      var i :| 0 <= i < |before| && before[i] == F.Summary(key, s.buckets[key].held);
      assert out[i] == before[i];
    }
  }

  /** A tick leaves an event waiting, or takes it into a rollup. */
  lemma TickKeepsOrTakes(s: F.State, now: Instant, order: seq<string>, ev: F.Event)
    requires F.Enumerates(order, s.buckets.Keys)
    requires InBucket(s, ev.key, ev) || ev in s.digest
    ensures var (next, out) := F.Tick(s, now, order);
      || InBucket(next, ev.key, ev) || ev in next.digest
      || exists i :: 0 <= i < |out| && ev in out[i].events
  {
    var (next, out) := F.Tick(s, now, order);
    if s.cfg.strategy == F.RateLimit && InBucket(s, ev.key, ev) && F.Expired(s.cfg, s.buckets[ev.key], now) {
      SweepTakesBucket(s, now, order, ev.key, out);
    } else if s.cfg.strategy == F.Digest && F.DigestDue(s, now) && ev in s.digest {
      assert ev in out[0].events;
    }
  }

  /** An admission leaves an event waiting, or loses it with its bucket. */
  lemma AdmitKeepsOrLoses(s: F.State, e: F.Event, now: Instant, ev: F.Event)
    requires InBucket(s, ev.key, ev) || ev in s.digest
    ensures var next := F.Admit(s, e, now).0;
      || InBucket(next, ev.key, ev) || ev in next.digest
      || (FloodConservation.ReplacesHeld(s, e.key, now) && ev in s.buckets[e.key].held)
  {
  }

  lemma {:induction false} StaysSomewhere(past: History, step: Step, ev: F.Event)
    requires Possible(After(past, step)) && Somewhere(past, ev)
    ensures Somewhere(After(past, step), ev)
  {
    var s, s' := PipeOf(past), PipeOf(After(past, step));
    if i :| CollectedIn(s, ev, i) {
      assert CollectedIn(s', ev, i);
    } else if Waiting(s, ev) {
      if step.Collect? {
        TickKeepsOrTakes(s.flood, step.now, step.order, ev);
        if !Waiting(s', ev) {
          var out := F.Tick(s.flood, step.now, step.order).1;
          var i :| 0 <= i < |out| && ev in out[i].events;
          assert CollectedIn(s', ev, |s.collected| + i);
        }
      } else if step.Gate? && !step.d.bypassFloodControl {
        EventDescribesTrap(step.trap, step.d, step.sev);
        AdmitKeepsOrLoses(s.flood, FloodEvent(step.trap, step.d, step.sev), step.trap.receivedAt, ev);
      }
    }
  }

  /** The event of a trap answered Hold is waiting right after the gate. */
  lemma HeldAtGate(s: F.State, ev: F.Event, now: Instant)
    requires F.Admit(s, ev, now).1 == F.Hold
    ensures InBucket(F.Admit(s, ev, now).0, ev.key, ev) || ev in F.Admit(s, ev, now).0.digest
  {
  }

  /** In every history, a call answered Hold has an event that describes its trap, its decision
      and its severity, and that event is waiting in the bucket of the trap's source and OID or in
      the digest, or is in a rollup, or went with a replaced bucket. */
  lemma {:induction false} HeldTrapIsSomewhere(h: History, t: nat) returns (ev: F.Event)
    requires Possible(h) && t in PipeOf(h).calls && PipeOf(h).calls[t].outcome == F.Hold
    ensures var c := PipeOf(h).calls[t];
      Describes(ev, c.trap, c.d, c.sev) && Somewhere(h, ev)
  {
    var past, step := h.past, h.step;
    if step.Gate? && step.ticket == t {
      ev := FloodEvent(step.trap, step.d, step.sev);
      EventDescribesTrap(step.trap, step.d, step.sev);
      HeldAtGate(PipeOf(past).flood, ev, step.trap.receivedAt);
    } else {
      ev := HeldTrapIsSomewhere(past, t);
      StaysSomewhere(past, step, ev);
    }
  }

  /** A rollup with a held trap in it reaches each channel of the trap's decision that exists and
      is enabled when it is flushed. */
  lemma HeldTrapReached(h: History, t: nat, ev: F.Event, i: int, r: Rollups.Rollup,
                        channels: map<int, Dispatch.Channel>, retries: nat, sent: Pipeline.Fanned, ch: int)
    requires Possible(h) && t in PipeOf(h).calls
    requires Describes(ev, PipeOf(h).calls[t].trap, PipeOf(h).calls[t].d, PipeOf(h).calls[t].sev)
    requires CollectedIn(PipeOf(h), ev, i) && Rollups.IsUnion(r.channelIds, PipeOf(h).collected[i].events)
    requires KeyedById(channels)
    requires sent.results == ResultsOf(EnabledAmong(channels, r.channelIds), retries, sent.schedule)
    requires ch in PipeOf(h).calls[t].d.channelIds && ch in channels && channels[ch].enabled
    ensures exists k :: 0 <= k < |sent.results| && sent.results[k].channelId == ch
  {
    var events := PipeOf(h).collected[i].events;
    assert ch in Rollups.Channels(events);
    Delivery.RollupReachesIff(channels, retries, r, events, sent, ch);
  }
}
