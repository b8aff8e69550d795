/** The processor itself: the state machine of PipelineRuns.dfy carried out in place. */
module Pipeline {
  import opened GoTime
  import opened Options
  import opened FloodController
  import opened PipelineRuns
  import PipelineBooks
  import PipelineRows
  import Accounts
  import Dispatch
  import F = Flood
  import FloodConservation
  import Rollups
  import Rules
  import Sequences
  import Sorting

  /** Each atomic step of a call of Process, of the ticker and of a reconfiguration is a method
      that keeps Valid, so goroutines may take them in any order; Process and Tick are the
      undisturbed sequences. */
  class Processor {
    const flood: Controller
    const retries: nat
    var channels: map<int, Dispatch.Channel>
    var severities: map<int, Severity>
    var traps: seq<TrapRow>
    var notifications: seq<NotificationRow>
    /** The rollups collected so far, and the steps taken so far. */
    ghost var rollups: seq<Rollups.Rollup>
    ghost var history: History

    ghost predicate Valid()
      reads this, flood, flood.buckets.Values
    {
      && Possible(history)
      && Matches(PipeOf(history))
      && flood.Valid() && flood.run == FloodRun(history)
      && KeyedById(channels)
    }

    /** The tables and the rollups are those of the state. */
    ghost predicate Matches(s: Pipe)
      reads this`traps, this`notifications, this`rollups, flood`flushed
    {
      && s.retries == retries && s.traps == traps && s.notes == notifications
      && Render(rollups, s.collected)
      && s.flushed <= |rollups| && flood.flushed == rollups[..s.flushed]
    }

    /** The ticket's call is over, and every other call is where it was. */
    static ghost predicate Finishes(before: map<nat, Call>, ticket: nat, after: map<nat, Call>) {
      ticket in after && after == before[ticket := after[ticket]] && PipelineRows.Finished(after[ticket])
    }

    static lemma FinishesFrom(before: map<nat, Call>, ticket: nat, gated: map<nat, Call>, after: map<nat, Call>)
      requires ticket in gated && gated == before[ticket := gated[ticket]] && Finishes(gated, ticket, after)
      ensures Finishes(before, ticket, after)
    {
    }

    constructor (cfg: F.Config, retries: nat, channels: map<int, Dispatch.Channel>, severities: map<int, Severity>)
      requires KeyedById(channels)
      ensures Valid() && history == Start(cfg, retries) && traps == [] && notifications == []
      ensures this.channels == channels && this.severities == severities
      ensures fresh(flood) && fresh(flood.buckets.Values)
    {
      flood := new Controller(cfg);
      this.retries := retries;
      this.channels, this.severities := channels, severities;
      traps, notifications, rollups := [], [], [];
      history := Start(cfg, retries);
    }

    // ---- What the console keeps ----

    /** Creates the channel, or updates the one with its id. */
    method SaveChannel(c: Dispatch.Channel)
      requires Valid()
      modifies this`channels
      ensures Valid() && channels == old(channels)[c.id := c]
    {
      channels := channels[c.id := c];
    }

    /** Refused while a notification row refers to the channel. */
    method DeleteChannel(id: int) returns (ok: bool)
      requires Valid()
      modifies this`channels
      ensures Valid() && (ok <==> forall row :: row in notifications ==> row.channelId != Some(id))
      ensures channels == if ok then old(channels) - {id} else old(channels)
    {
      ok := forall row :: row in notifications ==> row.channelId != Some(id);
      if ok {
        channels := channels - {id};
      }
    }

    function SeverityOf(id: Option<int>): Option<Severity>
      reads this
    {
      if id.Some? && id.value in severities then Some(severities[id.value]) else None
    }

    // ---- Steps of a call ----

    /** The flood gate: a rule that bypasses always sends, and flood control does not see it. */
    method PassFloodGate(trap: Trap, d: Rules.Decision, ghost ticket: nat)
      returns (outcome: F.Outcome, ghost gate: Gating)
      requires Valid() && ticket !in PipeOf(history).calls && Sorting.Distinct(d.channelIds)
      modifies flood, flood.buckets.Values, this`history
      ensures Valid() && history == After(old(history), Gate(ticket, trap, d, gate.sev))
      ensures Gates(gate, trap, d, severities, old(flood.run))
      ensures outcome == gate.outcome == PipeOf(history).calls[ticket].outcome
      ensures flood.run == if d.bypassFloodControl then old(flood.run)
                           else F.After(old(flood.run), F.AdmitStep(gate.ev, trap.receivedAt))
      ensures flood.flushed == old(flood.flushed) && fresh(flood.buckets.Values - old(flood.buckets.Values))
    {
      var sev := SeverityOf(d.severityId);
      var ev := FloodEvent(trap, d, sev);
      EventDescribesTrap(trap, d, sev);
      FloodShare(history);
      outcome := F.Send;
      if !d.bypassFloodControl {
        outcome := flood.Admit(ev, trap.receivedAt);
      }
      history := After(history, Gate(ticket, trap, d, sev));
      gate := Gating(sev, ev, outcome);
    }

    method PersistTrap(trap: Trap, d: Rules.Decision, outcome: F.Outcome, ghost ticket: nat) returns (trapId: nat)
      requires Valid() && ticket in PipeOf(history).calls
      requires AtGate(PipeOf(history).calls[ticket], trap, d, outcome)
      modifies this`traps, this`history
      ensures Valid() && history == After(old(history), Store(ticket))
      ensures trapId == |old(traps)| && |traps| == trapId + 1 && traps[..trapId] == old(traps)
      ensures RowTells(traps[trapId], trap, d, outcome != F.Send)
    {
      RowTellsTrap(trap, d, outcome);
      trapId := |traps|;
      traps := traps + [RowOf(trap, d, outcome)];
      history := After(history, Store(ticket));
    }

    method WriteHeld(trapId: nat, ghost ticket: nat)
      requires Valid() && ticket in PipeOf(history).calls
      requires PipeOf(history).calls[ticket].stage == Stored(trapId) && PipeOf(history).calls[ticket].outcome == F.Hold
      modifies this`notifications, this`history
      ensures Valid() && history == After(old(history), RecordHeld(ticket))
      ensures notifications == old(notifications) + [HeldRow(trapId)]
      ensures IsHeldRow(notifications[|old(notifications)|], trapId)
    {
      HeldRowIsHeld(trapId);
      notifications := notifications + [HeldRow(trapId)];
      history := After(history, RecordHeld(ticket));
    }

    /** The enabled channels among the ids; disabled and missing ones are skipped. */
    method ChannelsByIds(ids: seq<int>) returns (out: seq<Dispatch.Channel>)
      ensures out == EnabledAmong(channels, ids)
    {
      out := [];
      for i := 0 to |ids|
        invariant out == EnabledAmong(channels, ids[..i])
      {
        assert ids[..i + 1][..i] == ids[..i];
        if ids[i] in channels {
          var c := channels[ids[i]];
          if c.enabled {
            out := out + [c];
          }
        }
      }
      assert ids[..|ids|] == ids;
    }

    /** Fans a message out to the enabled channels among the ids, if there are any. */
    method FanOut(ids: seq<int>) returns (results: seq<Dispatch.Result>, ghost schedule: seq<Dispatch.Event>)
      ensures results == ResultsOf(EnabledAmong(channels, ids), retries, schedule)
    {
      var chans := ChannelsByIds(ids);
      if |chans| == 0 {
        return [], [];
      }
      results, schedule := Dispatch.Dispatch(chans, retries, true);
    }

    method SendTrap(trapId: nat, ids: seq<int>, ghost ticket: nat)
      returns (results: seq<Dispatch.Result>, ghost schedule: seq<Dispatch.Event>)
      requires Valid() && ticket in PipeOf(history).calls
      requires PipeOf(history).calls[ticket].stage == Stored(trapId) && PipeOf(history).calls[ticket].outcome == F.Send
      requires PipeOf(history).calls[ticket].d.channelIds == ids
      modifies this`history
      ensures Valid() && history == After(old(history), Send(ticket, channels, schedule))
      ensures results == ResultsOf(EnabledAmong(channels, ids), retries, schedule)
    {
      results, schedule := FanOut(ids);
      history := After(history, Send(ticket, channels, schedule));
    }

    method WriteSent(trapId: nat, r: Dispatch.Result, ghost ticket: nat)
      requires Valid() && ticket in PipeOf(history).calls
      requires var stage := PipeOf(history).calls[ticket].stage;
        stage.Sending? && stage.trapId == trapId && stage.sent < |stage.results| && stage.results[stage.sent] == r
      modifies this`notifications, this`history
      ensures Valid() && history == After(old(history), RecordSent(ticket))
      ensures notifications == old(notifications) + [NotificationOf(trapId, r)]
      ensures var was := old(PipeOf(history)).calls[ticket];
        PipeOf(history).calls == old(PipeOf(history)).calls[ticket := was.(stage := was.stage.(sent := was.stage.sent + 1))]
    {
      notifications := notifications + [NotificationOf(trapId, r)];
      history := After(history, RecordSent(ticket));
    }

    // ---- One call, undisturbed ----

    /** One row per result. */
    method WriteResults(trapId: nat, results: seq<Dispatch.Result>, ghost ticket: nat)
      requires Valid() && ticket in PipeOf(history).calls
      requires PipeOf(history).calls[ticket].stage == Sending(trapId, results, 0)
      modifies this`notifications, this`history
      ensures Valid() && notifications == old(notifications) + ResultRows(trapId, results)
      ensures Finishes(old(PipeOf(history)).calls, ticket, PipeOf(history).calls)
    {
      ghost var calls := PipeOf(history).calls;
      for i := 0 to |results|
        invariant Valid() && notifications == old(notifications) + ResultRows(trapId, results[..i])
        invariant PipeOf(history).calls == calls[ticket := calls[ticket].(stage := Sending(trapId, results, i))]
      {
        WriteSent(trapId, results[i], ticket);
        ResultRowsMore(trapId, results, i);
        Sequences.Assoc(old(notifications), ResultRows(trapId, results[..i]), [NotificationOf(trapId, results[i])]);
      }
      assert results[..|results|] == results;
    }

    /** Fans the message out and records what came of it. */
    method DispatchTrap(trapId: nat, ids: seq<int>, ghost ticket: nat) returns (ghost schedule: seq<Dispatch.Event>)
      requires Valid() && ticket in PipeOf(history).calls
      requires PipeOf(history).calls[ticket].stage == Stored(trapId) && PipeOf(history).calls[ticket].outcome == F.Send
      requires PipeOf(history).calls[ticket].d.channelIds == ids
      modifies this`notifications, this`history
      ensures Valid() && notifications == old(notifications)
        + ResultRows(trapId, ResultsOf(EnabledAmong(channels, ids), retries, schedule))
      ensures Finishes(old(PipeOf(history)).calls, ticket, PipeOf(history).calls)
    {
      var results;
      results, schedule := SendTrap(trapId, ids, ticket);
      WriteResults(trapId, results, ticket);
    }

    /** Stores the trap and writes the notification rows its outcome calls for. */
    method Record(trap: Trap, d: Rules.Decision, outcome: F.Outcome, ghost ticket: nat)
      returns (trapId: nat, ghost schedule: seq<Dispatch.Event>)
      requires Valid() && ticket in PipeOf(history).calls
      requires AtGate(PipeOf(history).calls[ticket], trap, d, outcome)
      modifies this`traps, this`notifications, this`history
      ensures Valid() && trapId == |old(traps)| && |traps| == trapId + 1 && traps[..trapId] == old(traps)
      ensures RowTells(traps[trapId], trap, d, outcome != F.Send)
      ensures notifications == old(notifications)
        + RowsFor(trapId, outcome, ResultsOf(EnabledAmong(channels, d.channelIds), retries, schedule))
      ensures Finishes(old(PipeOf(history)).calls, ticket, PipeOf(history).calls)
    {
      trapId := PersistTrap(trap, d, outcome, ticket);
      schedule := [];
      match outcome {
        case Suppress =>
        case Hold =>
          WriteHeld(trapId, ticket);
        case Send =>
          schedule := DispatchTrap(trapId, d.channelIds, ticket);
      }
    }

    /** Gate, persistence and dispatch of one classified trap. */
    method Handle(trap: Trap, d: Rules.Decision, ghost ticket: nat)
      returns (trapId: nat, ghost gate: Gating, ghost schedule: seq<Dispatch.Event>)
      requires Valid() && ticket !in PipeOf(history).calls && Sorting.Distinct(d.channelIds)
      modifies this`history, this`traps, this`notifications, flood, flood.buckets.Values
      ensures Valid()
      ensures flood.flushed == old(flood.flushed) && fresh(flood.buckets.Values - old(flood.buckets.Values))
      ensures Gates(gate, trap, d, severities, old(flood.run))
      ensures trapId == |old(traps)| && |traps| == trapId + 1 && traps[..trapId] == old(traps)
      ensures RowTells(traps[trapId], trap, d, gate.outcome != F.Send)
      ensures notifications == old(notifications)
        + RowsFor(trapId, gate.outcome, ResultsOf(EnabledAmong(channels, d.channelIds), retries, schedule))
      ensures Finishes(old(PipeOf(history)).calls, ticket, PipeOf(history).calls)
    {
      ghost var before := PipeOf(history).calls;
      var outcome;
      outcome, gate := PassFloodGate(trap, d, ticket);
      ghost var gated := PipeOf(history).calls;
      trapId, schedule := Record(trap, d, outcome, ticket);
      FinishesFrom(before, ticket, gated, PipeOf(history).calls);
    }

    /** Runs one trap through every stage. A failed rule listing stores nothing. The ghost
        results are the decision the rules came to, what passed at the gate, and the schedule of
        the fan-out. */
    method Process(m: Rules.Matchers, data: Rules.DataSource, trap: Trap, ghost ticket: nat)
      returns (trapId: Option<nat>, ghost decision: Option<Rules.Decision>, ghost gate: Option<Gating>,
               ghost schedule: seq<Dispatch.Event>)
      requires Valid() && ticket !in PipeOf(history).calls
      modifies this`history, this`traps, this`notifications, flood, flood.buckets.Values
      ensures Valid()
      ensures flood.flushed == old(flood.flushed) && fresh(flood.buckets.Values - old(flood.buckets.Values))
      ensures (decision.None? <==> data.rules.None?) && (gate.None? <==> data.rules.None?)
      ensures decision.None? ==>
        trapId == None && traps == old(traps) && notifications == old(notifications) && history == old(history)
      ensures decision.Some? ==>
        && Rules.Tells(decision.value, Rules.Decide(m, data, trap.event, data.rules.value))
        && Rules.Reports(m, data, trap.event, data.rules.value, decision.value)
        && Sorting.Distinct(decision.value.channelIds)
        && Gates(gate.value, trap, decision.value, severities, old(flood.run))
      ensures decision.Some? ==>
        && trapId == Some(|old(traps)|) && |traps| == |old(traps)| + 1 && traps[..|old(traps)|] == old(traps)
        && RowTells(traps[|old(traps)|], trap, decision.value, gate.value.outcome != F.Send)
      ensures decision.Some? ==>
        notifications == old(notifications)
          + RowsFor(|old(traps)|, gate.value.outcome,
                    ResultsOf(EnabledAmong(channels, decision.value.channelIds), retries, schedule))
      ensures decision.Some? ==> Finishes(old(PipeOf(history)).calls, ticket, PipeOf(history).calls)
    {
      var classified := Rules.Classify(m, data, trap.event);
      decision, gate, schedule := classified, None, [];
      if classified.None? {
        return None, decision, gate, schedule;
      }
      var id;
      ghost var passed;
      id, passed, schedule := Handle(trap, classified.value, ticket);
      gate := Some(passed);
      trapId := Some(id);
    }

    // ---- Ticks and reconfigurations ----

    /** The locked part of a tick. */
    method CollectRollups(now: Instant) returns (out: seq<Rollups.Rollup>, ghost order: seq<string>)
      requires Valid()
      modifies this`history, this`rollups, flood
      ensures Valid() && history == After(old(history), Collect(now, order))
      ensures Unflushed() == old(Unflushed()) + out && rollups == old(rollups) + out
      ensures F.Enumerates(order, old(flood.buckets).Keys) && Render(out, F.BatchesAt(old(flood.run), now, order))
      ensures flood.flushed == old(flood.flushed) && flood.buckets.Values <= old(flood.buckets.Values)
    {
      FloodShare(history);
      out, order := flood.Collect(now);
      SlicesOfMore(rollups, out, PipeOf(history).flushed);
      RenderMore(rollups, PipeOf(history).collected, out, F.BatchesAt(FloodRun(history), now, order));
      rollups := rollups + out;
      history := After(history, Collect(now, order));
    }

    /** The rollups collected and not yet flushed. */
    ghost function Unflushed(): seq<Rollups.Rollup>
      requires Valid()
      reads this, flood, flood.buckets.Values
    {
      rollups[PipeOf(history).flushed..]
    }

    /** Dispatches the next rollup to its enabled channels; no row is written. */
    method FloodFlush(r: Rollups.Rollup) returns (results: seq<Dispatch.Result>, ghost schedule: seq<Dispatch.Event>)
      requires Valid() && Unflushed() != [] && Unflushed()[0] == r
      modifies this`history, flood`flushed
      ensures Valid() && history == After(old(history), Flush) && Unflushed() == old(Unflushed())[1..]
      ensures flood.flushed == old(flood.flushed) + [r]
      ensures results == ResultsOf(EnabledAmong(channels, r.channelIds), retries, schedule)
    {
      results, schedule := FanOut(r.channelIds);
      ghost var n := PipeOf(history).flushed;
      flood.Flush(r);
      SlicesAt(rollups, n);
      history := After(history, Flush);
      assert PipeOf(history).flushed == n + 1;
    }

    method FlushNext(due: seq<Rollups.Rollup>, i: nat, ghost sent: seq<Fanned>) returns (ghost sent': seq<Fanned>)
      requires Valid() && i < |due| && Unflushed() == due[i..]
      requires Delivered(channels, retries, due[..i], sent)
      modifies this`history, flood`flushed
      ensures Valid() && Unflushed() == due[i + 1..]
      ensures Delivered(channels, retries, due[..i + 1], sent')
    {
      SlicesAt(due, i);
      var results, schedule := FloodFlush(due[i]);
      sent' := sent + [Fanned(results, schedule)];
      DeliveredMore(channels, retries, due, i, sent, Fanned(results, schedule));
    }

    /** Flushes what has been collected. */
    method FlushAll(due: seq<Rollups.Rollup>) returns (ghost sent: seq<Fanned>)
      requires Valid() && due == Unflushed()
      modifies this`history, flood`flushed
      ensures Valid() && Unflushed() == []
      ensures Delivered(channels, retries, due, sent)
    {
      sent := [];
      for i := 0 to |due|
        invariant Valid() && Unflushed() == due[i..]
        invariant Delivered(channels, retries, due[..i], sent)
      {
        sent := FlushNext(due, i, sent);
      }
      assert due[..|due|] == due;
    }

    /** A whole tick: what is due is collected, and each rollup dispatched to its channels. */
    method Tick(now: Instant)
      returns (ghost out: seq<Rollups.Rollup>, ghost sent: seq<Fanned>)
      requires Valid() && Unflushed() == []
      modifies this`history, this`rollups, flood
      ensures Valid() && Unflushed() == [] && flood.buckets.Values <= old(flood.buckets.Values)
      ensures exists order :: F.Enumerates(order, old(flood.buckets).Keys)
                              && Render(out, F.BatchesAt(old(flood.run), now, order))
      ensures rollups == old(rollups) + out && flood.flushed == rollups
      ensures Delivered(channels, retries, out, sent)
    {
      var due, order := CollectRollups(now);
      out := due;
      sent := FlushAll(due);
      AllFlushed();
    }

    lemma AllFlushed()
      requires Valid() && Unflushed() == []
      ensures flood.flushed == rollups
    {
    }

    method Reconfigure(cfg: F.Config)
      requires Valid()
      modifies this`history, flood
      ensures Valid() && history == After(old(history), Configure(cfg))
      ensures flood.flushed == old(flood.flushed) && flood.buckets == old(flood.buckets)
    {
      flood.Configure(cfg);
      history := After(history, Configure(cfg));
    }
  }

  /** What passed at the flood gate: the severity looked up, the event shown to flood control,
      and the answer. */
  datatype Gating = Gating(sev: Option<Severity>, ev: F.Event, outcome: F.Outcome)

  /** A bypassing trap is sent; any other gets flood control's answer to the event that describes
      it, after everything flood control has been through. */
  ghost predicate Gates(gate: Gating, trap: Trap, d: Rules.Decision, severities: map<int, Severity>, run: F.Run) {
    && LooksUp(severities, d.severityId, gate.sev)
    && Describes(gate.ev, trap, d, gate.sev)
    && gate.outcome == if d.bypassFloodControl then F.Send else F.OutcomeAt(run, gate.ev, trap.receivedAt)
  }

  /** The call has passed the gate with this answer, and not yet been stored. */
  ghost predicate AtGate(c: Call, trap: Trap, d: Rules.Decision, outcome: F.Outcome) {
    c.trap == trap && c.d == d && c.outcome == outcome && c.stage == Gated
  }

  /** What came of one fan-out, and how it was scheduled. */
  datatype Fanned = Fanned(results: seq<Dispatch.Result>, schedule: seq<Dispatch.Event>)

  /** Each rollup went to the enabled channels among its own. */
  ghost predicate Delivered(channels: map<int, Dispatch.Channel>, retries: nat, out: seq<Rollups.Rollup>,
                            sent: seq<Fanned>)
  {
    && |sent| == |out|
    && forall i :: 0 <= i < |out| ==>
         sent[i].results == ResultsOf(EnabledAmong(channels, out[i].channelIds), retries, sent[i].schedule)
  }

  lemma DeliveredMore(channels: map<int, Dispatch.Channel>, retries: nat, out: seq<Rollups.Rollup>, i: nat,
                      sent: seq<Fanned>, f: Fanned)
    requires i < |out| && Delivered(channels, retries, out[..i], sent)
    requires f.results == ResultsOf(EnabledAmong(channels, out[i].channelIds), retries, f.schedule)
    ensures Delivered(channels, retries, out[..i + 1], sent + [f])
  {
  }

  lemma SlicesOfMore<T>(s: seq<T>, more: seq<T>, n: nat)
    requires n <= |s|
    ensures (s + more)[..n] == s[..n] && (s + more)[n..] == s[n..] + more
  {
  }

  lemma SlicesAt<T>(s: seq<T>, n: nat)
    requires n < |s|
    ensures s[..n + 1] == s[..n] + [s[n]] && s[n + 1..] == s[n..][1..] && s[n..][0] == s[n]
  {
  }

  // ---- The books of the object ----

  function CountSum(rollups: seq<Rollups.Rollup>): nat {
    if rollups == [] then 0
    else CountSum(rollups[..|rollups| - 1]) + rollups[|rollups| - 1].count
  }

  /** The counts on the rollups are the sizes of their batches. */
  lemma {:induction false} RenderedCounts(out: seq<Rollups.Rollup>, batches: seq<F.Batch>)
    requires Render(out, batches)
    ensures CountSum(out) == Accounts.BatchTotal(batches)
  {
    if out != [] {
      RenderedCounts(out[..|out| - 1], batches[..|batches| - 1]);
    }
  }

  /** The cross-component law, between any two steps of the object: the held rows, and the
      calls on their way to one, number what the Counts of the flushed and of the collected but
      unflushed rollups add up to, what is pending in buckets and in the digest, and what was
      lost with replaced buckets. */
  lemma ProcessorBooks(p: Processor)
    requires p.Valid()
    ensures PipelineBooks.HeldCount(p.notifications) + |PipelineBooks.InFlight(PipeOf(p.history).calls)|
      == CountSum(p.flood.flushed) + CountSum(p.Unflushed())
         + FloodConservation.Pending(p.flood.Buckets(), FloodConservation.One) + |p.flood.digest|
         + FloodConservation.Loss(p.flood.run, FloodConservation.One)
  {
    var s := PipeOf(p.history);
    PipelineBooks.BooksBalance(p.history);
    FloodShare(p.history);
    RenderedCounts(p.flood.flushed, PipelineBooks.Flushed(s));
    RenderedCounts(p.Unflushed(), PipelineBooks.Unflushed(s));
  }
}
