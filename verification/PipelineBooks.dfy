/** The books of the whole pipeline: the held rows in the notification table against what the
    rollups report and what the flood controller still has. */
module PipelineBooks {
  import opened GoTime
  import opened Options
  import opened PipelineRuns
  import Accounts
  import F = Flood
  import FloodConservation
  import Rules
  import Sorting

  function HeldCount(rows: seq<NotificationRow>): nat {
    if rows == [] then 0
    else HeldCount(rows[..|rows| - 1]) + if rows[|rows| - 1].status == Held then 1 else 0
  }

  lemma HeldCountMore(rows: seq<NotificationRow>, row: NotificationRow)
    ensures HeldCount(rows + [row]) == HeldCount(rows) + if row.status == Held then 1 else 0
  {
    assert (rows + [row])[..|rows|] == rows;
  }

  /** The gate has answered Hold and the held row is not yet written. */
  predicate Awaits(c: Call) {
    c.outcome == F.Hold && (c.stage.Gated? || c.stage.Stored?)
  }

  /** The calls between the gate's Hold and their held row. */
  function InFlight(calls: map<nat, Call>): set<nat> {
    set t | t in calls && Awaits(calls[t])
  }

  lemma InFlightAfter(calls: map<nat, Call>, t: nat, c: Call)
    ensures |InFlight(calls[t := c])| + (if t in calls && Awaits(calls[t]) then 1 else 0)
      == |InFlight(calls)| + (if Awaits(c) then 1 else 0)
  {
    var rest := InFlight(calls) - {t};
    assert InFlight(calls) == if t in calls && Awaits(calls[t]) then rest + {t} else rest;
    assert InFlight(calls[t := c]) == if Awaits(c) then rest + {t} else rest;
  }

  lemma {:induction false} BatchTotalAppend(a: seq<F.Batch>, b: seq<F.Batch>)
    ensures Accounts.BatchTotal(a + b) == Accounts.BatchTotal(a) + Accounts.BatchTotal(b)
  {
    if b == [] {
      assert a + b == a;
    } else {
      assert (a + b)[..|a + b| - 1] == a + b[..|b| - 1];
      BatchTotalAppend(a, b[..|b| - 1]);
    }
  }

  /** One step's entries: the rows and calls in flight gain exactly the Hold answers. */
  lemma StepEntries(s: Pipe, step: Step)
    requires Enabled(s, step)
    ensures HeldCount(Next(s, step).notes) + |InFlight(Next(s, step).calls)|
      == HeldCount(s.notes) + |InFlight(s.calls)|
         + if step.Gate? && PassGate(s.flood, step.trap, step.d, step.sev).1 == F.Hold then 1 else 0
  {
    var s' := Next(s, step);
    match step
    case Gate(t, _, _, _) => InFlightAfter(s.calls, t, s'.calls[t]);
    case Store(t) => InFlightAfter(s.calls, t, s'.calls[t]);
    case RecordHeld(t) =>
      InFlightAfter(s.calls, t, s'.calls[t]);
      HeldCountMore(s.notes, HeldRow(s.calls[t].stage.trapId));
    case Send(t, _, _) => InFlightAfter(s.calls, t, s'.calls[t]);
    case RecordSent(t) =>
      InFlightAfter(s.calls, t, s'.calls[t]);
      var stage := s.calls[t].stage;
      HeldCountMore(s.notes, NotificationOf(stage.trapId, stage.results[stage.sent]));
    case _ =>
  }

  lemma {:induction false} HeldRowsAndInFlight(h: History)
    requires Possible(h)
    ensures HeldCount(PipeOf(h).notes) + |InFlight(PipeOf(h).calls)| == Accounts.Holds(FloodRun(h))
  {
    match h
    case Start(_, _) =>
      assert InFlight(map[]) == {};
    case After(past, step) =>
      HeldRowsAndInFlight(past);
      FloodShare(past);
      StepEntries(PipeOf(past), step);
  }

  lemma StepCollects(s: Pipe, step: Step)
    requires Enabled(s, step) && s.flushed <= |s.collected|
    ensures Accounts.BatchTotal(Next(s, step).collected) == Accounts.BatchTotal(s.collected)
      + if step.Collect? then Accounts.BatchTotal(F.Tick(s.flood, step.now, step.order).1) else 0
    ensures Next(s, step).flushed <= |Next(s, step).collected|
  {
    if step.Collect? {
      BatchTotalAppend(s.collected, F.Tick(s.flood, step.now, step.order).1);
    }
  }

  lemma {:induction false} CollectedIsReported(h: History)
    requires Possible(h)
    ensures Accounts.BatchTotal(PipeOf(h).collected) == Accounts.Reported(FloodRun(h))
    ensures PipeOf(h).flushed <= |PipeOf(h).collected|
  {
    match h
    case Start(_, _) =>
    case After(past, step) =>
      CollectedIsReported(past);
      FloodShare(past);
      StepCollects(PipeOf(past), step);
      ReportedMore(past, step);
  }

  lemma {:induction false} ReportedMore(past: History, step: Step)
    ensures Accounts.Reported(FloodRun(After(past, step))) == Accounts.Reported(FloodRun(past))
      + if step.Collect? then Accounts.BatchTotal(F.BatchesAt(FloodRun(past), step.now, step.order)) else 0
  {
  }

  function Flushed(s: Pipe): seq<F.Batch> {
    if s.flushed <= |s.collected| then s.collected[..s.flushed] else s.collected
  }

  function Unflushed(s: Pipe): seq<F.Batch> {
    if s.flushed <= |s.collected| then s.collected[s.flushed..] else []
  }

  lemma FlushedAndNot(s: Pipe)
    ensures Accounts.BatchTotal(Flushed(s)) + Accounts.BatchTotal(Unflushed(s)) == Accounts.BatchTotal(s.collected)
  {
    BatchTotalAppend(Flushed(s), Unflushed(s));
    assert Flushed(s) + Unflushed(s) == s.collected;
  }

  /** The cross-component law, at every moment of every interleaving: the held rows, and the
      calls on their way to one, number what the flushed rollups count, what collected rollups
      not yet flushed count, what is pending in buckets and in the digest, and what was lost
      with replaced buckets. */
  lemma {:induction false} BooksBalance(h: History)
    requires Possible(h)
    ensures var s := PipeOf(h);
      HeldCount(s.notes) + |InFlight(s.calls)|
      == Accounts.BatchTotal(Flushed(s)) + Accounts.BatchTotal(Unflushed(s))
         + FloodConservation.Pending(s.flood.buckets, FloodConservation.One) + |s.flood.digest|
         + FloodConservation.Loss(FloodRun(h), FloodConservation.One)
  {
    var s := PipeOf(h);
    HeldRowsAndInFlight(h);
    CollectedIsReported(h);
    FloodShare(h);
    Accounts.HoldsAccountedFor(FloodRun(h));
    FlushedAndNot(s);
  }

  /** No call is between the gate and its held row, and no rollup between lock and flush. */
  predicate Quiet(s: Pipe) {
    InFlight(s.calls) == {} && s.flushed == |s.collected|
  }

  /** With nothing in flight the tables and the rollups alone agree. */
  lemma {:induction false} BooksBalanceWhenQuiet(h: History)
    requires Possible(h) && Quiet(PipeOf(h))
    ensures var s := PipeOf(h);
      HeldCount(s.notes)
      == Accounts.BatchTotal(s.collected)
         + FloodConservation.Pending(s.flood.buckets, FloodConservation.One) + |s.flood.digest|
         + FloodConservation.Loss(FloodRun(h), FloodConservation.One)
  {
    BooksBalance(h);
    assert Flushed(PipeOf(h)) == PipeOf(h).collected && Unflushed(PipeOf(h)) == [];
  }

  /** But not before: a tick between the gate's Hold and the held row reports an event that
      the notification table does not show. */
  lemma TickOvertakesHeldRow(cfg: F.Config, retries: nat, trap: Trap, d: Rules.Decision, later: Instant)
    requires cfg.strategy == F.Digest && !IsZero(trap.receivedAt) && Sub(later, trap.receivedAt) >= cfg.digestInterval
    requires !d.bypassFloodControl && Sorting.Distinct(d.channelIds)
    ensures var h := After(After(After(Start(cfg, retries), Gate(0, trap, d, None)), Collect(later, [])), Flush);
      && Possible(h)
      && PipeOf(h).notes == [] && Accounts.BatchTotal(Flushed(PipeOf(h))) == 1
  {
    var h := After(Start(cfg, retries), Gate(0, trap, d, None));
    assert PipeOf(Start(cfg, retries)).calls == map[];
    assert PipeOf(h).flood.digest == [FloodEvent(trap, d, None)];
    var h' := After(h, Collect(later, []));
    assert PipeOf(h').collected == [F.DigestOf([FloodEvent(trap, d, None)])];
    var out := PipeOf(h').collected;
    assert out[..1] == out && out[..0] == [];
  }

  /** Nor do the rows of the trap table follow the order of the gate: of two equal traps, the
      second, suppressed, may be stored first. */
  lemma RowsMayCross(cfg: F.Config, retries: nat, trap: Trap, d: Rules.Decision)
    requires cfg.strategy == F.Dedupe && cfg.dedupeWindow > 0
    requires !d.bypassFloodControl && Sorting.Distinct(d.channelIds)
    ensures var h := After(After(Start(cfg, retries), Gate(0, trap, d, None)), Gate(1, trap, d, None));
      var h' := After(After(h, Store(1)), Store(0));
      && Possible(h') && AnswerTo(h', 0) == Some(F.Send) && AnswerTo(h', 1) == Some(F.Suppress)
      && |PipeOf(h').traps| == 2 && PipeOf(h').traps[0].suppressed && !PipeOf(h').traps[1].suppressed
  {
    var h0 := After(Start(cfg, retries), Gate(0, trap, d, None));
    assert PipeOf(Start(cfg, retries)).calls == map[];
    var h1 := After(h0, Gate(1, trap, d, None));
    assert PipeOf(h0).calls == map[0 := Call(trap, d, None, F.Send, Gated)];
    assert F.Repeats(PipeOf(h0).flood, FloodEvent(trap, d, None), trap.receivedAt);
    assert PipeOf(h1).calls[0].outcome == F.Send && PipeOf(h1).calls[1].outcome == F.Suppress;
    OutcomesAreAnswers(h1, 0);
    OutcomesAreAnswers(h1, 1);
    var h2 := After(h1, Store(1));
    assert PipeOf(h2).traps == [RowOf(trap, d, F.Suppress)];
    assert PipeOf(After(h2, Store(0))).traps == PipeOf(h2).traps + [RowOf(trap, d, F.Send)];
  }
}
