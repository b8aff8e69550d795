/** The pipeline as a state machine: calls of Process on several goroutines, the ticker and
    reconfigurations, interleaved. The mutex covers only one admission, the collecting part
    of one tick, or one reconfiguration; between its own steps a call may be overtaken by
    anything. */
module PipelineRuns {
  import opened GoTime
  import opened Options
  import Dispatch
  import F = Flood
  import Rules
  import Sorting

  /** A decoded trap. */
  datatype Trap = Trap(event: Rules.Event, resolvedName: string, receivedAt: Instant, unmapped: bool)

  datatype Severity = Severity(name: string, rank: int)

  datatype TrapRow = TrapRow(
    receivedAt: Instant,
    sourceIp: string,
    trapOid: string,
    resolvedName: string,
    severityId: Option<int>,
    matchedRuleId: Option<int>,
    aggregationKey: string,
    suppressed: bool,
    unmapped: bool)

  datatype NotificationStatus = Sent | Failed | Held

  /** A notification row; a held one names no channel. Trap n is the trap with row id n. */
  datatype NotificationRow = NotificationRow(
    trapId: nat,
    channelId: Option<int>,
    status: NotificationStatus,
    attempts: nat,
    lastError: string)

  function AggregationKey(trap: Trap): string {
    trap.event.sourceIp + "|" + trap.event.trapOid
  }

  function FloodEvent(trap: Trap, d: Rules.Decision, sev: Option<Severity>): F.Event {
    F.Event(AggregationKey(trap), trap.resolvedName,
            if sev.Some? then sev.value.name else "",
            if sev.Some? then sev.value.rank else 0,
            d.channelIds)
  }

  function RowOf(trap: Trap, d: Rules.Decision, outcome: F.Outcome): TrapRow {
    TrapRow(trap.receivedAt, trap.event.sourceIp, trap.event.trapOid, trap.resolvedName,
            d.severityId, d.matchedRuleId, AggregationKey(trap), outcome != F.Send, trap.unmapped)
  }

  // ---- What they say ----

  /** What flood control is told of a trap: its source and OID as the key, its name, its
      severity's name and rank ("" and 0 if none), and the channels of its decision. */
  ghost predicate Describes(ev: F.Event, trap: Trap, d: Rules.Decision, sev: Option<Severity>) {
    && ev.key == trap.event.sourceIp + "|" + trap.event.trapOid
    && ev.name == trap.resolvedName
    && ev.severityName == (if sev == None then "" else sev.value.name)
    && ev.severityRank == (if sev == None then 0 else sev.value.rank)
    && ev.channelIds == d.channelIds
  }

  lemma EventDescribesTrap(trap: Trap, d: Rules.Decision, sev: Option<Severity>)
    ensures Describes(FloodEvent(trap, d, sev), trap, d, sev)
  {
  }

  /** What a trap's row says of it. */
  ghost predicate RowTells(row: TrapRow, trap: Trap, d: Rules.Decision, suppressed: bool) {
    && row.receivedAt == trap.receivedAt
    && row.sourceIp == trap.event.sourceIp
    && row.trapOid == trap.event.trapOid
    && row.resolvedName == trap.resolvedName
    && row.severityId == d.severityId
    && row.matchedRuleId == d.matchedRuleId
    && row.aggregationKey == trap.event.sourceIp + "|" + trap.event.trapOid
    && row.suppressed == suppressed
    && row.unmapped == trap.unmapped
  }

  lemma RowTellsTrap(trap: Trap, d: Rules.Decision, outcome: F.Outcome)
    ensures RowTells(RowOf(trap, d, outcome), trap, d, outcome != F.Send)
  {
  }

  /** The row of a trap that waits for a rollup: `held`, of no channel, not attempted, no error. */
  ghost predicate IsHeldRow(row: NotificationRow, trapId: nat) {
    row.trapId == trapId && row.channelId == None && row.status == Held && row.attempts == 0 && row.lastError == ""
  }

  lemma HeldRowIsHeld(trapId: nat)
    ensures IsHeldRow(HeldRow(trapId), trapId)
  {
  }

  /** The severity with the id, if there is one. */
  ghost predicate LooksUp(severities: map<int, Severity>, id: Option<int>, sev: Option<Severity>) {
    if id != None && id.value in severities then sev == Some(severities[id.value]) else sev == None
  }

  function HeldRow(trapId: nat): NotificationRow {
    NotificationRow(trapId, None, Held, 0, "")
  }

  function NotificationOf(trapId: nat, r: Dispatch.Result): NotificationRow {
    NotificationRow(trapId, Some(r.channelId), if r.status == Dispatch.Sent then Sent else Failed, r.attempts,
                    if r.err.Some? then r.err.value.text else "")
  }

  function ResultRows(trapId: nat, results: seq<Dispatch.Result>): seq<NotificationRow> {
    seq(|results|, i requires 0 <= i < |results| => NotificationOf(trapId, results[i]))
  }

  lemma ResultRowsMore(trapId: nat, results: seq<Dispatch.Result>, n: nat)
    requires n < |results|
    ensures ResultRows(trapId, results[..n + 1]) == ResultRows(trapId, results[..n]) + [NotificationOf(trapId, results[n])]
  {
  }

  /** The notification rows of one trap, given what became of its dispatch. */
  function RowsFor(trapId: nat, outcome: F.Outcome, results: seq<Dispatch.Result>): seq<NotificationRow> {
    match outcome
    case Send => ResultRows(trapId, results)
    case Hold => [HeldRow(trapId)]
    case Suppress => []
  }

  /** The enabled channels among the ids, in order; disabled and missing ones are skipped. */
  function EnabledAmong(channels: map<int, Dispatch.Channel>, ids: seq<int>): seq<Dispatch.Channel> {
    if ids == [] then []
    else
      var id := ids[|ids| - 1];
      EnabledAmong(channels, ids[..|ids| - 1])
      + if id in channels && channels[id].enabled then [channels[id]] else []
  }

  function ResultsOf(chans: seq<Dispatch.Channel>, retries: nat, schedule: seq<Dispatch.Event>): seq<Dispatch.Result> {
    seq(|chans|, i requires 0 <= i < |chans| => Dispatch.ResultOf(chans[i], retries, Dispatch.EndsFor(schedule, i)))
  }

  // ---- The machine ----

  /** How far a call of Process has come. */
  datatype Stage =
    | Gated
    | Stored(trapId: nat)
    | Sending(trapId: nat, results: seq<Dispatch.Result>, sent: nat)
    | Done(trapId: nat)

  /** One call of Process past the flood gate, and the answer it got there. */
  datatype Call = Call(trap: Trap, d: Rules.Decision, sev: Option<Severity>, outcome: F.Outcome, stage: Stage)

  datatype Pipe = Pipe(
    retries: nat,
    flood: F.State,
    calls: map<nat, Call>,
    traps: seq<TrapRow>,
    notes: seq<NotificationRow>,
    collected: seq<F.Batch>,
    flushed: nat)

  /** A call is known by a ticket. The ticker collects rollups under the lock and flushes them
      one by one afterwards. */
  datatype Step =
    | Gate(ticket: nat, trap: Trap, d: Rules.Decision, sev: Option<Severity>)
    | Store(ticket: nat)
    | RecordHeld(ticket: nat)
    | Send(ticket: nat, channels: map<int, Dispatch.Channel>, schedule: seq<Dispatch.Event>)
    | RecordSent(ticket: nat)
    | Collect(now: Instant, order: seq<string>)
    | Flush
    | Configure(cfg: F.Config)

  datatype History = Start(cfg: F.Config, retries: nat) | After(past: History, step: Step)

  /** A table of channels is keyed by their ids. */
  ghost predicate KeyedById(channels: map<int, Dispatch.Channel>) {
    forall id :: id in channels ==> channels[id].id == id
  }

  /** A decision comes from Rules.Classify, which names no channel twice. */
  ghost predicate Enabled(s: Pipe, step: Step) {
    match step
    case Gate(t, _, d, _) => t !in s.calls && Sorting.Distinct(d.channelIds)
    case Store(t) => t in s.calls && s.calls[t].stage.Gated?
    case RecordHeld(t) => t in s.calls && s.calls[t].stage.Stored? && s.calls[t].outcome == F.Hold
    case Send(t, channels, _) =>
      t in s.calls && s.calls[t].stage.Stored? && s.calls[t].outcome == F.Send && KeyedById(channels)
    case RecordSent(t) =>
      t in s.calls && s.calls[t].stage.Sending? && s.calls[t].stage.sent < |s.calls[t].stage.results|
    case Collect(_, order) => F.Enumerates(order, s.flood.buckets.Keys)
    case Flush => s.flushed < |s.collected|
    case Configure(_) => true
  }

  /** A rule that bypasses flood control always sends and leaves the controller alone. */
  function PassGate(s: F.State, trap: Trap, d: Rules.Decision, sev: Option<Severity>): (F.State, F.Outcome) {
    if d.bypassFloodControl then (s, F.Send) else F.Admit(s, FloodEvent(trap, d, sev), trap.receivedAt)
  }

  function AfterStore(outcome: F.Outcome, trapId: nat): Stage {
    if outcome == F.Suppress then Done(trapId) else Stored(trapId)
  }

  ghost function Next(s: Pipe, step: Step): Pipe
    requires Enabled(s, step)
  {
    match step
    case Gate(t, trap, d, sev) =>
      var (flood, outcome) := PassGate(s.flood, trap, d, sev);
      s.(flood := flood, calls := s.calls[t := Call(trap, d, sev, outcome, Gated)])
    case Store(t) =>
      var c := s.calls[t];
      s.(traps := s.traps + [RowOf(c.trap, c.d, c.outcome)],
         calls := s.calls[t := c.(stage := AfterStore(c.outcome, |s.traps|))])
    case RecordHeld(t) =>
      var c := s.calls[t];
      s.(notes := s.notes + [HeldRow(c.stage.trapId)], calls := s.calls[t := c.(stage := Done(c.stage.trapId))])
    case Send(t, channels, schedule) =>
      var c := s.calls[t];
      var results := ResultsOf(EnabledAmong(channels, c.d.channelIds), s.retries, schedule);
      s.(calls := s.calls[t := c.(stage := Sending(c.stage.trapId, results, 0))])
    case RecordSent(t) =>
      var c := s.calls[t];
      s.(notes := s.notes + [NotificationOf(c.stage.trapId, c.stage.results[c.stage.sent])],
         calls := s.calls[t := c.(stage := c.stage.(sent := c.stage.sent + 1))])
    case Collect(now, order) =>
      var (flood, due) := F.Tick(s.flood, now, order);
      s.(flood := flood, collected := s.collected + due)
    case Flush => s.(flushed := s.flushed + 1)
    case Configure(cfg) => s.(flood := F.Configure(s.flood, cfg))
  }

  /** Every step of the history was enabled when it was taken. */
  ghost predicate Possible(h: History)
    decreases h, 0
  {
    match h
    case Start(_, _) => true
    case After(past, step) => Possible(past) && Enabled(PipeOf(past), step)
  }

  ghost function PipeOf(h: History): Pipe
    requires Possible(h)
    decreases h, 1
  {
    match h
    case Start(cfg, retries) => Pipe(retries, F.New(cfg), map[], [], [], [], 0)
    case After(past, step) => Next(PipeOf(past), step)
  }

  // ---- The flood controller's share ----

  function FloodRun(h: History): F.Run {
    match h
    case Start(cfg, _) => F.Begin(cfg)
    case After(past, Gate(_, trap, d, sev)) =>
      if d.bypassFloodControl then FloodRun(past)
      else F.After(FloodRun(past), F.AdmitStep(FloodEvent(trap, d, sev), trap.receivedAt))
    case After(past, Collect(now, order)) => F.After(FloodRun(past), F.TickStep(now, order))
    case After(past, Configure(cfg)) => F.After(FloodRun(past), F.ConfigureStep(cfg))
    case After(past, _) => FloodRun(past)
  }

  lemma {:induction false} FloodShare(h: History)
    requires Possible(h)
    ensures F.Faithful(FloodRun(h)) && PipeOf(h).flood == F.StateOf(FloodRun(h))
  {
    match h
    case Start(_, _) =>
    case After(past, _) => FloodShare(past);
  }

  /** What the gate answered the ticket, from what the controller had been through. */
  function AnswerTo(h: History, t: nat): Option<F.Outcome> {
    match h
    case Start(_, _) => None
    case After(past, Gate(u, trap, d, sev)) =>
      if u != t then AnswerTo(past, t)
      else if d.bypassFloodControl then Some(F.Send)
      else Some(F.OutcomeAt(FloodRun(past), FloodEvent(trap, d, sev), trap.receivedAt))
    case After(past, _) => AnswerTo(past, t)
  }

  lemma {:induction false} OutcomesAreAnswers(h: History, t: nat)
    requires Possible(h) && t in PipeOf(h).calls
    ensures AnswerTo(h, t) == Some(PipeOf(h).calls[t].outcome)
  {
    var past, step := h.past, h.step;
    FloodShare(past);
    if !(step.Gate? && step.ticket == t) {
      OutcomesAreAnswers(past, t);
    }
  }

  /** The table in which a call looked up its channels, and how its sends were scheduled. */
  datatype FannedOut = FannedOut(channels: map<int, Dispatch.Channel>, schedule: seq<Dispatch.Event>)

  /** With what the ticket's Send step was taken. */
  function FanOutOf(h: History, t: nat): Option<FannedOut> {
    match h
    case Start(_, _) => None
    case After(past, Send(u, channels, schedule)) =>
      if u == t then Some(FannedOut(channels, schedule)) else FanOutOf(past, t)
    case After(past, _) => FanOutOf(past, t)
  }

  /** The results of a call are those of sending, to the enabled channels of its own decision in
      the table of its own Send step, under that step's schedule. */
  ghost predicate FannedOutAs(c: Call, retries: nat, f: Option<FannedOut>) {
    && Sorting.Distinct(c.d.channelIds)
    && (c.stage.Sending? ==>
          && f.Some? && KeyedById(f.value.channels)
          && c.stage.results == ResultsOf(EnabledAmong(f.value.channels, c.d.channelIds), retries, f.value.schedule))
  }

  lemma {:induction false} ResultsAreOfItsSend(h: History, t: nat)
    requires Possible(h) && t in PipeOf(h).calls
    ensures FannedOutAs(PipeOf(h).calls[t], PipeOf(h).retries, FanOutOf(h, t))
  {
    var past, step := h.past, h.step;
    if t in PipeOf(past).calls {
      ResultsAreOfItsSend(past, t);
    }
  }
}
