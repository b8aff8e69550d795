/** What the trap and notification tables hold for each call of Process, however the calls
    interleave, and that calls which bypass flood control leave no trace in the others. */
module PipelineRows {
  import opened Options
  import opened PipelineRuns
  import Dispatch
  import F = Flood
  import Sequences

  // ---- Each call's rows ----

  /** The rows of one trap, in the order they were written. */
  function NotesOf(notes: seq<NotificationRow>, trapId: nat): seq<NotificationRow> {
    if notes == [] then []
    else
      var last := notes[|notes| - 1];
      NotesOf(notes[..|notes| - 1], trapId) + if last.trapId == trapId then [last] else []
  }

  lemma NotesOfMore(notes: seq<NotificationRow>, row: NotificationRow, trapId: nat)
    ensures NotesOf(notes + [row], trapId) == NotesOf(notes, trapId) + if row.trapId == trapId then [row] else []
  {
    assert (notes + [row])[..|notes|] == notes;
  }

  /** What a call has written so far. */
  function Written(c: Call): seq<NotificationRow>
    requires c.stage.Sending? ==> c.stage.sent <= |c.stage.results|
  {
    match c.stage
    case Sending(id, results, sent) => ResultRows(id, results[..sent])
    case Done(id) => RowsFor(id, c.outcome, [])
    case _ => []
  }

  predicate Finished(c: Call) {
    match c.stage
    case Sending(_, results, sent) => sent == |results|
    case Done(_) => true
    case _ => false
  }

  function Results(c: Call): seq<Dispatch.Result> {
    if c.stage.Sending? then c.stage.results else []
  }

  /** The outcome allows the stage. */
  predicate Sound(c: Call) {
    match c.stage
    case Gated => true
    case Stored(_) => c.outcome != F.Suppress
    case Sending(_, results, sent) => c.outcome == F.Send && sent <= |results|
    case Done(_) => c.outcome != F.Send
  }

  predicate HasRow(calls: map<nat, Call>, t: nat) {
    t in calls && !calls[t].stage.Gated?
  }

  predicate Owns(calls: map<nat, Call>, t: nat, trapId: nat) {
    HasRow(calls, t) && calls[t].stage.trapId == trapId
  }

  ghost predicate Owned(calls: map<nat, Call>, trapId: nat) {
    exists t :: Owns(calls, t, trapId)
  }

  /** The tables say what the call has come to. */
  predicate Kept(c: Call, traps: seq<TrapRow>, notes: seq<NotificationRow>) {
    && Sound(c)
    && (!c.stage.Gated? ==>
          && c.stage.trapId < |traps|
          && traps[c.stage.trapId] == RowOf(c.trap, c.d, c.outcome)
          && NotesOf(notes, c.stage.trapId) == Written(c))
  }

  /** No two calls share a row, and every row is some call's. */
  ghost predicate OneRowEach(calls: map<nat, Call>, rows: nat) {
    && (forall t, u :: HasRow(calls, t) && HasRow(calls, u) && t != u ==> calls[t].stage.trapId != calls[u].stage.trapId)
    && (forall id :: 0 <= id < rows ==> Owned(calls, id))
  }

  ghost predicate Consistent(s: Pipe) {
    && (forall t :: t in s.calls ==> Kept(s.calls[t], s.traps, s.notes))
    && OneRowEach(s.calls, |s.traps|)
    && (forall i :: 0 <= i < |s.notes| ==> s.notes[i].trapId < |s.traps|)
  }

  lemma {:induction false} NoNotesYet(notes: seq<NotificationRow>, trapId: nat)
    requires forall i :: 0 <= i < |notes| ==> notes[i].trapId < trapId
    ensures NotesOf(notes, trapId) == []
  {
    if notes != [] {
      NoNotesYet(notes[..|notes| - 1], trapId);
    }
  }

  lemma StoreKeeps(s: Pipe, t: nat)
    requires Consistent(s) && Enabled(s, Store(t))
    ensures Consistent(Next(s, Store(t)))
  {
    var s', id := Next(s, Store(t)), |s.traps|;
    NoNotesYet(s.notes, id);
    forall u | u in s'.calls ensures Kept(s'.calls[u], s'.traps, s'.notes) {
      assert Kept(s.calls[u], s.traps, s.notes);
    }
    assert forall u :: HasRow(s'.calls, u) <==> u == t || HasRow(s.calls, u);
    forall i | 0 <= i < |s'.traps| ensures Owned(s'.calls, i) {
      if i < id {
        assert Owned(s.calls, i);
        var u :| Owns(s.calls, u, i);
        assert Owns(s'.calls, u, i);
      } else {
        assert Owns(s'.calls, t, i);
      }
    }
  }

  /** A call that has its row writes a notification row, or none, and moves on. */
  predicate MovesOn(c: Call, c': Call, more: seq<NotificationRow>) {
    && Sound(c) && Sound(c') && !c.stage.Gated? && !c'.stage.Gated?
    && c' == c.(stage := c'.stage) && c'.stage.trapId == c.stage.trapId
    && Written(c') == Written(c) + more
    && |more| <= 1 && (more != [] ==> more[0].trapId == c.stage.trapId)
  }

  lemma CallKeeps(s: Pipe, s': Pipe, t: nat, c: Call, more: seq<NotificationRow>)
    requires Consistent(s) && HasRow(s.calls, t) && MovesOn(s.calls[t], c, more)
    requires s' == s.(calls := s.calls[t := c], notes := s.notes + more)
    ensures Consistent(s')
  {
    forall u | u in s'.calls ensures Kept(s'.calls[u], s'.traps, s'.notes) {
      EachKept(s, t, c, more, u);
    }
    SameRows(s.calls, s'.calls, |s.traps|);
    assert Kept(s.calls[t], s.traps, s.notes);
  }

  lemma EachKept(s: Pipe, t: nat, c: Call, more: seq<NotificationRow>, u: nat)
    requires Consistent(s) && HasRow(s.calls, t) && MovesOn(s.calls[t], c, more) && u in s.calls
    ensures Kept(if u == t then c else s.calls[u], s.traps, s.notes + more)
  {
    assert Kept(s.calls[u], s.traps, s.notes);
    if u == t {
      OwnKept(s.calls[t], c, s.traps, s.notes, more);
    } else {
      assert HasRow(s.calls, u) ==> s.calls[u].stage.trapId != c.stage.trapId;
      OtherKept(s.calls[u], s.traps, s.notes, more, c.stage.trapId);
    }
  }

  lemma OwnKept(c: Call, c': Call, traps: seq<TrapRow>, notes: seq<NotificationRow>, more: seq<NotificationRow>)
    requires Kept(c, traps, notes) && MovesOn(c, c', more)
    ensures Kept(c', traps, notes + more)
  {
    NotesOfAny(notes, more, c.stage.trapId);
    Sequences.Empty(Written(c));
  }

  /** Rows for one trap leave a call with another trap, or none, as it was. */
  lemma OtherKept(c: Call, traps: seq<TrapRow>, notes: seq<NotificationRow>, more: seq<NotificationRow>, trapId: nat)
    requires Kept(c, traps, notes) && (!c.stage.Gated? ==> c.stage.trapId != trapId)
    requires |more| <= 1 && (more != [] ==> more[0].trapId == trapId)
    ensures Kept(c, traps, notes + more)
  {
    if !c.stage.Gated? {
      NotesOfAny(notes, more, c.stage.trapId);
    }
  }

  lemma NotesOfAny(notes: seq<NotificationRow>, more: seq<NotificationRow>, trapId: nat)
    requires |more| <= 1
    ensures NotesOf(notes + more, trapId) ==
      NotesOf(notes, trapId) + if more != [] && more[0].trapId == trapId then more else []
  {
    if more == [] {
      assert notes + more == notes;
    } else {
      assert more == [more[0]];
      NotesOfMore(notes, more[0], trapId);
    }
  }

  lemma GateKeeps(s: Pipe, step: Step)
    requires Consistent(s) && step.Gate? && Enabled(s, step)
    ensures Consistent(Next(s, step))
  {
    var s' := Next(s, step);
    forall u | u in s'.calls ensures Kept(s'.calls[u], s'.traps, s'.notes) {
      assert u in s.calls ==> Kept(s.calls[u], s.traps, s.notes);
    }
    SameRows(s.calls, s'.calls, |s.traps|);
  }

  lemma SameRows(calls: map<nat, Call>, calls': map<nat, Call>, rows: nat)
    requires OneRowEach(calls, rows)
    requires forall t :: HasRow(calls', t) <==> HasRow(calls, t)
    requires forall t :: HasRow(calls, t) && HasRow(calls', t) ==> calls'[t].stage.trapId == calls[t].stage.trapId
    ensures OneRowEach(calls', rows)
  {
    forall i | 0 <= i < rows ensures Owned(calls', i) {
      assert Owned(calls, i);
      var t :| Owns(calls, t, i);
      assert Owns(calls', t, i);
    }
  }

  lemma StepKeeps(s: Pipe, step: Step)
    requires Consistent(s) && Enabled(s, step)
    ensures Consistent(Next(s, step))
  {
    match step
    case Gate(_, _, _, _) => GateKeeps(s, step);
    case Store(t) => StoreKeeps(s, t);
    case RecordHeld(t) =>
      assert Kept(s.calls[t], s.traps, s.notes);
      CallKeeps(s, Next(s, step), t, Next(s, step).calls[t], [HeldRow(s.calls[t].stage.trapId)]);
    case Send(t, _, _) =>
      assert Kept(s.calls[t], s.traps, s.notes);
      var s' := Next(s, step);
      assert s'.notes == s.notes + [];
      CallKeeps(s, s', t, s'.calls[t], []);
    case RecordSent(t) =>
      SentKeeps(s, t);
    case Collect(_, _) =>
    case Flush =>
    case Configure(_) =>
  }

  lemma SentKeeps(s: Pipe, t: nat)
    requires Consistent(s) && Enabled(s, RecordSent(t))
    ensures Consistent(Next(s, RecordSent(t)))
  {
    var s', c := Next(s, RecordSent(t)), s.calls[t];
    assert Kept(c, s.traps, s.notes);
    var id, results, sent := c.stage.trapId, c.stage.results, c.stage.sent;
    ResultRowsMore(id, results, sent);
    CallKeeps(s, s', t, s'.calls[t], [NotificationOf(id, results[sent])]);
  }

  lemma {:induction false} AlwaysConsistent(h: History)
    requires Possible(h)
    ensures Consistent(PipeOf(h))
  {
    match h
    case Start(_, _) =>
    case After(past, step) =>
      AlwaysConsistent(past);
      StepKeeps(PipeOf(past), step);
  }

  /** However the calls interleave, a call past its insert has a trap row, which is marked
      suppressed exactly if the flood gate answered that call something other than Send, ... */
  lemma {:induction false} TrapRowTellsAnswer(h: History, t: nat)
    requires Possible(h) && HasRow(PipeOf(h).calls, t)
    ensures var s := PipeOf(h);
      var c := s.calls[t];
      && c.stage.trapId < |s.traps|
      && RowTells(s.traps[c.stage.trapId], c.trap, c.d, AnswerTo(h, t) != Some(F.Send))
  {
    AlwaysConsistent(h);
    OutcomesAreAnswers(h, t);
    var c := PipeOf(h).calls[t];
    assert Kept(c, PipeOf(h).traps, PipeOf(h).notes);
    RowTellsTrap(c.trap, c.d, c.outcome);
  }

  /** ... it has the row to itself, ... */
  lemma {:induction false} RowsAreNotShared(h: History, t: nat, u: nat)
    requires Possible(h) && HasRow(PipeOf(h).calls, t) && HasRow(PipeOf(h).calls, u)
    ensures PipeOf(h).calls[t].stage.trapId == PipeOf(h).calls[u].stage.trapId <==> t == u
  {
    AlwaysConsistent(h);
  }

  /** ... and once it is finished, the notification table has for that trap exactly the rows of
      its answer, in order. */
  lemma {:induction false} NotificationsOfCall(h: History, t: nat)
    requires Possible(h) && t in PipeOf(h).calls && Finished(PipeOf(h).calls[t])
    ensures var s := PipeOf(h);
      var c := s.calls[t];
      && AnswerTo(h, t) == Some(c.outcome)
      && NotesOf(s.notes, c.stage.trapId) == RowsFor(c.stage.trapId, c.outcome, Results(c))
      && (c.outcome == F.Suppress ==> NotesOf(s.notes, c.stage.trapId) == [])
      && (c.outcome == F.Hold ==>
            && |NotesOf(s.notes, c.stage.trapId)| == 1
            && IsHeldRow(NotesOf(s.notes, c.stage.trapId)[0], c.stage.trapId))
  {
    AlwaysConsistent(h);
    OutcomesAreAnswers(h, t);
    var c := PipeOf(h).calls[t];
    assert Kept(c, PipeOf(h).traps, PipeOf(h).notes);
    HeldRowIsHeld(c.stage.trapId);
    if c.stage.Sending? {
      assert c.stage.results[..|c.stage.results|] == c.stage.results;
    }
  }

  /** A finished call that the gate let through has been through its sends. */
  lemma {:induction false} SentCallSends(h: History, t: nat)
    requires Possible(h) && t in PipeOf(h).calls && Finished(PipeOf(h).calls[t])
    ensures PipeOf(h).calls[t].outcome == F.Send <==> PipeOf(h).calls[t].stage.Sending?
  {
    AlwaysConsistent(h);
    assert Sound(PipeOf(h).calls[t]);
  }

  /** Every row of either table belongs to some call. */
  lemma {:induction false} NoStrayRows(h: History)
    requires Possible(h)
    ensures var s := PipeOf(h);
      && (forall id :: 0 <= id < |s.traps| ==> Owned(s.calls, id))
      && (forall i :: 0 <= i < |s.notes| ==> Owned(s.calls, s.notes[i].trapId))
  {
    AlwaysConsistent(h);
  }

  // ---- Calls that bypass flood control ----

  function TicketOf(step: Step): Option<nat> {
    match step
    case Gate(t, _, _, _) => Some(t)
    case Store(t) => Some(t)
    case RecordHeld(t) => Some(t)
    case Send(t, _, _) => Some(t)
    case RecordSent(t) => Some(t)
    case _ => None
  }

  predicate Bypassing(calls: map<nat, Call>, step: Step) {
    var t := TicketOf(step);
    t.Some? && t.value in calls && calls[t.value].d.bypassFloodControl
  }

  /** The history with every step of every bypassing call left out. */
  ghost function WithoutBypass(h: History): History
    requires Possible(h)
  {
    match h
    case Start(_, _) => h
    case After(past, step) =>
      if Bypassing(PipeOf(h).calls, step) then WithoutBypass(past) else After(WithoutBypass(past), step)
  }

  /** The same stage, whatever the trap's row id. */
  predicate SameStage(a: Stage, b: Stage) {
    match a
    case Gated => b.Gated?
    case Stored(_) => b.Stored?
    case Sending(_, results, sent) => b.Sending? && b.results == results && b.sent == sent
    case Done(_) => b.Done?
  }

  predicate SameCall(c: Call, d: Call) {
    c.trap == d.trap && c.d == d.d && c.sev == d.sev && c.outcome == d.outcome && SameStage(c.stage, d.stage)
  }

  /** s' is s without its bypassing calls. */
  ghost predicate Stripped(s: Pipe, s': Pipe) {
    && s'.retries == s.retries && s'.flood == s.flood && s'.collected == s.collected && s'.flushed == s.flushed
    && (forall t :: t in s'.calls <==> t in s.calls && !s.calls[t].d.bypassFloodControl)
    && (forall t :: t in s'.calls ==> SameCall(s.calls[t], s'.calls[t]))
  }

  lemma StrippedStep(s: Pipe, s': Pipe, step: Step)
    requires Stripped(s, s') && Enabled(s, step)
    ensures Bypassing(Next(s, step).calls, step) ==> Stripped(Next(s, step), s')
    ensures !Bypassing(Next(s, step).calls, step) ==> Enabled(s', step) && Stripped(Next(s, step), Next(s', step))
  {
    if step.Gate? {
      assert step.ticket !in s'.calls;
    } else if TicketOf(step).Some? {
      StrippedCallStep(s, s', step, step.ticket);
    }
  }

  lemma StrippedCallStep(s: Pipe, s': Pipe, step: Step, t: nat)
    requires Stripped(s, s') && Enabled(s, step) && !step.Gate? && TicketOf(step) == Some(t)
    ensures Bypassing(Next(s, step).calls, step) ==> Stripped(Next(s, step), s')
    ensures !Bypassing(Next(s, step).calls, step) ==> Enabled(s', step) && Stripped(Next(s, step), Next(s', step))
  {
    var c, next := s.calls[t], Next(s, step).calls[t];
    assert next.d == c.d;
    if !c.d.bypassFloodControl {
      assert SameCall(c, s'.calls[t]);
      assert SameCall(next, Next(s', step).calls[t]);
    }
  }

  lemma {:induction false} BypassLeavesNoTrace(h: History)
    requires Possible(h)
    ensures Possible(WithoutBypass(h)) && Stripped(PipeOf(h), PipeOf(WithoutBypass(h)))
  {
    match h
    case Start(_, _) =>
    case After(past, step) =>
      BypassLeavesNoTrace(past);
      StrippedStep(PipeOf(past), PipeOf(WithoutBypass(past)), step);
  }

  /** A notification row without the number of its trap. */
  function Unnumbered(rows: seq<NotificationRow>): seq<NotificationRow> {
    seq(|rows|, i requires 0 <= i < |rows| => rows[i].(trapId := 0))
  }

  lemma SameWritten(c: Call, d: Call)
    requires SameCall(c, d) && Sound(c) && Sound(d)
    ensures Unnumbered(Written(c)) == Unnumbered(Written(d))
  {
  }

  /** The ticket's call got as far in both, and left the same trap row and the same
      notification rows, up to the numbering of the traps. */
  ghost predicate StoredAlike(s: Pipe, s': Pipe, t: nat) {
    && t in s.calls && t in s'.calls && SameCall(s.calls[t], s'.calls[t])
    && (HasRow(s.calls, t) ==>
          var id, id' := s.calls[t].stage.trapId, s'.calls[t].stage.trapId;
          && id < |s.traps| && id' < |s'.traps| && s.traps[id] == s'.traps[id']
          && Unnumbered(NotesOf(s.notes, id)) == Unnumbered(NotesOf(s'.notes, id')))
  }

  lemma SameCallStoredAlike(s: Pipe, s': Pipe, t: nat)
    requires Consistent(s) && Consistent(s')
    requires t in s.calls && t in s'.calls && SameCall(s.calls[t], s'.calls[t])
    ensures StoredAlike(s, s', t)
  {
    assert Kept(s.calls[t], s.traps, s.notes) && Kept(s'.calls[t], s'.traps, s'.notes);
    SameWritten(s.calls[t], s'.calls[t]);
  }

  /** Two histories that differ only in calls that bypass flood control give every other call
      the same answer and store it alike ... */
  lemma {:induction false} BypassIsInvisible(h: History, g: History, t: nat)
    requires Possible(h) && Possible(g) && WithoutBypass(h) == WithoutBypass(g)
    requires t in PipeOf(h).calls && !PipeOf(h).calls[t].d.bypassFloodControl
    ensures AnswerTo(h, t) == AnswerTo(g, t) && StoredAlike(PipeOf(h), PipeOf(g), t)
  {
    BypassLeavesNoTrace(h);
    BypassLeavesNoTrace(g);
    var s, s', w := PipeOf(h), PipeOf(g), PipeOf(WithoutBypass(h));
    assert t in w.calls && t in s'.calls;
    assert SameCall(s.calls[t], w.calls[t]) && SameCall(s'.calls[t], w.calls[t]);
    OutcomesAreAnswers(h, t);
    OutcomesAreAnswers(g, t);
    AlwaysConsistent(h);
    AlwaysConsistent(g);
    SameCallStoredAlike(s, s', t);
  }

  /** ... and collect and flush the same rollups. */
  lemma {:induction false} BypassLeavesRollups(h: History, g: History)
    requires Possible(h) && Possible(g) && WithoutBypass(h) == WithoutBypass(g)
    ensures PipeOf(h).flood == PipeOf(g).flood
    ensures PipeOf(h).collected == PipeOf(g).collected && PipeOf(h).flushed == PipeOf(g).flushed
  {
    BypassLeavesNoTrace(h);
    BypassLeavesNoTrace(g);
  }
}
