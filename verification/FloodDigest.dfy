/** The digest strategy: nothing is lost, repeated or reordered, and digests keep their
    distance. */
module FloodDigest {
  import opened GoTime
  import opened Options
  import opened Flood

  /** Every event admitted under digest, in order. */
  function AdmittedToDigest(r: Run): seq<Event> {
    match r
    case Begin(_) => []
    case After(past, AdmitStep(ev, now)) =>
      AdmittedToDigest(past) + if StateOf(past).cfg.strategy == Digest then [ev] else []
    case After(past, _) => AdmittedToDigest(past)
  }

  function DigestEvents(batches: seq<Batch>): seq<Event> {
    if batches == [] then []
    else
      var b := batches[|batches| - 1];
      DigestEvents(batches[..|batches| - 1]) + if b.DigestOf? then b.events else []
  }

  /** The events of every digest sent so far, one digest after the other. */
  function Digested(r: Run): seq<Event> {
    match r
    case Begin(_) => []
    case After(past, TickStep(now, order)) => Digested(past) + DigestEvents(BatchesAt(past, now, order))
    case After(past, _) => Digested(past)
  }

  lemma {:induction false} SummariesHoldNoDigest(s: State, now: Instant, order: seq<string>)
    ensures DigestEvents(Summaries(s, now, order)) == []
    ensures forall b :: b in Summaries(s, now, order) ==> b.Summary?
  {
    if order != [] {
      var rest, k := order[..|order| - 1], order[|order| - 1];
      SummariesHoldNoDigest(s, now, rest);
      var before, out := Summaries(s, now, rest), Summaries(s, now, order);
      if out != before {
        assert out == before + [Summary(k, s.buckets[k].held)];
        assert out[..|out| - 1] == before;
      }
    }
  }

  lemma TickDigestEvents(s: State, now: Instant, order: seq<string>)
    ensures DigestEvents(Tick(s, now, order).1) + Tick(s, now, order).0.digest == s.digest
  {
    match s.cfg.strategy
    case RateLimit => SummariesHoldNoDigest(s, now, order);
    case Digest =>
      if DigestDue(s, now) {
        assert Tick(s, now, order).1[..0] == [];
      }
    case _ =>
  }

  /** Across any interleaving, with any times and any reconfiguration: the digests sent so
      far followed by the pending buffer are exactly the events admitted under digest, in
      order. */
  lemma {:induction false} DigestIsExact(r: Run)
    ensures AdmittedToDigest(r) == Digested(r) + StateOf(r).digest
  {
    match r
    case Begin(_) =>
    case After(past, step) =>
      DigestIsExact(past);
      var s := StateOf(past);
      match step {
        case AdmitStep(ev, now) =>
          assert Admit(s, ev, now).0.digest == s.digest + if s.cfg.strategy == Digest then [ev] else [];
        case TickStep(now, order) =>
          TickDigestEvents(s, now, order);
          Regroup(Digested(past), DigestEvents(BatchesAt(past, now, order)), StateOf(r).digest);
        case ConfigureStep(_) =>
      }
  }

  lemma Regroup(a: seq<Event>, b: seq<Event>, c: seq<Event>)
    ensures a + (b + c) == (a + b) + c
  {
  }

  ghost predicate SendsDigest(past: Run, now: Instant, order: seq<string>) {
    exists b :: b in BatchesAt(past, now, order) && b.DigestOf?
  }

  /** When the run last sent a digest. */
  ghost function LastDigest(r: Run): Option<Instant> {
    match r
    case Begin(_) => None
    case After(past, TickStep(now, order)) =>
      if SendsDigest(past, now, order) then Some(now) else LastDigest(past)
    case After(past, _) => LastDigest(past)
  }

  lemma {:induction false} SendsDigestIffDue(past: Run, now: Instant, order: seq<string>)
    ensures SendsDigest(past, now, order) <==>
      StateOf(past).cfg.strategy == Digest && DigestDue(StateOf(past), now)
  {
    SummariesHoldNoDigest(StateOf(past), now, order);
    if StateOf(past).cfg.strategy == Digest && DigestDue(StateOf(past), now) {
      assert DigestOf(StateOf(past).digest) in BatchesAt(past, now, order);
    }
  }

  lemma {:induction false} DigestAtIsLastDigest(r: Run)
    ensures LastDigest(r).Some? && !IsZero(LastDigest(r).value) ==> StateOf(r).digestAt == LastDigest(r).value
  {
    match r
    case Begin(_) =>
    case After(past, step) =>
      DigestAtIsLastDigest(past);
      if step.TickStep? {
        SendsDigestIffDue(past, step.now, step.order);
      }
  }

  /** A digest is never sent less than the then-current interval after the one before it,
      whatever was reconfigured in between. (A digest sent at Go's zero Time would not
      count as one: zero is how the controller says "none yet".) */
  lemma {:induction false} DigestsKeepTheirDistance(past: Run, now: Instant, order: seq<string>)
    requires SendsDigest(past, now, order)
    requires LastDigest(past).Some? && !IsZero(LastDigest(past).value)
    ensures Sub(now, LastDigest(past).value) >= StateOf(past).cfg.digestInterval
  {
    SendsDigestIffDue(past, now, order);
    DigestAtIsLastDigest(past);
  }

  /** When the first event was admitted under digest. */
  function FirstDigestAdmission(r: Run): Option<Instant> {
    match r
    case Begin(_) => None
    case After(past, AdmitStep(_, now)) =>
      if FirstDigestAdmission(past).None? && StateOf(past).cfg.strategy == Digest then Some(now)
      else FirstDigestAdmission(past)
    case After(past, _) => FirstDigestAdmission(past)
  }

  /** When the current interval began: with the last digest, or else with the first event. */
  ghost function IntervalStart(r: Run): Option<Instant> {
    if LastDigest(r).Some? then LastDigest(r) else FirstDigestAdmission(r)
  }

  lemma {:induction false} DigestAtIsIntervalStart(r: Run)
    requires ClockIsSet(r)
    ensures if IntervalStart(r).None? then IsZero(StateOf(r).digestAt)
            else StateOf(r).digestAt == IntervalStart(r).value && !IsZero(StateOf(r).digestAt)
    ensures StateOf(r).digest != [] || LastDigest(r).Some? ==> FirstDigestAdmission(r).Some?
  {
    match r
    case Begin(_) =>
    case After(past, step) =>
      DigestAtIsIntervalStart(past);
      if step.TickStep? {
        SendsDigestIffDue(past, step.now, step.order);
      }
  }

  /** A tick sends a digest exactly when digest is on, something is pending, and the current
      interval, as the history tells it, has lasted long enough. */
  lemma {:induction false} DigestSentIff(past: Run, now: Instant, order: seq<string>)
    requires ClockIsSet(past)
    ensures SendsDigest(past, now, order) <==>
      && StateOf(past).cfg.strategy == Digest
      && StateOf(past).digest != []
      && IntervalStart(past).Some?
      && Sub(now, IntervalStart(past).value) >= StateOf(past).cfg.digestInterval
  {
    DigestAtIsIntervalStart(past);
    SendsDigestIffDue(past, now, order);
  }
}
