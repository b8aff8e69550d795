/** The flood controller's books: held answers against what the rollups report. */
module Accounts {
  import opened GoTime
  import opened Flood
  import opened FloodConservation
  import FloodDigest

  /** How many events the run answered Hold, under either strategy that holds. */
  function Holds(r: Run): nat {
    match r
    case Begin(_) => 0
    case After(past, AdmitStep(ev, now)) => Holds(past) + if OutcomeAt(past, ev, now) == Hold then 1 else 0
    case After(past, _) => Holds(past)
  }

  function BatchTotal(batches: seq<Batch>): nat {
    if batches == [] then 0
    else BatchTotal(batches[..|batches| - 1]) + |batches[|batches| - 1].events|
  }

  /** How many events the rollups of the run's ticks stand for. */
  function Reported(r: Run): nat {
    match r
    case Begin(_) => 0
    case After(past, TickStep(now, order)) => Reported(past) + BatchTotal(BatchesAt(past, now, order))
    case After(past, _) => Reported(past)
  }

  lemma {:induction false} BatchTotalSplits(batches: seq<Batch>)
    ensures BatchTotal(batches) == Summarised(batches, One) + |FloodDigest.DigestEvents(batches)|
  {
    if batches != [] {
      BatchTotalSplits(batches[..|batches| - 1]);
      WeighOne(batches[|batches| - 1].events);
    }
  }

  lemma {:induction false} ReportedSplits(r: Run)
    ensures Reported(r) == Emission(r, One) + |FloodDigest.Digested(r)|
  {
    match r
    case Begin(_) =>
    case After(past, step) =>
      ReportedSplits(past);
      if step.TickStep? {
        BatchTotalSplits(BatchesAt(past, step.now, step.order));
      }
  }

  lemma {:induction false} HoldsSplit(r: Run)
    ensures Holds(r) == Held(r, One) + |FloodDigest.AdmittedToDigest(r)|
  {
    match r
    case Begin(_) =>
    case After(past, step) =>
      HoldsSplit(past);
      if step.AdmitStep? {
        WeighOne(HeldNow(StateOf(past), step.ev, step.now, step.ev.key));
      }
  }

  /** In every run, the events answered Hold are those the rollups stand for, those still
      pending in a bucket or in the digest, and those lost with a replaced bucket. */
  lemma {:induction false} HoldsAccountedFor(r: Run)
    requires Faithful(r)
    ensures Holds(r) == Reported(r) + Pending(StateOf(r).buckets, One) + |StateOf(r).digest| + Loss(r, One)
  {
    HoldsSplit(r);
    ReportedSplits(r);
    AllHeldConserved(r, One);
    FloodDigest.DigestIsExact(r);
  }
}
