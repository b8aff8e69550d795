/** How old a pending event can be once a tick has run. */
module FloodFreshness {
  import opened GoTime
  import opened Flood
  import opened FloodConservation

  /** When each event now pending in the digest buffer was admitted. */
  function DigestTimes(r: Run): seq<Instant> {
    match r
    case Begin(_) => []
    case After(past, AdmitStep(ev, now)) =>
      if StateOf(past).cfg.strategy == Digest then DigestTimes(past) + [now] else DigestTimes(past)
    case After(past, TickStep(now, _)) =>
      if StateOf(past).cfg.strategy == Digest && DigestDue(StateOf(past), now) then [] else DigestTimes(past)
    case After(past, _) => DigestTimes(past)
  }

  /** When each event now held in k's bucket was admitted. */
  function HeldTimes(r: Run, k: string): seq<Instant> {
    match r
    case Begin(_) => []
    case After(past, AdmitStep(ev, now)) =>
      var kept := if ev.key == k && ReplacesHeld(StateOf(past), k, now) then [] else HeldTimes(past, k);
      kept + if HeldNow(StateOf(past), ev, now, k) != [] then [now] else []
    case After(past, TickStep(now, _)) =>
      if k in Next(StateOf(past), r.step).buckets then HeldTimes(past, k) else []
    case After(past, _) => HeldTimes(past, k)
  }

  lemma {:induction false} DigestTimesAligned(r: Run)
    requires Monotone(r) && ClockIsSet(r)
    ensures |DigestTimes(r)| == |StateOf(r).digest|
    ensures StateOf(r).digest != [] ==> !IsZero(StateOf(r).digestAt)
    ensures forall i :: 0 <= i < |DigestTimes(r)| ==> StateOf(r).digestAt <= DigestTimes(r)[i]
    ensures !IsZero(StateOf(r).digestAt) ==> forall t :: NotAfter(r, t) ==> StateOf(r).digestAt <= t
  {
    match r
    case Begin(_) =>
    case After(past, step) =>
      DigestTimesAligned(past);
  }

  lemma {:induction false} HeldTimesAligned(r: Run, k: string)
    requires Monotone(r)
    ensures |HeldTimes(r, k)| == |PendingOf(StateOf(r), k)|
    ensures k in StateOf(r).buckets ==>
      && (forall i :: 0 <= i < |HeldTimes(r, k)| ==> StateOf(r).buckets[k].windowStart <= HeldTimes(r, k)[i])
      && (forall t :: NotAfter(r, t) ==> StateOf(r).buckets[k].windowStart <= t)
  {
    match r
    case Begin(_) =>
    case After(past, step) =>
      HeldTimesAligned(past, k);
  }

  /** Right after a digest tick at T, every event still pending was admitted less than the
      current interval ago, whatever was configured before. */
  lemma {:induction false} DigestFreshAfterTick(past: Run, now: Instant, order: seq<string>, i: nat)
    requires var r := After(past, TickStep(now, order)); Monotone(r) && ClockIsSet(r)
    requires StateOf(past).cfg.strategy == Digest
    requires i < |StateOf(After(past, TickStep(now, order))).digest|
    ensures |DigestTimes(After(past, TickStep(now, order)))| == |StateOf(After(past, TickStep(now, order))).digest|
    ensures Sub(now, DigestTimes(After(past, TickStep(now, order)))[i]) < StateOf(past).cfg.digestInterval
  {
    DigestTimesAligned(past);
    DigestTimesAligned(After(past, TickStep(now, order)));
  }

  /** Right after a rate_limit tick at T, every event still held was admitted less than the
      current window ago, in whatever order the tick met the buckets. */
  lemma {:induction false} HeldFreshAfterTick(past: Run, now: Instant, order: seq<string>, k: string, i: nat)
    requires Monotone(After(past, TickStep(now, order)))
    requires StateOf(past).cfg.strategy == RateLimit
    requires i < |PendingOf(StateOf(After(past, TickStep(now, order))), k)|
    ensures |HeldTimes(After(past, TickStep(now, order)), k)|
      == |PendingOf(StateOf(After(past, TickStep(now, order))), k)|
    ensures Sub(now, HeldTimes(After(past, TickStep(now, order)), k)[i]) < StateOf(past).cfg.rateWindow
  {
    HeldTimesAligned(past, k);
    HeldTimesAligned(After(past, TickStep(now, order)), k);
    assert !Expired(StateOf(past).cfg, StateOf(past).buckets[k], now);
  }
}
