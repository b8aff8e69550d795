/** When the events of one key were sent, and how many of those times fall in an interval. */
module SendTimes {
  import opened GoTime
  import opened Flood

  /** The times at which events of key k were answered Send, in order of admission. */
  function SendsOf(r: Run, k: string): seq<Instant> {
    match r
    case Begin(_) => []
    case After(past, AdmitStep(ev, now)) =>
      SendsOf(past, k) + if ev.key == k && OutcomeAt(past, ev, now) == Send then [now] else []
    case After(past, _) => SendsOf(past, k)
  }

  /** How many of the times lie in the closed interval [a, b]. */
  function CountIn(times: seq<Instant>, a: Instant, b: Instant): nat {
    if times == [] then 0
    else
      CountIn(times[..|times| - 1], a, b) + if a <= times[|times| - 1] <= b then 1 else 0
  }

  /** How many events of key k the run sent in the closed interval [a, b]. */
  function SendsIn(r: Run, k: string, a: Instant, b: Instant): nat {
    match r
    case Begin(_) => 0
    case After(past, AdmitStep(ev, now)) =>
      SendsIn(past, k, a, b) + if ev.key == k && OutcomeAt(past, ev, now) == Send && a <= now <= b then 1 else 0
    case After(past, _) => SendsIn(past, k, a, b)
  }

  lemma CountInAppend(times: seq<Instant>, t: Instant, a: Instant, b: Instant)
    ensures CountIn(times + [t], a, b) == CountIn(times, a, b) + if a <= t <= b then 1 else 0
  {
    assert (times + [t])[..|times|] == times;
  }

  /** A count is no more than the distance between the first and the last time it counts. */
  lemma {:induction false} CountSpan(times: seq<Instant>, a: Instant, b: Instant) returns (i: nat, j: nat)
    requires CountIn(times, a, b) > 0
    ensures i <= j < |times|
    ensures a <= times[i] <= b && a <= times[j] <= b
    ensures CountIn(times, a, b) <= j - i + 1
  {
    var rest, last := times[..|times| - 1], |times| - 1;
    if CountIn(rest, a, b) == 0 {
      return last, last;
    }
    i, j := CountSpan(rest, a, b);
    if a <= times[last] <= b {
      j := last;
    }
  }

  lemma {:induction false} SendsInCounts(r: Run, k: string, a: Instant, b: Instant)
    ensures SendsIn(r, k, a, b) == CountIn(SendsOf(r, k), a, b)
  {
    match r
    case Begin(_) =>
    case After(past, AdmitStep(ev, now)) =>
      SendsInCounts(past, k, a, b);
      if ev.key == k && OutcomeAt(past, ev, now) == Send {
        CountInAppend(SendsOf(past, k), now, a, b);
      } else {
        assert SendsOf(r, k) == SendsOf(past, k);
      }
    case After(past, _) =>
      SendsInCounts(past, k, a, b);
  }
}
