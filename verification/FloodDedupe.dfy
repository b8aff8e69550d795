/** The dedupe strategy against its history: what lastSeen means, and what that bounds. */
module FloodDedupe {
  import opened GoTime
  import opened Options
  import opened Flood
  import opened SendTimes
  import Sequences

  /** When an event of key k was last sent under dedupe, whatever strategies came since. */
  function LastDedupeSend(r: Run, k: string): Option<Instant> {
    match r
    case Begin(_) => None
    case After(past, AdmitStep(ev, now)) =>
      if ev.key == k && StateOf(past).cfg.strategy == Dedupe && OutcomeAt(past, ev, now) == Send
      then Some(now) else LastDedupeSend(past, k)
    case After(past, _) => LastDedupeSend(past, k)
  }

  lemma {:induction false} LastSeenIsHistory(r: Run, k: string)
    ensures LastDedupeSend(r, k) == if k in StateOf(r).lastSeen then Some(StateOf(r).lastSeen[k]) else None
  {
    match r
    case Begin(_) =>
    case After(past, _) => LastSeenIsHistory(past, k);
  }

  /** Across every run and reconfiguration, an event is suppressed exactly when dedupe is on
      and it comes less than a window after its key's latest dedupe send. */
  lemma {:induction false} SuppressedIffRecent(r: Run, ev: Event, now: Instant)
    ensures OutcomeAt(r, ev, now) == Suppress <==>
      && StateOf(r).cfg.strategy == Dedupe
      && LastDedupeSend(r, ev.key).Some?
      && Sub(now, LastDedupeSend(r, ev.key).value) < StateOf(r).cfg.dedupeWindow
  {
    LastSeenIsHistory(r, ev.key);
  }

  ghost predicate Apart(times: seq<Instant>, w: nat) {
    forall i, j :: 0 <= i < j < |times| && j == i + 1 ==> times[i] + w <= times[j]
  }

  /** The key's sends are a window apart, and lastSeen is the latest. */
  ghost predicate SendsTell(s: State, k: string, times: seq<Instant>, w: nat) {
    && Apart(times, w)
    && (times == [] <==> k !in s.lastSeen)
    && (times != [] ==> s.lastSeen[k] == times[|times| - 1])
  }

  lemma ApartMore(times: seq<Instant>, t: Instant, w: nat)
    requires Apart(times, w) && (times != [] ==> times[|times| - 1] + w <= t)
    ensures Apart(times + [t], w) && (times + [t])[|times|] == t
  {
  }

  lemma AdmitTells(s: State, ev: Event, now: Instant, k: string, times: seq<Instant>)
    requires s.cfg.strategy == Dedupe && s.cfg.dedupeWindow > 0 && SendsTell(s, k, times, s.cfg.dedupeWindow)
    ensures var sent := if ev.key == k && Admit(s, ev, now).1 == Send then [now] else [];
      SendsTell(Admit(s, ev, now).0, k, times + sent, s.cfg.dedupeWindow)
  {
    if ev.key == k && k in s.lastSeen {
      SubReachesWindow(now, s.lastSeen[k], s.cfg.dedupeWindow);
    }
    if ev.key == k && Admit(s, ev, now).1 == Send {
      ApartMore(times, now, s.cfg.dedupeWindow);
    } else {
      Sequences.Empty(times);
    }
  }

  /** The sends of a key are a window apart, in the order they were made, even when the
      events' own timestamps arrive out of order: lastSeen moves only on Send. */
  lemma {:induction false} DedupeSendsApart(r: Run, cfg: Config, k: string)
    requires FixedConfig(r, cfg) && cfg.strategy == Dedupe && cfg.dedupeWindow > 0
    ensures Apart(SendsOf(r, k), cfg.dedupeWindow)
    ensures SendsOf(r, k) == [] <==> k !in StateOf(r).lastSeen
    ensures SendsOf(r, k) != [] ==> StateOf(r).lastSeen[k] == SendsOf(r, k)[|SendsOf(r, k)| - 1]
  {
    SendsTellThroughout(r, cfg, k, SendsOf(r, k));
  }

  lemma {:induction false} SendsTellThroughout(r: Run, cfg: Config, k: string, times: seq<Instant>)
    requires FixedConfig(r, cfg) && cfg.strategy == Dedupe && cfg.dedupeWindow > 0
    requires times == SendsOf(r, k)
    ensures SendsTell(StateOf(r), k, times, cfg.dedupeWindow)
  {
    match r
    case Begin(_) =>
    case After(past, step) =>
      SendsTellThroughout(past, cfg, k, SendsOf(past, k));
      FixedConfigState(past, cfg);
      if step.AdmitStep? {
        AdmitTells(StateOf(past), step.ev, step.now, k, SendsOf(past, k));
      }
  }

  lemma {:induction false} ApartSpan(times: seq<Instant>, w: nat, i: nat, j: nat)
    requires Apart(times, w) && i <= j < |times|
    ensures (j - i) * w <= times[j] - times[i]
    decreases j - i
  {
    if i < j {
      ApartSpan(times, w, i, j - 1);
      assert times[j - 1] + w <= times[j];
      assert (j - i) * w == (j - 1 - i) * w + w;
    }
  }

  lemma ApartCount(times: seq<Instant>, w: nat, a: Instant, b: Instant, m: nat)
    requires Apart(times, w) && b < a + m * w
    ensures CountIn(times, a, b) <= m
  {
    if CountIn(times, a, b) > m {
      var i, j := CountSpan(times, a, b);
      ApartSpan(times, w, i, j);
      Longer(m, j - i, w);
    }
  }

  lemma Longer(m: nat, n: nat, w: nat)
    requires m <= n
    ensures m * w <= n * w
  {
  }

  /** So at most m sends of a key fall in any interval shorter than m windows: the greatest
      number is floor((b - a) / W) + 1. */
  lemma {:induction false} DedupeBound(r: Run, cfg: Config, k: string, a: Instant, b: Instant, m: nat)
    requires FixedConfig(r, cfg) && cfg.strategy == Dedupe && cfg.dedupeWindow > 0
    requires b < a + m * cfg.dedupeWindow
    ensures SendsIn(r, k, a, b) <= m
  {
    DedupeSendsApart(r, cfg, k);
    SendsInCounts(r, k, a, b);
    ApartCount(SendsOf(r, k), cfg.dedupeWindow, a, b, m);
  }
}
