/** Keys do not interfere: what happens to one key's events is as if no other key existed. */
module FloodIsolation {
  import opened GoTime
  import opened Flood
  import opened FloodConservation

  /** The run with every other key's events removed; ticks and reconfigurations stay. */
  function Only(r: Run, k: string): Run {
    match r
    case Begin(_) => r
    case After(past, AdmitStep(ev, _)) =>
      if ev.key == k then After(Only(past, k), r.step) else Only(past, k)
    case After(past, TickStep(now, order)) =>
      After(Only(past, k), TickStep(now, JustKey(order, k)))
    case After(past, ConfigureStep(_)) => After(Only(past, k), r.step)
  }

  /** What the outside sees of key k: the answers to its events and its summaries. */
  datatype Sight = Answer(outcome: Outcome) | SummaryOf(fates: seq<Fate>)

  function Seen(r: Run, k: string): seq<Sight> {
    match r
    case Begin(_) => []
    case After(past, AdmitStep(ev, now)) =>
      if ev.key == k then Seen(past, k) + [Answer(OutcomeAt(past, ev, now))] else Seen(past, k)
    case After(past, TickStep(now, order)) =>
      Seen(past, k) + [SummaryOf(SummariesOf(BatchesAt(past, now, order), k))]
    case After(past, _) => Seen(past, k)
  }

  /** Two states that treat k alike. */
  ghost predicate Alike(s: State, t: State, k: string) {
    && s.cfg == t.cfg
    && (k in s.lastSeen <==> k in t.lastSeen)
    && (k in s.lastSeen ==> s.lastSeen[k] == t.lastSeen[k])
    && (k in s.buckets <==> k in t.buckets)
    && (k in s.buckets ==> s.buckets[k] == t.buckets[k])
  }

  lemma AdmitAlike(s: State, t: State, ev: Event, now: Instant)
    requires Alike(s, t, ev.key)
    ensures Admit(s, ev, now).1 == Admit(t, ev, now).1
    ensures Alike(Admit(s, ev, now).0, Admit(t, ev, now).0, ev.key)
  {
  }

  lemma AdmitOtherKey(s: State, t: State, ev: Event, now: Instant, k: string)
    requires Alike(s, t, k) && ev.key != k
    ensures Alike(Admit(s, ev, now).0, t, k)
  {
  }

  /** The order in which a tick meets k's buckets when there are no others. */
  function JustKey(order: seq<string>, k: string): seq<string> {
    if k in order then [k] else []
  }

  lemma TickAlike(s: State, t: State, now: Instant, order: seq<string>, k: string)
    requires Alike(s, t, k)
    ensures Alike(Tick(s, now, order).0, Tick(t, now, JustKey(order, k)).0, k)
  {
  }

  lemma SameFates(s: State, t: State, now: Instant, order: seq<string>, k: string, a: seq<Fate>, b: seq<Fate>)
    requires Alike(s, t, k) && Enumerates(order, s.buckets.Keys)
    requires a == SummariesOf(Tick(s, now, order).1, k)
    requires b == SummariesOf(Tick(t, now, JustKey(order, k)).1, k)
    ensures a == b
  {
    TickEmits(s, now, order, k, a);
    TickEmits(t, now, JustKey(order, k), k, b);
  }

  /** The run and the key's own run agree on the key. */
  ghost predicate Isolated(r: Run, k: string) {
    && Alike(StateOf(r), StateOf(Only(r, k)), k)
    && StateOf(Only(r, k)).buckets.Keys <= {k} && Faithful(Only(r, k))
    && Seen(Only(r, k), k) == Seen(r, k)
  }

  lemma {:induction false} AdmitIsolated(past: Run, ev: Event, now: Instant, k: string)
    requires Isolated(past, k)
    ensures Isolated(After(past, AdmitStep(ev, now)), k)
  {
    if ev.key == k {
      AdmitAlike(StateOf(past), StateOf(Only(past, k)), ev, now);
    } else {
      AdmitOtherKey(StateOf(past), StateOf(Only(past, k)), ev, now, k);
    }
  }

  lemma {:induction false} TickIsolated(past: Run, now: Instant, order: seq<string>, k: string)
    requires Isolated(past, k) && Enumerates(order, StateOf(past).buckets.Keys)
    ensures Isolated(After(past, TickStep(now, order)), k)
  {
    var s, t := StateOf(past), StateOf(Only(past, k));
    TickAlike(s, t, now, order, k);
    SameFates(s, t, now, order, k, SummariesOf(BatchesAt(past, now, order), k),
              SummariesOf(BatchesAt(Only(past, k), now, JustKey(order, k)), k));
  }

  /** For every run and every key, with no assumption on times or reconfigurations, the
      outcomes of k's events and the summaries built from them are those of the run with
      every other key's events removed, which is itself a run the controller can make. */
  lemma {:induction false} KeyIsolation(r: Run, k: string)
    requires Faithful(r)
    ensures Isolated(r, k)
  {
    match r
    case Begin(_) =>
    case After(past, step) =>
      KeyIsolation(past, k);
      match step {
        case AdmitStep(ev, now) => AdmitIsolated(past, ev, now, k);
        case TickStep(now, order) => TickIsolated(past, now, order, k);
        case ConfigureStep(_) =>
      }
  }
}
