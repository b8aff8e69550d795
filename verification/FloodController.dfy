/** The controller itself: the state machine of Flood.dfy carried out in place. */
module FloodController {
  import opened GoTime
  import opened Rollups
  import F = Flood

  /** One key's rate-limit window. */
  class RateBucket {
    var windowStart: Instant
    var sent: int
    var held: seq<F.Event>

    constructor (windowStart: Instant)
      ensures Value() == F.Bucket(windowStart, 0, [])
    {
      this.windowStart, sent, held := windowStart, 0, [];
    }

    ghost function Value(): F.Bucket
      reads this
    {
      F.Bucket(windowStart, sent, held)
    }
  }

  /** Each rollup renders the batch in the same place. */
  ghost predicate Render(out: seq<Rollup>, batches: seq<F.Batch>) {
    && |out| == |batches|
    && forall i :: 0 <= i < |out| ==>
         if batches[i].Summary? then IsSummary(out[i], batches[i].events) else IsDigest(out[i], batches[i].events)
  }

  /** Applies the active flood-control strategy. The mutex makes Admit, Collect and
      Configure one atomic step each. */
  class Controller {
    var cfg: F.Config
    var lastSeen: map<string, Instant>
    var buckets: map<string, RateBucket>
    var digest: seq<F.Event>
    var digestAt: Instant
    /** The rollups handed to the flush callback so far. */
    var flushed: seq<Rollup>
    /** The steps taken so far. */
    ghost var run: F.Run

    ghost function Buckets(): map<string, F.Bucket>
      reads this`buckets, buckets.Values
    {
      map k | k in buckets :: buckets[k].Value()
    }

    ghost function Value(): F.State
      reads this, buckets.Values
    {
      F.State(cfg, lastSeen, Buckets(), digest, digestAt)
    }

    /** No two keys share a bucket. */
    ghost predicate Separate()
      reads this`buckets
    {
      forall k, l :: k in buckets && l in buckets && k != l ==> buckets[k] != buckets[l]
    }

    ghost predicate Valid()
      reads this, buckets.Values
    {
      Separate() && F.Faithful(run) && Value() == F.StateOf(run)
    }

    constructor (cfg: F.Config)
      ensures Valid() && run == F.Begin(cfg) && flushed == [] && fresh(buckets.Values)
    {
      this.cfg, lastSeen, buckets, digest, digestAt := cfg, map[], map[], [], 0;
      flushed, run := [], F.Begin(cfg);
    }

    /** Adds a step to the run, once the fields are where it leads. */
    ghost method Took(step: F.Step)
      requires Separate() && F.Faithful(F.After(run, step)) && Value() == F.StateOf(F.After(run, step))
      modifies this`run
      ensures Valid() && run == F.After(old(run), step)
    {
      run := F.After(run, step);
    }

    method Configure(cfg: F.Config)
      requires Valid()
      modifies this
      ensures Valid() && run == F.After(old(run), F.ConfigureStep(cfg))
      ensures flushed == old(flushed) && buckets == old(buckets)
    {
      this.cfg := cfg;
      Took(F.ConfigureStep(cfg));
    }

    // ---- Admit ----

    /** The bucket that counts an event of the key, opened if need be. */
    method CurrentBucket(key: string, now: Instant) returns (b: RateBucket)
      requires Separate()
      modifies this`buckets
      ensures Separate() && key in buckets && buckets[key] == b
      ensures b.Value() == F.CurrentBucket(old(Value()), key, now)
      ensures Buckets() == old(Buckets())[key := b.Value()]
      ensures fresh(buckets.Values - old(buckets.Values))
    {
      if key !in buckets || Sub(now, buckets[key].windowStart) >= cfg.rateWindow {
        var window := new RateBucket(now);
        buckets := buckets[key := window];
      }
      b := buckets[key];
    }

    /** Counts the event in its bucket, or holds it there. */
    method CountOrHold(b: RateBucket, ev: F.Event) returns (outcome: F.Outcome)
      requires Separate() && ev.key in buckets && buckets[ev.key] == b
      modifies b
      ensures outcome == if old(b.sent) < cfg.rateN then F.Send else F.Hold
      ensures b.Value() ==
        if outcome == F.Send then old(b.Value()).(sent := old(b.sent) + 1)
        else old(b.Value()).(held := old(b.held) + [ev])
      ensures Buckets() == old(Buckets())[ev.key := b.Value()]
    {
      if b.sent < cfg.rateN {
        b.sent := b.sent + 1;
        outcome := F.Send;
      } else {
        b.held := b.held + [ev];
        outcome := F.Hold;
      }
    }

    method LimitRate(ev: F.Event, now: Instant) returns (outcome: F.Outcome)
      requires Separate() && cfg.strategy == F.RateLimit
      modifies this`buckets, buckets.Values
      ensures Separate()
      ensures Buckets() == F.Admit(old(Value()), ev, now).0.buckets
      ensures outcome == F.Admit(old(Value()), ev, now).1
      ensures fresh(buckets.Values - old(buckets.Values))
    {
      ghost var buckets0 := Buckets();
      var b := CurrentBucket(ev.key, now);
      ghost var before := b.Value();
      outcome := CountOrHold(b, ev);
      assert Buckets() == buckets0[ev.key := b.Value()];
    }

    /** The decision, and the state it leaves. */
    method Decide(ev: F.Event, now: Instant) returns (outcome: F.Outcome)
      requires Separate()
      modifies this`lastSeen, this`buckets, this`digest, this`digestAt, buckets.Values
      ensures Separate()
      ensures Value() == F.Admit(old(Value()), ev, now).0
      ensures outcome == F.Admit(old(Value()), ev, now).1
      ensures fresh(buckets.Values - old(buckets.Values))
    {
      match cfg.strategy {
        case Dedupe =>
          if ev.key in lastSeen && Sub(now, lastSeen[ev.key]) < cfg.dedupeWindow {
            return F.Suppress;
          }
          lastSeen := lastSeen[ev.key := now];
          return F.Send;
        case RateLimit =>
          outcome := LimitRate(ev, now);
        case Digest =>
          if IsZero(digestAt) {
            digestAt := now;
          }
          digest := digest + [ev];
          return F.Hold;
        case _ =>
          return F.Send;
      }
    }

    /** The immediate decision for an event. */
    method Admit(ev: F.Event, now: Instant) returns (outcome: F.Outcome)
      requires Valid()
      modifies this, buckets.Values
      ensures Valid() && run == F.After(old(run), F.AdmitStep(ev, now))
      ensures outcome == F.OutcomeAt(old(run), ev, now)
      ensures flushed == old(flushed) && fresh(buckets.Values - old(buckets.Values))
    {
      outcome := Decide(ev, now);
      Took(F.AdmitStep(ev, now));
    }

    // ---- tick ----

    /** What the sweep does with one key: an expired bucket goes, and if it held events it
        leaves a summary. */
    method SweepKey(key: string, now: Instant) returns (out: seq<Rollup>)
      requires key in buckets
      modifies this`buckets
      ensures var b := old(buckets[key]);
        && buckets == (if F.Expired(cfg, b.Value(), now) then old(buckets) - {key} else old(buckets))
        && Render(out, if F.Expired(cfg, b.Value(), now) && b.held != [] then [F.Summary(key, b.held)] else [])
    {
      out := [];
      var b := buckets[key];
      if Sub(now, b.windowStart) >= cfg.rateWindow {
        if b.held != [] {
          var r := SummaryRollup(b.held);
          out := [r];
        }
        buckets := buckets - {key};
      }
    }

    /** Ranging over the map. `order` is the order in which it met the keys. */
    method SweepAll(now: Instant) returns (out: seq<Rollup>, ghost order: seq<string>)
      modifies this`buckets
      ensures F.Enumerates(order, old(buckets).Keys)
      ensures buckets == Remaining(old(buckets), old(Value()), now, old(buckets).Keys)
      ensures Render(out, F.Summaries(old(Value()), now, order))
    {
      ghost var before, buckets0 := Value(), buckets;
      ghost var swept: set<string> := {};
      out, order := [], [];
      var todo := buckets.Keys;
      while todo != {}
        invariant swept !! todo && swept + todo == buckets0.Keys
        invariant F.Enumerates(order, swept)
        invariant buckets == Remaining(buckets0, before, now, swept)
        invariant Render(out, F.Summaries(before, now, order))
      {
        var key :| key in todo;
        assert key in buckets && buckets[key].Value() == before.buckets[key];
        var more := SweepKey(key, now);
        RemainingMore(buckets0, before, now, swept, key);
        RenderNext(out, more, before, now, order, key);
        EnumeratesMore(order, swept, key);
        out, order := out + more, order + [key];
        swept, todo := swept + {key}, todo - {key};
      }
      assert swept == buckets0.Keys;
    }

    /** The sweep of a rate_limit tick. */
    method Sweep(now: Instant) returns (out: seq<Rollup>, ghost order: seq<string>)
      modifies this`buckets
      ensures F.Enumerates(order, old(buckets).Keys)
      ensures Buckets() == F.StillOpen(old(Value()), now)
      ensures Render(out, F.Summaries(old(Value()), now, order))
      ensures forall k :: k in buckets <==> k in old(buckets) && !F.Expired(cfg, old(buckets[k].Value()), now)
      ensures forall k :: k in buckets ==> buckets[k] == old(buckets[k])
    {
      out, order := SweepAll(now);
    }

    predicate DigestDue(now: Instant)
      reads this`cfg, this`digest, this`digestAt
    {
      cfg.strategy == F.Digest && !IsZero(digestAt) && Sub(now, digestAt) >= cfg.digestInterval && digest != []
    }

    method CollectDigest(now: Instant) returns (out: seq<Rollup>)
      modifies this`digest, this`digestAt
      ensures
        if old(DigestDue(now)) then
          digest == [] && digestAt == now && |out| == 1 && IsDigest(out[0], old(digest))
        else
          digest == old(digest) && digestAt == old(digestAt) && out == []
    {
      out := [];
      if DigestDue(now) {
        var r := DigestRollup(digest);
        out := [r];
        digest := [];
        digestAt := now;
      }
    }

    method CollectSummaries(now: Instant) returns (out: seq<Rollup>, ghost order: seq<string>)
      requires Separate()
      modifies this`buckets
      ensures Separate() && F.Enumerates(order, old(buckets).Keys)
      ensures Buckets() == F.Tick(old(Value()), now, order).0.buckets
      ensures Render(out, if cfg.strategy == F.RateLimit then F.Summaries(old(Value()), now, order) else [])
      ensures buckets.Values <= old(buckets.Values)
    {
      if cfg.strategy == F.RateLimit {
        out, order := Sweep(now);
      } else {
        order := AnyOrder(buckets.Keys);
        out := [];
      }
    }

    /** The rollups due, and the state they leave. */
    method CollectDue(now: Instant) returns (out: seq<Rollup>, ghost order: seq<string>)
      requires Separate()
      modifies this`buckets, this`digest, this`digestAt
      ensures Separate() && F.Enumerates(order, old(buckets).Keys)
      ensures Value() == F.Tick(old(Value()), now, order).0
      ensures Render(out, F.Tick(old(Value()), now, order).1)
      ensures buckets.Values <= old(buckets.Values)
    {
      ghost var before := Value();
      out, order := CollectSummaries(now);
      label swept:
      var due := CollectDigest(now);
      assert Buckets() == old@swept(Buckets());
      TickParts(out, due, before, Value(), now, order);
      out := out + due;
    }

    /** The part of a tick that runs under the lock. */
    method Collect(now: Instant) returns (out: seq<Rollup>, ghost order: seq<string>)
      requires Valid()
      modifies this`buckets, this`digest, this`digestAt, this`run
      ensures Valid() && run == F.After(old(run), F.TickStep(now, order))
      ensures F.Enumerates(order, F.StateOf(old(run)).buckets.Keys)
      ensures Render(out, F.BatchesAt(old(run), now, order))
      ensures buckets.Values <= old(buckets.Values)
    {
      assert old(Buckets()).Keys == old(buckets).Keys;
      out, order := CollectDue(now);
      Took(F.TickStep(now, order));
    }

    /** Hands one rollup to the flush callback, outside the lock. */
    method Flush(r: Rollup)
      requires Valid()
      modifies this`flushed
      ensures Valid() && flushed == old(flushed) + [r]
    {
      flushed := flushed + [r];
    }

    method FlushAll(out: seq<Rollup>)
      requires Valid()
      modifies this`flushed
      ensures Valid() && flushed == old(flushed) + out
    {
      for i := 0 to |out|
        invariant Valid() && flushed == old(flushed) + out[..i]
      {
        Flush(out[i]);
      }
    }

    /** Emits any due rollups: the summaries of closed windows, or the digest. */
    method Tick(now: Instant) returns (out: seq<Rollup>, ghost order: seq<string>)
      requires Valid()
      modifies this
      ensures Valid() && run == F.After(old(run), F.TickStep(now, order))
      ensures Render(out, F.BatchesAt(old(run), now, order))
      ensures flushed == old(flushed) + out
      ensures buckets.Values <= old(buckets.Values)
    {
      out, order := Collect(now);
      FlushAll(out);
    }
  }

  /** A tick is its sweep of the buckets and its look at the digest. */
  lemma TickParts(out: seq<Rollup>, due: seq<Rollup>, s: F.State, s': F.State, now: Instant, order: seq<string>)
    requires Render(out, if s.cfg.strategy == F.RateLimit then F.Summaries(s, now, order) else [])
    requires s' == s.(buckets := F.Tick(s, now, order).0.buckets, digest := s'.digest, digestAt := s'.digestAt)
    requires if s.cfg.strategy == F.Digest && F.DigestDue(s, now)
             then |due| == 1 && IsDigest(due[0], s.digest) && s'.digest == [] && s'.digestAt == now
             else due == [] && s'.digest == s.digest && s'.digestAt == s.digestAt
    ensures s' == F.Tick(s, now, order).0 && Render(out + due, F.Tick(s, now, order).1)
  {
  }

  /** What is left of the map when the sweep has met these keys. */
  function Remaining(was: map<string, RateBucket>, s: F.State, now: Instant, swept: set<string>): map<string, RateBucket> {
    map k | k in was && !(k in swept && k in s.buckets && F.Expired(s.cfg, s.buckets[k], now)) :: was[k]
  }

  lemma RemainingMore(was: map<string, RateBucket>, s: F.State, now: Instant, swept: set<string>, key: string)
    requires key in was && key in s.buckets
    ensures var left := Remaining(was, s, now, swept);
      Remaining(was, s, now, swept + {key}) == if F.Expired(s.cfg, s.buckets[key], now) then left - {key} else left
  {
  }

  lemma RenderNext(out: seq<Rollup>, more: seq<Rollup>, s: F.State, now: Instant, order: seq<string>, key: string)
    requires key in s.buckets && Render(out, F.Summaries(s, now, order))
    requires Render(more, F.SummaryOfKey(s, now, key))
    ensures Render(out + more, F.Summaries(s, now, order + [key]))
  {
    F.SummariesMore(s, now, order, key);
    RenderMore(out, F.Summaries(s, now, order), more, F.SummaryOfKey(s, now, key));
  }

  lemma RenderMore(out: seq<Rollup>, batches: seq<F.Batch>, out': seq<Rollup>, batches': seq<F.Batch>)
    requires Render(out, batches) && Render(out', batches')
    ensures Render(out + out', batches + batches')
  {
    var all, both := out + out', batches + batches';
    forall i | 0 <= i < |all|
      ensures if both[i].Summary? then IsSummary(all[i], both[i].events) else IsDigest(all[i], both[i].events)
    {
      if i < |out| {
        assert all[i] == out[i] && both[i] == batches[i];
      } else {
        assert all[i] == out'[i - |out|] && both[i] == batches'[i - |out|];
      }
    }
  }

  lemma EnumeratesMore(order: seq<string>, keys: set<string>, key: string)
    requires F.Enumerates(order, keys) && key !in keys
    ensures F.Enumerates(order + [key], keys + {key})
  {
  }

  /** Some order to meet the keys in, for the ticks that do not range over the buckets. */
  lemma AnyOrder(keys: set<string>) returns (order: seq<string>)
    ensures F.Enumerates(order, keys)
    decreases |keys|
  {
    if keys == {} {
      order := [];
    } else {
      var k :| k in keys;
      order := AnyOrder(keys - {k});
      EnumeratesMore(order, keys - {k}, k);
      order := order + [k];
      assert keys == keys - {k} + {k};
    }
  }
}
