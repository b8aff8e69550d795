/** Whom a flushed rollup reaches: the last step of "held events are sent as one summary". */
module Delivery {
  import opened Options
  import opened PipelineRuns
  import opened FloodController
  import opened Pipeline
  import Dispatch
  import F = Flood
  import Rollups
  import SentRows
  import Sorting

  /** The fan-out sent to the channel. */
  predicate Reached(results: seq<Dispatch.Result>, ch: int) {
    exists i :: 0 <= i < |results| && results[i].channelId == ch
  }

  predicate Open(channels: map<int, Dispatch.Channel>, ch: int) {
    ch in channels && channels[ch].enabled
  }

  lemma ResultsReach(channels: map<int, Dispatch.Channel>, ids: seq<int>, retries: nat, schedule: seq<Dispatch.Event>,
                     ch: int)
    requires Sorting.Distinct(ids) && KeyedById(channels)
    ensures Reached(ResultsOf(EnabledAmong(channels, ids), retries, schedule), ch) <==> ch in ids && Open(channels, ch)
  {
    var chans := EnabledAmong(channels, ids);
    var results := ResultsOf(chans, retries, schedule);
    SentRows.EnabledAmongIs(channels, ids, chans);
    forall i | 0 <= i < |chans| ensures results[i].channelId == chans[i].id {
      SentRows.ResultNamesChannel(chans[i], retries, Dispatch.EndsFor(schedule, i));
    }
    if ch in ids && Open(channels, ch) {
      assert SentRows.Destination(channels, ids, ch);
      var i :| 0 <= i < |chans| && chans[i] == channels[ch];
      assert results[i].channelId == ch;
    }
  }

  /** A rollup reaches a channel if and only if some of its events names the channel and the
      channel exists and is enabled when the rollup is flushed. */
  lemma RollupReachesIff(channels: map<int, Dispatch.Channel>, retries: nat, r: Rollups.Rollup, events: seq<F.Event>,
                         sent: Fanned, ch: int)
    requires KeyedById(channels) && Rollups.IsUnion(r.channelIds, events)
    requires sent.results == ResultsOf(EnabledAmong(channels, r.channelIds), retries, sent.schedule)
    ensures Reached(sent.results, ch) <==> ch in Rollups.Channels(events) && Open(channels, ch)
  {
    ResultsReach(channels, r.channelIds, retries, sent.schedule, ch);
  }

  /** Every channel each event of the rollups names has been sent the event's rollup. */
  ghost predicate AllReached(batches: seq<F.Batch>, sent: seq<Fanned>)
    requires |sent| == |batches|
  {
    forall i, ch :: 0 <= i < |batches| && ch in Rollups.Channels(batches[i].events) ==> Reached(sent[i].results, ch)
  }

  ghost predicate AllOpen(channels: map<int, Dispatch.Channel>, batches: seq<F.Batch>) {
    forall i, ch :: 0 <= i < |batches| && ch in Rollups.Channels(batches[i].events) ==> Open(channels, ch)
  }

  lemma BatchReachesIff(channels: map<int, Dispatch.Channel>, retries: nat, out: seq<Rollups.Rollup>,
                        batches: seq<F.Batch>, sent: seq<Fanned>, i: nat, ch: int)
    requires KeyedById(channels) && i < |out|
    requires Render(out, batches) && Delivered(channels, retries, out, sent)
    ensures Reached(sent[i].results, ch) <==> ch in Rollups.Channels(batches[i].events) && Open(channels, ch)
  {
    RollupReachesIff(channels, retries, out[i], batches[i].events, sent[i], ch);
  }

  /** A tick's rollups, summaries and digests alike, reach every channel of every event in them
      if and only if all those channels exist and are enabled when they are flushed. */
  lemma TickReachesAllIff(channels: map<int, Dispatch.Channel>, retries: nat, out: seq<Rollups.Rollup>,
                          batches: seq<F.Batch>, sent: seq<Fanned>)
    requires KeyedById(channels)
    requires Render(out, batches) && Delivered(channels, retries, out, sent)
    ensures AllReached(batches, sent) <==> AllOpen(channels, batches)
  {
    forall i, ch | 0 <= i < |batches| && ch in Rollups.Channels(batches[i].events)
      ensures Reached(sent[i].results, ch) <==> Open(channels, ch)
    {
      BatchReachesIff(channels, retries, out, batches, sent, i, ch);
    }
    if AllReached(batches, sent) {
      forall i, ch | 0 <= i < |batches| && ch in Rollups.Channels(batches[i].events) ensures Open(channels, ch) {
        assert Reached(sent[i].results, ch);
      }
    } else {
      var i, ch :| 0 <= i < |batches| && ch in Rollups.Channels(batches[i].events) && !Reached(sent[i].results, ch);
      assert !Open(channels, ch);
    }
  }

  /** And a rollup goes to nobody if and only if no event in it names a channel that exists and
      is enabled, as when the rules name none. */
  lemma GoesToNobodyIff(channels: map<int, Dispatch.Channel>, retries: nat, r: Rollups.Rollup, events: seq<F.Event>,
                        sent: Fanned)
    requires KeyedById(channels) && Rollups.IsUnion(r.channelIds, events)
    requires sent.results == ResultsOf(EnabledAmong(channels, r.channelIds), retries, sent.schedule)
    ensures sent.results == [] <==> forall ch :: ch in Rollups.Channels(events) ==> !Open(channels, ch)
  {
    forall ch ensures Reached(sent.results, ch) <==> ch in Rollups.Channels(events) && Open(channels, ch) {
      RollupReachesIff(channels, retries, r, events, sent, ch);
    }
    if sent.results != [] {
      assert Reached(sent.results, sent.results[0].channelId);
    }
  }
}
