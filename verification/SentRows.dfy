/** What the notification rows of a sent trap say about its channels. */
module SentRows {
  import opened Options
  import opened PipelineRuns
  import PipelineRows
  import Dispatch
  import F = Flood
  import Sorting

  /** A channel the decision names, that exists and that is enabled. */
  predicate Destination(channels: map<int, Dispatch.Channel>, ids: seq<int>, id: int) {
    id in ids && id in channels && channels[id].enabled
  }

  lemma {:induction false} EnabledAmongIs(channels: map<int, Dispatch.Channel>, ids: seq<int>, out: seq<Dispatch.Channel>)
    requires Sorting.Distinct(ids) && out == EnabledAmong(channels, ids) && KeyedById(channels)
    ensures forall i :: 0 <= i < |out| ==> Destination(channels, ids, out[i].id) && out[i] == channels[out[i].id]
    ensures forall i, j :: 0 <= i < j < |out| ==> out[i].id != out[j].id
    ensures forall id :: Destination(channels, ids, id) ==> channels[id] in out
  {
    if ids != [] {
      var most, last := ids[..|ids| - 1], ids[|ids| - 1];
      EnabledAmongIs(channels, most, EnabledAmong(channels, most));
      assert ids == most + [last];
      assert last !in most;
    }
  }

  /** A row that reports the dispatch of this trap to one of its destinations. */
  predicate ReportsSend(row: NotificationRow, trapId: nat, channels: map<int, Dispatch.Channel>, ids: seq<int>,
                        retries: nat, ends: Option<nat>)
  {
    && row.channelId.Some?
    && Destination(channels, ids, row.channelId.value)
    && row == NotificationOf(trapId, Dispatch.ResultOf(channels[row.channelId.value], retries, ends))
  }

  lemma SendIsReported(trapId: nat, channels: map<int, Dispatch.Channel>, ids: seq<int>, retries: nat,
                       c: Dispatch.Channel, ends: Option<nat>)
    requires Destination(channels, ids, c.id) && c == channels[c.id]
    ensures var row := NotificationOf(trapId, Dispatch.ResultOf(c, retries, ends));
      row.channelId == Some(c.id) && ReportsSend(row, trapId, channels, ids, retries, ends)
  {
    ResultNamesChannel(c, retries, ends);
  }

  lemma ResultNamesChannel(c: Dispatch.Channel, retries: nat, ends: Option<nat>)
    ensures Dispatch.ResultOf(c, retries, ends).channelId == c.id
  {
    if c.script.unseal.None? && c.script.build.None? {
      if ends.Some? {
        Dispatch.CancellationCuts(c, retries, ends.value);
      }
      Dispatch.UncutFrom(c, 1, None, retries);
    }
  }

  /** Exactly one row for each channel that the decision names, that exists and that is
      enabled, with that channel's dispatch result, and no other row. */
  ghost predicate OneRowPerDestination(rows: seq<NotificationRow>, trapId: nat, channels: map<int, Dispatch.Channel>,
                                       ids: seq<int>, retries: nat, schedule: seq<Dispatch.Event>)
  {
    && (forall i :: 0 <= i < |rows| ==>
          ReportsSend(rows[i], trapId, channels, ids, retries, Dispatch.EndsFor(schedule, i)))
    && (forall i, j :: 0 <= i < j < |rows| ==> rows[i].channelId != rows[j].channelId)
    && (forall id :: Destination(channels, ids, id) ==> exists i :: 0 <= i < |rows| && rows[i].channelId == Some(id))
  }

  lemma RowsOfResults(trapId: nat, channels: map<int, Dispatch.Channel>, ids: seq<int>, retries: nat,
                      schedule: seq<Dispatch.Event>, rows: seq<NotificationRow>)
    requires Sorting.Distinct(ids) && KeyedById(channels)
    requires rows == RowsFor(trapId, F.Send, ResultsOf(EnabledAmong(channels, ids), retries, schedule))
    ensures OneRowPerDestination(rows, trapId, channels, ids, retries, schedule)
  {
    var chans := EnabledAmong(channels, ids);
    EnabledAmongIs(channels, ids, chans);
    forall i | 0 <= i < |rows|
      ensures ReportsSend(rows[i], trapId, channels, ids, retries, Dispatch.EndsFor(schedule, i))
      ensures rows[i].channelId == Some(chans[i].id)
    {
      SendIsReported(trapId, channels, ids, retries, chans[i], Dispatch.EndsFor(schedule, i));
    }
    forall id | Destination(channels, ids, id) ensures exists i :: 0 <= i < |rows| && rows[i].channelId == Some(id) {
      var i :| 0 <= i < |chans| && chans[i] == channels[id];
      assert rows[i].channelId == Some(id);
    }
  }

  /** However calls overtake one another: the notification table has, for the trap of a sent
      call that is finished, exactly one row for each channel that its decision names, that
      existed and was enabled in the table of its own lookup, and no other row. */
  lemma {:induction false} SentRowShape(h: History, t: nat)
    requires Possible(h) && t in PipeOf(h).calls
    requires AnswerTo(h, t) == Some(F.Send) && PipelineRows.Finished(PipeOf(h).calls[t])
    ensures FanOutOf(h, t).Some?
    ensures var s, f := PipeOf(h), FanOutOf(h, t).value;
      var c := s.calls[t];
      OneRowPerDestination(PipelineRows.NotesOf(s.notes, c.stage.trapId), c.stage.trapId, f.channels, c.d.channelIds,
                           s.retries, f.schedule)
  {
    var s, c := PipeOf(h), PipeOf(h).calls[t];
    PipelineRows.NotificationsOfCall(h, t);
    PipelineRows.SentCallSends(h, t);
    ResultsAreOfItsSend(h, t);
    var f := FanOutOf(h, t).value;
    RowsOfResults(c.stage.trapId, f.channels, c.d.channelIds, s.retries, f.schedule,
                  PipelineRows.NotesOf(s.notes, c.stage.trapId));
  }

  /** Whether a channel's message can get through within the retries. */
  ghost predicate Deliverable(c: Dispatch.Channel, retries: nat) {
    && c.script.unseal.None? && c.script.build.None?
    && exists k :: 1 <= k <= retries + 1 && Dispatch.FirstSuccess(c.script, k)
  }

  /** What the row of a channel tells while the context lasts: `sent`, with no error, exactly if
      the channel could be unsealed and built and an allowed attempt got through, counting the
      attempts up to it; else `failed`, with no attempt and the first error if there was no
      notifier, and with all attempts and the last error if none got through. */
  lemma SentRowStatus(trapId: nat, c: Dispatch.Channel, retries: nat)
    ensures var row := NotificationOf(trapId, Dispatch.ResultOf(c, retries, None));
      && row.trapId == trapId && row.channelId == Some(c.id) && row.status != Held
      && (row.status == Sent <==> Deliverable(c, retries))
      && (forall k :: 1 <= k <= retries + 1 && Deliverable(c, retries) && Dispatch.FirstSuccess(c.script, k) ==>
            row.attempts == k && row.lastError == "")
      && (c.script.unseal.Some? ==> row.attempts == 0 && row.lastError == c.script.unseal.value.text)
      && (c.script.unseal.None? && c.script.build.Some? ==>
            row.attempts == 0 && row.lastError == c.script.build.value.text)
      && (c.script.unseal.None? && c.script.build.None? && row.status == Failed ==>
            && row.attempts == retries + 1 && c.script.attempt(retries + 1).Refused?
            && row.lastError == c.script.attempt(retries + 1).err.text)
  {
    ResultNamesChannel(c, retries, None);
    if c.script.unseal.None? && c.script.build.None? {
      Dispatch.SentIffDelivered(c, retries);
    }
  }

  /** A context that ends leaves the row as it would have been, or `failed` with the context's
      error, or what the interrupted send made of it. */
  lemma InterruptedRow(trapId: nat, c: Dispatch.Channel, retries: nat, at: nat)
    ensures var row := NotificationOf(trapId, Dispatch.ResultOf(c, retries, Some(at)));
      || row == NotificationOf(trapId, Dispatch.ResultOf(c, retries, None))
      || (row.status == Failed && 1 <= row.attempts <= retries + 1 && row.lastError == "context canceled")
      || (at % 2 == 0 && 1 <= at / 2 <= retries + 1 && row.attempts == at / 2
          && match c.script.interrupted(at / 2)
             case Delivered => row.status == Sent && row.lastError == ""
             case Refused(err) => at / 2 == retries + 1 && row.status == Failed && row.lastError == err.text)
  {
    if c.script.unseal.None? && c.script.build.None? {
      Dispatch.CancellationCuts(c, retries, at);
    }
  }
}
