# HoloNet: verified model of the trap path

HoloNet receives SNMP traps, classifies them against an ordered rule list, passes them
through flood control, stores them, and sends them to notification channels. This project
models that path after decoding, in Dafny, and proves what it keeps over whole runs.

How the parts fit together:

- `Flood.dfy` is the flood controller as a state machine on values: each atomic step (an
  admission, the locked part of a tick, a reconfiguration) is a function, and a `Run` is any
  interleaving of them, the latest step outermost. `FloodController.dfy` is the controller
  as a class with the source's fields, updated in place; it carries a ghost `run`, and every
  method ties the fields and the answers to it, so each theorem about runs is a theorem
  about the object. `Rollups.dfy` builds the texts and destinations of summaries and digests.
- The theorems on runs are in `FloodWindows.dfy` (what `rate_limit` means without buckets or
  ticks), `FloodTicks.dfy` (ticks are invisible to admissions), `FloodConservation.dfy` (where
  held events go), `FloodPromise.dfy` (when they are all summarised in time), `FloodRate.dfy`
  and `FloodDedupe.dfy` (counting bounds, over `SendTimes.dfy`), `FloodDigest.dfy`,
  `FloodFreshness.dfy`, `FloodIsolation.dfy` (keys do not interfere) and `Accounts.dfy`.
  `DigestText.dfy` says when a digest's text is settled by its events.
- `Rules.dfy` is the classification loop against a declarative meaning of a rule list, and that
  meaning in the rules' own fields;
  `RuleEdits.dfy` derives what editing the list can change.
- `RuleTable.dfy` is the reordering transaction under `UNIQUE(ord)`; `RuleOrder.dfy` is the
  order it leaves; `RulesPage.dfy` is the console's drag and move, composed with it.
- `Dispatch.dfy` is the fan-out with retries under a context that may end at any moment.
- `PipelineRuns.dfy` is the whole pipeline as a state machine: any number of calls of
  `Process`, the ticker and reconfigurations, interleaved at every point the code allows.
  `PipelineRows.dfy` says what the two tables hold for each call, `PipelineBooks.dfy` balances
  them against flood control, `SentRows.dfy` reads a sent trap's rows. `Pipeline.dfy` is the
  processor as a class: each atomic step is a method that ties the tables to the machine, so
  every theorem about histories is one about the object; `Process` and `Tick` are the
  undisturbed sequences of those steps. `Delivery.dfy` says whom its rollups reach, and
  `TrapLaws.dfy` when a trap is suppressed and what becomes of one that is held.
- `Migrations.dfy` and `Timestamps.dfy` are two smaller parts of the store.
- `GoTime.dfy`, `Text.dfy`, `Sorting.dfy`, `Sequences.dfy` and `Options.dfy` hold what these
  share: Go's saturating `Sub`, string comparison and number formatting, the `sort` package.

Conventions. Times are integers, nanoseconds since Go's zero `Time`, which is 0. `Sub`
saturates to 64 bits as Go's does. Go does not say in which order `range` meets a map's keys,
so each tick carries the `order` it saw, and results hold for every order. A rate-limit
theorem asks for monotone times or a fixed configuration only where it says so: admissions
bear the time a trap was received, which is before it was queued (`internal/snmp/sink.go:261`,
`cmd/holonet/main.go:285`), while ticks read the wall clock (`cmd/holonet/main.go:282`), so a
trap can reach the controller after a tick with a later time.
The mutex covers one admission, the collecting part of one tick, or one reconfiguration
(`internal/flood/flood.go:113-115`, `internal/flood/flood.go:152-173`). `Process` is not under
it and runs on the consumer's goroutine and on those of replay requests
(`cmd/holonet/main.go:286`, `cmd/holonet/main.go:364`), beside the ticker. So a call passes the
gate, inserts its trap and writes each notification row in separate steps, known by a ticket,
and anything may come between.
What the code computes with a function is stated a second time without it: `Rules.Reports`,
`RuleOrder.ListedAs`, `PipelineRuns.Describes` and `RowTells`, `DigestText.ListsGroups` and
`ShowsGroup`, and `Timestamps.FieldsAt` speak of fields, data and characters alone.
Where a count over all keys is taken, events are counted through an arbitrary weight;
an equation for every weight is an equation of multisets.

Where the code and its description differ, the model follows the code:

- `README.md:445` says held events are "sent as one summary when the window closes". An
  admission that finds an expired bucket replaces it together with its held events, and no
  tick sweeps the buckets while another strategy is on. `FloodPromise.CollectedInTimeIff` says
  exactly after which ticks every held event has been put into a summary or is in a window not
  yet over, `FloodPromise.TimelyTicksIff` what that asks of the ticks;
  `FloodPromise.OvertakenTickDrops` and `FloodPromise.SwitchStrandsHeldEvents` are runs in which
  it fails. A summary that is collected is sent to the channels its events name and that exist
  and are enabled when it is flushed, and to no others: `Delivery.TickReachesAllIff` says exactly
  when that is everyone, `Delivery.GoesToNobodyIff` when it is nobody.
- `README.md:445` also says up to `rate_n` events per key per `rate_window` are sent. That
  holds of each window the controller opens. Read over any stretch of that length it needs
  times that never go back: a trap that a tick has overtaken opens a window anew, and no `rate_n`
  and no window then limits the sends at one instant (`FloodRate.NoLimitWithoutClock`). With such
  times it holds exactly if `rate_n` is 1 or the window is a single nanosecond
  (`FloodRate.NeverMoreThanNIff`); otherwise the most is `2 * rate_n - 1`, and every
  configuration reaches it (`FloodRate.SlidingWindowBound`, `FloodRate.PeakIsReached`).
- `internal/store/rules.go:148-149` says the offset avoids the UNIQUE constraint. For any list
  and any order in which the database visits the rows, it does exactly if no two positions are
  the offset apart and no rule is shifted onto a place that is filled before its own turn
  (`RuleOrder.ReorderCommitsIff`). Creating a rule accepts any position, so the second can fail
  (`RuleOrder.NegativePositionRefuses`), and one call that lists only some rules can bring about
  the first (`RuleOrder.PartialReorderLeavesRoomIff`, `RuleOrder.PartialReorderBlocksTheNext`).
- `README.md:186` says a sent trap gets one notification row per channel; channels that are
  disabled or missing get none (`SentRows.SentRowShape`).
- `internal/store/queries.go:10-11` says timestamps sort lexicographically. That is so within
  the years up to 9999 and within the five-digit years; between the two, exactly if the
  four-digit year is at most the first four digits of the other
  (`Timestamps.TextOrderIsTimeOrder`, `Timestamps.FiveDigitYearOrder`,
  `Timestamps.MixedWidthOrder`).
- The groups of a digest are ordered by rank and name alone, so two that differ only in
  severity name may come out either way (`Rollups.GroupingSettledIffTieFree`). The text is
  settled exactly if the lines of such groups may change places unseen
  (`DigestText.DigestTextSettledIff`); with no line break in any name, that is if such events
  show the same severity and are equally many (`DigestText.SettledByEventsIff`).
- The notification table lags behind the rollups: a tick between the gate's Hold and the held
  row reports an event the table does not show (`PipelineBooks.TickOvertakesHeldRow`), and traps
  may be stored in another order than they passed the gate (`PipelineBooks.RowsMayCross`).

Verify with `dafny verify dfyconfig.toml`.

## Model

| member | source | states |
|---|---|---|
| FloodController.Controller.constructor | internal/flood/flood.go:89-96 | a new controller is the empty state under its configuration, with an empty run |
| FloodController.Controller.Configure | internal/flood/flood.go:99-103 | swapping the configuration is one step of the run and touches no bucket, buffer or flushed rollup |
| FloodController.Controller.Admit | internal/flood/flood.go:113-148 | the answer and the whole new state are those of an admission step after the run so far, and nothing is flushed |
| FloodController.Controller.CurrentBucket | internal/flood/flood.go:126-130 | the key's bucket is kept unless missing or expired, else replaced by an empty one opened now; no other key's bucket changes |
| FloodController.Controller.CountOrHold | internal/flood/flood.go:131-136 | the first N events of a bucket are counted and sent, later ones are appended to its held list; aliasing between buckets is excluded |
| FloodController.Controller.Sweep | internal/flood/flood.go:156-165 | ranging over the buckets in any order leaves exactly the unexpired ones and renders one summary for each expired one that holds events |
| FloodController.Controller.CollectDigest | internal/flood/flood.go:167-172 | a due digest is rendered from the whole buffer, which is emptied and restarted at the tick's time; otherwise nothing changes |
| FloodController.Controller.Collect | internal/flood/flood.go:152-173 | the locked part of a tick is one step of the run: state and rollups are those of that step, and nothing is flushed yet |
| FloodController.Controller.Tick | internal/flood/flood.go:152-181 | the new state and the rollups returned and flushed are those of a tick step, for whatever order the map was met in |
| Rollups.UnionChannels | internal/flood/flood.go:248-261 | the strictly increasing list of exactly the channels some event names |
| Rollups.UnionIgnoresOrderAndRepeats | internal/flood/flood.go:248-261 | event lists with the same events, in any order and with any repeats, have the same union |
| Rollups.SummaryRollup | internal/flood/flood.go:201-209 | title, "+K more" text, channels and count of a summary |
| Text.ItoaReadsBack | internal/flood/flood.go:205 | the count printed in a rollup's text reads back as the count |
| Text.ItoaShape | internal/flood/flood.go:205 | it is digits only, without a leading zero |
| Text.LessIff | internal/flood/flood.go:230 | one string comes before another if and only if, where they first differ, it has the lesser character or has ended |
| GoTime.SubIs | internal/flood/flood.go:120 | a difference of times is the plain one within 64 bits and the nearest end of their range outside |
| Rollups.DigestRollup | internal/flood/flood.go:212-246 | title, union of channels and count of a digest, and a body that writes its events' groups |
| DigestText.DigestReads | internal/flood/flood.go:212-246 | that body lists each (severity, rank, name) of the events once, least rank first and by name within a rank, each line showing the severity's name, "Unclassified" if empty, the event's name and how many events have all three |
| Rollups.CountsAddUp | internal/flood/flood.go:218-221 | the per-group counts of a digest add up to its Count |
| Rollups.GroupingSettledIffTieFree | internal/flood/flood.go:226-231 | the group order is determined by the events if and only if no two groups share rank and name |
| DigestText.DigestTextSettledIff | internal/flood/flood.go:226-246 | the digest's text is determined by the events if and only if the lines of groups that tie may change places without a trace |
| DigestText.SingleLinesCommuteIff | internal/flood/flood.go:233-239 | two single lines may change places without a trace only if they are equal |
| DigestText.SameLineIff | internal/flood/flood.go:234-238 | under one event name, two lines are equal if and only if they show the same severity and the same count |
| DigestText.SettledByEventsIff | internal/flood/flood.go:212-246 | with no line break in any name, the digest's text is determined by the events if and only if any two of equal rank and name show the same severity, the empty one as "Unclassified", and are equally many |
| FloodWindows.RateLimitRefinesWindows | internal/flood/flood.go:125-136 | with a fixed configuration and monotone times, ticks and other keys included, a key's answers are those of cutting its own events into windows and sending the first N of each |
| FloodWindows.SummaryIsWindowOverflow | internal/flood/flood.go:156-165 | a tick sums up a key exactly when its latest window is over with events pending, and the summary is all of that window beyond the first N |
| FloodWindows.SummaryNamesOverflow | internal/flood/flood.go:201-209 | a summary's text counts the events of the closed window beyond the first N and names the first of them |
| FloodTicks.TickTransparency | internal/flood/flood.go:125-136 | under one configuration of any strategy, and if no event bears a time before an earlier tick's (events may cross one another), deleting every tick changes no outcome |
| FloodTicks.TickScheduleIsInvisible | internal/flood/flood.go:183-198 | two such runs that differ only in when ticks happen give the same outcomes |
| FloodTicks.MonotoneIsNeverOvertaken | internal/flood/flood.go:183-198 | times that never go back are enough for that |
| FloodTicks.TickShowsIff | internal/flood/flood.go:125-165 | after any run, a tick changes the next answer if and only if the key has used up its window, the window is over at the tick's time, and it is not over at the event's |
| FloodTicks.TransparencyNeedsClock | internal/flood/flood.go:156-165 | with a trap stamped before the tick that overtook it, the tick does change its outcome |
| FloodTicks.TransparencyNeedsFixedConfig | internal/flood/flood.go:99-103 | a window shortened during one tick changes a later outcome |
| FloodConservation.HeldEventsConserved | internal/flood/flood.go:125-165 | for every run, key, times and reconfigurations: the key's held events are, in order, those summarised or dropped so far and then those pending |
| FloodConservation.AllHeldConserved | internal/flood/flood.go:125-165 | over all keys, as multisets: held = summarised + pending + dropped |
| FloodPromise.HeldEventsSurviveIff | internal/flood/flood.go:126-130 | every held event is summarised or still in some bucket if and only if no admission met an expired bucket that still held events |
| FloodPromise.CollectedInTimeIff | internal/flood/flood.go:125-165 | right after any tick, every held event has been collected into a summary or is in a bucket whose window is not over if and only if no admission has replaced a bucket with held events and, at the tick, rate_limit was on or no window that is over had events left |
| FloodPromise.TimelyTicksIff | internal/flood/flood.go:127-130 | under one configuration, with no assumption on the clock: nothing is dropped if and only if no event comes upon a window of its key that is over, unswept, and has had more than N events |
| FloodPromise.TimelyTicksDeliver | README.md:445 | with such ticks, right after any tick a key's held events are, in order, exactly those sent in summaries and then those of a window not yet over |
| FloodPromise.OvertakenTickDrops | internal/flood/flood.go:127-130 | a run with monotone times in which a held event ends up in no summary and no bucket |
| FloodPromise.SwitchStrandsHeldEvents | internal/flood/flood.go:156 | after a change of strategy a tick at any later time leaves a held event in its bucket, its window over |
| FloodRate.SlidingRateBound | internal/flood/flood.go:125-136 | the immediate sends of one key in a closed interval covered by m windows number at most N(m + 1), one less unless the cover is exact |
| FloodRate.SlidingWindowBound | internal/flood/flood.go:125-136 | at most 2N - 1 sends of a key in any stretch of one window's length, N if the window is one nanosecond |
| FloodRate.PeakIsReached | internal/flood/flood.go:125-136 | for every N and every window some run reaches that bound |
| FloodRate.NeverMoreThanNIff | README.md:445 | while times never go back, every run keeps every key to N sends in every stretch of a window's length if and only if N is 1 or the window is one nanosecond |
| FloodRate.NoLimitWithoutClock | internal/flood/flood.go:125-165 | when ticks overtake traps, for every N, every window and every m some run under one configuration sends one key m times at a single instant |
| FloodDedupe.LastSeenIsHistory | internal/flood/flood.go:122 | lastSeen is the time of the key's latest dedupe send, through any reconfiguration |
| FloodDedupe.SuppressedIffRecent | internal/flood/flood.go:118-123 | in every run an event is suppressed if and only if dedupe is on and the key's latest dedupe send is closer than the window |
| FloodDedupe.DedupeSendsApart | internal/flood/flood.go:118-123 | successive dedupe sends of a key are at least a window apart, even when timestamps arrive out of order |
| FloodDedupe.DedupeBound | internal/flood/flood.go:118-123 | at most m dedupe sends of a key fall in an interval shorter than m windows |
| FloodDigest.DigestIsExact | internal/flood/flood.go:138-172 | across any interleaving, the digests sent followed by the pending buffer are, in order, the events admitted under digest |
| FloodDigest.DigestSentIff | internal/flood/flood.go:167-172 | a tick sends a digest if and only if digest is on, something is pending, and the interval since the last digest (or the first event) has passed |
| FloodDigest.DigestsKeepTheirDistance | internal/flood/flood.go:167-172 | consecutive digests are at least the then-current interval apart |
| FloodFreshness.DigestFreshAfterTick | internal/flood/flood.go:138-172 | right after a digest tick every pending event is younger than the interval, whatever was configured before |
| FloodFreshness.HeldFreshAfterTick | internal/flood/flood.go:126-165 | right after a rate_limit tick every held event is younger than the window, for any map order |
| FloodIsolation.KeyIsolation | internal/flood/flood.go:113-165 | a key's outcomes and summaries are those of the run with all other keys' events removed, with no assumption on times or configurations |
| Accounts.HoldsAccountedFor | internal/flood/flood.go:113-181 | events answered Hold = events the rollups count + pending in buckets + pending in the digest + dropped |
| Rules.Classify | internal/rules/rules.go:40-98 | the decision names the first rule that is enabled and whose device, glob and regex admit the event, or none; takes its severity, or the event's; bypasses if and only if some rule up to and including the first satisfied one that does not continue does; and names, once each, exactly the channels those rules store, the severity's default routes for one that stores none or if no rule is satisfied |
| Rules.MatchesIff | internal/rules/rules.go:120-156 | the loop's test accepts a rule if and only if it is enabled, its device is any or the one at the source, its glob is empty, "*" or accepted, and its regex absent, empty or accepted |
| Rules.ResolvesIff | internal/rules/rules.go:100-118 | a rule sends to its own channels if it has any, and else to the default routes of the decision's severity |
| RuleEdits.CutIsFirstStop | internal/rules/rules.go:82-84 | the contributing rules are the hits up to and including the first that does not continue |
| RuleEdits.HitsMembers | internal/rules/rules.go:57-62 | the rules that are hits are exactly those of the list that are enabled and whose device, glob and regex admit the event |
| RuleEdits.AfterTheStopIsIrrelevant | internal/rules/rules.go:82-84 | nothing after a stopping rule changes the decision |
| RuleEdits.MissesAreIrrelevant | internal/rules/rules.go:57-62 | inserting or removing a disabled or non-matching rule anywhere changes nothing |
| RuleEdits.ContinuingOnlyAdds | internal/rules/rules.go:64-84 | letting a rule continue only adds channels and the bypass flag; severity and matched rule stay |
| RuleEdits.ContinuingRulesCommute | internal/rules/rules.go:64-84 | continuing rules after a first match may be put in any order |
| RuleTable.Store.SetOrd | internal/store/migrations/0001_schema.sql:68 | a single-row update is refused exactly when another row has the position, and uniqueness always survives |
| RuleTable.Store.ShiftAll | internal/store/rules.go:157-159 | the shift commits exactly when no row is moved onto one its scan has yet to reach |
| RuleTable.Store.ReorderRules | internal/store/rules.go:150-166 | commits if and only if neither the shift nor the numbering meets the constraint; then each listed row has its last index and the others are offset, else the table is as before |
| RuleOrder.ListRules | internal/store/rules.go:11-40 | the listing names every rule once by increasing position, each field as stored and the channels those stored for it, none if there are none |
| RuleOrder.StoredChannelsRoute | internal/store/rules.go:31-38 | a listed rule that contributes and has channels stored sends to exactly those, whatever the default routes, and the decision names them all |
| RuleOrder.OnlyStoredChannels | internal/rules/rules.go:100-109 | if every contributing rule has channels stored, the decision names no others |
| RuleOrder.ListsUnique | internal/store/rules.go:11-16 | a table has one listing |
| RuleOrder.ReorderCommitsInRange | internal/store/rules.go:150-166 | with positions in [0, 1000000) and at most a million ids, any list commits, whatever the shift's row order |
| RuleOrder.EveryScanClearsIff | internal/store/rules.go:148-159 | the shift commits in whatever order the rows are visited if and only if no two positions are exactly the offset apart |
| RuleOrder.NumberingIff | internal/store/rules.go:160-164 | numbering any list, repeats and unknown ids allowed, meets no constraint if and only if no rule, listed or not, is shifted onto a place that is filled with another before its own turn |
| RuleOrder.ReorderCommitsIff | internal/store/rules.go:150-166 | the whole call with any list commits in whatever order the rows are visited if and only if no two positions are the offset apart and no rule is shifted ahead |
| RuleOrder.NegativePositionRefuses | internal/api/handlers_resources.go:380-392 | a position of minus the offset, with none the offset apart, refuses the first number in every order of the shift |
| RuleOrder.ReorderedListing | internal/store/rules.go:150-166 | afterwards the listed rules come first by last occurrence, repeats and unknown ids allowed, then the unlisted in their old order |
| RuleOrder.PartialReorderLeavesRoomIff | internal/store/rules.go:157-159 | from positions in range, the next call's shift is safe in every order if and only if no listed rule took an unlisted rule's old position |
| RuleOrder.PartialReorderBlocksTheNext | internal/store/rules.go:157-159 | after one partial reorder a second call can be refused |
| RuleOrder.FullReorderListing | internal/store/rules.go:150-166 | a committed list of all rules is exactly the stored order, whatever the positions were |
| RuleOrder.FullReorderKeepsRange | internal/store/rules.go:160-164 | and leaves positions from which every further full reorder commits |
| RulesPage.DropOn | web/src/pages/Rules.tsx:54-62 | the sent list has the dragged rule at the target's former index and the others in relative order; a dragged rule that is gone moves the last one instead |
| RulesPage.MoveBy | web/src/pages/Rules.tsx:46-52 | the up and down buttons move one rule by one place, the others in relative order |
| RulesPage.DragIsStored | web/src/pages/Rules.tsx:54-62 | whatever the positions were, once a drop or move commits the table is listed in exactly the order shown, with all positions in range |
| RulesPage.DragCommitsIff | internal/store/rules.go:150-166 | it commits in whatever order the rows are visited if and only if no two positions are the offset apart and no later rule is shifted onto a place being filled; so for all positions in [0, 1000000) |
| Dispatch.DispatchOne | internal/notify/dispatch.go:76-109 | the retry loop returns the result of the attempt that settles it, or of the check or send at which the context ended |
| Dispatch.SentIffDelivered | internal/notify/dispatch.go:90-108 | while the context lasts, attempts never exceed retries + 1; sent if and only if some allowed attempt is the first success, and then the count is its index; with none, the last error is kept |
| Dispatch.CancellationCuts | internal/notify/dispatch.go:93-96 | a context that ends leaves the uncut result if the dispatch had settled by then, and otherwise fails it at the next check, after whatever became of a send under way |
| Dispatch.FanOutIsScheduleIndependent | internal/notify/dispatch.go:62-74 | while the context lasts, for every interleaving of the goroutines a finished slot holds what dispatching to that channel alone gives |
| Dispatch.FanOutResult | internal/notify/dispatch.go:62-74 | with the context ending anywhere in the schedule, a finished slot holds what dispatching to that channel alone gives when the context ends after as many turns of its own |
| Dispatch.NoChannelBlocksAnother | internal/notify/dispatch.go:32-34 | a goroutine finishes after 2 * retries + 4 turns of its own, whatever the others do |
| Dispatch.Dispatch | internal/notify/dispatch.go:62-74 | one result per channel, in its channel's slot, for any interleaving and any end of the context |
| PipelineRows.TrapRowTellsAnswer | internal/pipeline/pipeline.go:143-160 | however calls interleave, a call past its insert has a trap row with its trap's time, source, OID, name, key and unmapped flag and its decision's severity and rule, marked suppressed if and only if the gate's answer to that call was not Send |
| PipelineRows.RowsAreNotShared | internal/pipeline/pipeline.go:87-90 | two calls never have the same trap row |
| PipelineRows.NotificationsOfCall | internal/pipeline/pipeline.go:97-113 | a finished call's trap has exactly the notification rows of its answer: one held row of no channel, no attempts and no error; one row per dispatch result in order; or none |
| PipelineRuns.ResultsAreOfItsSend | internal/pipeline/pipeline.go:116-128 | however calls interleave, a call's results are those of sending to the enabled channels of its own decision in the table of its own lookup |
| PipelineRows.NoStrayRows | internal/pipeline/pipeline.go:143-187 | every row of either table belongs to some call |
| TrapLaws.SuppressedTrapIff | internal/pipeline/pipeline.go:77-84 | in every history a trap is suppressed if and only if its decision does not bypass flood control, dedupe is on, and the last trap with its source and OID that dedupe let through was received less than the window before it |
| TrapLaws.HeldTrapOnlyIf | internal/pipeline/pipeline.go:80-84 | a trap is held only without bypass and under rate_limit or digest, and under digest always |
| TrapLaws.HeldTrapIsSomewhere | internal/flood/flood.go:125-172 | in every history a held trap's event, with its source and OID, name, severity and channels, is waiting in its bucket or the digest, is in a collected rollup, or went with a replaced bucket |
| TrapLaws.HeldTrapReached | internal/pipeline/pipeline.go:189-208 | a rollup with a held trap in it reaches every channel of that trap's decision that exists and is enabled |
| PipelineRows.BypassIsInvisible | internal/pipeline/pipeline.go:80-84 | two histories that differ only in calls that bypass flood control give every other call the same answer, the same trap row and the same notification rows, up to the numbering of traps |
| PipelineRows.BypassLeavesRollups | internal/pipeline/pipeline.go:80-84 | and they leave the same controller state and collect and flush the same rollups |
| PipelineBooks.BooksBalance | internal/pipeline/pipeline.go:163-167 | at every moment of every interleaving: held rows + calls between Hold and their held row = events in flushed rollups + in collected but unflushed ones + pending in buckets + pending in the digest + dropped |
| PipelineBooks.BooksBalanceWhenQuiet | internal/pipeline/pipeline.go:163-167 | with nothing in flight, held rows = events in rollups + pending + dropped |
| PipelineBooks.TickOvertakesHeldRow | internal/flood/flood.go:152-181 | a tick between the gate and the held row flushes an event that no row shows |
| PipelineBooks.RowsMayCross | internal/pipeline/pipeline.go:80-90 | of two traps that pass the gate in turn, the second may be stored first |
| Pipeline.Processor.SaveChannel | internal/store/crud.go:232-243 | one channel is created or updated, and nothing that was proved of the tables is disturbed |
| Pipeline.Processor.DeleteChannel | internal/store/migrations/0001_schema.sql:113 | a channel is deleted if and only if no notification row refers to it |
| Pipeline.Processor.PassFloodGate | internal/pipeline/pipeline.go:77-84 | a bypassing trap is sent and leaves the controller alone; any other gets the controller's answer to an event with its source and OID as key, its name, its severity's name and rank and its decision's channels; one step of the history |
| Pipeline.Processor.PersistTrap | internal/pipeline/pipeline.go:143-160 | exactly one trap row, field by field that of the trap and its decision, suppressed if and only if the outcome is not Send, and its id |
| Pipeline.Processor.ChannelsByIds | internal/store/crud.go:201-216 | the enabled existing channels among the ids, in order |
| Pipeline.Processor.DispatchTrap | internal/pipeline/pipeline.go:116-130 | appends one row per dispatched channel, with that channel's result, and nothing else |
| Pipeline.Processor.Record | internal/pipeline/pipeline.go:86-112 | exactly one trap row and the notification rows of its outcome, and the call is over |
| Pipeline.Processor.Process | internal/pipeline/pipeline.go:66-113 | a trap is decided as Classify promises, gated as PassFloodGate promises, stored once with each field of its own, and notified accordingly; a failed rule listing changes nothing; no other call moves |
| Pipeline.Processor.CollectRollups | internal/flood/flood.go:152-173 | the rollups due join those waiting to be flushed, in one step, and neither table changes |
| Pipeline.Processor.FloodFlush | internal/pipeline/pipeline.go:189-199 | the next waiting rollup goes to its enabled channels and no row is written |
| Pipeline.Processor.Tick | internal/flood/flood.go:152-181 | a tick dispatches each of its rollups to the enabled channels among the rollup's own and changes neither table |
| Pipeline.ProcessorBooks | internal/pipeline/pipeline.go:163-167 | between any two steps of the processor: held rows + calls on their way to one = sum of Count over flushed and waiting rollups + pending in buckets + pending in the digest + dropped |
| Delivery.RollupReachesIff | internal/pipeline/pipeline.go:189-199 | a flushed rollup is sent to a channel if and only if an event in it names the channel and the channel exists and is enabled |
| Delivery.TickReachesAllIff | internal/pipeline/pipeline.go:189-199 | a tick's rollups reach every channel of every event in them if and only if all those channels exist and are enabled when flushed |
| Delivery.GoesToNobodyIff | internal/pipeline/pipeline.go:191-194 | a rollup goes to nobody if and only if no event in it names a channel that exists and is enabled |
| SentRows.SentRowShape | internal/pipeline/pipeline.go:116-130 | in every history, the notification table has for the trap of a finished sent call exactly one row for each channel of its decision that existed and was enabled at its own lookup, with that channel's result, and no other row |
| SentRows.SentRowStatus | internal/pipeline/pipeline.go:169-180 | while the context lasts, a row is `sent` with no error if and only if its channel could be unsealed and built and an allowed attempt got through, and counts the attempts up to it; otherwise `failed` with no attempt and the first error, or with all attempts and the last error |
| SentRows.InterruptedRow | internal/notify/dispatch.go:93-105 | a context that ends leaves the row as it would have been, or failed with the context's error, or as the interrupted send made it |
| Migrations.Database.Apply | internal/store/store.go:81-99 | a migration's effects and its record are kept together or not at all |
| Migrations.Database.ApplyAll | internal/store/store.go:73-100 | runs a prefix of the unapplied names in order, all of them on success |
| Migrations.Database.Migrate | internal/store/store.go:53-102 | one open, failing at any statement, is a possible open of the names sorted; without a failure it succeeds |
| Migrations.NoMigrationRunsTwice | internal/store/store.go:51-52 | over any sequence of opens, failures and changes of the file set, no migration runs twice |
| Migrations.FixedSetRunsInOrder | internal/store/store.go:51-102 | with a fixed set, what has run is a prefix of the sorted names, all of them after a success, and a further open runs nothing |
| Timestamps.TextOrderIsTimeOrder | internal/store/queries.go:10-14 | for years 0000 to 9999 text order is time order, as in section 5.1 of RFC 3339 |
| Timestamps.TimestampsReadBack | internal/store/queries.go:14-24 | parsing undoes formatting, in both formats |
| Timestamps.ReadsExactly | internal/store/queries.go:16-24 | a text reads as a time if and only if it is that time's own text in one of the two formats |
| Timestamps.DateTimesAre | internal/store/queries.go:12-24 | which dates there are: months of 31 and 30 days and February by the Gregorian rule |
| Timestamps.LayoutIs | internal/store/queries.go:12-14 | the stored text has its fields, marks and nine fraction digits at the places of its layout |
| Timestamps.SecondsLayoutIs | internal/store/queries.go:16-18 | and so has the text without a fraction |
| Timestamps.FiveDigitYearOrder | internal/store/queries.go:12-14 | among five-digit years too, text order is time order |
| Timestamps.MixedWidthOrder | internal/store/queries.go:12-14 | a four-digit and a five-digit year sort in time order if and only if the former is at most the latter's first four digits |
| Timestamps.FormatsReadAlike | internal/store/queries.go:16-24 | the two formats of one instant are different texts that read back as the same time |

## Left out

- Decoding, the UDP listener and the SNMP library: a decoded trap is the input.
- `Controller.Start` and `Processor.Run`: the goroutines appear only as the interleaving of atomic steps; that the mutex makes an admission, a collection and a reconfiguration atomic, and SQLite one insert, is taken as given.
- Pipeline.Processor.Process: in place, a call is carried out undisturbed; what may come between its steps is a matter of the histories in PipelineRuns, which each step's method extends.
- The lookup of a trap's channels and the sends to them are one step of a history: only the call itself sees their results, and it writes them in later steps, one row each.
- Settings parsing: strategies are a datatype with one case for any unknown name; durations are the 64-bit values it can produce, positive only where a theorem asks for it.
- Go's monotonic clock reading: a time is one integer.
- `path.Match` and regular expressions: two predicates given to the engine; a malformed pattern matches nothing.
- Notifiers, unsealing and timeouts: a script says how each attempt goes.
- Failures of the trap and notification inserts and of the channel lookup: the store calls of `Process` other than the rule listing succeed. An insert can fail on a reference to a severity, rule or channel deleted since it was looked up.
- Severities keep the values the processor is built with; deleting one is not modelled.
- Creating, updating and deleting rules, and every other table: only the position column is under a constraint here.
- RuleTable.Store.ReorderRules: does not model SQLite's 64-bit limit on positions, because a position near it is not reachable from the console.
- Timestamps.ParseTs: reads only the UTC marker Z and the two fixed layouts that are written, because no other text is stored.
- Rollups.DigestRollup: the order of tied groups is any order the comparison allows, because `sort.Slice` promises no more.
- Replay of stored traps: varbinds pass through JSON, which can change the composed message.
- A trap row's SNMP version and varbinds and a notification row's send time: copied from the packet and the clock, and nothing here depends on them.
- HTTP handlers, sessions, cryptography, metrics, logging and the rest of the console.
