/** Fanning a message out to channels: one goroutine a channel, each with bounded retries,
    all under one context that may end at any moment. */
module Dispatch {
  import opened Options

  datatype Error = Error(text: string)

  /** What ctx.Err() reports once the context has ended. */
  const CANCELLED := Error("context canceled")

  datatype Status = Sent | Failed

  datatype Result = Result(channelId: int, status: Status, attempts: nat, err: Option<Error>)

  datatype Outcome = Refused(err: Error) | Delivered

  /** What a channel's unsealing, its notifier's construction and its sends will do. A send
      that is under way when the context ends may go otherwise. */
  datatype Script = Script(
    unseal: Option<Error>,
    build: Option<Error>,
    attempt: nat -> Outcome,
    interrupted: nat -> Outcome)

  datatype Channel = Channel(id: int, enabled: bool, script: Script)

  // ---- One channel ----

  // A goroutine takes turns: turn 0 unseals and builds, turn 2n - 1 checks the context before
  // attempt n, turn 2n is the send of attempt n. `ends` says from which of its turns on the
  // goroutine finds the context ended, if it does.

  predicate Ended(ends: Option<nat>, turn: nat) {
    ends.Some? && ends.value <= turn
  }

  function SendOf(script: Script, n: nat, ended: bool): Outcome {
    if ended then script.interrupted(n) else script.attempt(n)
  }

  /** The result from attempt n on. */
  function ResultFrom(ch: Channel, n: nat, lastErr: Option<Error>, retries: nat, ends: Option<nat>): Result
    requires n >= 1
    decreases retries + 2 - n
  {
    if n > retries + 1 then Result(ch.id, Failed, retries + 1, lastErr)
    else if Ended(ends, 2 * n - 1) then Result(ch.id, Failed, n, Some(CANCELLED))
    else
      match SendOf(ch.script, n, Ended(ends, 2 * n))
      case Delivered => Result(ch.id, Sent, n, None)
      case Refused(err) => ResultFrom(ch, n + 1, Some(err), retries, ends)
  }

  function ResultOf(ch: Channel, retries: nat, ends: Option<nat>): Result {
    if ch.script.unseal.Some? then Result(ch.id, Failed, 0, ch.script.unseal)
    else if ch.script.build.Some? then Result(ch.id, Failed, 0, ch.script.build)
    else ResultFrom(ch, 1, None, retries, ends)
  }

  method DispatchOne(ch: Channel, retries: nat, ends: Option<nat>) returns (res: Result)
    ensures res == ResultOf(ch, retries, ends)
  {
    res := Result(ch.id, Failed, 0, None);
    if ch.script.unseal.Some? {
      return res.(err := ch.script.unseal);
    }
    if ch.script.build.Some? {
      return res.(err := ch.script.build);
    }
    var lastErr: Option<Error> := None;
    var attempt := 1;
    while attempt <= retries + 1
      invariant 1 <= attempt <= retries + 2
      invariant res == Result(ch.id, Failed, attempt - 1, None)
      invariant ResultOf(ch, retries, ends) == ResultFrom(ch, attempt, lastErr, retries, ends)
    {
      res := res.(attempts := attempt);
      if Ended(ends, 2 * attempt - 1) {
        return res.(err := Some(CANCELLED));
      }
      match SendOf(ch.script, attempt, Ended(ends, 2 * attempt)) {
        case Delivered =>
          return res.(status := Sent, err := None);
        case Refused(err) =>
          lastErr := Some(err);
      }
      attempt := attempt + 1;
    }
    res := res.(err := lastErr);
  }

  // ---- What the result tells ----

  /** The first attempt from n on, up to the limit, that delivers; limit + 1 if none. */
  function Settles(script: Script, n: nat, limit: nat): (k: nat)
    requires n <= limit + 1
    ensures n <= k <= limit + 1
    ensures forall j :: n <= j < k ==> script.attempt(j).Refused?
    ensures k <= limit ==> script.attempt(k).Delivered?
    decreases limit + 1 - n
  {
    if n > limit || script.attempt(n).Delivered? then n else Settles(script, n + 1, limit)
  }

  ghost predicate FirstSuccess(script: Script, k: nat) {
    script.attempt(k).Delivered? && forall j :: 1 <= j < k ==> script.attempt(j).Refused?
  }

  lemma {:induction false} UncutFrom(ch: Channel, n: nat, lastErr: Option<Error>, retries: nat)
    requires 1 <= n <= retries + 2
    ensures ResultFrom(ch, n, lastErr, retries, None) ==
      var k := Settles(ch.script, n, retries + 1);
      if k <= retries + 1 then Result(ch.id, Sent, k, None)
      else Result(ch.id, Failed, retries + 1,
                  if n > retries + 1 then lastErr else Some(ch.script.attempt(retries + 1).err))
    decreases retries + 2 - n
  {
    if n <= retries + 1 && ch.script.attempt(n).Refused? {
      UncutFrom(ch, n + 1, Some(ch.script.attempt(n).err), retries);
    }
  }

  /** While the context lasts: never more attempts than the retries allow; sent exactly if
      some allowed attempt is a first success, and then the count is its index; else all were
      made and the last error is kept. */
  lemma SentIffDelivered(ch: Channel, retries: nat)
    requires ch.script.unseal.None? && ch.script.build.None?
    ensures var res := ResultOf(ch, retries, None);
      && 1 <= res.attempts <= retries + 1
      && (res.status == Sent <==> exists k :: 1 <= k <= retries + 1 && FirstSuccess(ch.script, k))
      && (forall k :: 1 <= k <= retries + 1 && FirstSuccess(ch.script, k) ==> res.attempts == k && res.err == None)
      && (res.status == Failed ==>
            && res.attempts == retries + 1 && ch.script.attempt(retries + 1).Refused?
            && res.err == Some(ch.script.attempt(retries + 1).err))
  {
    UncutFrom(ch, 1, None, retries);
    var k := Settles(ch.script, 1, retries + 1);
    assert k <= retries + 1 ==> FirstSuccess(ch.script, k);
  }

  /** What becomes of a dispatch that the context cuts short at turn `at`: at a check it fails
      with the context's error; a send under way goes as an interrupted send does, and if
      refused the next check fails it. */
  function CutShort(ch: Channel, retries: nat, at: nat): Result {
    if at == 0 then Result(ch.id, Failed, 1, Some(CANCELLED))
    else if at % 2 == 1 then Result(ch.id, Failed, (at + 1) / 2, Some(CANCELLED))
    else
      var n := at / 2;
      match ch.script.interrupted(n)
      case Delivered => Result(ch.id, Sent, n, None)
      case Refused(err) =>
        if n > retries then Result(ch.id, Failed, retries + 1, Some(err))
        else Result(ch.id, Failed, n + 1, Some(CANCELLED))
  }

  /** The turn after which the context no longer matters: the send that delivers, or the last. */
  function LastTurn(ch: Channel, n: nat, retries: nat): nat
    requires 1 <= n <= retries + 2
  {
    var k := Settles(ch.script, n, retries + 1);
    if k <= retries + 1 then 2 * k else 2 * retries + 2
  }

  lemma {:induction false} CutFrom(ch: Channel, n: nat, lastErr: Option<Error>, retries: nat, at: nat)
    requires 1 <= n <= retries + 2 && 2 * n - 1 <= at
    ensures ResultFrom(ch, n, lastErr, retries, Some(at)) ==
      if at > LastTurn(ch, n, retries) then ResultFrom(ch, n, lastErr, retries, None) else CutShort(ch, retries, at)
    decreases retries + 2 - n
  {
    if n <= retries + 1 && at > 2 * n && ch.script.attempt(n).Refused? {
      CutFrom(ch, n + 1, Some(ch.script.attempt(n).err), retries, at);
    }
  }

  /** A context that ends leaves one of two results: the uncut one if the dispatch had settled
      by then, and otherwise the one cut short at that turn. */
  lemma CancellationCuts(ch: Channel, retries: nat, at: nat)
    requires ch.script.unseal.None? && ch.script.build.None?
    ensures ResultOf(ch, retries, Some(at)) ==
      if at > LastTurn(ch, 1, retries) then ResultOf(ch, retries, None) else CutShort(ch, retries, at)
  {
    if at > 0 {
      CutFrom(ch, 1, None, retries, at);
    }
  }

  // ---- The goroutines ----

  /** Where one goroutine is. */
  datatype Worker =
    | Fresh
    | Checking(attempt: nat, lastErr: Option<Error>)
    | Sending(attempt: nat, lastErr: Option<Error>)
    | Done(result: Result)

  /** One turn of a channel's goroutine. */
  function Advance(ch: Channel, t: Worker, retries: nat, ended: bool): Worker {
    match t
    case Fresh =>
      if ch.script.unseal.Some? then Done(Result(ch.id, Failed, 0, ch.script.unseal))
      else if ch.script.build.Some? then Done(Result(ch.id, Failed, 0, ch.script.build))
      else Checking(1, None)
    case Checking(n, lastErr) =>
      if n > retries + 1 then Done(Result(ch.id, Failed, retries + 1, lastErr))
      else if ended then Done(Result(ch.id, Failed, n, Some(CANCELLED)))
      else Sending(n, lastErr)
    case Sending(n, _) =>
      (match SendOf(ch.script, n, ended)
       case Delivered => Done(Result(ch.id, Sent, n, None))
       case Refused(err) => Checking(n + 1, Some(err)))
    case Done(_) => t
  }

  /** What the scheduler and the outside do: give a goroutine a turn, or end the context. */
  datatype Event = Turn(i: nat) | Cancel

  datatype Pool = Pool(workers: seq<Worker>, ended: bool)

  function Happen(channels: seq<Channel>, retries: nat, pool: Pool, event: Event): (next: Pool)
    requires |pool.workers| == |channels|
    ensures |next.workers| == |channels|
  {
    match event
    case Cancel => pool.(ended := true)
    case Turn(i) =>
      if i < |channels| then
        pool.(workers := pool.workers[i := Advance(channels[i], pool.workers[i], retries, pool.ended)])
      else pool
  }

  function RunSchedule(channels: seq<Channel>, retries: nat, schedule: seq<Event>): (pool: Pool)
    ensures |pool.workers| == |channels|
  {
    if schedule == [] then Pool(seq(|channels|, _ => Fresh), false)
    else Happen(channels, retries, RunSchedule(channels, retries, schedule[..|schedule| - 1]), schedule[|schedule| - 1])
  }

  function Turns(schedule: seq<Event>, i: nat): nat {
    if schedule == [] then 0
    else Turns(schedule[..|schedule| - 1], i) + if schedule[|schedule| - 1] == Turn(i) then 1 else 0
  }

  /** From which of its turns on goroutine i finds the context ended. */
  function EndsFor(schedule: seq<Event>, i: nat): Option<nat> {
    if schedule == [] then None
    else
      var most := schedule[..|schedule| - 1];
      if EndsFor(most, i).Some? then EndsFor(most, i)
      else if schedule[|schedule| - 1] == Cancel then Some(Turns(most, i))
      else None
  }

  /** `ends` is what goroutine i has found so far, or may still find. */
  predicate MayEnd(schedule: seq<Event>, i: nat, ends: Option<nat>) {
    if EndsFor(schedule, i).Some? then ends == EndsFor(schedule, i)
    else ends.None? || Turns(schedule, i) <= ends.value
  }

  /** What a goroutine is bound to end with, after so many turns. */
  ghost predicate BoundFor(ch: Channel, t: Worker, turns: nat, retries: nat, ends: Option<nat>) {
    match t
    case Fresh => turns == 0
    case Checking(n, lastErr) =>
      && 1 <= n <= retries + 2 && turns == 2 * n - 1
      && ResultOf(ch, retries, ends) == ResultFrom(ch, n, lastErr, retries, ends)
    case Sending(n, lastErr) =>
      && 1 <= n <= retries + 1 && turns == 2 * n && !Ended(ends, 2 * n - 1)
      && ResultOf(ch, retries, ends) == ResultFrom(ch, n, lastErr, retries, ends)
    case Done(result) => result == ResultOf(ch, retries, ends)
  }

  lemma AdvanceStaysBound(ch: Channel, t: Worker, turns: nat, retries: nat, ends: Option<nat>)
    requires BoundFor(ch, t, turns, retries, ends)
    ensures BoundFor(ch, Advance(ch, t, retries, Ended(ends, turns)), turns + 1, retries, ends)
  {
  }

  lemma {:induction false} EndsByTurns(channels: seq<Channel>, retries: nat, schedule: seq<Event>, i: nat)
    ensures EndsFor(schedule, i).Some? ==> EndsFor(schedule, i).value <= Turns(schedule, i)
    ensures RunSchedule(channels, retries, schedule).ended <==> EndsFor(schedule, i).Some?
  {
    if schedule != [] {
      EndsByTurns(channels, retries, schedule[..|schedule| - 1], i);
    }
  }

  lemma {:induction false} EverySchedule(channels: seq<Channel>, retries: nat, schedule: seq<Event>, i: nat,
                                         ends: Option<nat>)
    requires i < |channels| && MayEnd(schedule, i, ends)
    ensures BoundFor(channels[i], RunSchedule(channels, retries, schedule).workers[i], Turns(schedule, i), retries, ends)
  {
    if schedule != [] {
      var most, last := schedule[..|schedule| - 1], schedule[|schedule| - 1];
      EndsByTurns(channels, retries, most, i);
      EverySchedule(channels, retries, most, i, ends);
      if last == Turn(i) {
        AdvanceStaysBound(channels[i], RunSchedule(channels, retries, most).workers[i], Turns(most, i), retries, ends);
      }
    }
  }

  /** However the goroutines interleave and whenever the context ends, a finished goroutine has
      written what dispatching to its channel alone gives when the context ends after as many
      turns of its own. */
  lemma FanOutResult(channels: seq<Channel>, retries: nat, schedule: seq<Event>, i: nat)
    requires i < |channels| && RunSchedule(channels, retries, schedule).workers[i].Done?
    ensures RunSchedule(channels, retries, schedule).workers[i].result ==
      ResultOf(channels[i], retries, EndsFor(schedule, i))
  {
    EverySchedule(channels, retries, schedule, i, EndsFor(schedule, i));
  }

  lemma {:induction false} NeverEnds(schedule: seq<Event>, i: nat)
    requires Cancel !in schedule
    ensures EndsFor(schedule, i) == None
  {
    if schedule != [] {
      NeverEnds(schedule[..|schedule| - 1], i);
    }
  }

  /** While the context lasts the schedule does not matter at all. */
  lemma FanOutIsScheduleIndependent(channels: seq<Channel>, retries: nat, schedule: seq<Event>, i: nat)
    requires i < |channels| && RunSchedule(channels, retries, schedule).workers[i].Done?
    requires Cancel !in schedule
    ensures RunSchedule(channels, retries, schedule).workers[i].result == ResultOf(channels[i], retries, None)
  {
    NeverEnds(schedule, i);
    FanOutResult(channels, retries, schedule, i);
  }

  /** No channel holds up another: with enough turns of its own, whatever the others do in
      between, a goroutine is done. */
  lemma NoChannelBlocksAnother(channels: seq<Channel>, retries: nat, schedule: seq<Event>, i: nat)
    requires i < |channels| && Turns(schedule, i) >= 2 * retries + 4
    ensures RunSchedule(channels, retries, schedule).workers[i].Done?
  {
    EverySchedule(channels, retries, schedule, i, EndsFor(schedule, i));
  }

  // ---- The fan-out ----

  function Left(t: Worker, retries: nat): nat {
    match t
    case Fresh => 2 * retries + 5
    case Checking(n, _) => if n <= retries + 2 then 2 * (retries + 2 - n) + 1 else 1
    case Sending(n, _) => if n <= retries + 1 then 2 * (retries + 2 - n) else 2
    case Done(_) => 0
  }

  function AllLeft(workers: seq<Worker>, retries: nat): nat {
    if workers == [] then 0 else AllLeft(workers[..|workers| - 1], retries) + Left(workers[|workers| - 1], retries)
  }

  lemma {:induction false} LessLeft(workers: seq<Worker>, i: nat, t: Worker, retries: nat)
    requires i < |workers| && Left(t, retries) < Left(workers[i], retries)
    ensures AllLeft(workers[i := t], retries) < AllLeft(workers, retries)
  {
    var next := workers[i := t];
    if i < |workers| - 1 {
      assert next[..|next| - 1] == workers[..|workers| - 1][i := t];
      LessLeft(workers[..|workers| - 1], i, t, retries);
    } else {
      assert next[..|next| - 1] == workers[..|workers| - 1];
    }
  }

  /** A turn of an unfinished goroutine leaves less to do. */
  lemma TurnLeavesLess(channels: seq<Channel>, retries: nat, schedule: seq<Event>, i: nat)
    requires i < |channels| && !RunSchedule(channels, retries, schedule).workers[i].Done?
    ensures var pool := RunSchedule(channels, retries, schedule);
      AllLeft(Happen(channels, retries, pool, Turn(i)).workers, retries) < AllLeft(pool.workers, retries)
  {
    var pool := RunSchedule(channels, retries, schedule);
    EverySchedule(channels, retries, schedule, i, EndsFor(schedule, i));
    LessLeft(pool.workers, i, Advance(channels[i], pool.workers[i], retries, pool.ended), retries);
  }

  /** The finished goroutines have written their slots. */
  ghost predicate Written(workers: seq<Worker>, slots: seq<Option<Result>>) {
    |slots| == |workers| && forall i :: 0 <= i < |workers| && workers[i].Done? ==> slots[i] == Some(workers[i].result)
  }

  /** One result per channel, each in its channel's slot. The scheduler picks freely among the
      goroutines that are not done, the context may end at any point (if it can end at all),
      and the wait is over when no goroutine is left. */
  method Dispatch(channels: seq<Channel>, retries: nat, cancellable: bool)
    returns (results: seq<Result>, ghost schedule: seq<Event>)
    ensures |results| == |channels|
    ensures forall i :: 0 <= i < |channels| ==> results[i] == ResultOf(channels[i], retries, EndsFor(schedule, i))
    ensures !cancellable ==> Cancel !in schedule
  {
    var slots := new Option<Result>[|channels|](_ => None);
    var pool := Pool(seq(|channels|, _ => Fresh), false);
    schedule := [];
    while exists i :: 0 <= i < |channels| && !pool.workers[i].Done?
      invariant pool == RunSchedule(channels, retries, schedule)
      invariant Written(pool.workers, slots[..])
      invariant !cancellable ==> Cancel !in schedule
      decreases AllLeft(pool.workers, retries), !pool.ended
    {
      var cancel: bool := *;
      if cancellable && !pool.ended && cancel {
        assert (schedule + [Cancel])[..|schedule|] == schedule;
        schedule := schedule + [Cancel];
        pool := pool.(ended := true);
      } else {
        var i :| 0 <= i < |channels| && !pool.workers[i].Done?;
        TurnLeavesLess(channels, retries, schedule, i);
        assert (schedule + [Turn(i)])[..|schedule|] == schedule;
        schedule := schedule + [Turn(i)];
        pool := Happen(channels, retries, pool, Turn(i));
        if pool.workers[i].Done? {
          slots[i] := Some(pool.workers[i].result);
        }
      }
    }
    forall i | 0 <= i < |channels| ensures slots[i] == Some(ResultOf(channels[i], retries, EndsFor(schedule, i))) {
      FanOutResult(channels, retries, schedule, i);
    }
    results := seq(slots.Length, i requires 0 <= i < slots.Length && slots[i].Some? reads slots => slots[i].value);
  }
}
