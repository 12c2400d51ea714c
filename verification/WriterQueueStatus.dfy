/** What writers are told (DBImpl::Write in db/db_impl.cc): every one of them something, nothing but
    success while nothing fails, and no success any more once a sync has failed. */
module WriterQueueStatus {
  import opened DbFormat
  import opened WriteBatch
  import opened Recovery
  import opened WriterQueue
  import opened WriterQueueProof

  // ---------------------------------------------------------------- no failure, no bad status

  predicate Fails(e: Event) {
    e == Room(false) || e == AddRecord(false) || e == Sync(false) || e == BackgroundError
  }

  ghost predicate AllOk(s: State) {
    !s.bg_error && (s.stage.Completing? ==> s.stage.outcome.status.Ok?) &&
    forall id :: id in s.outcomes ==> s.outcomes[id].status.Ok?
  }

  lemma {:induction false} NoFailureAllOk(states: seq<State>, events: seq<Event>, n: nat)
    requires IsRun(states, events) && n <= |events| && forall i :: 0 <= i < n ==> !Fails(events[i])
    ensures AllOk(states[n])
  {
    hide Queued, Batches, GroupSize;
    if n > 0 {
      NoFailureAllOk(states, events, n - 1);
    }
  }

  // ---------------------------------------------------------------- a failed sync

  /** The error is set, and the front writer can only fail. */
  ghost predicate Stopped(s: State) {
    s.bg_error && (s.stage.Waiting? || s.stage.MakingRoom? || (s.stage.Completing? && s.stage.outcome.status.Failed?))
  }

  lemma StepStopped(s: State, e: Event)
    requires Inv(s) && Enabled(s, e) && Stopped(s)
    ensures Stopped(Next(s, e)) && Next(s, e).log == s.log && Next(s, e).mem == s.mem
    ensures OkIds(Next(s, e).outcomes) == OkIds(s.outcomes)
  {
    if e.Complete? {
      ToldFailed(s);
    }
  }

  lemma ToldFailed(s: State)
    requires QueueOk(s) && s.stage.Completing? && s.stage.members <= |s.queue| && s.stage.outcome.status.Failed?
    ensures OkIds(s.outcomes + Told(s.queue[..s.stage.members], s.stage.outcome)) == OkIds(s.outcomes)
  {
    var told := Told(s.queue[..s.stage.members], s.stage.outcome);
    forall id | id in s.outcomes
      ensures id !in told
    {
      assert id < Base(s);
    }
  }

  /** After a sync has failed nothing is logged or applied any more, and no writer is told that it
      succeeded. */
  lemma {:induction false} FailedSyncStopsWrites(states: seq<State>, events: seq<Event>, k: nat, n: nat)
    requires IsRun(states, events) && k < n <= |events| && events[k] == Sync(false)
    ensures Stopped(states[n])
    ensures states[n].log == states[k].log && states[n].mem == states[k].mem
    ensures OkIds(states[n].outcomes) == OkIds(states[k].outcomes)
  {
    hide Inv, Next, OkIds;
    if n == k + 1 {
      SyncFails(states[k]);
    } else {
      FailedSyncStopsWrites(states, events, k, n - 1);
      RunKeeps(states, events, n - 1);
      StepStopped(states[n - 1], events[n - 1]);
    }
  }

  lemma SyncFails(s: State)
    requires Enabled(s, Sync(false))
    ensures var t := Next(s, Sync(false)); Stopped(t) && t.log == s.log && t.mem == s.mem && t.outcomes == s.outcomes
  {
  }

  // ---------------------------------------------------------------- every writer is told something

  /** A step of the front writer itself. */
  predicate Own(e: Event) {
    !e.Arrive? && !e.BackgroundError?
  }

  /** The front writer is never stuck: whatever its stage, a step is enabled. */
  lemma NeverStuck(s: State) returns (e: Event)
    requires Inv(s) && s.queue != []
    ensures Own(e) && Enabled(s, e)
  {
    hide LogOk, MemOk, OutcomesOk, InLog, Batches;
    match s.stage
    case Waiting => e := Lead;
    case MakingRoom => e := Room(!s.bg_error);
    case Logging(_, _) => e := AddRecord(true);
    case Logged(_, _) => e := Sync(true);
    case Inserting(_, group, done) => e := if done < |group.updates| then Insert else Finish;
    case Completing(_, _, _) => e := Complete;
  }

  /** How far the stage is from its end. */
  function StepsLeft(stage: Stage): (r: nat) {
    match stage
    case Waiting => 5
    case MakingRoom => 4
    case Logging(_, _) => 3
    case Logged(_, _) => 2
    case Inserting(_, _, _) => 1
    case Completing(_, _, _) => 0
  }

  function InsertsLeft(stage: Stage): (r: nat) {
    if stage.Inserting? && stage.done <= |stage.group.updates| then |stage.group.updates| - stage.done else 0
  }

  /** Each of its steps brings the front writer nearer to its end, or takes its group off the queue:
      a queue that no writer joins is empty after finitely many steps. */
  lemma StepsEnd(s: State, e: Event)
    requires Inv(s) && Own(e) && Enabled(s, e)
    ensures var t := Next(s, e);
      |t.queue| < |s.queue| ||
      (|t.queue| == |s.queue| &&
       (StepsLeft(t.stage) < StepsLeft(s.stage) ||
        (StepsLeft(t.stage) == StepsLeft(s.stage) && InsertsLeft(t.stage) < InsertsLeft(s.stage))))
  {
    hide LogOk, MemOk, OutcomesOk;
  }
}
