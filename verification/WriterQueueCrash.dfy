/** What the writer queue leaves behind: consecutive sequence numbers, a memtable that is the replay of
    the log, and sync writes that survive a crash (db/db_impl.cc). */
module WriterQueueCrash {
  import opened DbFormat
  import opened Coding
  import opened WriteBatch
  import opened LogProof
  import opened Log
  import opened Recovery
  import opened WriterQueue
  import opened WriterQueueProof

  // ---------------------------------------------------------------- consecutive ranges

  ghost predicate Consecutive(groups: seq<Group>) {
    (groups != [] ==> groups[0].sequence == 1) &&
    forall i :: 0 <= i < |groups| - 1 ==> groups[i + 1].sequence == groups[i].sequence + |groups[i].updates|
  }

  /** The last sequence number given away. */
  ghost function EndOf(groups: seq<Group>): int {
    if groups == [] then 0 else groups[|groups| - 1].sequence + |groups[|groups| - 1].updates| - 1
  }

  /** `a` is `b` with some elements left out. */
  ghost predicate Subsequence(a: seq<Group>, b: seq<Group>) {
    a == [] || (b != [] &&
      ((a[|a| - 1] == b[|b| - 1] && Subsequence(a[..|a| - 1], b[..|b| - 1])) || Subsequence(a, b[..|b| - 1])))
  }

  lemma SubsequenceGrows(a: seq<Group>, b: seq<Group>, g: Group)
    requires Subsequence(a, b)
    ensures Subsequence(a, b + [g]) && Subsequence(a + [g], b + [g])
  {
    assert (a + [g])[..|a|] == a && (b + [g])[..|b|] == b;
  }

  lemma {:induction false} SubsequenceShorter(a: seq<Group>, b: seq<Group>)
    requires Subsequence(a, b)
    ensures |a| <= |b| && (|a| == |b| ==> a == b)
    decreases |b|
  {
    if a != [] {
      var shorter := b[..|b| - 1];
      if Subsequence(a, shorter) {
        SubsequenceShorter(a, shorter);
      } else {
        SubsequenceShorter(a[..|a| - 1], shorter);
        assert a == a[..|a| - 1] + [a[|a| - 1]] && b == shorter + [b[|b| - 1]];
      }
    } else {
      assert |b| == 0 ==> b == [];
    }
  }

  /** The group of the front writer, once it has its sequence numbers. */
  ghost predicate Current(s: State, g: Group) {
    s.groups != [] && s.groups[|s.groups| - 1] == g && g.sequence == s.last_sequence + 1
  }

  ghost predicate Ledger(s: State) {
    Consecutive(s.groups) &&
    Subsequence(s.log, if s.stage.Logging? && s.groups != [] then s.groups[..|s.groups| - 1] else s.groups) &&
    match s.stage
    case Logging(_, g) => Current(s, g)
    case Logged(_, g) => Current(s, g)
    case Inserting(_, g, _) => Current(s, g)
    case Completing(_, _, sequence) => EndOf(s.groups) == sequence
    case _ => EndOf(s.groups) == s.last_sequence
  }

  lemma RoomLedger(s: State, ok: bool)
    requires Ledger(s) && Enabled(s, Room(ok))
    ensures Ledger(Next(s, Room(ok)))
  {
    hide Batches, GroupSize, Subsequence;
    var t := Next(s, Room(ok));
    if t.stage.Logging? {
      assert t.groups[..|t.groups| - 1] == s.groups;
      NextRange(s.groups, t.stage.group);
    }
  }

  lemma NextRange(groups: seq<Group>, g: Group)
    requires Consecutive(groups) && g.sequence == EndOf(groups) + 1
    ensures Consecutive(groups + [g])
  {
  }

  lemma AddRecordLedger(s: State, ok: bool)
    requires Ledger(s) && Enabled(s, AddRecord(ok))
    ensures Ledger(Next(s, AddRecord(ok)))
  {
    hide Consecutive, Subsequence, Queued;
    var before := s.groups[..|s.groups| - 1];
    assert s.groups == before + [s.stage.group];
    SubsequenceGrows(s.log, before, s.stage.group);
  }

  lemma StepLedger(s: State, e: Event)
    requires Ledger(s) && Enabled(s, e)
    ensures Ledger(Next(s, e))
  {
    hide Consecutive, Subsequence, Queued;
    match e {
      case Room(ok) => RoomLedger(s, ok);
      case AddRecord(ok) => AddRecordLedger(s, ok);
      case _ =>
    }
  }

  lemma {:induction false} RunLedger(states: seq<State>, events: seq<Event>, n: nat)
    requires IsRun(states, events) && n <= |events|
    ensures Ledger(states[n])
  {
    hide Next;
    if n > 0 {
      hide Ledger;
      RunLedger(states, events, n - 1);
      StepLedger(states[n - 1], events[n - 1]);
    }
  }

  /** Groups take consecutive ranges of sequence numbers from one on, whether or not they reach the
      log; between groups the last of them is LastSequence.  The log holds them in that order, and
      all of them unless an append failed. */
  lemma RangesAreConsecutive(states: seq<State>, events: seq<Event>, n: nat)
    requires IsRun(states, events) && n <= |events|
    ensures var s := states[n];
      Consecutive(s.groups) && Subsequence(s.log, s.groups) && |s.log| <= |s.groups| &&
      (s.stage.Waiting? ==> EndOf(s.groups) == s.last_sequence) &&
      (|s.log| == |s.groups| ==> Consecutive(s.log))
  {
    hide Consecutive, EndOf;
    RunLedger(states, events, n);
    var s := states[n];
    if s.stage.Logging? {
      var before := s.groups[..|s.groups| - 1];
      assert s.groups == before + [s.stage.group];
      SubsequenceGrows(s.log, before, s.stage.group);
    }
    SubsequenceShorter(s.log, s.groups);
  }

  // ---------------------------------------------------------------- the memtable replays the log

  /** The records whose writers were told Ok. */
  ghost function OkRecords(outcomes: map<nat, Outcome>): set<nat> {
    set id | id in outcomes && outcomes[id].status.Ok? && outcomes[id].record.Some? :: outcomes[id].record.value
  }

  /** What replaying the chosen ones among the first `n` records inserts. */
  ghost function ReplayOf(log: seq<Group>, oks: set<nat>, n: nat): seq<Numbered>
    requires n <= |log|
  {
    if n == 0 then
      []
    else
      ReplayOf(log, oks, n - 1) + if n - 1 in oks then Inserted(log[n - 1].sequence, log[n - 1].updates) else []
  }

  /** How many records belong to groups that are done. */
  ghost function Done(s: State): nat {
    if RecordPending(s) && s.log != [] then |s.log| - 1 else |s.log|
  }

  ghost predicate Replayed(s: State) {
    (forall r :: r in OkRecords(s.outcomes) ==> r < Done(s)) &&
    s.mem == ReplayOf(s.log, OkRecords(s.outcomes), Done(s)) + PendingMem(s)
  }

  lemma {:induction false} ReplayAgrees(log: seq<Group>, more: seq<Group>, a: set<nat>, b: set<nat>, n: nat)
    requires n <= |log| <= |more| && log == more[..|log|] && forall r :: 0 <= r < n ==> (r in a <==> r in b)
    ensures ReplayOf(log, a, n) == ReplayOf(more, b, n)
  {
    if n > 0 {
      ReplayAgrees(log, more, a, b, n - 1);
    }
  }

  lemma QuietReplays(s: State, t: State)
    requires Replayed(s) && SameMem(s, t) && SameLog(s, t) && t.outcomes == s.outcomes
    ensures Replayed(t)
  {
    hide PendingMem, RecordPending, ReplayOf;
  }

  lemma AddRecordReplays(s: State, ok: bool)
    requires Inv(s) && Replayed(s) && Enabled(s, AddRecord(ok))
    ensures Replayed(Next(s, AddRecord(ok)))
  {
    hide Inv, PendingMem, Queued, ReplayOf;
    var t := Next(s, AddRecord(ok));
    AddRecordKeeps(s, ok);
    if ok {
      assert s.log == t.log[..|s.log|];
      ReplayAgrees(s.log, t.log, OkRecords(s.outcomes), OkRecords(s.outcomes), |s.log|);
    } else {
      QuietReplays(s, t);
    }
  }

  lemma InsertReplays(s: State)
    requires Inv(s) && Replayed(s) && Enabled(s, Insert)
    ensures Replayed(Next(s, Insert))
  {
    hide Inv, PendingMem, ReplayOf;
    var t := Next(s, Insert);
    InsertKeeps(s);
    var e := Numbered(s.stage.group.sequence + s.stage.done, s.stage.group.updates[s.stage.done]);
    var before := ReplayOf(s.log, OkRecords(s.outcomes), Done(s));
    assert before + PendingMem(s) + [e] == before + (PendingMem(s) + [e]);
  }

  /** What the writers of a finished group are told. */
  lemma ToldRecords(s: State)
    requires Inv(s) && Enabled(s, Complete)
    ensures var outcome := s.stage.outcome;
      OkRecords(Next(s, Complete).outcomes) ==
      OkRecords(s.outcomes) + if outcome.status.Ok? && outcome.record.Some? then {outcome.record.value} else {}
  {
    hide LogOk, MemOk, OutcomesOk, Batches, Served;
    var t, outcome := Next(s, Complete), s.stage.outcome;
    ToldAre(s);
    assert forall id :: id in t.outcomes <==> 0 <= id < Base(t) by { OutcomeIds(t); }
    assert forall id :: id in s.outcomes <==> 0 <= id < Base(s) by { OutcomeIds(s); }
    forall r | r in OkRecords(s.outcomes)
      ensures r in OkRecords(t.outcomes)
    {
      var id :| id in s.outcomes && s.outcomes[id].status.Ok? && s.outcomes[id].record == Some(r);
      assert t.outcomes[id] == s.outcomes[id];
    }
    if outcome.status.Ok? && outcome.record.Some? {
      assert t.outcomes[Base(s)] == outcome;
    }
  }

  lemma CompleteReplays(s: State)
    requires Inv(s) && Replayed(s) && Enabled(s, Complete)
    ensures Replayed(Next(s, Complete))
  {
    hide QueueOk, LogOk, MemOk, OutcomesOk, Batches, Served, OkRecords, Inserted;
    var t, outcome := Next(s, Complete), s.stage.outcome;
    ToldRecords(s);
    var before, after := OkRecords(s.outcomes), OkRecords(t.outcomes);
    assert s.log[..|s.log|] == s.log;
    ReplayAgrees(s.log, s.log, before, after, Done(s));
    if outcome.record.None? {
      EmptyInserted(s.last_sequence + 1);
    }
  }

  lemma StepReplays(s: State, e: Event)
    requires Inv(s) && Replayed(s) && Enabled(s, e)
    ensures Replayed(Next(s, e))
  {
    hide Inv, Replayed, SameMem, SameLog, GroupSize, Queued;
    var t := Next(s, e);
    match e {
      case Arrive(request) => ArriveKeeps(s, request); QuietReplays(s, t);
      case Lead => LeadKeeps(s); QuietReplays(s, t);
      case Room(ok) => RoomKeeps(s, ok); QuietReplays(s, t);
      case AddRecord(ok) => AddRecordReplays(s, ok);
      case Sync(ok) => SyncKeeps(s, ok); QuietReplays(s, t);
      case Insert => InsertReplays(s);
      case Finish => FinishKeeps(s); QuietReplays(s, t);
      case Complete => CompleteReplays(s);
      case BackgroundError => BackgroundErrorKeeps(s); QuietReplays(s, t);
    }
  }

  lemma {:induction false} RunReplays(states: seq<State>, events: seq<Event>, n: nat)
    requires IsRun(states, events) && n <= |events|
    ensures Replayed(states[n])
  {
    hide Next, Inv;
    if n > 0 {
      hide Replayed;
      RunReplays(states, events, n - 1);
      RunKeeps(states, events, n - 1);
      StepReplays(states[n - 1], events[n - 1]);
    }
  }

  /** Between groups the memtable is the replay of exactly the logged records whose writers were told
      Ok, every entry under the sequence number that its record gives it. */
  lemma MemtableReplaysLog(states: seq<State>, events: seq<Event>, n: nat)
    requires IsRun(states, events) && n <= |events| && states[n].stage.Waiting?
    ensures states[n].mem == ReplayOf(states[n].log, OkRecords(states[n].outcomes), |states[n].log|)
  {
    hide Next;
    RunReplays(states, events, n);
  }

  // ---------------------------------------------------------------- sync writes survive

  ghost predicate Within<T(!new)>(part: seq<T>, whole: seq<T>) {
    exists x, y :: whole == x + part + y
  }

  lemma {:induction false} BatchWithin(rs: seq<Request>, j: nat)
    requires j < |rs|
    ensures Within(BatchOf(rs[j]), Batches(rs))
  {
    hide BatchOf;
    var n := |rs| - 1;
    var front, last := Batches(rs[..n]), BatchOf(rs[n]);
    if j == n {
      assert Batches(rs) == front + last + [];
    } else {
      BatchWithin(rs[..n], j);
      var x, y :| front == x + BatchOf(rs[..n][j]) + y;
      assert Batches(rs) == x + BatchOf(rs[j]) + (y + last);
    }
  }

  /** The record of a served writer holds its batch. */
  ghost predicate Carried(s: State, id: nat) {
    id in s.outcomes && id < |s.requests| &&
    (s.outcomes[id].record.Some? ==>
      s.outcomes[id].record.value < |s.log| && Within(BatchOf(s.requests[id]), s.log[s.outcomes[id].record.value].updates))
  }

  ghost predicate Carries(s: State) {
    forall id :: id in s.outcomes ==> Carried(s, id)
  }

  lemma CompleteCarries(s: State)
    requires Inv(s) && Carries(s) && Enabled(s, Complete)
    ensures Carries(Next(s, Complete))
  {
    hide LogOk, MemOk, OutcomesOk, Batches, Within, BatchOf;
    var t := Next(s, Complete);
    ToldAre(s);
    assert forall id :: id in t.outcomes <==> 0 <= id < Base(t) by { OutcomeIds(t); }
    forall id | id in t.outcomes
      ensures Carried(t, id)
    {
      if id < Base(s) {
        assert Carried(s, id);
      } else {
        BatchWithin(Served(s), id - Base(s));
      }
    }
  }

  lemma StepCarries(s: State, e: Event)
    requires Inv(s) && Carries(s) && Enabled(s, e)
    ensures Carries(Next(s, e))
  {
    hide Inv, Within, BatchOf, GroupSize, Queued, Batches;
    if e.Complete? {
      CompleteCarries(s);
    } else {
      var t := Next(s, e);
      assert t.outcomes == s.outcomes && |s.requests| <= |t.requests| && |s.log| <= |t.log|;
      forall id | id in t.outcomes
        ensures Carried(t, id)
      {
        assert Carried(s, id);
      }
    }
  }

  lemma {:induction false} RunCarries(states: seq<State>, events: seq<Event>, n: nat)
    requires IsRun(states, events) && n <= |events|
    ensures Carries(states[n])
  {
    hide Next, Inv;
    if n > 0 {
      hide Carries;
      RunCarries(states, events, n - 1);
      RunKeeps(states, events, n - 1);
      StepCarries(states[n - 1], events[n - 1]);
    }
  }

  lemma {:induction false} GroupApplied(groups: seq<Group>, r: nat)
    requires r < |groups|
    ensures Within(Inserted(groups[r].sequence, groups[r].updates), Applied(groups))
  {
    hide Inserted;
    var n := |groups| - 1;
    var last := Inserted(groups[n].sequence, groups[n].updates);
    if r == n {
      assert Applied(groups) == Applied(groups[..n]) + last + [];
    } else {
      GroupApplied(groups[..n], r);
      var part := Inserted(groups[r].sequence, groups[r].updates);
      var x, y :| Applied(groups[..n]) == x + part + y;
      assert Applied(groups) == x + part + (y + last);
    }
  }

  /** A sync write that was told Ok survives every crash that keeps the synced part of the log: its
      batch, whole, is in a record that recovery applies. */
  lemma SyncedWriteSurvives(states: seq<State>, events: seq<Event>, n: nat, id: nat, cut: nat, k: nat)
    requires IsRun(states, events) && n <= |events| && id in states[n].outcomes && states[n].outcomes[id].status.Ok?
    requires id < |states[n].requests| && states[n].requests[id].sync && states[n].requests[id].batch.Some?
    requires states[n].synced <= |states[n].log| && ValidGroups(states[n].log)
    requires |LogFile(Contents(states[n].log)[..states[n].synced])| <= cut <= |LogFile(Contents(states[n].log))|
    requires WholeRecords(Contents(states[n].log), cut, k)
    ensures var s := states[n];
      s.outcomes[id].record.Some? &&
      var r := s.outcomes[id].record.value;
      r < k <= |s.log| && Within(s.requests[id].batch.value, s.log[r].updates) &&
      Within(Inserted(s.log[r].sequence, s.log[r].updates), ReplayAll(ReadAll(LogFile(Contents(s.log))[..cut], 0).0))
  {
    hide Next, LogFile, ReadAll, ReplayAll, Within, ValidGroups, Inserted, Contents;
    var s := states[n];
    OkMeansLogged(states, events, n, id);
    RunCarries(states, events, n);
    assert Carried(s, id);
    var r := s.outcomes[id].record.value;
    if k < s.synced {
      LogFileMonotone(Contents(s.log), k + 1, s.synced);
    }
    CrashKeepsWholeGroups(s.log, cut, k, 0);
    GroupApplied(s.log[..k], r);
  }
}
