/** Every run of the writer queue keeps its promises. */
module WriterQueueProof {
  import opened DbFormat
  import opened WriteBatch
  import opened Recovery
  import opened WriterQueue

  // ---------------------------------------------------------------- lists of batches

  lemma {:induction false} SelectedAgree(rs: seq<Request>, more: seq<Request>, a: set<nat>, b: set<nat>, n: nat)
    requires n <= |rs| <= |more| && rs == more[..|rs|]
    requires forall id :: 0 <= id < n ==> (id in a <==> id in b)
    ensures Selected(rs, a, n) == Selected(more, b, n)
  {
    if n > 0 {
      SelectedAgree(rs, more, a, b, n - 1);
    }
  }

  /** A range of requests that is chosen as a whole or not at all. */
  lemma {:induction false} SelectedRange(rs: seq<Request>, ids: set<nat>, base: nat, n: nat, all: bool)
    requires base + n <= |rs| && forall id :: base <= id < base + n ==> (id in ids <==> all)
    ensures Selected(rs, ids, base + n) == Selected(rs, ids, base) + if all then Batches(rs[base..base + n]) else []
  {
    hide BatchOf;
    if n == 0 {
      assert rs[base..base] == [];
    } else {
      SelectedRange(rs, ids, base, n - 1, all);
      var range, last := rs[base..base + n], rs[base + n - 1];
      assert range[..n - 1] == rs[base..base + n - 1];
      assert Batches(range) == Batches(range[..n - 1]) + BatchOf(last);
      if all {
        Associate(Selected(rs, ids, base), Batches(range[..n - 1]), BatchOf(last));
      }
    }
  }

  lemma Associate(a: seq<Update>, b: seq<Update>, c: seq<Update>)
    ensures a + b + c == a + (b + c)
  {
  }

  /** Requests still waiting are not chosen. */
  lemma NotYetSelected(rs: seq<Request>, ids: set<nat>, base: nat)
    requires base <= |rs| && forall id :: id in ids ==> id < base
    ensures Selected(rs, ids, |rs|) == Selected(rs, ids, base)
  {
    SelectedRange(rs, ids, base, |rs| - base, false);
  }

  lemma LogUpdatesSnoc(log: seq<Group>, g: Group)
    ensures LogUpdates(log + [g]) == LogUpdates(log) + g.updates
  {
    assert (log + [g])[..|log|] == log;
  }

  // ---------------------------------------------------------------- steps that leave things alone

  ghost predicate SameMem(s: State, t: State) {
    t.mem == s.mem && PendingMem(t) == PendingMem(s) && t.last_sequence == s.last_sequence
  }

  ghost predicate SameLog(s: State, t: State) {
    t.log == s.log && PendingLog(t) == PendingLog(s) && RecordPending(t) == RecordPending(s) &&
    t.last_sequence == s.last_sequence
  }

  /** Requests only gain a new last one, and nobody is told anything. */
  ghost predicate SameQueue(s: State, t: State) {
    |s.requests| <= |t.requests| && s.requests == t.requests[..|s.requests|] && t.outcomes == s.outcomes &&
    Base(t) == Base(s)
  }

  lemma SelectedSame(s: State, t: State, ids: set<nat>)
    requires QueueOk(s) && QueueOk(t) && SameQueue(s, t)
    ensures Selected(t.requests, ids, Base(t)) == Selected(s.requests, ids, Base(s))
  {
    SelectedAgree(s.requests, t.requests, ids, ids, Base(s));
  }

  lemma MemStays(s: State, t: State)
    requires QueueOk(s) && QueueOk(t) && MemOk(s) && SameQueue(s, t) && SameMem(s, t)
    ensures MemOk(t)
  {
    hide PendingMem, Selected, UpdatesOf, QueueOk;
    var settled :| SettledOk(s, settled);
    SelectedSame(s, t, OkIds(s.outcomes));
    assert SettledOk(t, settled);
  }

  lemma LogStays(s: State, t: State)
    requires QueueOk(s) && QueueOk(t) && LogOk(s) && SameQueue(s, t) && SameLog(s, t)
    ensures LogOk(t)
  {
    hide PendingLog, RecordPending, Selected, LogUpdates, QueueOk;
    SelectedSame(s, t, LoggedIds(s.outcomes));
  }

  lemma OutcomesStay(s: State, t: State)
    requires QueueOk(s) && QueueOk(t) && OutcomesOk(s) && SameQueue(s, t)
    requires |s.log| <= |t.log| && (t.synced == s.synced || t.synced == |t.log|)
    ensures OutcomesOk(t)
  {
  }

  // ---------------------------------------------------------------- one lemma per step

  lemma ArriveKeeps(s: State, request: Request)
    requires Inv(s)
    ensures Inv(Next(s, Arrive(request)))
    ensures SameMem(s, Next(s, Arrive(request))) && SameLog(s, Next(s, Arrive(request))) && SameQueue(s, Next(s, Arrive(request)))
  {
    hide Batches, LogOk, MemOk, OutcomesOk, Inserted;
    var t := Next(s, Arrive(request));
    assert Queued(t) == Queued(s) + [request];
    assert Served(t) == Served(s);
    MemStays(s, t);
    LogStays(s, t);
    OutcomesStay(s, t);
  }

  lemma LeadKeeps(s: State)
    requires Inv(s) && Enabled(s, Lead)
    ensures Inv(Next(s, Lead))
    ensures SameMem(s, Next(s, Lead)) && SameLog(s, Next(s, Lead)) && SameQueue(s, Next(s, Lead))
  {
    hide Batches, LogOk, MemOk, OutcomesOk, Inserted;
    var t := Next(s, Lead);
    MemStays(s, t);
    LogStays(s, t);
    OutcomesStay(s, t);
  }

  lemma GroupIsSyncLed(rs: seq<Request>)
    requires |rs| > 0 && rs[0].batch.Some?
    ensures SyncLed(rs[..GroupSize(rs)])
  {
    hide ByteSize;
    var n := GroupSize(rs);
    forall j | 0 <= j < n && rs[j].sync
      ensures rs[0].sync
    {
      if j > 0 {
        var first := ByteSize(rs[0].batch.value);
        GroupKeepsSync(rs, 1, first, MaxSize(first), j);
      }
    }
  }

  lemma OneBatch(r: Request)
    ensures Batches([r]) == BatchOf(r)
  {
    assert Batches([r][..0]) == [];
  }

  lemma RoomKeeps(s: State, ok: bool)
    requires Inv(s) && Enabled(s, Room(ok))
    ensures Inv(Next(s, Room(ok)))
    ensures SameMem(s, Next(s, Room(ok))) && SameLog(s, Next(s, Room(ok))) && SameQueue(s, Next(s, Room(ok)))
  {
    hide Batches, LogOk, MemOk, OutcomesOk, Inserted, GroupSize;
    var t := Next(s, Room(ok));
    var rs := Queued(s);
    assert Queued(t) == rs;
    if ok && rs[0].batch.Some? {
      GroupIsSyncLed(rs);
    } else {
      assert Served(t) == [rs[0]];
      OneBatch(rs[0]);
    }
    assert StageOk(t);
    assert PendingMem(t) == [] by { if t.stage.Completing? && ok { EmptyInserted(s.last_sequence + 1); } }
    MemStays(s, t);
    LogStays(s, t);
    OutcomesStay(s, t);
  }

  lemma EmptyInserted(first: nat)
    ensures Inserted(first, []) == []
  {
  }

  lemma AddRecordKeeps(s: State, ok: bool)
    requires Inv(s) && Enabled(s, AddRecord(ok))
    ensures Inv(Next(s, AddRecord(ok)))
    ensures SameMem(s, Next(s, AddRecord(ok))) && (!ok ==> SameLog(s, Next(s, AddRecord(ok))))
  {
    hide Batches, MemOk, OutcomesOk, Inserted, LogUpdates, Selected;
    var t := Next(s, AddRecord(ok));
    assert Queued(t) == Queued(s);
    assert Served(t) == Served(s);
    assert StageOk(t);
    MemStays(s, t);
    OutcomesStay(s, t);
    if ok {
      LogUpdatesSnoc(s.log, s.stage.group);
      assert t.log[..|t.log| - 1] == s.log;
    } else {
      LogStays(s, t);
    }
  }

  lemma SyncKeeps(s: State, ok: bool)
    requires Inv(s) && Enabled(s, Sync(ok))
    ensures Inv(Next(s, Sync(ok)))
    ensures SameMem(s, Next(s, Sync(ok))) && SameLog(s, Next(s, Sync(ok))) && SameQueue(s, Next(s, Sync(ok)))
  {
    hide Batches, LogOk, MemOk, OutcomesOk, Inserted;
    var t := Next(s, Sync(ok));
    assert Queued(t) == Queued(s);
    assert Served(t) == Served(s);
    assert StageOk(t);
    MemStays(s, t);
    LogStays(s, t);
    OutcomesStay(s, t);
  }

  lemma InsertKeeps(s: State)
    requires Inv(s) && Enabled(s, Insert)
    ensures Inv(Next(s, Insert)) && SameLog(s, Next(s, Insert))
    ensures PendingMem(Next(s, Insert)) ==
      PendingMem(s) + [Numbered(s.stage.group.sequence + s.stage.done, s.stage.group.updates[s.stage.done])]
  {
    hide Batches, LogOk, OutcomesOk, MemOk, SyncLed, Inserted;
    var t := Next(s, Insert);
    assert Queued(t) == Queued(s);
    assert Served(t) == Served(s);
    LogStays(s, t);
    OutcomesStay(s, t);
    InsertedOne(s.last_sequence + 1, s.stage.group.updates, s.stage.done);
    MemGrows(s, t, Numbered(s.stage.group.sequence + s.stage.done, s.stage.group.updates[s.stage.done]));
  }

  lemma InsertedOne(first: nat, us: seq<Update>, n: nat)
    requires n < |us|
    ensures |Inserted(first, us)| == |us|
    ensures Inserted(first, us)[..n + 1] == Inserted(first, us)[..n] + [Numbered(first + n, us[n])]
  {
  }

  lemma MemGrows(s: State, t: State, e: Numbered)
    requires QueueOk(s) && QueueOk(t) && MemOk(s) && SameQueue(s, t) && t.last_sequence == s.last_sequence
    requires t.mem == s.mem + [e] && PendingMem(t) == PendingMem(s) + [e]
    ensures MemOk(t)
  {
    hide PendingMem, Selected, UpdatesOf, QueueOk, Ascending, AtMost;
    var settled :| SettledOk(s, settled);
    SelectedSame(s, t, OkIds(s.outcomes));
    assert settled + PendingMem(s) + [e] == settled + PendingMem(t);
    assert SettledOk(t, settled);
  }

  lemma FinishKeeps(s: State)
    requires Inv(s) && Enabled(s, Finish)
    ensures Inv(Next(s, Finish))
    ensures SameMem(s, Next(s, Finish)) && SameLog(s, Next(s, Finish)) && SameQueue(s, Next(s, Finish))
  {
    hide Batches, LogOk, MemOk, OutcomesOk;
    var t := Next(s, Finish);
    assert Queued(t) == Queued(s);
    assert Served(t) == Served(s);
    assert StageOk(t);
    var all := Inserted(s.last_sequence + 1, s.stage.group.updates);
    assert all[..|all|] == all;
    MemStays(s, t);
    LogStays(s, t);
    OutcomesStay(s, t);
  }

  // ---------------------------------------------------------------- completing a group

  lemma ToldAre(s: State)
    requires QueueOk(s) && StageOk(s) && Enabled(s, Complete)
    ensures var t := Next(s, Complete);
      QueueOk(t) && Base(t) == Base(s) + s.stage.members &&
      Served(s) == s.requests[Base(s)..Base(t)] &&
      (forall id :: 0 <= id < Base(s) ==> t.outcomes[id] == s.outcomes[id]) &&
      (forall id :: Base(s) <= id < Base(t) ==> t.outcomes[id] == s.stage.outcome)
  {
    hide Batches;
    var t := Next(s, Complete);
    var n := s.stage.members;
    forall id | Base(s) <= id < Base(s) + n
      ensures id in s.queue[..n]
    {
      assert s.queue[..n][id - Base(s)] == id;
    }
    assert forall id :: id in s.queue[..n] ==> Base(s) <= id < Base(s) + n;
  }

  lemma CompleteSelects(s: State)
    requires QueueOk(s) && StageOk(s) && Enabled(s, Complete)
    ensures QueueOk(Next(s, Complete))
    ensures var t := Next(s, Complete);
      var outcome := s.stage.outcome;
      Selected(t.requests, OkIds(t.outcomes), Base(t)) ==
        Selected(s.requests, OkIds(s.outcomes), Base(s)) + (if outcome.status.Ok? then Batches(Served(s)) else []) &&
      Selected(t.requests, LoggedIds(t.outcomes), Base(t)) ==
        Selected(s.requests, LoggedIds(s.outcomes), Base(s)) + (if outcome.record.Some? then Batches(Served(s)) else [])
  {
    hide StageOk, Served, Selected, Batches;
    var t := Next(s, Complete);
    ToldAre(s);
    Chosen(s, OkIds(s.outcomes), OkIds(t.outcomes), s.stage.outcome.status.Ok?);
    Chosen(s, LoggedIds(s.outcomes), LoggedIds(t.outcomes), s.stage.outcome.record.Some?);
  }

  lemma Chosen(s: State, before: set<nat>, after: set<nat>, all: bool)
    requires QueueOk(s) && StageOk(s) && Enabled(s, Complete)
    requires forall id :: 0 <= id < Base(s) ==> (id in before <==> id in after)
    requires forall id :: Base(s) <= id < Base(s) + s.stage.members ==> (id in after <==> all)
    ensures Base(s) + s.stage.members <= |s.requests|
    ensures Selected(s.requests, after, Base(s) + s.stage.members) ==
      Selected(s.requests, before, Base(s)) + if all then Batches(Served(s)) else []
  {
    hide StageOk, Selected, Batches;
    ToldAre(s);
    hide Served;
    var rs := s.requests;
    assert rs[..|rs|] == rs;
    SelectedAgree(rs, rs, before, after, Base(s));
    SelectedRange(rs, after, Base(s), s.stage.members, all);
  }

  lemma InsertedFacts(first: nat, us: seq<Update>)
    ensures UpdatesOf(Inserted(first, us)) == us && Ascending(Inserted(first, us))
    ensures forall e :: e in Inserted(first, us) ==> first <= e.seqno < first + |us|
  {
  }

  lemma AscendingConcat(a: seq<Numbered>, b: seq<Numbered>, m: nat)
    requires Ascending(a) && Ascending(b) && AtMost(a, m) && forall e :: e in b ==> e.seqno > m
    ensures Ascending(a + b) && UpdatesOf(a + b) == UpdatesOf(a) + UpdatesOf(b)
  {
    forall i, j | 0 <= i < j < |a + b|
      ensures (a + b)[i].seqno < (a + b)[j].seqno
    {
      if i < |a| <= j {
        assert a[i] in a && b[j - |a|] in b;
      }
    }
  }

  lemma CompleteKeepsMem(s: State)
    requires QueueOk(s) && StageOk(s) && MemOk(s) && Enabled(s, Complete)
    ensures QueueOk(Next(s, Complete)) && MemOk(Next(s, Complete))
  {
    hide QueueOk, Batches, Inserted, UpdatesOf, Ascending, Served, Selected;
    var t := Next(s, Complete);
    CompleteSelects(s);
    var settled :| SettledOk(s, settled);
    var outcome, us := s.stage.outcome, Batches(Served(s));
    if outcome.status.Ok? {
      InsertedFacts(s.last_sequence + 1, us);
      AscendingConcat(settled, PendingMem(s), s.last_sequence);
      assert UpdatesOf(t.mem) == UpdatesOf(settled) + us;
    } else {
      assert t.mem == settled;
    }
    assert SettledOk(t, t.mem);
  }

  lemma CompleteKeepsOutcomes(s: State)
    requires QueueOk(s) && StageOk(s) && OutcomesOk(s) && Enabled(s, Complete)
    ensures QueueOk(Next(s, Complete)) && OutcomesOk(Next(s, Complete))
  {
    hide QueueOk, Batches, Served, Queued, StageOk;
    var t := Next(s, Complete);
    ToldAre(s);
    assert forall id :: id in t.outcomes <==> 0 <= id < Base(t) by { OutcomeIds(t); }
    assert forall id :: id in s.outcomes <==> 0 <= id < Base(s) by { OutcomeIds(s); }
    forall id: nat | Base(s) <= id < Base(t)
      ensures OutcomeOk(t, id)
    {
      ToldOk(s, id);
    }
    forall id | id in t.outcomes
      ensures OutcomeOk(t, id)
    {
      assert id < Base(s) ==> OutcomeOk(s, id);
    }
  }

  lemma OutcomeIds(s: State)
    requires QueueOk(s)
    ensures forall id :: id in s.outcomes <==> 0 <= id < Base(s)
  {
  }

  lemma ToldOk(s: State, id: nat)
    requires QueueOk(s) && StageOk(s) && s.synced <= |s.log| && Enabled(s, Complete)
    requires Base(s) <= id < Base(s) + s.stage.members
    ensures OutcomeOk(Next(s, Complete), id)
  {
    hide Batches;
    ToldAre(s);
    assert s.requests[id] == Served(s)[id - Base(s)];
  }

  lemma CompleteKeepsLog(s: State)
    requires QueueOk(s) && StageOk(s) && LogOk(s) && Enabled(s, Complete)
    ensures QueueOk(Next(s, Complete)) && LogOk(Next(s, Complete))
  {
    hide QueueOk, Batches, Served, Selected, LogUpdates, Disjoint;
    var t := Next(s, Complete);
    CompleteSelects(s);
    if s.stage.outcome.record.Some? {
      assert s.log == s.log[..|s.log| - 1] + [s.log[|s.log| - 1]];
    }
  }

  lemma CompleteKeeps(s: State)
    requires Inv(s) && Enabled(s, Complete)
    ensures Inv(Next(s, Complete))
  {
    hide QueueOk, LogOk, MemOk, OutcomesOk;
    CompleteKeepsLog(s);
    CompleteKeepsMem(s);
    CompleteKeepsOutcomes(s);
  }

  lemma BackgroundErrorKeeps(s: State)
    requires Inv(s)
    ensures Inv(Next(s, BackgroundError))
    ensures SameMem(s, Next(s, BackgroundError)) && SameLog(s, Next(s, BackgroundError)) && SameQueue(s, Next(s, BackgroundError))
  {
    hide Batches, LogOk, MemOk, OutcomesOk, Inserted;
    var t := Next(s, BackgroundError);
    assert Queued(t) == Queued(s);
    assert Served(t) == Served(s);
    MemStays(s, t);
    LogStays(s, t);
    OutcomesStay(s, t);
  }

  lemma StepKeeps(s: State, e: Event)
    requires Inv(s) && Enabled(s, e)
    ensures Inv(Next(s, e))
  {
    hide Inv, Next;
    match e {
      case Arrive(request) => ArriveKeeps(s, request);
      case Lead => LeadKeeps(s);
      case Room(ok) => RoomKeeps(s, ok);
      case AddRecord(ok) => AddRecordKeeps(s, ok);
      case Sync(ok) => SyncKeeps(s, ok);
      case Insert => InsertKeeps(s);
      case Finish => FinishKeeps(s);
      case Complete => CompleteKeeps(s);
      case BackgroundError => BackgroundErrorKeeps(s);
    }
  }

  // ---------------------------------------------------------------- runs

  ghost predicate IsRun(states: seq<State>, events: seq<Event>) {
    |states| == |events| + 1 && states[0] == Initial() &&
    forall i :: 0 <= i < |events| ==> Enabled(states[i], events[i]) && states[i + 1] == Next(states[i], events[i])
  }

  lemma StartsOk()
    ensures Inv(Initial())
  {
    var s := Initial();
    assert Served(s) == [] && PendingMem(s) == [];
    assert SettledOk(s, []);
  }

  lemma {:induction false} RunKeeps(states: seq<State>, events: seq<Event>, n: nat)
    requires IsRun(states, events) && n <= |events|
    ensures Inv(states[n])
  {
    hide Inv;
    if n == 0 {
      StartsOk();
    } else {
      RunKeeps(states, events, n - 1);
      StepKeeps(states[n - 1], events[n - 1]);
    }
  }

  lemma {:induction false} VisiblePrefix(settled: seq<Numbered>, pending: seq<Numbered>, snapshot: nat)
    requires AtMost(settled, snapshot) && forall e :: e in pending ==> e.seqno > snapshot
    ensures Visible(settled + pending, snapshot) == settled
    decreases |settled| + |pending|
  {
    var mem := settled + pending;
    if pending != [] {
      assert mem[..|mem| - 1] == settled + pending[..|pending| - 1];
      assert pending[|pending| - 1] in pending;
      VisiblePrefix(settled, pending[..|pending| - 1], snapshot);
    } else if settled != [] {
      assert mem == settled;
      var shorter := settled[..|settled| - 1];
      assert shorter + [] == shorter;
      VisiblePrefix(shorter, [], snapshot);
      assert settled[|settled| - 1] in settled;
    }
  }

  /** At every moment of every run, a reader at the last sequence number sees exactly the
      batches whose writers were told Ok: each of them whole, once, in queue order, under
      strictly increasing sequence numbers. */
  lemma ReadersSeeWholeBatches(states: seq<State>, events: seq<Event>, n: nat)
    requires IsRun(states, events) && n <= |events|
    ensures var s := states[n];
      var seen := Visible(s.mem, s.last_sequence);
      UpdatesOf(seen) == Selected(s.requests, OkIds(s.outcomes), |s.requests|) && Ascending(seen)
  {
    RunKeeps(states, events, n);
    var s := states[n];
    hide LogOk, OutcomesOk, Batches, Inserted, UpdatesOf;
    var settled :| SettledOk(s, settled);
    InsertedFacts(s.last_sequence + 1, Batches(Served(s)));
    VisiblePrefix(settled, PendingMem(s), s.last_sequence);
    NotYetSelected(s.requests, OkIds(s.outcomes), Base(s));
  }

  /** The log holds the batches of the logged writers, each once and in queue order, as records
      with disjoint increasing ranges of sequence numbers; between groups it holds nothing
      else. */
  lemma LogHoldsBatchesInOrder(states: seq<State>, events: seq<Event>, n: nat)
    requires IsRun(states, events) && n <= |events|
    ensures var s := states[n];
      Disjoint(s.log) && Selected(s.requests, LoggedIds(s.outcomes), |s.requests|) <= LogUpdates(s.log) &&
      (s.stage.Waiting? ==> LogUpdates(s.log) == Selected(s.requests, LoggedIds(s.outcomes), |s.requests|))
  {
    RunKeeps(states, events, n);
    var s := states[n];
    NotYetSelected(s.requests, LoggedIds(s.outcomes), Base(s));
  }

  /** A writer told Ok has its batch in the log, and behind a completed sync if it asked for
      one. */
  lemma OkMeansLogged(states: seq<State>, events: seq<Event>, n: nat, id: nat)
    requires IsRun(states, events) && n <= |events|
    requires id in states[n].outcomes && states[n].outcomes[id].status.Ok?
    ensures var s := states[n];
      id < |s.requests| &&
      (s.requests[id].batch.Some? ==>
        id in LoggedIds(s.outcomes) && s.outcomes[id].record.value < |s.log| &&
        (s.requests[id].sync ==> s.outcomes[id].record.value < s.synced))
  {
    RunKeeps(states, events, n);
  }
}
