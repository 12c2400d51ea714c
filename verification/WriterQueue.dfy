/** The queue of writers behind DBImpl::Write (db/db_impl.cc): one log record and one range of
    sequence numbers for a group of waiting writers.

    The writer at the front of the queue leads.  It gives up the mutex while it makes room, while
    it appends to the log and while it inserts into the memtable, so other writers arrive and
    readers look in between: each of these is a step. */
module WriterQueue {
  import opened DbFormat
  import opened WriteBatch
  import opened Recovery

  /** One call of Write.  A null batch asks for a memtable switch only. */
  datatype Request = Request(batch: Option<seq<Update>>, sync: bool)

  datatype Status = Ok | Failed

  /** What a writer is told, and which log record its group was written as. */
  datatype Outcome = Outcome(status: Status, record: Option<nat>)

  function BatchOf(r: Request): seq<Update> {
    if r.batch.Some? then r.batch.value else []
  }

  function Batches(rs: seq<Request>): seq<Update> {
    if rs == [] then [] else Batches(rs[..|rs| - 1]) + BatchOf(rs[|rs| - 1])
  }

  // ---------------------------------------------------------------- BuildBatchGroup

  function ByteSize(us: seq<Update>): nat {
    |Rep(0, us)|
  }

  /** A small first write limits how much may join it. */
  function MaxSize(first: nat): nat {
    if first <= 0x2_0000 then first + 0x2_0000 else 0x10_0000
  }

  /** How many of the waiting writers form the group, from the i-th on. */
  function GroupFrom(rs: seq<Request>, i: nat, size: nat, max: nat): (n: nat)
    requires 0 < i <= |rs|
    ensures i <= n <= |rs|
    decreases |rs| - i
  {
    if i == |rs| || (rs[i].sync && !rs[0].sync) then
      i
    else if rs[i].batch.None? then
      GroupFrom(rs, i + 1, size, max)
    else
      var larger := size + ByteSize(rs[i].batch.value);
      if larger > max then i else GroupFrom(rs, i + 1, larger, max)
  }

  function GroupSize(rs: seq<Request>): (n: nat)
    requires |rs| > 0 && rs[0].batch.Some?
    ensures 0 < n <= |rs|
  {
    var first := ByteSize(rs[0].batch.value);
    GroupFrom(rs, 1, first, MaxSize(first))
  }

  /** A sync write never joins the group of a non-sync leader. */
  lemma {:induction false} GroupKeepsSync(rs: seq<Request>, i: nat, size: nat, max: nat, j: nat)
    requires 0 < i <= |rs| && i <= j < GroupFrom(rs, i, size, max)
    ensures rs[j].sync ==> rs[0].sync
    decreases |rs| - i
  {
    if j > i {
      var larger := if rs[i].batch.None? then size else size + ByteSize(rs[i].batch.value);
      GroupKeepsSync(rs, i + 1, larger, max, j);
    }
  }

  /** The bytes of the batches of some writers. */
  function TotalBytes(rs: seq<Request>): nat {
    if rs == [] then
      0
    else
      TotalBytes(rs[..|rs| - 1]) + if rs[|rs| - 1].batch.Some? then |Rep(0, rs[|rs| - 1].batch.value)| else 0
  }

  /** Writers join in order while their batches together stay within `limit`. */
  ghost predicate Joins(rs: seq<Request>, j: nat, limit: nat)
    requires 0 < j < |rs|
  {
    (rs[j].sync ==> rs[0].sync) && (rs[j].batch.Some? ==> TotalBytes(rs[..j + 1]) <= limit)
  }

  /** The group is as long as the limits let it be: every member after the first may join, and
      the next writer may not. */
  ghost predicate IsGroup(rs: seq<Request>, n: nat, limit: nat) {
    0 < n <= |rs| && (forall j :: 0 < j < n ==> Joins(rs, j, limit)) && (n < |rs| ==> !Joins(rs, n, limit))
  }

  lemma TotalSnoc(rs: seq<Request>, n: nat)
    requires n < |rs|
    ensures TotalBytes(rs[..n + 1]) == TotalBytes(rs[..n]) + if rs[n].batch.Some? then ByteSize(rs[n].batch.value) else 0
    ensures TotalBytes([]) == 0
  {
    assert rs[..n + 1][..n] == rs[..n];
  }

  lemma {:induction false} GroupFromIs(rs: seq<Request>, i: nat, size: nat, max: nat)
    requires 0 < i <= |rs| && size == TotalBytes(rs[..i]) && forall j :: 0 < j < i ==> Joins(rs, j, max)
    ensures IsGroup(rs, GroupFrom(rs, i, size, max), max)
    decreases |rs| - i
  {
    hide ByteSize, TotalBytes;
    if i < |rs| {
      TotalSnoc(rs, i);
      if Joins(rs, i, max) {
        GroupFromIs(rs, i + 1, TotalBytes(rs[..i + 1]), max);
      }
    }
  }

  /** The group that the writers' state machine forms is the longest that the limits allow. */
  lemma GroupIsLongest(rs: seq<Request>, n: nat, limit: nat)
    requires |rs| > 0 && rs[0].batch.Some? && n == GroupSize(rs)
    requires var first := |Rep(0, rs[0].batch.value)|; limit == if first <= 131072 then first + 131072 else 1048576
    ensures 0 < n <= |rs|
    ensures n == |rs| || (rs[n].sync && !rs[0].sync) || (rs[n].batch.Some? && TotalBytes(rs[..n + 1]) > limit)
    ensures forall j :: 0 < j < n ==>
      (rs[j].sync ==> rs[0].sync) && (rs[j].batch.Some? ==> TotalBytes(rs[..j + 1]) <= limit)
  {
    hide TotalBytes, Rep, GroupFrom;
    var first := ByteSize(rs[0].batch.value);
    assert rs[..0] == [];
    TotalSnoc(rs, 0);
    GroupFromIs(rs, 1, first, limit);
    assert IsGroup(rs, n, limit);
    hide ByteSize, GroupSize, MaxSize;
    forall j | 0 < j < n
      ensures (rs[j].sync ==> rs[0].sync) && (rs[j].batch.Some? ==> TotalBytes(rs[..j + 1]) <= limit)
    {
      assert Joins(rs, j, limit);
    }
  }

  /** Within a limit of 128K more than a small first batch, and of 1M otherwise, the group is
      the longest run of writers from the front in which no sync writer follows a leader that is
      not; it stops only at the end of the queue, at such a writer, or at a batch that would
      exceed the limit. */
  method BuildBatchGroup(rs: seq<Request>) returns (updates: seq<Update>, n: nat)
    requires |rs| > 0 && rs[0].batch.Some?
    ensures n == GroupSize(rs) && updates == Batches(rs[..n])
    ensures 0 < n <= |rs|
    ensures var first := |Rep(0, rs[0].batch.value)|;
      var limit := if first <= 131072 then first + 131072 else 1048576;
      (n == |rs| || (rs[n].sync && !rs[0].sync) || (rs[n].batch.Some? && TotalBytes(rs[..n + 1]) > limit)) &&
      forall j :: 0 < j < n ==>
        (rs[j].sync ==> rs[0].sync) && (rs[j].batch.Some? ==> TotalBytes(rs[..j + 1]) <= limit)
  {
    hide Rep, Batches, TotalBytes;
    var first := rs[0];
    updates := first.batch.value;
    var size: nat := ByteSize(updates);
    var max_size: nat := 0x10_0000;
    if size <= 0x2_0000 {
      max_size := size + 0x2_0000;
    }
    n := 1;
    assert rs[..0] == [] && [] + BatchOf(first) == BatchOf(first);
    BatchesSnoc(rs, 0);
    while n < |rs|
      invariant 0 < n <= |rs| && GroupSize(rs) == GroupFrom(rs, n, size, max_size)
      invariant updates == Batches(rs[..n])
    {
      var w := rs[n];
      if w.sync && !first.sync {
        break;
      }
      if w.batch.Some? {
        size := size + ByteSize(w.batch.value);
        if size > max_size {
          break;
        }
        updates := updates + w.batch.value;
      }
      BatchesSnoc(rs, n);
      n := n + 1;
    }
    assert n == GroupSize(rs);
    hide ByteSize, GroupFrom, GroupSize;
    GroupIsLongest(rs, n, max_size);
  }

  lemma BatchesSnoc(rs: seq<Request>, n: nat)
    requires n < |rs|
    ensures Batches(rs[..n + 1]) == Batches(rs[..n]) + BatchOf(rs[n]) && Batches([]) == []
  {
    assert rs[..n + 1][..n] == rs[..n];
  }

  // ---------------------------------------------------------------- the queue as a state machine

  /** Where the front writer stands: waiting, in MakeRoomForWrite, before or after the log
      append, after `done` insertions, or holding the mutex again with a status. */
  datatype Stage =
    | Waiting
    | MakingRoom
    | Logging(members: nat, group: Group)
    | Logged(members: nat, group: Group)
    | Inserting(members: nat, group: Group, done: nat)
    | Completing(members: nat, outcome: Outcome, sequence: nat)

  /** `groups` are all the groups that were given sequence numbers, logged or not. */
  datatype State = State(
    requests: seq<Request>,
    queue: seq<nat>,
    stage: Stage,
    log: seq<Group>,
    synced: nat,
    mem: seq<Numbered>,
    last_sequence: nat,
    bg_error: bool,
    outcomes: map<nat, Outcome>,
    groups: seq<Group>)

  datatype Event =
    | Arrive(request: Request)
    | Lead
    | Room(ok: bool)
    | AddRecord(ok: bool)
    | Sync(ok: bool)
    | Insert
    | Finish
    | Complete
    | BackgroundError

  /** The requests in the queue, in order. */
  function Queued(s: State): seq<Request> {
    seq(|s.queue|, i requires 0 <= i < |s.queue| =>
      if s.queue[i] < |s.requests| then s.requests[s.queue[i]] else Request(None, false))
  }

  predicate Enabled(s: State, e: Event) {
    match e
    case Arrive(_) => true
    case Lead => s.stage.Waiting? && s.queue != []
    case Room(ok) => s.stage.MakingRoom? && s.queue != [] && (s.bg_error ==> !ok)
    case AddRecord(_) => s.stage.Logging?
    case Sync(_) => s.stage.Logged? && s.queue != [] && Queued(s)[0].sync
    case Insert => s.stage.Inserting? && s.stage.done < |s.stage.group.updates|
    case Finish => s.stage.Inserting? && s.stage.done == |s.stage.group.updates|
    case Complete => s.stage.Completing? && s.stage.members <= |s.queue|
    case BackgroundError => true
  }

  function Next(s: State, e: Event): State
    requires Enabled(s, e)
  {
    match e
    case Arrive(request) => s.(requests := s.requests + [request], queue := s.queue + [|s.requests|])
    case Lead => s.(stage := MakingRoom)
    case Room(ok) =>
      var rs := Queued(s);
      if ok && rs[0].batch.Some? then
        var n := GroupSize(rs);
        var group := Group(s.last_sequence + 1, Batches(rs[..n]));
        s.(stage := Logging(n, group), groups := s.groups + [group])
      else
        s.(stage := Completing(1, Outcome(if ok then Ok else Failed, None), s.last_sequence))
    case AddRecord(ok) =>
      var Logging(n, group) := s.stage;
      if !ok then
        s.(stage := Completing(n, Outcome(Failed, None), s.last_sequence + |group.updates|))
      else
        s.(log := s.log + [group],
           stage := if s.queue != [] && Queued(s)[0].sync then Logged(n, group) else Inserting(n, group, 0))
    case Sync(ok) =>
      var Logged(n, group) := s.stage;
      if ok then
        s.(synced := |s.log|, stage := Inserting(n, group, 0))
      else
        s.(bg_error := true,
           stage := Completing(n, Outcome(Failed, Some(LastIndex(s.log))), s.last_sequence + |group.updates|))
    case Insert =>
      var Inserting(n, group, done) := s.stage;
      s.(mem := s.mem + [Numbered(group.sequence + done, group.updates[done])],
         stage := Inserting(n, group, done + 1))
    case Finish =>
      var Inserting(n, group, _) := s.stage;
      s.(stage := Completing(n, Outcome(Ok, Some(LastIndex(s.log))), s.last_sequence + |group.updates|))
    case Complete =>
      var Completing(n, outcome, sequence) := s.stage;
      s.(stage := Waiting, last_sequence := sequence, queue := s.queue[n..],
         outcomes := s.outcomes + Told(s.queue[..n], outcome))
    case BackgroundError => s.(bg_error := true)
  }

  function LastIndex(log: seq<Group>): nat {
    if |log| > 0 then |log| - 1 else 0
  }

  /** Every popped writer gets the status of its group. */
  function Told(ids: seq<nat>, outcome: Outcome): map<nat, Outcome> {
    map id | id in ids :: outcome
  }

  function Initial(): State {
    State([], [], Waiting, [], 0, [], 0, false, map[], [])
  }

  // ---------------------------------------------------------------- what is promised

  /** The batches of the chosen ones among the first `n` requests, in queue order. */
  function Selected(requests: seq<Request>, ids: set<nat>, n: nat): seq<Update>
    requires n <= |requests|
  {
    if n == 0 then
      []
    else
      Selected(requests, ids, n - 1) + if n - 1 in ids then BatchOf(requests[n - 1]) else []
  }

  /** The writers that were told Ok. */
  function OkIds(outcomes: map<nat, Outcome>): set<nat> {
    set id | id in outcomes && outcomes[id].status.Ok?
  }

  /** The writers whose group was logged. */
  function LoggedIds(outcomes: map<nat, Outcome>): set<nat> {
    set id | id in outcomes && outcomes[id].record.Some?
  }

  function UpdatesOf(entries: seq<Numbered>): seq<Update> {
    seq(|entries|, i requires 0 <= i < |entries| => entries[i].update)
  }

  function LogUpdates(log: seq<Group>): seq<Update> {
    if log == [] then [] else LogUpdates(log[..|log| - 1]) + log[|log| - 1].updates
  }

  /** What a reader at sequence number `snapshot` sees of the memtable. */
  function Visible(mem: seq<Numbered>, snapshot: nat): seq<Numbered> {
    if mem == [] then
      []
    else
      var last := mem[|mem| - 1];
      Visible(mem[..|mem| - 1], snapshot) + if last.seqno <= snapshot then [last] else []
  }

  // ---------------------------------------------------------------- the invariant

  /** How many writers have been served. */
  ghost function Base(s: State): int {
    |s.requests| - |s.queue|
  }

  ghost predicate QueueOk(s: State) {
    Base(s) >= 0 &&
    (forall i :: 0 <= i < |s.queue| ==> s.queue[i] == Base(s) + i) &&
    (forall id :: id in s.outcomes <==> 0 <= id < Base(s))
  }

  /** The requests that the front writer is serving. */
  ghost function Served(s: State): seq<Request> {
    var n := match s.stage
      case Logging(n, _) => n
      case Logged(n, _) => n
      case Inserting(n, _, _) => n
      case Completing(n, _, _) => n
      case _ => 0;
    if n <= |s.queue| then Queued(s)[..n] else []
  }

  /** A sync request in the group has a sync leader. */
  ghost predicate SyncLed(rs: seq<Request>) {
    forall j :: 0 <= j < |rs| && rs[j].sync ==> rs[0].sync
  }

  ghost predicate GroupOk(s: State, n: nat, group: Group) {
    0 < n <= |s.queue| && group == Group(s.last_sequence + 1, Batches(Served(s)))
  }

  ghost predicate InLog(s: State, group: Group) {
    |s.log| > 0 && s.log[|s.log| - 1] == group
  }

  ghost predicate StageOk(s: State) {
    SyncLed(Served(s)) &&
    match s.stage
    case Waiting => true
    case MakingRoom => true
    case Logging(n, group) => GroupOk(s, n, group)
    case Logged(n, group) => GroupOk(s, n, group) && InLog(s, group) && Served(s)[0].sync
    case Inserting(n, group, done) =>
      GroupOk(s, n, group) && InLog(s, group) && done <= |group.updates| &&
      (Served(s)[0].sync ==> s.synced == |s.log|)
    case Completing(n, outcome, sequence) =>
      0 < n <= |s.queue| && sequence >= s.last_sequence &&
      (outcome.record.Some? ==>
        outcome.record.value == |s.log| - 1 && InLog(s, Group(s.last_sequence + 1, Batches(Served(s)))) &&
        sequence == s.last_sequence + |Batches(Served(s))|) &&
      (outcome.status.Ok? ==>
        if outcome.record.Some? then
          Served(s)[0].sync ==> s.synced == |s.log|
        else
          Batches(Served(s)) == [] && n == 1 && Served(s)[0].batch.None?)
  }

  /** The front writer's record is already in the log. */
  ghost predicate RecordPending(s: State) {
    s.stage.Logged? || s.stage.Inserting? || (s.stage.Completing? && s.stage.outcome.record.Some?)
  }

  ghost function PendingLog(s: State): seq<Update> {
    if RecordPending(s) then Batches(Served(s)) else []
  }

  /** What the front writer has put into the memtable so far. */
  ghost function PendingMem(s: State): seq<Numbered> {
    var all := Inserted(s.last_sequence + 1, Batches(Served(s)));
    match s.stage
    case Inserting(_, _, done) => if done <= |all| then all[..done] else []
    case Completing(_, outcome, _) => if outcome.status.Ok? then all else []
    case _ => []
  }

  ghost predicate LogOk(s: State)
    requires QueueOk(s)
  {
    LogUpdates(s.log) == Selected(s.requests, LoggedIds(s.outcomes), Base(s)) + PendingLog(s) &&
    Disjoint(s.log) &&
    EndsBy(if RecordPending(s) && s.log != [] then s.log[..|s.log| - 1] else s.log, s.last_sequence)
  }

  ghost predicate EndsBy(log: seq<Group>, sequence: nat) {
    forall g :: g in log ==> g.sequence + |g.updates| <= sequence + 1
  }

  /** The records take disjoint, increasing ranges of sequence numbers. */
  ghost predicate Disjoint(log: seq<Group>) {
    forall i, j :: 0 <= i < j < |log| ==> log[i].sequence + |log[i].updates| <= log[j].sequence
  }

  ghost predicate Ascending(mem: seq<Numbered>) {
    forall i, j :: 0 <= i < j < |mem| ==> mem[i].seqno < mem[j].seqno
  }

  ghost predicate AtMost(mem: seq<Numbered>, sequence: nat) {
    forall e :: e in mem ==> e.seqno <= sequence
  }

  /** The memtable is `settled`, from earlier groups, and then the current group's entries. */
  ghost predicate SettledOk(s: State, settled: seq<Numbered>)
    requires QueueOk(s)
  {
    s.mem == settled + PendingMem(s) && Ascending(settled) && AtMost(settled, s.last_sequence) &&
    UpdatesOf(settled) == Selected(s.requests, OkIds(s.outcomes), Base(s))
  }

  ghost predicate MemOk(s: State)
    requires QueueOk(s)
  {
    exists settled :: SettledOk(s, settled)
  }

  /** A successful sync request with a batch is in the log, before the last sync. */
  ghost predicate OutcomeOk(s: State, id: nat) {
    id in s.outcomes && id < |s.requests| &&
    var outcome := s.outcomes[id];
    (outcome.record.Some? ==> outcome.record.value < |s.log|) &&
    (outcome.status.Ok? && s.requests[id].batch.Some? ==>
      outcome.record.Some? && (s.requests[id].sync ==> outcome.record.value < s.synced))
  }

  ghost predicate OutcomesOk(s: State) {
    s.synced <= |s.log| && forall id :: id in s.outcomes ==> OutcomeOk(s, id)
  }

  ghost predicate Inv(s: State) {
    QueueOk(s) && StageOk(s) && LogOk(s) && MemOk(s) && OutcomesOk(s)
  }
}
