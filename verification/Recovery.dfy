/** Replaying a log after a crash (DBImpl::RecoverLogFile in db/db_impl.cc). */
module Recovery {
  import opened DbFormat
  import opened Coding
  import opened Log
  import opened LogProof
  import opened WriteBatch

  /** An entry added to the memtable: its sequence number and update. */
  datatype Numbered = Numbered(seqno: nat, update: Update)

  /** What MemTableInserter adds: consecutive sequence numbers from `first`. */
  function Inserted(first: nat, us: seq<Update>): seq<Numbered> {
    seq(|us|, i requires 0 <= i < |us| => Numbered(first + i, us[i]))
  }

  /** What one log record adds to the memtable. */
  function Replay(record: Bytes): seq<Numbered> {
    if |record| < HEADER then [] else Inserted(SequenceOf(record), Iterated(record).0)
  }

  function ReplayAll(records: seq<Bytes>): seq<Numbered> {
    if records == [] then [] else ReplayAll(records[..|records| - 1]) + Replay(records[|records| - 1])
  }

  /** The last sequence number of a record, in 64 bits; a malformed count may be negative. */
  function LastOf(record: Bytes): nat
    requires |record| >= HEADER
  {
    (SequenceOf(record) + CountOf(record) - 1) % WORD64
  }

  function MaxSequence(records: seq<Bytes>, start: nat): (m: nat)
    ensures m >= start
  {
    if records == [] then
      start
    else
      var before, last := MaxSequence(records[..|records| - 1], start), records[|records| - 1];
      if |last| >= HEADER && LastOf(last) > before then LastOf(last) else before
  }

  function Flatten(tables: seq<seq<Numbered>>): seq<Numbered> {
    if tables == [] then [] else Flatten(tables[..|tables| - 1]) + tables[|tables| - 1]
  }

  lemma FlattenSnoc(tables: seq<seq<Numbered>>, t: seq<Numbered>)
    ensures Flatten(tables + [t]) == Flatten(tables) + t
  {
    assert (tables + [t])[..|tables|] == tables;
  }

  lemma ReplaySnoc(records: seq<Bytes>, r: Bytes, start: nat)
    ensures ReplayAll(records + [r]) == ReplayAll(records) + Replay(r)
    ensures MaxSequence(records + [r], start) ==
      var before := MaxSequence(records, start);
      if |r| >= HEADER && LastOf(r) > before then LastOf(r) else before
  {
    assert (records + [r])[..|records|] == records;
  }

  /** WriteBatchInternal::InsertInto: entries are added even when a later one is malformed. */
  method InsertInto(record: Bytes, mem: seq<Numbered>) returns (grown: seq<Numbered>, ok: bool)
    requires |record| >= HEADER
    ensures grown == mem + Replay(record)
    ensures ok == Iterated(record).1
  {
    var us;
    us, ok := Iterate(record);
    grown := mem + Inserted(SequenceOf(record), us);
  }

  /** A record that replays without complaint. */
  predicate Clean(record: Bytes) {
    |record| >= HEADER && Iterated(record).1
  }

  ghost predicate CleanLog(file: Bytes) {
    ReadAll(file, 0).1 == [] && forall r :: r in ReadAll(file, 0).0 ==> Clean(r)
  }

  /** The reader has returned `done` of the records of its file. */
  ghost predicate HasRead(reader: Reader, done: seq<Bytes>)
    reads reader
  {
    reader.Valid() &&
    var all, rest := ReadAll(reader.file, 0), ReadAll(reader.file, reader.Position());
    all.0 == done + rest.0 && all.1 == reader.drops + rest.1
  }

  method OpenLog(file: Bytes) returns (reader: Reader)
    ensures fresh(reader) && reader.file == file && reader.drops == [] && HasRead(reader, [])
  {
    hide ReadAll;
    reader := new Reader(file);
    ghost var all := ReadAll(file, 0);
    assert [] + all.0 == all.0 && [] + all.1 == all.1;
  }

  /** ReadRecord together with the reports it makes. */
  method NextRecord(reader: Reader, ghost done: seq<Bytes>) returns (record: Option<Bytes>, reported: bool)
    requires HasRead(reader, done)
    modifies reader
    ensures reported ==> ReadAll(reader.file, 0).1 != []
    ensures !reported ==> reader.drops == old(reader.drops)
    ensures record.None? ==> ReadAll(reader.file, 0) == (done, reader.drops)
    ensures record.Some? ==>
      HasRead(reader, done + [record.value]) && record.value in ReadAll(reader.file, 0).0 &&
      done + [record.value] <= ReadAll(reader.file, 0).0 &&
      old(reader.Position()) < reader.Position() <= |reader.file|
  {
    hide LogicalAt, WholeRecord, AllStand, InTurn, Joined;
    ghost var all, rest := ReadAll(reader.file, 0), ReadAll(reader.file, reader.Position());
    var before := reader.drops;
    record := reader.ReadRecord();
    reported := |reader.drops| > |before|;
    if record.None? {
      assert all.1 == reader.drops && all.0 == done;
    } else {
      ghost var next := ReadAll(reader.file, reader.Position());
      assert before + rest.1 == reader.drops + next.1;
      assert done + rest.0 == done + [record.value] + next.0;
      assert all.0[|done|] == record.value;
    }
  }

  /** The tables written while replaying `file`.  `full` stands for the test of memory use
      against write_buffer_size. */
  method RecoverLogFile(file: Bytes, start: nat, full: seq<Numbered> -> bool, paranoid: bool)
    returns (tables: seq<seq<Numbered>>, max_sequence: nat, ok: bool)
    ensures ok <==> !paranoid || CleanLog(file)
    ensures ok ==>
      Flatten(tables) == ReplayAll(ReadAll(file, 0).0) && max_sequence == MaxSequence(ReadAll(file, 0).0, start)
  {
    hide Replay, LastOf, MaxSequence, ReplayAll, Flatten, Iterated, ReadAll, HasRead;
    NothingReplayed([], start);
    var reader := OpenLog(file);
    tables, max_sequence, ok := [], start, true;
    var mem: Option<seq<Numbered>> := None;
    ghost var done: seq<Bytes> := [];
    while true
      invariant reader.file == file && fresh(reader) && HasRead(reader, done)
      invariant !paranoid || CleanLog(file) ==> ok
      invariant paranoid && ok ==> reader.drops == [] && forall r :: r in done ==> Clean(r)
      invariant ok ==> Flatten(tables) + Held(mem) == ReplayAll(done) && max_sequence == MaxSequence(done, start)
      decreases |file| - reader.Position()
    {
      var record, reported := NextRecord(reader, done);
      if reported && paranoid {
        ok := false;
      }
      if record.None? || !ok {
        break;
      }
      ReplaySnoc(done, record.value, start);
      done := done + [record.value];
      if |record.value| < HEADER {
        NothingReplayed(record.value, start);
        if paranoid {
          ok := false;
        }
        continue;
      }
      var grown, inserted := InsertInto(record.value, if mem.Some? then mem.value else []);
      mem := Some(grown);
      if !inserted && paranoid {
        ok := false;
        break;
      }
      var last := LastSequence(record.value);
      if last > max_sequence {
        max_sequence := last;
      }
      if full(grown) {
        FlattenSnoc(tables, grown);
        tables := tables + [grown];
        mem := None;
      }
    }
    if mem.Some? && ok {
      FlattenSnoc(tables, mem.value);
      tables := tables + [mem.value];
    }
  }

  method LastSequence(record: Bytes) returns (last: nat)
    requires |record| >= HEADER
    ensures last == LastOf(record)
  {
    last := (SequenceOf(record) + CountOf(record) - 1) % WORD64;
  }

  function Held(mem: Option<seq<Numbered>>): seq<Numbered> {
    if mem.Some? then mem.value else []
  }

  /** No records, and records that are too short, insert nothing. */
  lemma NothingReplayed(record: Bytes, start: nat)
    requires |record| < HEADER
    ensures Replay(record) == [] && Flatten([]) == [] && ReplayAll([]) == [] && MaxSequence([], start) == start
  {
  }

  // ---------------------------------------------------------------- write groups

  /** One log record of DBImpl::Write: the batch of a whole group of writers. */
  datatype Group = Group(sequence: nat, updates: seq<Update>)

  predicate ValidGroup(g: Group) {
    0 < g.sequence && g.sequence + |g.updates| < WORD64 && |g.updates| < MAX_COUNT && AllFit(g.updates)
  }

  predicate ValidGroups(groups: seq<Group>) {
    forall g :: g in groups ==> ValidGroup(g)
  }

  function Contents(groups: seq<Group>): (r: seq<Bytes>)
    ensures |r| == |groups|
  {
    seq(|groups|, i requires 0 <= i < |groups| => Rep(groups[i].sequence, groups[i].updates))
  }

  /** The entries of some groups, in order. */
  function Applied(groups: seq<Group>): seq<Numbered> {
    if groups == [] then
      []
    else
      var last := groups[|groups| - 1];
      Applied(groups[..|groups| - 1]) + Inserted(last.sequence, last.updates)
  }

  /** Where the sequence counter stands after some groups. */
  function LastSequenceOf(groups: seq<Group>, start: nat): nat {
    if groups == [] then
      start
    else
      var before, last := LastSequenceOf(groups[..|groups| - 1], start), groups[|groups| - 1];
      if last.sequence + |last.updates| - 1 > before then last.sequence + |last.updates| - 1 else before
  }

  lemma {:induction false} ReplayContents(groups: seq<Group>, start: nat)
    requires ValidGroups(groups)
    ensures ReplayAll(Contents(groups)) == Applied(groups)
    ensures MaxSequence(Contents(groups), start) == LastSequenceOf(groups, start)
  {
    hide Rep, Replay, LastOf, Inserted, ValidGroup;
    if groups != [] {
      var n := |groups| - 1;
      var last := groups[n];
      assert last in groups;
      ReplayContents(groups[..n], start);
      assert Contents(groups)[..n] == Contents(groups[..n]);
      ReplayGroup(last);
    }
  }

  lemma ReplayGroup(g: Group)
    requires ValidGroup(g)
    ensures var r := Rep(g.sequence, g.updates);
      Clean(r) && Replay(r) == Inserted(g.sequence, g.updates) && LastOf(r) == g.sequence + |g.updates| - 1
  {
    hide Rep, SequenceOf, CountOf, Iterated, Inserted;
    RepParts(g.sequence, g.updates);
    IterateRoundTrip(g.sequence, g.updates);
  }

  /** After a crash that keeps the first `cut` bytes of the log, recovery applies the groups
      that were wholly written, each of them whole, and nothing else. */
  lemma CrashKeepsWholeGroups(groups: seq<Group>, cut: nat, k: nat, start: nat)
    requires ValidGroups(groups)
    requires cut <= |LogFile(Contents(groups))| && WholeRecords(Contents(groups), cut, k)
    ensures var (records, drops) := ReadAll(LogFile(Contents(groups))[..cut], 0);
      drops == [] && ReplayAll(records) == Applied(groups[..k]) &&
      MaxSequence(records, start) == LastSequenceOf(groups[..k], start)
  {
    hide Rep, LogFile, ReadAll, ReplayAll, MaxSequence;
    CutLogReadsWholeRecords(Contents(groups), cut, k);
    assert Contents(groups)[..k] == Contents(groups[..k]);
    ReplayContents(groups[..k], start);
  }

  /** The same, for the methods: write every group, crash, recover. */
  method WriteCrashRecover(groups: seq<Group>, cut: nat, start: nat, full: seq<Numbered> -> bool, paranoid: bool)
    returns (tables: seq<seq<Numbered>>, max_sequence: nat, ok: bool)
    requires ValidGroups(groups) && cut <= |LogFile(Contents(groups))|
    ensures var k := WholeCount(Contents(groups), cut);
      ok && Flatten(tables) == Applied(groups[..k]) && max_sequence == LastSequenceOf(groups[..k], start)
  {
    hide Rep, LogFile, Encoded, ReadAll, ReplayAll, MaxSequence, ValidGroup, Clean;
    var writer := new Writer([]);
    EmptyLog();
    ghost var records := Contents(groups);
    for i := 0 to |groups|
      invariant writer.Valid() && writer.dest == LogFile(records[..i])
    {
      LogFileGrows(records, i);
      writer.AddRecord(Rep(groups[i].sequence, groups[i].updates));
    }
    assert records[..|records|] == records;
    ghost var k := WholeCount(records, cut);
    assert records[..0] == [];
    CrashKeepsWholeGroups(groups, cut, k, start);
    CutLogReadsWholeRecords(records, cut, k);
    forall r | r in records[..k]
      ensures Clean(r)
    {
      var i :| 0 <= i < k && records[i] == r;
      assert groups[i] in groups;
      ReplayGroup(groups[i]);
    }
    tables, max_sequence, ok := RecoverLogFile(writer.dest[..cut], start, full, paranoid);
  }
}
