/** Every step of the tree keeps its invariant, hence every run reads like a plain map. */
module LsmProof {
  import opened DbFormat
  import opened Lsm

  lemma InitInv()
    ensures Inv(EMPTY)
  {
  }

  // ---------------------------------------------------------------- writes

  lemma OneWrite(all: set<Entry>, history: seq<Op>, floor: nat, op: Op)
    requires FromHistory(all, history) && ReadsRight(all, history, floor) && floor <= |history|
    ensures FromHistory(all + {EntryOf(op, |history| + 1)}, history + [op])
    ensures ReadsRight(all + {EntryOf(op, |history| + 1)}, history + [op], floor)
  {
    var e := EntryOf(op, |history| + 1);
    var all' := all + {e};
    var history' := history + [op];
    forall k: UserKey, n: nat | floor <= n <= |history'|
      ensures ReadsAs(all', k, n, MapAt(history', n, k))
    {
      if n == |history'| {
        if op.key == k {
          assert IsNewest(all', k, n, e);
        } else {
          MapAtPrefix(history, op, n - 1, k);
          assert ReadsAs(all, k, n - 1, MapAt(history, n - 1, k));
          forall x ensures IsNewest(all', k, n, x) <==> IsNewest(all, k, n - 1, x) {
          }
        }
      } else {
        MapAtPrefix(history, op, n, k);
        assert ReadsAs(all, k, n, MapAt(history, n, k));
        forall x ensures IsNewest(all', k, n, x) <==> IsNewest(all, k, n, x) {
        }
      }
    }
  }

  lemma {:induction false} MapAtPrefix(history: seq<Op>, op: Op, n: nat, k: UserKey)
    requires n <= |history|
    ensures MapAt(history + [op], n, k) == MapAt(history, n, k)
  {
    if n > 0 {
      MapAtPrefix(history, op, n - 1, k);
    }
  }

  lemma {:induction false} ManyWrites(all: set<Entry>, history: seq<Op>, floor: nat, ops: seq<Op>)
    requires FromHistory(all, history) && ReadsRight(all, history, floor) && floor <= |history|
    ensures FromHistory(all + WriteEntries(ops, |history|), history + ops)
    ensures ReadsRight(all + WriteEntries(ops, |history|), history + ops, floor)
  {
    if ops == [] {
      assert history + ops == history;
      assert all + WriteEntries(ops, |history|) == all;
    } else {
      var n := |ops| - 1;
      ManyWrites(all, history, floor, ops[..n]);
      OneWrite(all + WriteEntries(ops[..n], |history|), history + ops[..n], floor, ops[n]);
      assert history + ops == history + ops[..n] + [ops[n]];
      WriteEntriesSnoc(ops, |history|);
      assert all + WriteEntries(ops, |history|) ==
        all + WriteEntries(ops[..n], |history|) + {EntryOf(ops[n], |history| + n + 1)};
    }
  }

  lemma WriteEntriesSnoc(ops: seq<Op>, after: nat)
    requires ops != []
    ensures var n := |ops| - 1;
      WriteEntries(ops, after) == WriteEntries(ops[..n], after) + {EntryOf(ops[n], after + n + 1)}
  {
    var n := |ops| - 1;
    forall e | e in WriteEntries(ops, after)
      ensures e in WriteEntries(ops[..n], after) + {EntryOf(ops[n], after + n + 1)}
    {
      var i :| 0 <= i < |ops| && e == EntryOf(ops[i], after + i + 1);
      if i < n {
        assert ops[..n][i] == ops[i];
      }
    }
    forall e | e in WriteEntries(ops[..n], after) ensures e in WriteEntries(ops, after) {
      var i :| 0 <= i < n && e == EntryOf(ops[..n][i], after + i + 1);
      assert ops[..n][i] == ops[i];
    }
  }

  lemma WriteKeeps(s: State, ops: seq<Op>)
    requires Inv(s)
    ensures Inv(Next(s, Write(ops)))
  {
    var s' := Next(s, Write(ops));
    ManyWrites(All(s), s.history, s.floor, ops);
    assert All(s') == All(s) + WriteEntries(ops, |s.history|);
    forall a | a in WriteEntries(ops, |s.history|) ensures a.k.seqno > |s.history| {
    }
  }

  // ---------------------------------------------------------------- memtables and snapshots

  lemma SwitchKeeps(s: State)
    requires Inv(s) && Enabled(s, SwitchMemTable)
    ensures Inv(Next(s, SwitchMemTable))
  {
    assert All(Next(s, SwitchMemTable)) == All(s);
  }

  lemma FlushKeeps(s: State, level: nat, file: File)
    requires Inv(s) && Enabled(s, Flush(level, file)) && Careful(s, Flush(level, file))
    ensures Inv(Next(s, Flush(level, file)))
  {
    hide FromHistory, ReadsRight, LevelsDisjoint, LevelOrder, CompactionSound, CompactionValid, FlushFits,
      Separated, SnapshotsValid, NumbersUnique, NumbersBelow, FilesValid, FlushLevelOk, AtLevel;
    var s' := Next(s, Flush(level, file));
    FlushPlaces(s, level, file);
    FlushEntries(s, level, file);
    FlushOrder(s, level, file);
    FlushDisjoint(s, level, file);
    FlushDuringCompaction(s, level, file);
  }

  lemma FlushPlaces(s: State, level: nat, file: File)
    requires Frame(s) && Enabled(s, Flush(level, file))
    ensures var s' := Next(s, Flush(level, file));
      WellFormed(s') && NumbersUnique(s'.files) && NumbersBelow(s'.files, s'.nextFile) && Separated(s') && SnapshotsValid(s')
  {
    hide LevelsDisjoint, CompactionSound, UserOverlap;
    FlushEntries(s, level, file);
  }

  lemma FlushEntries(s: State, level: nat, file: File)
    requires Frame(s) && Enabled(s, Flush(level, file))
    ensures FileEntries(Next(s, Flush(level, file)).files) == FileEntries(s.files) + s.imm.value
    ensures All(Next(s, Flush(level, file))) == All(s)
  {
    var s' := Next(s, Flush(level, file));
    forall e | e in s.imm.value ensures e in FileEntries(s'.files) {
      assert e in (set x | x in file.entries);
      assert Placed(level, file) in s'.files;
    }
    forall e | e in FileEntries(s'.files) ensures e in FileEntries(s.files) + s.imm.value {
      var p :| p in s'.files && e in p.file.entries;
      if p !in s.files {
        assert e in (set x | x in file.entries);
      }
    }
  }

  lemma SharedMeansOverlap(f: File, g: File)
    requires ValidFile(f) && ValidFile(g) && !UserOverlap(f, g)
    ensures NoSharedUser(f, g) && NoSharedUser(g, f)
    ensures Precedes(f, g) || Precedes(g, f)
  {
    forall a, b | a in f.entries && b in g.entries ensures a.k.user != b.k.user {
      EntryInRange(f, a);
      EntryInRange(g, b);
    }
    EntryInRange(f, f.entries[0]);
    EntryInRange(g, g.entries[0]);
  }

  lemma FlushOrder(s: State, level: nat, file: File)
    requires Shape(s) && Enabled(s, Flush(level, file)) && Careful(s, Flush(level, file))
    ensures LevelOrder(Next(s, Flush(level, file)).files)
  {
    var s' := Next(s, Flush(level, file));
    forall p, q | p in s'.files && q in s'.files && Above(p, q)
      ensures NewerOnShared(p.file, q.file)
    {
      if p == Placed(level, file) {
        assert q != p;
        FlushedIsNewer(s, level, file, q);
      } else if q == Placed(level, file) {
        if level > 0 {
          SharedMeansOverlap(p.file, file);
        }
      }
    }
  }

  lemma FlushedIsNewer(s: State, level: nat, file: File, q: Placed)
    requires Frame(s) && Enabled(s, Flush(level, file)) && q in s.files
    ensures NewerOnShared(file, q.file)
  {
    forall a, b | a in file.entries && b in q.file.entries && a.k.user == b.k.user
      ensures a.k.seqno > b.k.seqno
    {
      assert a in (set x | x in file.entries);
      assert b in FileEntries(s.files);
    }
  }

  lemma FlushDisjoint(s: State, level: nat, file: File)
    requires Frame(s) && Enabled(s, Flush(level, file))
    ensures FilesValid(Next(s, Flush(level, file)).files)
    ensures LevelsDisjoint(Next(s, Flush(level, file)).files)
  {
    var s' := Next(s, Flush(level, file));
    forall p, q | p in s'.files && q in s'.files && p != q && p.level == q.level > 0
      ensures Precedes(p.file, q.file) || Precedes(q.file, p.file)
    {
      if p == Placed(level, file) {
        SharedMeansOverlap(q.file, file);
      } else if q == Placed(level, file) {
        SharedMeansOverlap(p.file, file);
      }
    }
  }

  lemma FlushDuringCompaction(s: State, level: nat, file: File)
    requires Shape(s) && Enabled(s, Flush(level, file)) && Careful(s, Flush(level, file))
    ensures CompactionValid(Next(s, Flush(level, file)))
  {
    var c := s.compaction;
    FlushKeepsRange(s, level, file);
    if c.Running? {
      FlushLeavesNewer(s, level, file, c.level, c.in0);
      FlushLeavesNewer(s, level, file, c.level + 1, c.in1);
    }
  }

  lemma FlushKeepsRange(s: State, level: nat, file: File)
    requires Frame(s) && Enabled(s, Flush(level, file)) && FlushFits(s.compaction, level, file)
    ensures CompactionSound(Next(s, Flush(level, file)))
  {
    hide LevelsDisjoint, Separated, SnapshotsValid, NumbersUnique, NumbersBelow, RangeClosed, UserOverlap;
    var c := s.compaction;
    if c.Running? {
      var p := Placed(level, file);
      if level > c.level {
        FlushShares(s, level, file, c.level, c.in0);
      }
      if level > c.level + 1 {
        FlushShares(s, level, file, c.level + 1, c.in1);
      }
      RangeStaysClosed(s.files, c, p);
      LaterFilesApart(s.files, c, p);
    }
  }

  lemma RangeStaysClosed(files: set<Placed>, c: Compaction, p: Placed)
    requires c.Running? && FilesValid(files) && ValidFile(p.file) && p.level < NUM_LEVELS
    requires AtLevel(files, c.level, c.in0) && AtLevel(files, c.level + 1, c.in1)
    requires RangeClosed(files, c.level, c.in0, c.in1)
    requires p.level == c.level + 1 ==>
      Outside(p.file, c.in0 + c.in1) && forall f :: f in c.in0 ==> NoSharedUser(p.file, f)
    ensures RangeClosed(files + {p}, c.level, c.in0, c.in1)
  {
    forall q | q in files + {p} && q.level == c.level + 1 && q.file !in c.in1
      ensures (forall f :: f in c.in0 ==> NoSharedUser(q.file, f)) && Outside(q.file, c.in0 + c.in1)
    {
      if q != p {
        assert q in files;
      }
    }
  }

  lemma LaterFilesApart(files: set<Placed>, c: Compaction, p: Placed)
    requires c.Running?
    requires forall q, f :: q in files && q !in c.files && q.level >= c.level + 2 && f in c.in0 + c.in1 ==>
      NoSharedUser(q.file, f)
    requires p.level >= c.level + 2 ==> forall f :: f in c.in0 + c.in1 ==> NoSharedUser(p.file, f)
    ensures forall q, f :: q in files + {p} && q !in c.files && q.level >= c.level + 2 && f in c.in0 + c.in1 ==>
      NoSharedUser(q.file, f)
  {
  }

  lemma FlushLeavesNewer(s: State, level: nat, file: File, at: nat, chosen: set<File>)
    requires Frame(s) && Enabled(s, Flush(level, file))
    requires AtLevel(s.files, at, chosen) && NoOlderLeft(s.files, at, chosen)
    ensures NoOlderLeft(Next(s, Flush(level, file)).files, at, chosen)
  {
    var s' := Next(s, Flush(level, file));
    forall p, f | p in s'.files && p.level == at && p.file !in chosen && f in chosen
      ensures NewerOnShared(p.file, f)
    {
      if p == Placed(level, file) {
        FlushedIsNewer(s, level, file, Placed(at, f));
      }
    }
  }

  lemma FlushShares(s: State, level: nat, file: File, at: nat, chosen: set<File>)
    requires Frame(s) && Enabled(s, Flush(level, file))
    requires AtLevel(s.files, at, chosen) && at <= level && level > 0
    ensures forall f :: f in chosen ==> NoSharedUser(file, f)
  {
    forall f | f in chosen ensures NoSharedUser(file, f) {
      SharedMeansOverlap(Placed(at, f).file, file);
    }
  }

  lemma FlushEmptyKeeps(s: State)
    requires Inv(s) && Enabled(s, FlushEmpty)
    ensures Inv(Next(s, FlushEmpty))
  {
    assert All(Next(s, FlushEmpty)) == All(s);
  }

  lemma TakeSnapshotKeeps(s: State)
    requires Inv(s)
    ensures Inv(Next(s, TakeSnapshot))
  {
    assert All(Next(s, TakeSnapshot)) == All(s);
  }

  lemma ReserveKeeps(s: State)
    requires Inv(s)
    ensures Inv(Next(s, ReserveFileNumber))
  {
    assert All(Next(s, ReserveFileNumber)) == All(s);
  }

  lemma ReleaseKeeps(s: State, index: nat)
    requires Inv(s) && index < |s.snapshots|
    ensures Inv(Next(s, ReleaseSnapshot(index)))
  {
    assert All(Next(s, ReleaseSnapshot(index))) == All(s);
  }

  lemma BeginKeeps(s: State, from: nat, in0: set<File>, in1: set<File>)
    requires Inv(s) && Enabled(s, BeginCompaction(from, in0, in1)) && Careful(s, BeginCompaction(from, in0, in1))
    ensures Inv(Next(s, BeginCompaction(from, in0, in1)))
  {
    assert All(Next(s, BeginCompaction(from, in0, in1))) == All(s);
  }

  // ---------------------------------------------------------------- moving a file down

  lemma MoveKeeps(s: State, from: nat, file: File)
    requires Inv(s) && Enabled(s, TrivialMove(from, file)) && Careful(s, TrivialMove(from, file))
    ensures Inv(Next(s, TrivialMove(from, file)))
  {
    hide FromHistory, ReadsRight, LevelsDisjoint, LevelOrder, NoOlderLeft, RangeClosed, Separated, SnapshotsValid,
      NumbersUnique, NumbersBelow, FilesValid, AtLevel;
    MovePlaces(s, from, file);
    MoveOrder(s, from, file);
    MoveDisjoint(s, from, file);
  }

  lemma MovePlaces(s: State, from: nat, file: File)
    requires Frame(s) && Enabled(s, TrivialMove(from, file))
    ensures Placed(from, file) in s.files
    ensures var s' := Next(s, TrivialMove(from, file));
      WellFormed(s') && NumbersUnique(s'.files) && NumbersBelow(s'.files, s'.nextFile) && Separated(s') &&
      SnapshotsValid(s') && All(s') == All(s)
  {
    hide LevelsDisjoint, RangeClosed;
    assert Placed(from, file) in s.files by {
      assert file in {file};
    }
    MoveEntries(s.files, from, file);
  }

  lemma MoveEntries(files: set<Placed>, from: nat, file: File)
    requires Placed(from, file) in files
    ensures FileEntries(files - {Placed(from, file)} + {Placed(from + 1, file)}) == FileEntries(files)
  {
    var moved := Placed(from + 1, file);
    var files' := files - {Placed(from, file)} + {moved};
    forall e | e in FileEntries(files) ensures e in FileEntries(files') {
      var p :| p in files && e in p.file.entries;
      if p == Placed(from, file) {
        assert moved in files';
      } else {
        assert p in files';
      }
    }
    forall e | e in FileEntries(files') ensures e in FileEntries(files) {
      var p :| p in files' && e in p.file.entries;
      if p == moved {
        assert Placed(from, file) in files;
      }
    }
  }

  lemma MoveOrder(s: State, from: nat, file: File)
    requires Shape(s) && Enabled(s, TrivialMove(from, file)) && Careful(s, TrivialMove(from, file))
    requires Placed(from, file) in s.files
    ensures LevelOrder(Next(s, TrivialMove(from, file)).files)
  {
    var files' := Next(s, TrivialMove(from, file)).files;
    var moved := Placed(from + 1, file);
    var old_ := Placed(from, file);
    forall p, q | p in files' && q in files' && Above(p, q)
      ensures NewerOnShared(p.file, q.file)
    {
      if p == moved {
        assert q in s.files && Above(old_, q);
      } else if q == moved {
        assert p in s.files && p != old_;
        if p.level == from {
          assert p.file != file && file in {file} && p.file !in {file};
        } else {
          assert Above(p, old_);
        }
      }
    }
  }

  lemma MoveDisjoint(s: State, from: nat, file: File)
    requires Frame(s) && Enabled(s, TrivialMove(from, file))
    requires Placed(from, file) in s.files
    ensures FilesValid(Next(s, TrivialMove(from, file)).files)
    ensures LevelsDisjoint(Next(s, TrivialMove(from, file)).files)
  {
    var files' := Next(s, TrivialMove(from, file)).files;
    var moved := Placed(from + 1, file);
    forall q | q in files' && q != moved && q.level == from + 1
      ensures Precedes(q.file, file) || Precedes(file, q.file)
    {
      assert q in s.files && q.file !in {};
      assert file in {file} + {};
      assert Outside(q.file, {file} + {});
    }
  }

  // ---------------------------------------------------------------- installing a compaction

  /** Where an input entry sat before the compaction. */
  lemma InputHome(s: State, e: Entry) returns (home: Placed)
    requires s.compaction.Running?
    requires AtLevel(s.files, s.compaction.level, s.compaction.in0)
    requires AtLevel(s.files, s.compaction.level + 1, s.compaction.in1)
    requires e in InputEntries(s.compaction.in0 + s.compaction.in1)
    ensures home in s.files && e in home.file.entries
    ensures (home.level == s.compaction.level && home.file in s.compaction.in0)
         || (home.level == s.compaction.level + 1 && home.file in s.compaction.in1)
  {
    var c := s.compaction;
    var f :| f in c.in0 + c.in1 && e in f.entries;
    home := if f in c.in0 then Placed(c.level, f) else Placed(c.level + 1, f);
  }

  lemma InputStored(s: State, e: Entry)
    requires WellFormed(s) && s.compaction.Running?
    requires e in InputEntries(s.compaction.in0 + s.compaction.in1)
    ensures e in FileEntries(s.files)
  {
    var home := InputHome(s, e);
  }

  ghost predicate IsInput(c: Compaction, p: Placed)
    requires c.Running?
  {
    (p.level == c.level && p.file in c.in0) || (p.level == c.level + 1 && p.file in c.in1)
  }

  /** What is stored after the compaction is what the untouched files hold and the survivors. */
  lemma FinishEntries(s: State, outputs: set<File>)
    requires WellFormed(s) && Enabled(s, FinishCompaction(outputs))
    ensures var files' := Next(s, FinishCompaction(outputs)).files;
      FileEntries(files') <= FileEntries(s.files) &&
      Survivors(s.compaction) <= FileEntries(files') &&
      (forall p, e :: p in s.files && !IsInput(s.compaction, p) && e in p.file.entries ==> e in FileEntries(files'))
  {
    var c := s.compaction;
    var files' := Next(s, FinishCompaction(outputs)).files;
    forall e | e in FileEntries(files') ensures e in FileEntries(s.files) {
      var p :| p in files' && e in p.file.entries;
      if p !in s.files {
        assert p.file in outputs;
        assert e in InputEntries(outputs);
        var home := InputHome(s, e);
      }
    }
    forall e | e in Survivors(c) ensures e in FileEntries(files') {
      assert e in InputEntries(outputs);
      var f :| f in outputs && e in f.entries;
      assert Placed(c.level + 1, f) in files';
    }
    forall p, e | p in s.files && !IsInput(c, p) && e in p.file.entries ensures e in FileEntries(files') {
      assert p in files';
    }
  }

  lemma BaseHasNone(s: State, e: Entry, p: Placed, x: Entry)
    requires WellFormed(s) && s.compaction.Running? && CompactionSound(s)
    requires e in InputEntries(s.compaction.in0 + s.compaction.in1)
    requires IsBase(s.compaction.files, s.compaction.level, e.k.user)
    requires p in s.files && p.level >= s.compaction.level + 2 && x in p.file.entries
    ensures x.k.user != e.k.user
  {
    var c := s.compaction;
    if p in c.files {
      EntryInRange(p.file, x);
    } else {
      var f :| f in c.in0 + c.in1 && e in f.entries;
      assert NoSharedUser(p.file, f);
    }
  }

  /** An entry that stays in a file left in place is no older than a dropped obsolete marker. */
  lemma LeftInPlaceIsNewer(s: State, e: Entry, p: Placed, x: Entry)
    requires Shape(s) && s.compaction.Running?
    requires e in InputEntries(s.compaction.in0 + s.compaction.in1)
    requires p in s.files && !IsInput(s.compaction, p) && x in p.file.entries && x.k.user == e.k.user
    requires IsBase(s.compaction.files, s.compaction.level, e.k.user)
    ensures x.k.seqno > e.k.seqno
  {
    var c := s.compaction;
    var home := InputHome(s, e);
    if p.level >= c.level + 2 {
      BaseHasNone(s, e, p, x);
    } else if p.level == home.level {
      assert NewerOnShared(p.file, home.file);
    } else if p.level < home.level {
      assert Above(p, home);
    }
  }

  lemma {:induction false} NewestExists(all: set<Entry>, k: UserKey, n: nat, x: Entry) returns (e: Entry)
    requires x in all && x.k.user == k && x.k.seqno <= n
    ensures IsNewest(all, k, n, e) && e.k.seqno >= x.k.seqno
    decreases n - x.k.seqno
  {
    if y :| y in all && y.k.user == k && x.k.seqno < y.k.seqno <= n {
      e := NewestExists(all, k, n, y);
    } else {
      e := x;
    }
  }

  /** The newest visible entry of a key survives the compaction unless it is an obsolete marker. */
  lemma NewestSurvives(s: State, outputs: set<File>, k: UserKey, n: nat, e: Entry)
    requires WellFormed(s) && Enabled(s, FinishCompaction(outputs))
    requires s.compaction.smallest <= n && IsNewest(All(s), k, n, e)
    ensures e in All(Next(s, FinishCompaction(outputs))) ||
      (e in InputEntries(s.compaction.in0 + s.compaction.in1) &&
       Obsolete(s.compaction.files, s.compaction.level, s.compaction.smallest, e))
  {
    var c := s.compaction;
    var s' := Next(s, FinishCompaction(outputs));
    FinishEntries(s, outputs);
    if e !in s.mem && e !in ImmEntries(s) {
      var p :| p in s.files && e in p.file.entries;
      if IsInput(c, p) {
        var inputs := InputEntries(c.in0 + c.in1);
        assert p.file in c.in0 + c.in1;
        assert e in inputs;
        if Hidden(inputs, c.smallest, e) {
          var x :| x in inputs && x.k.user == e.k.user && e.k.seqno < x.k.seqno <= c.smallest;
          InputStored(s, x);
        }
      }
    }
  }

  /** The central step: every view at or above smallest_snapshot reads the same. */
  lemma FinishReads(s: State, outputs: set<File>, k: UserKey, n: nat, r: Option<Bytes>)
    requires Inv(s) && Enabled(s, FinishCompaction(outputs))
    requires s.compaction.smallest <= n && ReadsAs(All(s), k, n, r)
    ensures ReadsAs(All(Next(s, FinishCompaction(outputs))), k, n, r)
  {
    var s' := Next(s, FinishCompaction(outputs));
    FinishEntries(s, outputs);
    assert All(s') <= All(s);
    if r.Some? {
      var e :| IsNewest(All(s), k, n, e) && e.k.kind.Value? && e.v == r.value;
      NewestSurvives(s, outputs, k, n, e);
      assert IsNewest(All(s'), k, n, e);
    } else {
      forall x | IsNewest(All(s'), k, n, x) ensures x.k.kind.Deletion? {
        var e := NewestExists(All(s), k, n, x);
        NewestSurvives(s, outputs, k, n, e);
        if e !in All(s') {
          NothingBelowObsolete(s, outputs, e, x);
        } else {
          SeqnoDetermines(s, e, x);
        }
      }
    }
  }

  /** A sequence number names one write. */
  lemma SeqnoDetermines(s: State, e: Entry, x: Entry)
    requires FromHistory(All(s), s.history) && e in All(s) && x in All(s)
    ensures e.k.seqno == x.k.seqno ==> e == x
  {
  }

  lemma NothingBelowObsolete(s: State, outputs: set<File>, e: Entry, x: Entry)
    requires Shape(s) && Enabled(s, FinishCompaction(outputs))
    requires e in InputEntries(s.compaction.in0 + s.compaction.in1)
    requires Obsolete(s.compaction.files, s.compaction.level, s.compaction.smallest, e)
    requires x in All(Next(s, FinishCompaction(outputs))) && x.k.user == e.k.user
    ensures x.k.seqno >= e.k.seqno
  {
    var c := s.compaction;
    var s' := Next(s, FinishCompaction(outputs));
    var inputs := InputEntries(c.in0 + c.in1);
    if x in s.mem || x in ImmEntries(s) {
      InputStored(s, e);
    } else {
      var p :| p in s'.files && x in p.file.entries;
      if p in s.files && !IsInput(c, p) {
        LeftInPlaceIsNewer(s, e, p, x);
      } else {
        assert p.file in outputs;
        assert x in InputEntries(outputs);
        assert x in Survivors(c);
      }
    }
  }

  lemma FinishOrder(s: State, outputs: set<File>)
    requires Shape(s) && Enabled(s, FinishCompaction(outputs))
    ensures LevelOrder(Next(s, FinishCompaction(outputs)).files)
  {
    var c := s.compaction;
    var files' := Next(s, FinishCompaction(outputs)).files;
    forall p, q | p in files' && q in files' && Above(p, q)
      ensures NewerOnShared(p.file, q.file)
    {
      if p !in s.files || IsInput(c, p) {
        assert p.file in outputs && p.level == c.level + 1;
        if q.level > c.level + 1 {
          assert q in s.files;
          OutputAbove(s, outputs, p.file, q);
        }
      } else if q !in s.files || IsInput(c, q) {
        assert q.file in outputs && q.level == c.level + 1;
        OutputBelow(s, outputs, p, q.file);
      }
    }
  }

  lemma OutputAbove(s: State, outputs: set<File>, f: File, q: Placed)
    requires WellFormed(s) && Enabled(s, FinishCompaction(outputs)) && LevelOrder(s.files)
    requires f in outputs && q in s.files && q.level > s.compaction.level + 1
    ensures NewerOnShared(f, q.file)
  {
    forall a, b | a in f.entries && b in q.file.entries && a.k.user == b.k.user
      ensures a.k.seqno > b.k.seqno
    {
      assert a in InputEntries(outputs);
      var home := InputHome(s, a);
      assert Above(home, q);
    }
  }

  lemma OutputBelow(s: State, outputs: set<File>, p: Placed, f: File)
    requires Shape(s) && Enabled(s, FinishCompaction(outputs))
    requires f in outputs && p in s.files && !IsInput(s.compaction, p) && p.level < s.compaction.level + 1
    ensures NewerOnShared(p.file, f)
  {
    hide LevelsDisjoint, Separated, SnapshotsValid, CompactionSound, NumbersUnique, NumbersBelow, OutputsDisjoint, FilesValid;
    forall a, b | a in p.file.entries && b in f.entries && a.k.user == b.k.user
      ensures a.k.seqno > b.k.seqno
    {
      assert b in InputEntries(outputs);
      var home := InputHome(s, b);
      if p.level == home.level {
        assert NewerOnShared(p.file, home.file);
      } else {
        assert Above(p, home);
      }
    }
  }

  /** Outputs fit beside the files that stay in the output level: the assertion of
      Builder::MaybeAddFile holds. */
  lemma FinishDisjoint(s: State, outputs: set<File>)
    requires Frame(s) && Enabled(s, FinishCompaction(outputs))
    ensures FilesValid(Next(s, FinishCompaction(outputs)).files)
    ensures LevelsDisjoint(Next(s, FinishCompaction(outputs)).files)
  {
    var c := s.compaction;
    var files' := Next(s, FinishCompaction(outputs)).files;
    forall p, q | p in files' && q in files' && p != q && p.level == q.level > 0
      ensures Precedes(p.file, q.file) || Precedes(q.file, p.file)
    {
      var oldP, oldQ := p in s.files && !IsInput(c, p), q in s.files && !IsInput(c, q);
      if oldP && !oldQ {
        OutputBeside(s, outputs, p, q.file);
      } else if !oldP && oldQ {
        OutputBeside(s, outputs, q, p.file);
      }
    }
  }

  lemma OutputBeside(s: State, outputs: set<File>, p: Placed, f: File)
    requires s.compaction.Running? && FilesValid(s.compaction.files)
    requires WellFormed(s) && RangeClosed(s.files, s.compaction.level, s.compaction.in0, s.compaction.in1)
    requires GoodOutputs(s, outputs)
    requires f in outputs && p in s.files && !IsInput(s.compaction, p) && p.level == s.compaction.level + 1
    ensures Precedes(p.file, f) || Precedes(f, p.file)
  {
    var first, last := f.entries[0], f.entries[|f.entries| - 1];
    assert first in f.entries && last in f.entries;
    assert first in InputEntries(outputs) && last in InputEntries(outputs);
    var home0 := InputHome(s, first);
    var home1 := InputHome(s, last);
    BetweenIsBeside(p.file, s.compaction.in0 + s.compaction.in1, home0.file, home1.file, f);
  }

  lemma BetweenIsBeside(g: File, group: set<File>, f0: File, f1: File, f: File)
    requires ValidFile(g) && ValidFile(f) && forall x :: x in group ==> ValidFile(x)
    requires Outside(g, group) && f0 in group && f1 in group
    requires f.entries[0] in f0.entries && f.entries[|f.entries| - 1] in f1.entries
    ensures Precedes(g, f) || Precedes(f, g)
  {
    EntryInRange(f0, f.entries[0]);
    EntryInRange(f1, f.entries[|f.entries| - 1]);
  }

  lemma FinishNumbers(s: State, outputs: set<File>)
    requires Frame(s) && Enabled(s, FinishCompaction(outputs))
    ensures NumbersUnique(Next(s, FinishCompaction(outputs)).files)
    ensures NumbersBelow(Next(s, FinishCompaction(outputs)).files, s.nextFile)
  {
  }

  lemma FinishKeeps(s: State, outputs: set<File>)
    requires Inv(s) && Enabled(s, FinishCompaction(outputs))
    ensures Inv(Next(s, FinishCompaction(outputs)))
  {
    var s' := Next(s, FinishCompaction(outputs));
    FinishEntries(s, outputs);
    FinishOrder(s, outputs);
    FinishDisjoint(s, outputs);
    FinishNumbers(s, outputs);
    assert All(s') <= All(s);
    forall k: UserKey, n: nat | s'.floor <= n <= |s'.history|
      ensures ReadsAs(All(s'), k, n, MapAt(s'.history, n, k))
    {
      FinishReads(s, outputs, k, n, MapAt(s.history, n, k));
    }
  }

  // ---------------------------------------------------------------- what split keys cannot harm

  lemma FlushSound(s: State, level: nat, file: File)
    requires Sound(s) && Enabled(s, Flush(level, file)) && FlushFits(s.compaction, level, file)
    ensures Sound(Next(s, Flush(level, file)))
  {
    hide StoredOnce, FromHistory, LevelsDisjoint, CompactionSound, FlushFits, NumbersUnique, NumbersBelow, FilesValid,
      FlushLevelOk, AtLevel, SnapshotsValid;
    FlushPlaces(s, level, file);
    FlushEntries(s, level, file);
    FlushDisjoint(s, level, file);
    FlushKeepsRange(s, level, file);
    FlushStoredOnce(s, level, file);
  }

  lemma FlushStoredOnce(s: State, level: nat, file: File)
    requires Separated(s) && StoredOnce(s.files) && s.imm.Some? && (set e | e in file.entries) == s.imm.value
    ensures StoredOnce(s.files + {Placed(level, file)})
  {
    forall p, e | p in s.files && e in p.file.entries ensures e !in file.entries {
      assert e in FileEntries(s.files);
      assert e in (set x | x in file.entries) <==> e in file.entries;
      assert e !in ImmEntries(s);
    }
  }

  lemma MoveSound(s: State, from: nat, file: File)
    requires Sound(s) && Enabled(s, TrivialMove(from, file))
    ensures Sound(Next(s, TrivialMove(from, file)))
  {
    hide StoredOnce, FromHistory, LevelsDisjoint, RangeClosed, Separated, SnapshotsValid, NumbersUnique, NumbersBelow,
      FilesValid, AtLevel;
    MovePlaces(s, from, file);
    MoveDisjoint(s, from, file);
    MoveStoredOnce(s.files, from, file);
  }

  lemma MoveStoredOnce(files: set<Placed>, from: nat, file: File)
    requires Placed(from, file) in files && StoredOnce(files) && NumbersUnique(files)
    ensures StoredOnce(files - {Placed(from, file)} + {Placed(from + 1, file)})
  {
    var files' := files - {Placed(from, file)} + {Placed(from + 1, file)};
    forall p, q, e | p in files' && q in files' && p != q && e in p.file.entries ensures e !in q.file.entries {
      var p0 := if p == Placed(from + 1, file) then Placed(from, file) else p;
      var q0 := if q == Placed(from + 1, file) then Placed(from, file) else q;
      assert p0 in files && q0 in files && p0 != q0;
    }
  }

  lemma DisjointFilesShareNoEntry(f: File, g: File, e: Entry)
    requires ValidFile(f) && ValidFile(g) && Precedes(f, g) && e in f.entries
    ensures e !in g.entries
  {
    EntryInRange(f, e);
    if e in g.entries {
      EntryInRange(g, e);
    }
  }

  /** An entry of an output is in no other file. */
  lemma OutputStoredOnce(s: State, outputs: set<File>, f: File, e: Entry, q: Placed)
    requires Sound(s) && Enabled(s, FinishCompaction(outputs)) && f in outputs && e in f.entries
    requires q in Next(s, FinishCompaction(outputs)).files && q != Placed(s.compaction.level + 1, f)
    ensures e !in q.file.entries
  {
    var c := s.compaction;
    if q in s.files && !IsInput(c, q) {
      assert e in InputEntries(outputs);
      var home := InputHome(s, e);
      assert home != q;
    } else {
      assert q.file in outputs;
      if Precedes(f, q.file) {
        DisjointFilesShareNoEntry(f, q.file, e);
      } else if e in q.file.entries {
        DisjointFilesShareNoEntry(q.file, f, e);
      }
    }
  }

  lemma FinishStoredOnce(s: State, outputs: set<File>)
    requires Sound(s) && Enabled(s, FinishCompaction(outputs))
    ensures StoredOnce(Next(s, FinishCompaction(outputs)).files)
  {
    var c := s.compaction;
    var files' := Next(s, FinishCompaction(outputs)).files;
    forall p, q, e | p in files' && q in files' && p != q && e in p.file.entries ensures e !in q.file.entries {
      if !(p in s.files && !IsInput(c, p)) {
        OutputStoredOnce(s, outputs, p.file, e, q);
      } else if !(q in s.files && !IsInput(c, q)) && e in q.file.entries {
        OutputStoredOnce(s, outputs, q.file, e, p);
      }
    }
  }

  lemma FinishSound(s: State, outputs: set<File>)
    requires Sound(s) && Enabled(s, FinishCompaction(outputs))
    ensures Sound(Next(s, FinishCompaction(outputs)))
  {
    hide StoredOnce, GoodOutputs;
    FinishEntries(s, outputs);
    FinishDisjoint(s, outputs);
    FinishNumbers(s, outputs);
    FinishStoredOnce(s, outputs);
    assert All(Next(s, FinishCompaction(outputs))) <= All(s);
  }

  lemma WriteSound(s: State, ops: seq<Op>)
    requires Sound(s)
    ensures Sound(Next(s, Write(ops)))
  {
    var s' := Next(s, Write(ops));
    assert All(s') == All(s) + WriteEntries(ops, |s.history|);
    forall a | a in WriteEntries(ops, |s.history|)
      ensures |s.history| < a.k.seqno <= |s'.history| && a == EntryOf(s'.history[a.k.seqno - 1], a.k.seqno)
    {
    }
  }

  lemma BeginSound(s: State, from: nat, in0: set<File>, in1: set<File>)
    requires Sound(s) && Enabled(s, BeginCompaction(from, in0, in1))
    ensures Sound(Next(s, BeginCompaction(from, in0, in1)))
  {
    hide StoredOnce, FromHistory, LevelsDisjoint;
    assert All(Next(s, BeginCompaction(from, in0, in1))) == All(s);
  }

  lemma QuietSound(s: State, ev: Event)
    requires Sound(s) && Enabled(s, ev)
    requires ev.SwitchMemTable? || ev.ReserveFileNumber? || ev.FlushEmpty? || ev.TakeSnapshot? || ev.ReleaseSnapshot?
    ensures Sound(Next(s, ev))
  {
    if ev.TakeSnapshot? || ev.ReleaseSnapshot? {
      SnapshotSound(s, ev);
    } else {
      hide StoredOnce, FromHistory, LevelsDisjoint, RangeClosed, SnapshotsValid, NumbersUnique, FilesValid;
      assert All(Next(s, ev)) == All(s);
    }
  }

  lemma SnapshotSound(s: State, ev: Event)
    requires Sound(s) && Enabled(s, ev) && (ev.TakeSnapshot? || ev.ReleaseSnapshot?)
    ensures Sound(Next(s, ev))
  {
    hide StoredOnce, FromHistory, LevelsDisjoint, RangeClosed, NumbersUnique, NumbersBelow, FilesValid;
    assert All(Next(s, ev)) == All(s);
  }

  /** The code need not know of split keys to keep its own assertions: files of a level above
      zero never overlap and no entry is stored twice.  Only a table flushed into a gap of a
      running compaction's range can spoil that. */
  lemma StepSound(s: State, ev: Event)
    requires Sound(s) && Enabled(s, ev) && (ev.Flush? ==> FlushFits(s.compaction, ev.level, ev.file))
    ensures Sound(Next(s, ev))
  {
    hide StoredOnce, FromHistory, LevelsDisjoint, CompactionSound, Separated, SnapshotsValid, NumbersUnique, NumbersBelow, Enabled;
    match ev
    case Write(ops) => WriteSound(s, ops);
    case BeginCompaction(from, in0, in1) => BeginSound(s, from, in0, in1);
    case Flush(level, file) => FlushSound(s, level, file);
    case TrivialMove(from, file) => MoveSound(s, from, file);
    case FinishCompaction(outputs) => FinishSound(s, outputs);
    case _ => QuietSound(s, ev);
  }

  // ---------------------------------------------------------------- runs

  lemma StepKeeps(s: State, ev: Event)
    requires Inv(s) && Enabled(s, ev) && Careful(s, ev)
    ensures Inv(Next(s, ev))
  {
    match ev
    case Write(ops) => WriteKeeps(s, ops);
    case SwitchMemTable => SwitchKeeps(s);
    case ReserveFileNumber => ReserveKeeps(s);
    case Flush(level, file) => FlushKeeps(s, level, file);
    case FlushEmpty => FlushEmptyKeeps(s);
    case TrivialMove(from, file) => MoveKeeps(s, from, file);
    case BeginCompaction(from, in0, in1) => BeginKeeps(s, from, in0, in1);
    case FinishCompaction(outputs) => FinishKeeps(s, outputs);
    case TakeSnapshot => TakeSnapshotKeeps(s);
    case ReleaseSnapshot(index) => ReleaseKeeps(s, index);
  }

  /** A run from the empty tree: each state follows from the one before by an enabled event. */
  ghost predicate IsRun(states: seq<State>, events: seq<Event>) {
    |states| == |events| + 1 && states[0] == EMPTY &&
    forall i :: 0 <= i < |events| ==>
      WellFormed(states[i]) && Enabled(states[i], events[i]) && states[i + 1] == Next(states[i], events[i])
  }

  ghost predicate CarefulRun(states: seq<State>, events: seq<Event>) {
    IsRun(states, events) && forall i :: 0 <= i < |events| ==> Careful(states[i], events[i])
  }

  ghost predicate FittingRun(states: seq<State>, events: seq<Event>) {
    IsRun(states, events) && forall i :: 0 <= i < |events| && events[i].Flush? ==>
      FlushFits(states[i].compaction, events[i].level, events[i].file)
  }

  /** In every run, whatever its compactions leave behind: the assertion of MaybeAddFile never
      fires, file numbers are never reused and every stored entry is one that was written. */
  lemma {:induction false} EveryRunIsSound(states: seq<State>, events: seq<Event>, i: nat)
    requires FittingRun(states, events) && i < |states|
    ensures Sound(states[i])
  {
    if i > 0 {
      EveryRunIsSound(states, events, i - 1);
      StepSound(states[i - 1], events[i - 1]);
    }
  }

  lemma {:induction false} RunInv(states: seq<State>, events: seq<Event>, i: nat)
    requires CarefulRun(states, events) && i < |states|
    ensures Inv(states[i])
  {
    hide Inv, Next, Enabled, Careful, WellFormed;
    if i == 0 {
      InitInv();
    } else {
      RunInv(states, events, i - 1);
      StepKeeps(states[i - 1], events[i - 1]);
    }
  }

  /** In every run, at the last sequence number and at every live snapshot, the flat lookup
      agrees with the plain map of the writes; the newest data is always found first. */
  lemma EveryRunReadsRight(states: seq<State>, events: seq<Event>, i: nat)
    requires CarefulRun(states, events) && i < |states|
    ensures Inv(states[i])
    ensures LevelOrder(states[i].files)
    ensures forall k: UserKey :: ReadsAs(All(states[i]), k, |states[i].history|,
      MapAt(states[i].history, |states[i].history|, k))
    ensures forall j, k: UserKey :: 0 <= j < |states[i].snapshots| ==>
      states[i].snapshots[j] <= |states[i].history| &&
      ReadsAs(All(states[i]), k, states[i].snapshots[j],
        MapAt(states[i].history, states[i].snapshots[j], k))
  {
    RunInv(states, events, i);
    var s := states[i];
    assert forall j :: 0 <= j < |s.snapshots| ==> s.floor <= s.snapshots[j] <= |s.history|;
  }
}
