/** DBImpl (db/db_impl.cc) over the parts: each method performs one event of the tree's state
    machine, so reading the database is reading the plain map of its writes. */
module Db {
  import opened DbFormat
  import opened Lsm
  import opened LsmProof
  import opened LsmSplits
  import opened Version
  import opened CompactionInputs
  import opened VersionBuilder
  import opened CompactionWork
  import Merger

  // ---------------------------------------------------------------- sorted runs

  /** Where a memtable puts a new entry. */
  function InsertEntry(s: seq<Entry>, e: Entry): seq<Entry> {
    var i := SeekIndex(s, e.k);
    s[..i] + [e] + s[i..]
  }

  lemma AroundSeek(s: seq<Entry>, e: Entry, a: nat)
    requires Sorted(s) && a < |s| && forall x :: x in s ==> x.k != e.k
    ensures a < SeekIndex(s, e.k) ==> Less(s[a].k, e.k)
    ensures a >= SeekIndex(s, e.k) ==> Less(e.k, s[a].k)
  {
    var i := SeekIndex(s, e.k);
    if a >= i {
      assert s[i] in s;
      LessIsPackedOrder(s[i].k, e.k);
      assert a > i ==> Less(s[i].k, s[a].k);
    }
  }

  lemma InsertSorted(s: seq<Entry>, e: Entry)
    requires Sorted(s) && forall x :: x in s ==> x.k != e.k
    ensures Sorted(InsertEntry(s, e)) && EntrySet(InsertEntry(s, e)) == EntrySet(s) + {e}
  {
    InsertedSet(s, e);
    var i := SeekIndex(s, e.k);
    var r := InsertEntry(s, e);
    forall a, b | 0 <= a < b < |r| ensures Less(r[a].k, r[b].k) {
      if a == i {
        AroundSeek(s, e, b - 1);
      } else if b == i {
        AroundSeek(s, e, a);
      }
    }
  }

  lemma InsertedSet(s: seq<Entry>, e: Entry)
    ensures EntrySet(InsertEntry(s, e)) == EntrySet(s) + {e}
  {
    var i := SeekIndex(s, e.k);
    assert s == s[..i] + s[i..];
    assert forall x :: x in InsertEntry(s, e) <==> x in s[..i] || x == e || x in s[i..];
  }

  ghost function AllOf(children: seq<seq<Entry>>): set<Entry> {
    set i, e | 0 <= i < |children| && e in children[i] :: e
  }

  /** The entries of files with pairwise different keys can be listed in order. */
  lemma {:induction false} UnionExists(children: seq<seq<Entry>>) returns (union: seq<Entry>)
    requires Merger.SortedAll(children) && Merger.KeysDistinct(children)
    ensures Sorted(union) && EntrySet(union) == AllOf(children)
  {
    if children == [] {
      union := [];
    } else {
      var n := |children| - 1;
      var rest := children[..n];
      AllOfSnoc(children);
      assert Merger.KeysDistinct(rest) && Merger.SortedAll(rest);
      var u := UnionExists(rest);
      forall x, y | x in u && y in children[n] ensures x.k != y.k {
        assert x in EntrySet(u);
        var i :| 0 <= i < |rest| && x in rest[i];
        assert x in children[i];
      }
      union := InsertAll(u, children[n]);
    }
  }

  lemma AllOfSnoc(children: seq<seq<Entry>>)
    requires children != []
    ensures AllOf(children) == AllOf(children[..|children| - 1]) + EntrySet(children[|children| - 1])
  {
    var n := |children| - 1;
    forall e | e in AllOf(children) ensures e in AllOf(children[..n]) + EntrySet(children[n]) {
      var i :| 0 <= i < |children| && e in children[i];
      if i < n {
        assert e in children[..n][i];
      }
    }
    forall e | e in AllOf(children[..n]) ensures e in AllOf(children) {
      var i :| 0 <= i < n && e in children[..n][i];
      assert e in children[i];
    }
  }

  lemma UnionIsUnion(union: seq<Entry>, children: seq<seq<Entry>>)
    requires Sorted(union) && EntrySet(union) == AllOf(children)
    ensures Merger.IsUnion(union, children)
  {
    forall e | e in union ensures exists i :: 0 <= i < |children| && e in children[i] {
      assert e in EntrySet(union);
    }
    forall i, e | 0 <= i < |children| && e in children[i] ensures e in union {
      assert e in AllOf(children);
    }
  }

  lemma {:induction false} InsertAll(s: seq<Entry>, more: seq<Entry>) returns (r: seq<Entry>)
    requires Sorted(s) && Sorted(more) && forall x, y :: x in s && y in more ==> x.k != y.k
    ensures Sorted(r) && EntrySet(r) == EntrySet(s) + EntrySet(more)
  {
    if more == [] {
      r := s;
    } else {
      var n := |more| - 1;
      var t := InsertAll(s, more[..n]);
      assert more == more[..n] + [more[n]];
      forall x | x in t ensures x.k != more[n].k {
        assert x in EntrySet(t);
        if x in EntrySet(s) {
          assert more[n] in more;
        } else {
          var i :| 0 <= i < n && more[i] == x;
          assert Less(more[i].k, more[n].k);
        }
      }
      InsertSorted(t, more[n]);
      r := InsertEntry(t, more[n]);
    }
  }

  /** Draining a merging iterator lists the union. */
  method Drain(it: Merger.MergingIterator) returns (merged: seq<Entry>)
    requires it.Valid()
    modifies it
    ensures it.Valid() && merged == it.union
  {
    hide Merger.MergingIterator.Valid;
    it.SeekToFirst();
    merged := [];
    while it.IsValid()
      invariant it.Valid() && it.Positioned() && merged == it.union[..it.at]
      decreases |it.union| - it.at
    {
      var e := it.Entry();
      ghost var n := it.at;
      merged := merged + [e];
      assert merged == it.union[..n + 1];
      it.Next();
    }
  }

  // ---------------------------------------------------------------- the database

  lemma MemBelow(s: State)
    requires Sound(s)
    ensures forall e :: e in s.mem ==> e.k.seqno <= |s.history|
  {
    forall e | e in s.mem ensures e.k.seqno <= |s.history| {
      assert e in All(s);
    }
  }

  /** WriteBatchInternal::InsertInto: the sequence number counts up with every operation. */
  method InsertBatch(mem: seq<Entry>, ops: seq<Op>, last: nat) returns (table: seq<Entry>)
    requires Sorted(mem) && forall e :: e in EntrySet(mem) ==> e.k.seqno <= last
    ensures Sorted(table) && EntrySet(table) == EntrySet(mem) + WriteEntries(ops, last)
  {
    table := mem;
    for i := 0 to |ops|
      invariant Sorted(table) && EntrySet(table) == EntrySet(mem) + WriteEntries(ops[..i], last)
    {
      var e := EntryOf(ops[i], last + i + 1);
      forall x | x in table ensures x.k != e.k {
        assert x in EntrySet(table);
        assert x.k.seqno <= last + i;
      }
      InsertSorted(table, e);
      table := InsertEntry(table, e);
      WriteEntriesSnoc(ops[..i + 1], last);
      assert ops[..i + 1][..i] == ops[..i];
    }
    assert ops[..|ops|] == ops;
  }

  /** A compaction in progress. */
  datatype Job = Job(picked: Picked, base: Levels, smallest: nat)

  ghost function JobState(job: Option<Job>): Compaction {
    match job
    case None => Idle
    case Some(j) =>
      Running(j.picked.level, FileSet(j.picked.in0), FileSet(j.picked.in1), FilesOf(j.base), j.smallest)
  }

  class Database {
    var mem: seq<Entry>
    var imm: Option<seq<Entry>>
    var levels: Levels
    var snapshots: seq<nat>
    var lastSequence: nat
    var nextFile: nat
    var compactPointers: seq<Option<IKey>>
    var job: Option<Job>
    ghost var history: seq<Op>
    ghost var floor: nat

    ghost function View(): State
      reads this
    {
      State.State(EntrySet(mem), if imm.Some? then Some(EntrySet(imm.value)) else None, FilesOf(levels),
            snapshots, nextFile, JobState(job), history, floor)
    }

    ghost predicate Lists()
      reads this
    {
      Sorted(mem) && (imm.Some? ==> Sorted(imm.value)) && SortedLevels(levels) && ValidLevels(levels) &&
      lastSequence == |history| < MAX_SEQUENCE_NUMBER && |compactPointers| == NUM_LEVELS &&
      (job.Some? ==> ValidLevels(job.value.base) && Usable(job.value.base, job.value.picked))
    }

    /** What every method keeps, whatever becomes of split user keys.  That reads agree with the
        map of the writes is `Inv(View())`, kept by every careful event. */
    ghost predicate Valid()
      reads this
    {
      Lists() && Sound(View())
    }

    constructor ()
      ensures Valid() && View() == EMPTY && UnsplitInv(View())
    {
      mem, imm, snapshots, lastSequence, nextFile := [], None, [], 0, 2;
      levels := seq(NUM_LEVELS, i => []);
      compactPointers := seq(NUM_LEVELS, i => None);
      job := None;
      history, floor := [], 0;
      new;
      InitInv();
      assert View() == EMPTY;
    }

    /** The memtable part of DBImpl::Write: every operation of the batch, in order, under the
        next sequence numbers. */
    method Write(ops: seq<Op>)
      requires Valid() && |history| + |ops| < MAX_SEQUENCE_NUMBER
      modifies this
      ensures Valid() && Did(old(View()), Event.Write(ops), View())
    {
      hide Sound, Did;
      ghost var s := View();
      ghost var s' := Step(s, Event.Write(ops));
      MemBelow(s);
      var table := InsertBatch(mem, ops, lastSequence);
      mem := table;
      lastSequence := lastSequence + |ops|;
      history := history + ops;
      assert View() == s';
    }

    /** MakeRoomForWrite: the full memtable becomes immutable. */
    method SwitchMemTable()
      requires Valid() && imm.None?
      modifies this
      ensures Valid() && Did(old(View()), Event.SwitchMemTable, View())
    {
      hide Sound, Did;
      ghost var s' := Step(View(), Event.SwitchMemTable);
      imm, mem := Some(mem), [];
      assert EntrySet([]) == {};
      assert View() == s';
    }

    method GetSnapshot() returns (snapshot: nat)
      requires Valid()
      modifies this
      ensures Valid() && Did(old(View()), TakeSnapshot, View()) && snapshot == |history|
    {
      hide Sound, Did;
      ghost var s' := Step(View(), TakeSnapshot);
      snapshot := lastSequence;
      snapshots := snapshots + [snapshot];
      assert View() == s';
    }

    method ReleaseSnapshot(index: nat)
      requires Valid() && index < |snapshots|
      modifies this
      ensures Valid() && Did(old(View()), Event.ReleaseSnapshot(index), View())
    {
      hide Sound, Did;
      ghost var s' := Step(View(), Event.ReleaseSnapshot(index));
      snapshots := snapshots[..index] + snapshots[index + 1..];
      assert View() == s';
    }

    /** CompactMemTable: write the immutable memtable as a table and place it.  While a compaction
        runs, that leaves the database sound exactly when the table does not land inside the
        compaction's range; it never does when the inputs are connected. */
    method CompactMemTable(grandParentLimit: nat, size: nat) returns (level: nat, file: File)
      requires Valid() && imm.Some?
      modifies this
      ensures Lists()
      ensures old(View()).imm == Some({}) ==> Valid() && Did(old(View()), FlushEmpty, View())
      ensures old(View()).imm != Some({}) ==>
        Did(old(View()), Flush(level, file), View()) && file.size == size &&
        (Valid() <==> FlushFits(old(View()).compaction, level, file))
      ensures old(job).None? || Connected(FileSet(old(job).value.picked.in0) + FileSet(old(job).value.picked.in1)) ==> Valid()
    {
      hide Sound, Did, Enabled, CanApply, SortedLevels, ValidLevels, Usable, Sorted, SeqnosFit, LevelMeets, FlushFits;
      ghost var s := View();
      level, file := 0, File(nextFile, size, imm.value);
      if imm.value == [] {
        assert EntrySet([]) == {};
        ghost var s' := FlushEmptyStep(s);
        imm := None;
        assert View() == s';
      } else {
        assert imm.value[0] in EntrySet(imm.value);
        SeqnosOfVersion(s, levels);
        level := PickLevelForMemTableOutput(levels, Smallest(file).user, Largest(file).user, grandParentLimit);
        FlushAllowed(s, levels, level, file);
        ghost var s' := FlushStep(s, level, file);
        FlushEdit(s, levels, level, file);
        levels := ApplyToVersion(levels, Edit({}, [(level, file)]));
        imm, nextFile := None, nextFile + 1;
        assert View() == s';
      }
    }

    /** BackgroundCompaction, automatic: pick, then move one file down or start a compaction. */
    method BackgroundCompaction(sizeLevel: Option<nat>, seekFile: Option<Placed>, expandedLimit: nat, moveLimit: nat)
      returns (ev: Option<Event>)
      requires Valid() && job.None?
      requires sizeLevel.Some? ==> sizeLevel.value + 1 < NUM_LEVELS && levels[sizeLevel.value] != []
      requires seekFile.Some? ==> seekFile.value in FilesOf(levels) && seekFile.value.level + 1 < NUM_LEVELS
      modifies this
      ensures Valid() && (ev.None? <==> sizeLevel.None? && seekFile.None?)
      ensures ev.None? ==> View() == old(View())
      ensures ev.Some? ==> Did(old(View()), ev.value, View()) && (ev.value.TrivialMove? || ev.value.BeginCompaction?)
      ensures job.Some? ==>
        Connected(FileSet(job.value.picked.in0) + FileSet(job.value.picked.in1)) && StartsNow(job.value)
      ensures ev.Some? ==> exists c, f ::
        AutoPick(old(levels), old(compactPointers), sizeLevel, seekFile, c, f, expandedLimit) &&
        PointerMoved(old(compactPointers), compactPointers, c) &&
        if |c.in0| == 1 && c.in1 == [] && TotalFileSize(c.grandparents) <= moveLimit then
          ev.value == TrivialMove(c.level, c.in0[0])
        else
          ev.value == BeginCompaction(c.level, FileSet(c.in0), FileSet(c.in1)) && job.Some? && job.value.picked == c
      ensures Inv(old(View())) && Unsplit(old(View()).files) ==> Inv(View())
    {
      hide Sound, Inv, Did, Unsplit, CanApply, SortedLevels, Sorted, Connected, AutoPick, PointerMoved, Usable, ByPointer,
        PickedFrom, EndsAt, MeetsInputs;
      var picked := PickCompaction(levels, compactPointers, sizeLevel, seekFile, expandedLimit);
      if picked.None? {
        return None;
      }
      var c := picked.value;
      ghost var f := PickIs(levels, compactPointers, sizeLevel, seekFile, c, expandedLimit);
      PointerIs(compactPointers, c);
      compactPointers := compactPointers[c.level := Some(c.pointer)];
      if |c.in0| == 1 && |c.in1| == 0 && TotalFileSize(c.grandparents) <= moveLimit {
        MoveFile(c);
        return Some(TrivialMove(c.level, c.in0[0]));
      } else {
        Begin(c);
        return Some(BeginCompaction(c.level, FileSet(c.in0), FileSet(c.in1)));
      }
    }

    /** BackgroundCompaction, manual: always a compaction, over a range of user keys. */
    method ManualCompaction(level: nat, begin: Option<UserKey>, end: Option<UserKey>, sizeLimit: nat, expandedLimit: nat)
      returns (ev: Option<Event>)
      requires Valid() && job.None? && level + 1 < NUM_LEVELS
      modifies this
      ensures Valid()
      ensures ev.None? <==> forall f :: f in old(levels)[level] ==> !Meets(f, begin, end)
      ensures ev.None? ==> View() == old(View())
      ensures ev.Some? ==>
        job.Some? && job.value.picked.level == level && Did(old(View()), ev.value, View()) &&
        ev.value == BeginCompaction(level, FileSet(job.value.picked.in0), FileSet(job.value.picked.in1))
      ensures ev.Some? ==> StartsNow(job.value)
      ensures ev.Some? ==> ManualInputs(old(levels), begin, end, sizeLimit, job.value.picked, expandedLimit)
      ensures ev.Some? ==> PointerMoved(old(compactPointers), compactPointers, job.value.picked)
      ensures Inv(old(View())) && Unsplit(old(View()).files) ==> Inv(View())
    {
      hide Sound, Inv, Did, Unsplit, CanApply, SortedLevels, Sorted, ManualInputs, PointerMoved, Usable, EndsAt, MeetsInputs;
      var picked := CompactRange(levels, level, begin, end, sizeLimit, expandedLimit);
      if picked.None? {
        return None;
      }
      var c := picked.value;
      PointerIs(compactPointers, c);
      compactPointers := compactPointers[c.level := Some(c.pointer)];
      Begin(c);
      return Some(BeginCompaction(c.level, FileSet(c.in0), FileSet(c.in1)));
    }

    /** Move one file to the next level. */
    method MoveFile(c: Picked)
      requires Valid() && job.None? && Usable(levels, c) && |c.in0| == 1 && c.in1 == []
      modifies this`levels
      ensures Valid() && Did(old(View()), TrivialMove(c.level, c.in0[0]), View())
      ensures Inv(old(View())) && Unsplit(old(View()).files) ==> Inv(View())
    {
      hide Sound, Inv, Did, Unsplit, Enabled, CanApply, SortedLevels, ValidLevels, Sorted;
      ghost var s := View();
      var f := c.in0[0];
      MoveAllowed(s, levels, c);
      ghost var s' := Step(s, TrivialMove(c.level, f));
      UnsplitMove(s, c.level, f);
      MoveEdit(s, levels, c.level, f);
      levels := ApplyToVersion(levels, Edit({(c.level, f.number)}, [(c.level + 1, f)]));
      assert View() == s';
    }

    /** A job that starts now reads the current version, and its smallest snapshot is the least live
        one, or the last sequence number if none is live. */
    ghost predicate StartsNow(j: Job)
      reads this
    {
      j.base == levels && (snapshots == [] ==> j.smallest == |history|) &&
      (snapshots != [] ==> j.smallest in snapshots && forall n :: n in snapshots ==> j.smallest <= n)
    }

    /** Start a compaction: remember its inputs, the version it reads and the oldest snapshot. */
    method Begin(c: Picked)
      requires Valid() && job.None? && Usable(levels, c)
      modifies this`job
      ensures Valid() && Did(old(View()), BeginCompaction(c.level, FileSet(c.in0), FileSet(c.in1)), View())
      ensures Inv(old(View())) && Unsplit(old(View()).files) ==> Inv(View())
      ensures job.Some? && job.value.picked == c && StartsNow(job.value)
    {
      hide Sound, Inv, Did, Unsplit, SortedLevels, Sorted, PickedByRange;
      ghost var s := View();
      ghost var s' := Step(s, BeginCompaction(c.level, FileSet(c.in0), FileSet(c.in1)));
      UnsplitBegin(s, c.level, FileSet(c.in0), FileSet(c.in1));
      OldestIsLeast(s);
      job := Some(Job(c, levels, if snapshots == [] then lastSequence else snapshots[0]));
      assert View() == s';
    }

    /** The rest of a compaction: merge the inputs, drop, cut, and install the outputs. */
    method FinishCompaction(full: nat -> bool, size: nat, overlapLimit: nat) returns (outputs: seq<File>)
      requires Valid() && job.Some?
      modifies this
      ensures Valid()
      ensures Did(Reserved(old(View()), |outputs|), Event.FinishCompaction(FileSet(outputs)), View())
      ensures Inv(old(View())) ==> Inv(View())
      ensures UnsplitInv(old(View())) ==> UnsplitInv(View())
      ensures CutAsFull(InputEntries(old(View()).compaction.in0 + old(View()).compaction.in1), full, size, outputs)
      ensures ValidLevels(old(job).value.base)
      ensures WritesWhatCounts(InputEntries(old(View()).compaction.in0 + old(View()).compaction.in1), old(job).value, outputs)
      ensures AllValid(outputs) && InOrder(outputs)
      ensures forall i :: 0 <= i < |outputs| ==> outputs[i].number == old(nextFile) + i
    {
      hide Sound, Inv, UnsplitInv, Did, CanApply, SortedLevels, ValidLevels, Sorted, Usable, GoodOutputs, Enabled, CutAsFull, WritesWhatCounts;
      var j := job.value;
      ghost var s := View();
      var merged := MergeInputs(s, j);
      outputs := CompactInputs(s, j, merged, nextFile, full, size, overlapLimit);
      ghost var s' := FinishEvent(s, j, outputs);
      var edit := InstallEdit(s, j, outputs, levels);
      levels := ApplyToVersion(levels, edit);
      nextFile, job := nextFile + |outputs|, None;
      floor := s'.floor;
      assert View() == s';
    }

    /** DBImpl::Get: memtable, immutable memtable, then the files level by level.  In newest-first
        order that is the flat lookup; when the invariant holds it is the map of the writes. */
    method Get(k: UserKey, snapshot: Option<nat>) returns (value: Option<Bytes>)
      requires Valid() && (snapshot.Some? ==> snapshot.value in snapshots)
      ensures var n := if snapshot.Some? then snapshot.value else |history|;
        n <= |history| &&
        (LevelOrder(FilesOf(levels)) ==> ReadsAs(All(View()), k, n, value)) &&
        (Inv(View()) ==> value == MapAt(history, n, k))
    {
      var n := if snapshot.Some? then snapshot.value else lastSequence;
      var hit := Lookup(mem, k, n);
      if hit.None? && imm.Some? {
        hit := Lookup(imm.value, k, n);
      }
      if hit.None? {
        hit := Version.Get(levels, k, n);
      }
      value := if hit.Some? && hit.value.k.kind.Value? then Some(hit.value.v) else None;
      if LevelOrder(FilesOf(levels)) {
        LayeredIsFlat(k, n, hit);
        HitReads(View(), k, n, hit);
        if Inv(View()) {
          ReadIsMap(View(), k, n, value);
        }
      }
    }

    /** The first hit of the layered search is the newest entry overall. */
    lemma LayeredIsFlat(k: UserKey, n: nat, hit: Option<Entry>)
      requires Valid()
      requires hit == (
        var m := Lookup(mem, k, n);
        if m.Some? then m
        else if imm.Some? && Lookup(imm.value, k, n).Some? then Lookup(imm.value, k, n)
        else hit)
      requires Lookup(mem, k, n).None? && (imm.Some? ==> Lookup(imm.value, k, n).None?) ==>
        (hit.None? ==> forall e :: e in FileEntries(FilesOf(levels)) ==> !Visible(e, k, n)) &&
        (hit.Some? ==> IsNewest(FileEntries(FilesOf(levels)), k, n, hit.value))
      ensures hit.None? ==> forall e :: e in All(View()) ==> !Visible(e, k, n)
      ensures hit.Some? ==> IsNewest(All(View()), k, n, hit.value)
    {
      LookupIsNewest(mem, k, n);
      assert forall e :: e in EntrySet(mem) <==> e in mem;
      if imm.Some? {
        LookupIsNewest(imm.value, k, n);
        assert forall e :: e in EntrySet(imm.value) <==> e in imm.value;
      }
    }
  }

  /** The next compaction of the level will start where this one ends. */
  ghost predicate PointerMoved(before: seq<Option<IKey>>, now: seq<Option<IKey>>, c: Picked) {
    c.level < |before| && exists end :: EndsAt(c.in0, end) && now == before[c.level := Some(end)]
  }

  lemma PointerIs(pointers: seq<Option<IKey>>, c: Picked)
    requires c.level < |pointers| && EndsAt(c.in0, c.pointer)
    ensures PointerMoved(pointers, pointers[c.level := Some(c.pointer)], c)
  {
    hide EndsAt;
  }

  /** An automatic pick: from the file after the level's pointer, or from the file that was sought. */
  ghost predicate AutoPick(levels: Levels, pointers: seq<Option<IKey>>, sizeLevel: Option<nat>, seekFile: Option<Placed>,
                           c: Picked, f: File, limit: nat)
  {
    ValidLevels(levels) && |pointers| == NUM_LEVELS && c.level + 1 < NUM_LEVELS && PickedFrom(levels, f, c, limit) &&
    GrandparentsOf(levels, c) &&
    if sizeLevel.Some? then
      c.level == sizeLevel.value && exists at: nat :: ByPointer(levels[c.level], pointers[c.level], at) && levels[c.level][at] == f
    else
      seekFile == Some(Placed(c.level, f))
  }

  lemma PickIs(levels: Levels, pointers: seq<Option<IKey>>, sizeLevel: Option<nat>, seekFile: Option<Placed>,
               c: Picked, limit: nat)
    returns (f: File)
    requires ValidLevels(levels) && |pointers| == NUM_LEVELS && c.level + 1 < NUM_LEVELS && GrandparentsOf(levels, c)
    requires (sizeLevel.Some? || seekFile.Some?) && c.level == if sizeLevel.Some? then sizeLevel.value else seekFile.value.level
    requires sizeLevel.Some? ==>
      exists at: nat :: ByPointer(levels[c.level], pointers[c.level], at) && PickedFrom(levels, levels[c.level][at], c, limit)
    requires sizeLevel.None? ==> PickedFrom(levels, seekFile.value.file, c, limit)
    ensures AutoPick(levels, pointers, sizeLevel, seekFile, c, f, limit)
  {
    hide PickedFrom, MeetsInputs;
    if sizeLevel.Some? {
      var at: nat :| ByPointer(levels[c.level], pointers[c.level], at) && PickedFrom(levels, levels[c.level][at], c, limit);
      f := levels[c.level][at];
    } else {
      f := seekFile.value.file;
    }
  }

  /** One event of the tree, with what it keeps: agreement with the map of the writes when the
      event is careful, and unsplit user keys when compactions start with no live snapshot. */
  ghost predicate Did(s: State, ev: Event, s': State) {
    WellFormed(s) && Enabled(s, ev) && s' == Next(s, ev) &&
    (Inv(s) && Careful(s, ev) ==> Inv(s')) && (UnsplitInv(s) && SnapshotFree(s, ev) ==> UnsplitInv(s'))
  }

  lemma Step(s: State, ev: Event) returns (s': State)
    requires Sound(s) && Enabled(s, ev) && !ev.Flush?
    ensures Sound(s') && Did(s, ev, s') && s' == Next(s, ev)
  {
    hide Inv, UnsplitInv;
    StepSound(s, ev);
    s' := Next(s, ev);
    StepDid(s, ev);
  }

  lemma StepDid(s: State, ev: Event)
    requires WellFormed(s) && Enabled(s, ev)
    ensures Did(s, ev, Next(s, ev))
  {
    hide Inv, UnsplitInv, Enabled, WellFormed, Careful, SnapshotFree;
    if Inv(s) && Careful(s, ev) {
      StepKeeps(s, ev);
    }
    if UnsplitInv(s) && SnapshotFree(s, ev) {
      SnapshotFreeStepKeeps(s, ev);
    }
  }

  lemma FlushEmptyStep(s: State) returns (s': State)
    requires Sound(s) && s.imm == Some({})
    ensures Sound(s') && Did(s, FlushEmpty, s') && s' == s.(imm := None)
  {
    hide Did;
    s' := Step(s, FlushEmpty);
  }

  lemma FlushStep(s: State, level: nat, file: File) returns (s': State)
    requires Sound(s) && Enabled(s, Flush(level, file))
    ensures Did(s, Flush(level, file), s') && s' == Next(s, Flush(level, file))
    ensures Sound(s') <==> FlushFits(s.compaction, level, file)
    ensures s.compaction.Running? && Connected(s.compaction.in0 + s.compaction.in1) ==> Sound(s')
    ensures s.compaction.Idle? ==> Sound(s')
  {
    hide Inv, UnsplitInv, Connected;
    s' := Next(s, Flush(level, file));
    StepDid(s, Flush(level, file));
    if s.compaction.Running? && Connected(s.compaction.in0 + s.compaction.in1) {
      ConnectedFlushFits(s, level, file);
    }
    if FlushFits(s.compaction, level, file) {
      FlushSound(s, level, file);
    } else {
      GapSpoils(s, level, file);
    }
  }

  /** A table flushed into the range of a running compaction lies in the way of its outputs. */
  lemma GapSpoils(s: State, level: nat, file: File)
    requires Sound(s) && Enabled(s, Flush(level, file)) && !FlushFits(s.compaction, level, file)
    ensures !Sound(Next(s, Flush(level, file)))
  {
    var s' := Next(s, Flush(level, file));
    var p, c := Placed(level, file), s.compaction;
    assert p in s'.files && p.level == c.level + 1;
    assert file !in c.in1 by {
      assert forall f :: f in c.in1 ==> Placed(c.level + 1, f).file.number < s.nextFile;
    }
  }

  lemma UnsplitMove(s: State, from: nat, file: File)
    requires WellFormed(s) && Enabled(s, TrivialMove(from, file))
    ensures Inv(s) && Unsplit(s.files) ==> Inv(Next(s, TrivialMove(from, file)))
  {
    hide Inv, Unsplit;
    if Inv(s) && Unsplit(s.files) {
      PickedLeavesNothingOlder(s.files, from, {file}, {});
      StepKeeps(s, TrivialMove(from, file));
    }
  }

  lemma OldestIsLeast(s: State)
    requires Sound(s)
    ensures s.snapshots != [] ==> forall n :: n in s.snapshots ==> s.snapshots[0] <= n
  {
  }

  lemma UnsplitBegin(s: State, from: nat, in0: set<File>, in1: set<File>)
    requires WellFormed(s) && Enabled(s, BeginCompaction(from, in0, in1))
    ensures Inv(s) && Unsplit(s.files) ==> Inv(Next(s, BeginCompaction(from, in0, in1)))
  {
    hide Inv, Unsplit;
    if Inv(s) && Unsplit(s.files) {
      PickedLeavesNothingOlder(s.files, from, in0, in1);
      StepKeeps(s, BeginCompaction(from, in0, in1));
    }
  }

  lemma SeqnosOfVersion(s: State, levels: Levels)
    requires Sound(s) && s.files == FilesOf(levels) && |s.history| < MAX_SEQUENCE_NUMBER && ValidLevels(levels)
    ensures forall l :: 0 <= l < NUM_LEVELS ==> SeqnosFit(levels[l])
  {
    forall l, i, e | 0 <= l < NUM_LEVELS && 0 <= i < |levels[l]| && e in levels[l][i].entries
      ensures e.k.seqno <= MAX_SEQUENCE_NUMBER
    {
      PlacedIn(levels, l, i);
      assert Placed(l, levels[l][i]).file == levels[l][i];
      assert e in FileEntries(s.files);
    }
  }

  lemma FlushAllowed(s: State, levels: Levels, level: nat, file: File)
    requires Sound(s) && ValidLevels(levels) && s.files == FilesOf(levels) && s.imm.Some?
    requires ValidFile(file) && EntrySet(file.entries) == s.imm.value && file.number == s.nextFile
    requires level <= MAX_MEM_COMPACT_LEVEL
    requires level > 0 ==> forall l :: 0 <= l <= level ==> !LevelMeets(levels, l, Smallest(file).user, Largest(file).user)
    ensures Enabled(s, Flush(level, file))
  {
    assert (set e | e in file.entries) == EntrySet(file.entries);
    if level > 0 {
      forall p | p in s.files && p.level <= level ensures !UserOverlap(p.file, file) {
        InFiles(levels, p.level, p.file);
        assert !LevelMeets(levels, p.level, Smallest(file).user, Largest(file).user);
        var i :| 0 <= i < |levels[p.level]| && levels[p.level][i] == p.file;
      }
    }
  }

  lemma FlushEdit(s: State, levels: Levels, level: nat, file: File)
    requires Sound(s) && Enabled(s, Flush(level, file)) && s.files == FilesOf(levels)
    ensures var edit := Edit({}, [(level, file)]);
      ApplyEdit(s.files, edit) == Next(s, Flush(level, file)).files && CanApply(levels, edit)
  {
    var edit := Edit({}, [(level, file)]);
    FlushDisjoint(s, level, file);
    assert edit.newFiles[0] == (level, file);
  }

  lemma MoveAllowed(s: State, levels: Levels, c: Picked)
    requires Sound(s) && s.compaction.Idle? && s.files == FilesOf(levels)
    requires Usable(levels, c) && |c.in0| == 1 && c.in1 == []
    ensures Enabled(s, TrivialMove(c.level, c.in0[0]))
  {
    assert FileSet(c.in0) == {c.in0[0]} by {
      assert c.in0[0] in c.in0;
    }
    assert FileSet(c.in1) == {};
  }

  lemma MoveEdit(s: State, levels: Levels, from: nat, f: File)
    requires Sound(s) && Enabled(s, TrivialMove(from, f)) && s.files == FilesOf(levels)
    requires Sound(Next(s, TrivialMove(from, f)))
    ensures var edit := Edit({(from, f.number)}, [(from + 1, f)]);
      ApplyEdit(s.files, edit) == Next(s, TrivialMove(from, f)).files && CanApply(levels, edit)
  {
    var edit := Edit({(from, f.number)}, [(from + 1, f)]);
    assert edit.newFiles[0] == (from + 1, f);
    assert f in {f};
    assert Placed(from, f) in s.files;
    forall p ensures p in ApplyEdit(s.files, edit) <==> p in Next(s, TrivialMove(from, f)).files {
      if p in s.files && (p.level, p.file.number) in edit.deletedFiles {
        assert p == Placed(from, f);
      }
    }
  }

  // ---------------------------------------------------------------- finishing a compaction

  ghost predicate JobOf(s: State, j: Job) {
    s.compaction == JobState(Some(j)) && ValidLevels(j.base) && Usable(j.base, j.picked) &&
    Sound(s) && |s.history| < MAX_SEQUENCE_NUMBER
  }

  function Inputs(j: Job): seq<File> {
    j.picked.in0 + j.picked.in1
  }

  function EntriesOf(files: seq<File>): seq<seq<Entry>> {
    seq(|files|, i requires 0 <= i < |files| => files[i].entries)
  }

  lemma InputPlace(s: State, j: Job, i: nat) returns (p: Placed)
    requires JobOf(s, j) && i < |Inputs(j)|
    ensures p in s.files && p.file == Inputs(j)[i] && ValidFile(p.file)
    ensures p.level == if i < |j.picked.in0| then j.picked.level else j.picked.level + 1
  {
    var f := Inputs(j)[i];
    if i < |j.picked.in0| {
      assert f in FileSet(j.picked.in0);
      p := Placed(j.picked.level, f);
    } else {
      assert f == j.picked.in1[i - |j.picked.in0|] && f in FileSet(j.picked.in1);
      p := Placed(j.picked.level + 1, f);
    }
  }

  /** No internal key is stored twice. */
  lemma KeysStoredOnce(s: State, p: Placed, q: Placed, a: Entry, b: Entry)
    requires Sound(s) && p in s.files && q in s.files && p != q && a in p.file.entries && b in q.file.entries
    ensures a.k != b.k
  {
    assert a in FileEntries(s.files) && b in FileEntries(s.files);
    SeqnoDetermines(s, a, b);
  }

  lemma InputsDiffer(s: State, j: Job, i: nat, i': nat)
    requires JobOf(s, j) && i < i' < |Inputs(j)|
    ensures forall a, b :: a in Inputs(j)[i].entries && b in Inputs(j)[i'].entries ==> a.k != b.k
  {
    hide Sound, PickedByRange, ValidLevels, AllValid, ValidFile;
    var p := InputPlace(s, j, i);
    var q := InputPlace(s, j, i');
    var n := |j.picked.in0|;
    if i' < n {
      NoRepeatsAt(j.picked.in0, i, i');
    } else if i >= n {
      NoRepeatsAt(j.picked.in1, i - n, i' - n);
    }
    forall a, b | a in Inputs(j)[i].entries && b in Inputs(j)[i'].entries ensures a.k != b.k {
      KeysStoredOnce(s, p, q, a, b);
    }
  }

  lemma InputsMergeable(s: State, j: Job)
    requires JobOf(s, j)
    ensures var children := EntriesOf(Inputs(j)); Merger.SortedAll(children) && Merger.KeysDistinct(children)
  {
    hide JobOf;
    var children := EntriesOf(Inputs(j));
    forall i | 0 <= i < |children| ensures Sorted(children[i]) {
      var p := InputPlace(s, j, i);
    }
    forall i, i', a: Entry, b: Entry | 0 <= i < |children| && 0 <= i' < |children| && i != i' && a in children[i] && b in children[i']
      ensures a.k != b.k
    {
      if i < i' {
        InputsDiffer(s, j, i, i');
      } else {
        InputsDiffer(s, j, i', i);
      }
    }
  }

  lemma AllOfInputs(files: seq<File>)
    ensures AllOf(EntriesOf(files)) == InputEntries(FileSet(files))
  {
    var children := EntriesOf(files);
    forall e | e in AllOf(children) ensures e in InputEntries(FileSet(files)) {
      var i :| 0 <= i < |children| && e in children[i];
      assert files[i] in FileSet(files);
    }
    forall e | e in InputEntries(FileSet(files)) ensures e in AllOf(children) {
      var f :| f in FileSet(files) && e in f.entries;
      var i :| 0 <= i < |files| && files[i] == f;
      assert e in children[i];
    }
  }

  lemma MergedIsInput(s: State, j: Job, merged: seq<Entry>)
    requires JobOf(s, j) && Sorted(merged) && EntrySet(merged) == InputEntries(FileSet(Inputs(j)))
    ensures MergedInput(merged) && merged != []
    ensures EntrySet(merged) == InputEntries(FileSet(j.picked.in0) + FileSet(j.picked.in1))
  {
    assert FileSet(Inputs(j)) == FileSet(j.picked.in0) + FileSet(j.picked.in1);
    forall a, b | 0 <= a < b < |merged| && merged[a].k.user == merged[b].k.user
      ensures merged[a].k.seqno > merged[b].k.seqno
    {
      assert merged[a] in EntrySet(merged) && merged[b] in EntrySet(merged);
      InputStored(s, merged[a]);
      InputStored(s, merged[b]);
      SeqnoDetermines(s, merged[a], merged[b]);
      assert Less(merged[a].k, merged[b].k);
    }
    var f :| f in FileSet(j.picked.in0);
    assert ValidFile(Placed(j.picked.level, f).file);
    assert f in FileSet(Inputs(j)) && f.entries[0] in f.entries;
    assert f.entries[0] in EntrySet(merged);
  }

  /** MakeInputIterator, drained. */
  method MergeInputs(ghost s: State, j: Job) returns (merged: seq<Entry>)
    requires JobOf(s, j)
    ensures MergedInput(merged) && merged != []
    ensures EntrySet(merged) == InputEntries(FileSet(j.picked.in0) + FileSet(j.picked.in1))
  {
    hide JobOf, MergedInput;
    var children := EntriesOf(Inputs(j));
    InputsMergeable(s, j);
    ghost var union := UnionExists(children);
    UnionIsUnion(union, children);
    AllOfInputs(Inputs(j));
    MergedIsInput(s, j, union);
    var it := new Merger.MergingIterator(children, union);
    merged := Drain(it);
  }

  /** The merge loop over the drained input, under numbers from `nextFile` on. */
  method CompactInputs(ghost s: State, j: Job, merged: seq<Entry>, nextFile: nat, full: nat -> bool,
                       size: nat, overlapLimit: nat)
    returns (outputs: seq<File>)
    requires JobOf(s, j) && s.nextFile == nextFile && MergedInput(merged) && merged != []
    requires EntrySet(merged) == InputEntries(FileSet(j.picked.in0) + FileSet(j.picked.in1))
    ensures GoodFor(s, j, outputs)
    ensures CutAsFull(EntrySet(merged), full, size, outputs)
    ensures ValidLevels(j.base) && WritesWhatCounts(EntrySet(merged), j, outputs)
  {
    hide MergedInput, Kept, Numbered, CutAsFull, WritesWhatCounts, GoodFor;
    JobBounds(s, j);
    hide JobOf;
    outputs := MergeJob(j, merged, nextFile, full, size, overlapLimit);
    KeptAreOutputs(s, j, merged, outputs);
  }

  /** The merge loop, seen from the job. */
  method MergeJob(j: Job, merged: seq<Entry>, nextFile: nat, full: nat -> bool, size: nat, overlapLimit: nat)
    returns (outputs: seq<File>)
    requires ValidLevels(j.base) && AllValid(j.picked.grandparents) && j.smallest < MAX_SEQUENCE_NUMBER
    requires MergedInput(merged) && merged != []
    ensures FilesValid(FilesOf(j.base))
    ensures Flat(outputs) == Kept(merged, |merged|, FilesOf(j.base), j.picked.level, j.smallest)
    ensures Numbered(outputs, seq(|merged|, i => nextFile + i))
    ensures CutAsFull(EntrySet(merged), full, size, outputs) && WritesWhatCounts(EntrySet(merged), j, outputs)
  {
    hide Kept, Numbered, ValidLevels;
    var c := new Cursor(j.picked.level, j.base, j.picked.grandparents, overlapLimit);
    var numbers := seq(|merged|, i => nextFile + i);
    var fullAt := FullAt(full, |merged|);
    outputs := DoCompactionWork(c, merged, j.smallest, numbers, fullAt, size);
  }

  function FullAt(full: nat -> bool, n: nat): (r: seq<bool>)
    ensures |r| == n && forall i :: 0 <= i < n ==> r[i] == full(i)
  {
    seq(n, i requires 0 <= i < n => full(i))
  }

  /** An input entry is written out unless a newer entry of its key is at or below the oldest snapshot,
      or it is a deletion marker at or below it and no file two or more levels down covers its key. */
  ghost predicate WritesWhatCounts(inputs: set<Entry>, j: Job, outputs: seq<File>)
    requires ValidLevels(j.base)
  {
    forall e :: e in inputs ==>
      ((exists i :: 0 <= i < |outputs| && e in outputs[i].entries) <==>
       !(exists x :: x in inputs && x.k.user == e.k.user && e.k.seqno < x.k.seqno <= j.smallest) &&
       !(e.k.kind.Deletion? && e.k.seqno <= j.smallest &&
         forall l, f :: j.picked.level + 2 <= l < 7 && 0 <= f < |j.base[l]| ==>
           e.k.user < Smallest(j.base[l][f]).user || Largest(j.base[l][f]).user < e.k.user))
  }

  /** The outputs are cut where `full` says, counting the merged input entries, if not earlier. */
  ghost predicate CutAsFull(inputs: set<Entry>, full: nat -> bool, size: nat, outputs: seq<File>) {
    exists merged :: Sorted(merged) && EntrySet(merged) == inputs && CutWhenFull(merged, FullAt(full, |merged|), size, outputs)
  }

  lemma JobBounds(s: State, j: Job)
    requires JobOf(s, j)
    ensures j.smallest < MAX_SEQUENCE_NUMBER && AllValid(j.picked.grandparents) && ValidLevels(j.base)
  {
  }

  /** Files whose contents and numbers FinishCompaction may install. */
  ghost predicate GoodFor(s: State, j: Job, outputs: seq<File>) {
    AllValid(outputs) && InOrder(outputs) &&
    JobOf(s, j) && FilesValid(FilesOf(j.base)) && InputEntries(FileSet(outputs)) == Survivors(JobState(Some(j))) &&
    forall i :: 0 <= i < |outputs| ==> outputs[i].number == s.nextFile + i
  }

  lemma KeptAreOutputs(s: State, j: Job, merged: seq<Entry>, outputs: seq<File>)
    requires JobOf(s, j) && MergedInput(merged) && FilesValid(FilesOf(j.base))
    requires EntrySet(merged) == InputEntries(FileSet(j.picked.in0) + FileSet(j.picked.in1))
    requires Flat(outputs) == Kept(merged, |merged|, FilesOf(j.base), j.picked.level, j.smallest)
    requires Numbered(outputs, seq(|merged|, i => s.nextFile + i))
    ensures GoodFor(s, j, outputs)
  {
    hide JobOf, Kept, FilesValid;
    KeptInOrder(merged, outputs, FilesOf(j.base), j.picked.level, j.smallest, s.nextFile);
    KeptSurvive(merged, outputs, JobState(Some(j)));
  }

  lemma KeptInOrder(merged: seq<Entry>, outputs: seq<File>, files: set<Placed>, level: nat, smallest: nat, nextFile: nat)
    requires FilesValid(files) && Sorted(merged) && Flat(outputs) == Kept(merged, |merged|, files, level, smallest)
    requires Numbered(outputs, seq(|merged|, i => nextFile + i))
    ensures AllValid(outputs) && InOrder(outputs)
    ensures forall i :: 0 <= i < |outputs| ==> outputs[i].number == nextFile + i
  {
    hide Kept, FilesValid;
    KeptSorted(merged, |merged|, files, level, smallest);
    assert forall f :: f in outputs ==> f.entries != [];
    FlatInOrder(outputs);
  }

  lemma KeptSurvive(merged: seq<Entry>, outputs: seq<File>, c: Compaction)
    requires c.Running? && FilesValid(c.files) && EntrySet(merged) == InputEntries(c.in0 + c.in1)
    requires Flat(outputs) == Kept(merged, |merged|, c.files, c.level, c.smallest)
    ensures InputEntries(FileSet(outputs)) == Survivors(c)
  {
    hide Hidden, Obsolete, FilesValid;
    FlatEntries(outputs);
    assert merged[..|merged|] == merged;
    forall e ensures e in EntrySet(Flat(outputs)) <==> e in Survivors(c) {
      assert e in EntrySet(merged) <==> e in merged;
      assert e in EntrySet(Flat(outputs)) <==> e in Kept(merged, |merged|, c.files, c.level, c.smallest);
    }
  }

  ghost function Reserved(s: State, n: nat): State {
    s.(nextFile := s.nextFile + n)
  }

  lemma {:induction false} ReservedKeeps(s: State, n: nat)
    requires Sound(s)
    ensures Sound(Reserved(s, n))
    ensures (Inv(s) ==> Inv(Reserved(s, n))) && (UnsplitInv(s) ==> UnsplitInv(Reserved(s, n)))
  {
    hide Sound, Inv, UnsplitInv;
    if n == 0 {
      assert Reserved(s, 0) == s;
    } else {
      ReservedKeeps(s, n - 1);
      ReserveOne(Reserved(s, n - 1));
      assert Reserved(s, n) == Reserved(Reserved(s, n - 1), 1);
    }
  }

  lemma ReserveOne(s: State)
    requires Sound(s)
    ensures Sound(Reserved(s, 1)) && (Inv(s) ==> Inv(Reserved(s, 1))) && (UnsplitInv(s) ==> UnsplitInv(Reserved(s, 1)))
  {
    hide Inv, UnsplitInv;
    var s' := Step(s, ReserveFileNumber);
    assert Reserved(s, 1) == s';
  }

  lemma OutputsGood(s: State, j: Job, outputs: seq<File>)
    requires GoodFor(s, j, outputs)
    ensures GoodOutputs(Reserved(s, |outputs|), FileSet(outputs))
  {
    var r := Reserved(s, |outputs|);
    forall f | f in FileSet(outputs)
      ensures ValidFile(f) && f.number < r.nextFile && forall p :: p in r.files ==> f.number != p.file.number
    {
      var i :| 0 <= i < |outputs| && outputs[i] == f;
    }
    forall f, g | f in FileSet(outputs) && g in FileSet(outputs) && f != g
      ensures f.number != g.number && (Precedes(f, g) || Precedes(g, f))
    {
      var a :| 0 <= a < |outputs| && outputs[a] == f;
      var b :| 0 <= b < |outputs| && outputs[b] == g;
    }
  }

  lemma FinishEvent(s: State, j: Job, outputs: seq<File>) returns (s': State)
    requires GoodFor(s, j, outputs)
    ensures Sound(Reserved(s, |outputs|)) && Sound(s')
    ensures Did(Reserved(s, |outputs|), Event.FinishCompaction(FileSet(outputs)), s')
    ensures Enabled(Reserved(s, |outputs|), Event.FinishCompaction(FileSet(outputs)))
    ensures s' == Next(Reserved(s, |outputs|), Event.FinishCompaction(FileSet(outputs)))
    ensures (Inv(s) ==> Inv(s')) && (UnsplitInv(s) ==> UnsplitInv(s'))
  {
    hide Inv, UnsplitInv;
    OutputsGood(s, j, outputs);
    ReservedKeeps(s, |outputs|);
    s' := Step(Reserved(s, |outputs|), Event.FinishCompaction(FileSet(outputs)));
  }

  /** InstallCompactionResults: delete the inputs, add the outputs one level down. */
  function ResultEdit(j: Job, outputs: seq<File>): Edit {
    Edit((set f | f in j.picked.in0 :: (j.picked.level, f.number)) +
         (set f | f in j.picked.in1 :: (j.picked.level + 1, f.number)),
         seq(|outputs|, i requires 0 <= i < |outputs| => NewFile(j.picked.level + 1, outputs[i])))
  }

  function NewFile(level: nat, f: File): (nat, File) {
    (level, f)
  }

  method InstallEdit(ghost s: State, j: Job, outputs: seq<File>, ghost levels: Levels) returns (edit: Edit)
    requires GoodFor(s, j, outputs) && s.files == FilesOf(levels)
    requires Sound(Reserved(s, |outputs|))
    requires Enabled(Reserved(s, |outputs|), Event.FinishCompaction(FileSet(outputs)))
    requires Sound(Next(Reserved(s, |outputs|), Event.FinishCompaction(FileSet(outputs))))
    ensures CanApply(levels, edit)
    ensures ApplyEdit(s.files, edit) == Next(Reserved(s, |outputs|), Event.FinishCompaction(FileSet(outputs))).files
  {
    edit := ResultEdit(j, outputs);
    EditInstalls(s, j, outputs);
    EditFresh(s, j, outputs);
  }

  lemma EditInstalls(s: State, j: Job, outputs: seq<File>)
    requires GoodFor(s, j, outputs)
    ensures ApplyEdit(s.files, ResultEdit(j, outputs)) == Installed(s.files, JobState(Some(j)), FileSet(outputs))
  {
    hide GoodFor, JobOf;
    JobFacts(s, j, outputs);
    var edit, c := ResultEdit(j, outputs), JobState(Some(j));
    forall p | p in s.files ensures (p.level, p.file.number) in edit.deletedFiles <==> IsInput(c, p) {
      EditDeletes(s, j, outputs, p);
    }
    EditAdds(j, outputs);
  }

  lemma JobFacts(s: State, j: Job, outputs: seq<File>)
    requires GoodFor(s, j, outputs)
    ensures NumbersUnique(s.files) && AtLevel(s.files, j.picked.level, FileSet(j.picked.in0))
    ensures AtLevel(s.files, j.picked.level + 1, FileSet(j.picked.in1))
  {
  }

  lemma EditDeletes(s: State, j: Job, outputs: seq<File>, p: Placed)
    requires NumbersUnique(s.files) && AtLevel(s.files, j.picked.level, FileSet(j.picked.in0))
    requires AtLevel(s.files, j.picked.level + 1, FileSet(j.picked.in1)) && p in s.files
    ensures (p.level, p.file.number) in ResultEdit(j, outputs).deletedFiles <==> IsInput(JobState(Some(j)), p)
  {
    if f :| f in j.picked.in0 && (p.level, p.file.number) == (j.picked.level, f.number) {
      assert f in FileSet(j.picked.in0) && Placed(j.picked.level, f) in s.files;
      assert p == Placed(j.picked.level, f);
    } else if f :| f in j.picked.in1 && (p.level, p.file.number) == (j.picked.level + 1, f.number) {
      assert f in FileSet(j.picked.in1) && Placed(j.picked.level + 1, f) in s.files;
      assert p == Placed(j.picked.level + 1, f);
    }
  }

  lemma EditAdds(j: Job, outputs: seq<File>)
    ensures var edit := ResultEdit(j, outputs);
      (set i | 0 <= i < |edit.newFiles| :: Placed(edit.newFiles[i].0, edit.newFiles[i].1)) ==
      (set f | f in FileSet(outputs) :: Placed(j.picked.level + 1, f))
  {
    var edit := ResultEdit(j, outputs);
    var added := set i | 0 <= i < |edit.newFiles| :: Placed(edit.newFiles[i].0, edit.newFiles[i].1);
    forall p | p in added ensures p in (set f | f in FileSet(outputs) :: Placed(j.picked.level + 1, f)) {
      var i :| 0 <= i < |edit.newFiles| && p == Placed(edit.newFiles[i].0, edit.newFiles[i].1);
      assert outputs[i] in FileSet(outputs);
    }
    forall f | f in FileSet(outputs) ensures Placed(j.picked.level + 1, f) in added {
      var i :| 0 <= i < |outputs| && outputs[i] == f;
      assert edit.newFiles[i] == (j.picked.level + 1, f);
    }
  }

  lemma EditFresh(s: State, j: Job, outputs: seq<File>)
    requires GoodFor(s, j, outputs)
    ensures var edit := ResultEdit(j, outputs);
      ValidEdit(edit) && FreshIn(s.files, edit) && forall d :: d in edit.deletedFiles ==> d.0 < NUM_LEVELS
  {
  }

  /** What the version builder needs of an edit. */
  ghost predicate CanApply(levels: Levels, edit: Edit) {
    ValidEdit(edit) && FreshIn(FilesOf(levels), edit) && (forall d :: d in edit.deletedFiles ==> d.0 < NUM_LEVELS) &&
    FilesValid(ApplyEdit(FilesOf(levels), edit)) && LevelsDisjoint(ApplyEdit(FilesOf(levels), edit))
  }

  /** VersionSet::LogAndApply, in memory: build the version after one edit. */
  method ApplyToVersion(levels: Levels, edit: Edit) returns (levels': Levels)
    requires SortedLevels(levels) && CanApply(levels, edit)
    ensures SortedLevels(levels') && ValidLevels(levels') && FilesOf(levels') == ApplyEdit(FilesOf(levels), edit)
  {
    var builder := new Builder(levels);
    builder.Apply(edit);
    levels' := builder.SaveTo();
  }

  /** The flat lookup has one answer. */
  lemma OneAnswer(s: State, k: UserKey, n: nat, a: Option<Bytes>, b: Option<Bytes>)
    requires FromHistory(All(s), s.history) && ReadsAs(All(s), k, n, a) && ReadsAs(All(s), k, n, b)
    ensures a == b
  {
    if a.Some? {
      var e :| IsNewest(All(s), k, n, e) && e.k.kind.Value? && e.v == a.value;
      if b.Some? {
        var x :| IsNewest(All(s), k, n, x) && x.k.kind.Value? && x.v == b.value;
        SeqnoDetermines(s, e, x);
      }
    }
  }

  /** The newest visible entry is the answer of the flat lookup. */
  lemma HitReads(s: State, k: UserKey, n: nat, hit: Option<Entry>)
    requires FromHistory(All(s), s.history)
    requires hit.None? ==> forall e :: e in All(s) ==> !Visible(e, k, n)
    requires hit.Some? ==> IsNewest(All(s), k, n, hit.value)
    ensures ReadsAs(All(s), k, n, if hit.Some? && hit.value.k.kind.Value? then Some(hit.value.v) else None)
  {
    if hit.Some? {
      forall e | IsNewest(All(s), k, n, e) ensures e == hit.value {
        SeqnoDetermines(s, e, hit.value);
      }
    }
  }

  /** What a reader at the last sequence number or at a live snapshot finds is what the map holds. */
  lemma ReadIsMap(s: State, k: UserKey, n: nat, r: Option<Bytes>)
    requires Inv(s) && (n == |s.history| || n in s.snapshots) && ReadsAs(All(s), k, n, r)
    ensures n <= |s.history| && r == MapAt(s.history, n, k)
  {
    assert s.floor <= n <= |s.history|;
    OneAnswer(s, k, n, r, MapAt(s.history, n, k));
  }
}
