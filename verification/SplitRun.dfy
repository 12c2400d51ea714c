/** A run of the code after which a deleted key reads as present: a compaction under a live
    snapshot cuts its output between two versions of a user key, and a later one takes only the
    newer part (db/db_impl.cc, db/version_set.cc). */
module SplitRun {
  import opened DbFormat
  import opened Lsm
  import opened LsmProof
  import LsmSplits
  import opened Version
  import opened CompactionInputs
  import opened VersionBuilder
  import opened CompactionWork
  import opened Db

  const KEY: UserKey := 1.0
  const PUT := Op(KEY, Value, [])
  const DEL := Op(KEY, Deletion, [])
  const PUT1 := Entry(IKey(KEY, 1, Value), [])
  const DEL2 := Entry(IKey(KEY, 2, Deletion), [])

  lemma OneWritten(op: Op, after: nat)
    ensures WriteEntries([op], after) == {EntryOf(op, after + 1)}
  {
    WriteEntriesSnoc([op], after);
    assert WriteEntries([op][..0], after) == {};
  }

  lemma OrderIsPlace(entries: seq<Entry>, a: nat, b: nat)
    requires Sorted(entries) && a < |entries| && b < |entries|
    ensures a < b <==> Less(entries[a].k, entries[b].k)
  {
    LessIsPackedOrder(entries[a].k, entries[b].k);
  }

  /** Every place in a table of the two versions is one of two. */
  lemma TwoPlaces(entries: seq<Entry>, i: nat, j: nat, n: nat)
    requires Sorted(entries) && EntrySet(entries) == {PUT1, DEL2}
    requires i < |entries| && entries[i] == DEL2 && j < |entries| && entries[j] == PUT1 && n < |entries|
    ensures n == i || n == j
  {
    assert entries[n] in EntrySet(entries);
    OrderIsPlace(entries, n, if entries[n] == DEL2 then i else j);
    OrderIsPlace(entries, if entries[n] == DEL2 then i else j, n);
  }

  lemma BothInOrder(entries: seq<Entry>)
    requires Sorted(entries) && EntrySet(entries) == {PUT1, DEL2}
    ensures entries == [DEL2, PUT1]
  {
    assert PUT1 in EntrySet(entries) && DEL2 in EntrySet(entries);
    var i :| 0 <= i < |entries| && entries[i] == DEL2;
    var j :| 0 <= j < |entries| && entries[j] == PUT1;
    OrderIsPlace(entries, i, j);
    TwoPlaces(entries, i, j, 0);
    TwoPlaces(entries, i, j, 1);
    TwoPlaces(entries, i, j, |entries| - 1);
  }

  /** A value, a snapshot, and the deletion of the value. */
  method WriteBoth() returns (db: Database)
    ensures fresh(db) && db.Valid() && db.job.None?
    ensures db.View() == State.State({}, Some({PUT1, DEL2}), {}, [1], 2, Idle, [PUT, DEL], 0)
  {
    hide Sound, Inv;
    db := new Database();
    OneWritten(PUT, 0);
    OneWritten(DEL, 1);
    db.Write([PUT]);
    assert db.View().mem == {PUT1} && db.View().history == [PUT];
    var snapshot := db.GetSnapshot();
    db.Write([DEL]);
    assert db.View().mem == {PUT1, DEL2} && db.View().history == [PUT, DEL];
    db.SwitchMemTable();
  }

  // ---------------------------------------------------------------- the states of the run

  ghost function Flushed(level: nat, file: File): State {
    State.State({}, None, {Placed(level, file)}, [1], 3, Idle, [PUT, DEL], 0)
  }

  ghost function Parts(level: nat, size: nat): set<Placed> {
    {Placed(level, NewPart(size)), Placed(level, OldPart(size))}
  }

  function NewPart(size: nat): File {
    File(3, size, [DEL2])
  }

  function OldPart(size: nat): File {
    File(4, size, [PUT1])
  }

  lemma FlushedIs(s: State, level: nat, file: File, s': State)
    requires s == State.State({}, Some({PUT1, DEL2}), {}, [1], 2, Idle, [PUT, DEL], 0)
    requires Did(s, Flush(level, file), s')
    ensures level <= 2 && file == File(2, file.size, [DEL2, PUT1]) && s' == Flushed(level, file)
  {
    hide Inv, LsmSplits.UnsplitInv;
    assert EntrySet(file.entries) == (set e | e in file.entries);
    BothInOrder(file.entries);
  }

  /** There is one file, so the compaction reads it and nothing else. */
  lemma PicksBoth(s: State, level: nat, file: File, ev: Event, s': State)
    requires s == Flushed(level, file) && ev.BeginCompaction? && ev.from == level && Did(s, ev, s')
    ensures s' == s.(compaction := Running(level, {file}, {}, {Placed(level, file)}, 1))
  {
    hide Inv, LsmSplits.UnsplitInv, RangeClosed;
    forall f | f in ev.in0 ensures f == file {
      assert Placed(level, f) in s.files;
    }
    var f :| f in ev.in0;
    assert ev.in0 == {file} && ev.in1 == {};
  }

  lemma BothSurvive(file: File, c: Compaction)
    requires c.Running? && c.in0 == {file} && c.in1 == {} && FilesValid(c.files) && c.smallest == 1
    requires file.entries == [DEL2, PUT1]
    ensures InputEntries(c.in0 + c.in1) == {PUT1, DEL2} && Survivors(c) == {PUT1, DEL2}
  {
    assert file in c.in0 + c.in1 && file.entries[0] == DEL2 && file.entries[1] == PUT1;
    assert DEL2 in file.entries && PUT1 in file.entries;
    assert InputEntries(c.in0 + c.in1) == {PUT1, DEL2};
    assert !Hidden({PUT1, DEL2}, 1, PUT1) && !Hidden({PUT1, DEL2}, 1, DEL2);
  }

  /** Full after every entry: one entry a file. */
  lemma OneEach(inputs: set<Entry>, full: nat -> bool, size: nat, outputs: seq<File>, f: File)
    requires CutAsFull(inputs, full, size, outputs) && (forall i: nat :: full(i)) && f in outputs
    requires f.entries != [] && forall e :: e in f.entries ==> e in inputs
    ensures f.size == size && |f.entries| == 1
  {
    var merged :| Sorted(merged) && EntrySet(merged) == inputs && CutWhenFull(merged, FullAt(full, |merged|), size, outputs);
    var e := f.entries[0];
    assert e in EntrySet(merged);
    var x :| 0 <= x < |merged| && merged[x] == e;
    assert Fills(merged, FullAt(full, |merged|), e);
    assert NotFullInside(merged, FullAt(full, |merged|), f.entries);
  }

  lemma CutApart(full: nat -> bool, size: nat, outputs: seq<File>)
    requires AllValid(outputs) && InOrder(outputs) && InputEntries(FileSet(outputs)) == {PUT1, DEL2}
    requires CutAsFull({PUT1, DEL2}, full, size, outputs) && forall i: nat :: full(i)
    requires forall i :: 0 <= i < |outputs| ==> outputs[i].number == 3 + i
    ensures outputs == [NewPart(size), OldPart(size)]
  {
    hide CutAsFull, InOrder;
    forall i | 0 <= i < |outputs|
      ensures outputs[i] == File(3 + i, size, [PUT1]) || outputs[i] == File(3 + i, size, [DEL2])
    {
      var f := outputs[i];
      assert f in FileSet(outputs);
      assert forall e :: e in f.entries ==> e in InputEntries(FileSet(outputs));
      OneEach({PUT1, DEL2}, full, size, outputs, f);
      assert f.entries[0] in f.entries && f.entries == [f.entries[0]];
    }
    assert PUT1 in InputEntries(FileSet(outputs)) && DEL2 in InputEntries(FileSet(outputs));
    var f :| f in FileSet(outputs) && PUT1 in f.entries;
    var g :| g in FileSet(outputs) && DEL2 in g.entries;
    var i :| 0 <= i < |outputs| && outputs[i] == f;
    var j :| 0 <= j < |outputs| && outputs[j] == g;
    TwoFiles(outputs, size, i, j);
  }

  ghost predicate OneVersionEach(outputs: seq<File>, size: nat) {
    AllValid(outputs) && InOrder(outputs) &&
    forall i :: 0 <= i < |outputs| ==> outputs[i] == File(3 + i, size, [PUT1]) || outputs[i] == File(3 + i, size, [DEL2])
  }

  lemma NewerFirst(outputs: seq<File>, size: nat, a: nat, b: nat)
    requires OneVersionEach(outputs, size) && a < b < |outputs|
    ensures outputs[a] == File(3 + a, size, [DEL2]) && outputs[b] == File(3 + b, size, [PUT1])
  {
    assert Precedes(outputs[a], outputs[b]);
  }

  lemma TwoFiles(outputs: seq<File>, size: nat, i: nat, j: nat)
    requires OneVersionEach(outputs, size)
    requires i < |outputs| && j < |outputs| && outputs[i].entries == [PUT1] && outputs[j].entries == [DEL2]
    ensures outputs == [NewPart(size), OldPart(size)]
  {
    hide OneVersionEach;
    NewerFirst(outputs, size, if i < j then i else j, if i < j then j else i);
    if |outputs| > 2 {
      NewerFirst(outputs, size, 0, 1);
      NewerFirst(outputs, size, 1, 2);
    } else {
      NewerFirst(outputs, size, 0, 1);
    }
  }

  lemma LevelIs(levels: Levels, level: nat, size: nat)
    requires SortedLevels(levels) && 0 < level < NUM_LEVELS && FilesOf(levels) == Parts(level, size)
    ensures levels[level] == [NewPart(size), OldPart(size)]
  {
    var parts := [NewPart(size), OldPart(size)];
    forall f: File ensures f in FileSet(levels[level]) <==> f in FileSet(parts) {
      InFiles(levels, level, f);
    }
    SortedUnique(levels[level], parts);
  }

  lemma CutTakesFirst(start: seq<File>, size: nat)
    requires IsCut(start, [NewPart(size), OldPart(size)], size)
    ensures start == [NewPart(size)]
  {
    var files := [NewPart(size), OldPart(size)];
    assert files[..1] == [NewPart(size)];
    assert TotalFileSize([NewPart(size)]) == size by {
      assert [NewPart(size)][..0] == [];
    }
    assert start == files[..|start|];
  }

  lemma BothMeet(a: File, b: File)
    requires Meets(a, None, None) && Meets(b, None, None)
    ensures Meeting([a, b], None, None) == [a, b]
  {
    hide Meets;
    assert [a, b][..1] == [a] && [a][..0] == [];
    assert Meeting([a], None, None) == [a];
  }

  lemma ManualStart(levels: Levels, size: nat, c: Picked, limit: nat) returns (start: seq<File>)
    requires ValidLevels(levels) && 0 < c.level && c.level + 1 < NUM_LEVELS && ManualInputs(levels, None, None, size, c, limit)
    ensures IsCut(start, Meeting(levels[c.level], None, None), size) && (c.in1 == [] ==> c.in0 == start)
    ensures forall f :: f in c.in1 ==> f in levels[c.level + 1]
  {
    hide IsCut, PickedByRange, GrownIfPossible, Covering;
    start :| FromStart(levels, c.level, start, c.in0, c.in1, limit) && IsCut(start, Meeting(levels[c.level], None, None), size);
  }

  /** CompactRange over everything picks the newer part alone: it reaches the size limit, and
      the next level is empty. */
  lemma PicksNewer(levels: Levels, level: nat, size: nat, c: Picked, limit: nat)
    requires ValidLevels(levels) && SortedLevels(levels) && 0 < level && level + 1 < NUM_LEVELS
    requires FilesOf(levels) == Parts(level, size) && c.level == level && ManualInputs(levels, None, None, size, c, limit)
    ensures c.in0 == [NewPart(size)] && c.in1 == []
  {
    hide ManualInputs, IsCut, SortedLevels, FilesOf, Meeting, AllValid, InOrder;
    LevelIs(levels, level, size);
    BothMeet(NewPart(size), OldPart(size));
    var start := ManualStart(levels, size, c, limit);
    CutTakesFirst(start, size);
    if c.in1 != [] {
      var f := SomeFile(c.in1);
      InFiles(levels, level + 1, f);
    }
  }

  lemma SomeFile(files: seq<File>) returns (f: File)
    requires files != []
    ensures f in files
  {
    f := files[0];
  }

  /** The deletion marker is obsolete by rule (B): nothing below covers the key.  The older part,
      left beside it, is not asked. */
  lemma MarkerDropped(c: Compaction, level: nat, size: nat, outputs: seq<File>)
    requires c == Running(level, {NewPart(size)}, {}, Parts(level, size), 2) && FilesValid(c.files)
    requires AllValid(outputs) && InputEntries(FileSet(outputs)) == Survivors(c)
    ensures outputs == []
  {
    var f := NewPart(size);
    assert f in c.in0 + c.in1 && DEL2 in f.entries;
    assert InputEntries(c.in0 + c.in1) == {DEL2};
    assert IsBase(c.files, level, KEY);
    assert Survivors(c) == {};
    if outputs != [] {
      FirstEntry(outputs);
    }
  }

  lemma FirstEntry(outputs: seq<File>)
    requires AllValid(outputs) && outputs != []
    ensures InputEntries(FileSet(outputs)) != {}
  {
    assert outputs[0] in FileSet(outputs) && outputs[0].entries[0] in outputs[0].entries;
    assert outputs[0].entries[0] in InputEntries(FileSet(outputs));
  }

  /** Flush both versions together and compact them under the snapshot: they end up in two files. */
  method SplitBoth(db: Database, size: nat, grandParentLimit: nat, expandedLimit: nat, overlapLimit: nat) returns (level: nat)
    requires db.Valid() && db.job.None?
    requires db.View() == State.State({}, Some({PUT1, DEL2}), {}, [1], 2, Idle, [PUT, DEL], 0)
    modifies db
    ensures db.Valid() && db.job.None? && 0 < level <= 3
    ensures db.View() == State.State({}, None, Parts(level, size), [1], 5, Idle, [PUT, DEL], 1)
  {
    hide Sound, Inv, Did, CutAsFull;
    ghost var s := db.View();
    var l, file := db.CompactMemTable(grandParentLimit, size);
    FlushedIs(s, l, file, db.View());
    s := db.View();
    MeetsAll(db.levels, l, file);
    var ev := db.ManualCompaction(l, None, None, size, expandedLimit);
    PicksBoth(s, l, file, ev.value, db.View());
    s := db.View();
    var outputs := db.FinishCompaction(i => true, size, overlapLimit);
    SplitInstalled(s, l, file, size, outputs, db.View());
    level := l + 1;
  }

  lemma MeetsAll(levels: Levels, level: nat, file: File)
    requires FilesOf(levels) == {Placed(level, file)} && level < |levels| && |file.entries| > 0
    ensures file in levels[level] && Meets(file, None, None)
  {
    InFiles(levels, level, file);
  }

  lemma SplitInstalled(s: State, level: nat, file: File, size: nat, outputs: seq<File>, s': State)
    requires s == Flushed(level, file).(compaction := Running(level, {file}, {}, {Placed(level, file)}, 1))
    requires file.entries == [DEL2, PUT1] && level <= 2
    requires AllValid(outputs) && InOrder(outputs) && forall i :: 0 <= i < |outputs| ==> outputs[i].number == 3 + i
    requires CutAsFull(InputEntries(s.compaction.in0 + s.compaction.in1), i => true, size, outputs)
    requires Did(Reserved(s, |outputs|), Event.FinishCompaction(FileSet(outputs)), s')
    ensures s' == State.State({}, None, Parts(level + 1, size), [1], 5, Idle, [PUT, DEL], 1)
  {
    hide Inv, LsmSplits.UnsplitInv, CutAsFull, InOrder;
    BothSurvive(file, s.compaction);
    CutApart(i => true, size, outputs);
    assert FileSet(outputs) == {NewPart(size), OldPart(size)};
    assert s'.files == Parts(level + 1, size);
  }

  lemma NewerBegun(s: State, level: nat, size: nat, in0: set<File>, in1: set<File>, s': State)
    requires s == State.State({}, None, Parts(level, size), [], 5, Idle, [PUT, DEL], 1)
    requires in0 == {NewPart(size)} && in1 == {} && Did(s, BeginCompaction(level, in0, in1), s')
    ensures s' == s.(compaction := Running(level, {NewPart(size)}, {}, Parts(level, size), 2))
  {
    hide Inv, LsmSplits.UnsplitInv, Enabled;
  }

  lemma NewerGone(s: State, level: nat, size: nat, outputs: seq<File>, s': State)
    requires level > 0 && s == State.State({}, None, Parts(level, size), [], 5,
      Running(level, {NewPart(size)}, {}, Parts(level, size), 2), [PUT, DEL], 1)
    requires AllValid(outputs) && Did(Reserved(s, |outputs|), Event.FinishCompaction(FileSet(outputs)), s')
    ensures s' == State.State({}, None, {Placed(level, OldPart(size))}, [], 5, Idle, [PUT, DEL], 2)
  {
    hide Inv, LsmSplits.UnsplitInv;
    MarkerDropped(s.compaction, level, size, outputs);
    assert FileSet(outputs) == {};
    assert s'.files == {Placed(level, OldPart(size))};
  }

  /** Compact everything: the newer part reaches the size limit alone. */
  method CompactNewer(db: Database, level: nat, size: nat, expandedLimit: nat, overlapLimit: nat)
    requires db.Valid() && db.job.None? && 0 < level <= 3
    requires db.View() == State.State({}, None, Parts(level, size), [], 5, Idle, [PUT, DEL], 1)
    modifies db
    ensures db.Valid() && db.View() == State.State({}, None, {Placed(level, OldPart(size))}, [], 5, Idle, [PUT, DEL], 2)
  {
    hide Sound, Inv, Did, CutAsFull, ManualInputs, ValidLevels, Usable, FilesOf, Next;
    ghost var s, levels := db.View(), db.levels;
    LevelIs(levels, level, size);
    assert NewPart(size) in levels[level] && Meets(NewPart(size), None, None);
    var ev := db.ManualCompaction(level, None, None, size, expandedLimit);
    PicksNewer(levels, level, size, db.job.value.picked, expandedLimit);
    assert FileSet([NewPart(size)]) == {NewPart(size)} && FileSet([]) == {};
    NewerBegun(s, level, size, ev.value.in0, ev.value.in1, db.View());
    s := db.View();
    var outputs := db.FinishCompaction(i => true, size, overlapLimit);
    NewerGone(s, level, size, outputs, db.View());
  }

  /** What the flat lookup finds before and after. */
  lemma ReadsBefore(s: State, level: nat, size: nat, r: Option<Bytes>)
    requires s == State.State({}, None, Parts(level, size), [], 5, Idle, [PUT, DEL], 1) && ReadsAs(All(s), KEY, 2, r)
    ensures r == None
  {
    hide Parts;
    StoredParts(level, size);
    assert All(s) == {PUT1, DEL2};
    assert IsNewest(All(s), KEY, 2, DEL2);
  }

  lemma ReadsAfter(s: State, level: nat, size: nat, r: Option<Bytes>)
    requires s == State.State({}, None, {Placed(level, OldPart(size))}, [], 5, Idle, [PUT, DEL], 2) && ReadsAs(All(s), KEY, 2, r)
    ensures r == Some([])
  {
    StoredParts(level, size);
    assert All(s) == {PUT1};
    assert IsNewest(All(s), KEY, 2, PUT1);
  }

  lemma StoredParts(level: nat, size: nat)
    ensures FileEntries(Parts(level, size)) == {PUT1, DEL2}
    ensures FileEntries({Placed(level, OldPart(size))}) == {PUT1}
    ensures level > 0 ==> LevelOrder(Parts(level, size)) && LevelOrder({Placed(level, OldPart(size))})
  {
    assert Placed(level, NewPart(size)) in Parts(level, size) && DEL2 in NewPart(size).entries;
    assert Placed(level, OldPart(size)) in Parts(level, size) && PUT1 in OldPart(size).entries;
    assert Placed(level, OldPart(size)) in {Placed(level, OldPart(size))};
  }

  /** Compacting only the newer part drops the deletion marker as obsolete although the older
      part stays: the key was deleted, and reads as present again. */
  method SplitKeyResurrects(size: nat, grandParentLimit: nat, expandedLimit: nat, overlapLimit: nat)
    returns (db: Database, before: Option<Bytes>, after: Option<Bytes>)
    ensures fresh(db) && db.Valid() && db.history == [PUT, DEL] && MapAt(db.history, 2, KEY) == None
    ensures before == None && after == Some([])
  {
    hide Sound, Inv, LevelOrder, Parts, ReadsAs, ValidLevels, SortedLevels;
    db := WriteBoth();
    var level := SplitBoth(db, size, grandParentLimit, expandedLimit, overlapLimit);
    db.ReleaseSnapshot(0);
    StoredParts(level, size);
    before := db.Get(KEY, None);
    ReadsBefore(db.View(), level, size, before);
    CompactNewer(db, level, size, expandedLimit, overlapLimit);
    after := db.Get(KEY, None);
    ReadsAfter(db.View(), level, size, after);
  }
}
