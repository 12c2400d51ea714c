/** DBImpl::NewIterator: iterating over a database is iterating over the plain map of the writes
    (db/db_impl.cc, db/version_set.cc, db/db_iter.cc). */
module Scan {
  import opened DbFormat
  import opened Lsm
  import opened LsmProof
  import opened LsmSplits
  import opened Version
  import opened VersionBuilder
  import opened CompactionInputs
  import opened Db
  import Merger
  import opened DbIter

  /** The files of the first `n` levels. */
  function PlacedFiles(levels: Levels, n: nat): seq<Placed>
    requires n <= |levels|
  {
    if n == 0 then
      []
    else
      PlacedFiles(levels, n - 1) +
      seq(|levels[n - 1]|, i requires 0 <= i < |levels[n - 1]| => Placed(n - 1, levels[n - 1][i]))
  }

  lemma {:induction false} PlacedFilesAre(levels: Levels, n: nat, p: Placed)
    requires n <= |levels|
    ensures p in PlacedFiles(levels, n) <==> p.level < n && p.file in levels[p.level]
  {
    if n > 0 {
      PlacedFilesAre(levels, n - 1, p);
      var last := seq(|levels[n - 1]|, i requires 0 <= i < |levels[n - 1]| => Placed(n - 1, levels[n - 1][i]));
      if p.level == n - 1 && p.file in levels[n - 1] {
        var i :| 0 <= i < |levels[n - 1]| && levels[n - 1][i] == p.file;
        assert last[i] == p;
      }
    }
  }

  ghost predicate Unrepeated(ps: seq<Placed>) {
    forall i, j :: 0 <= i < j < |ps| ==> ps[i] != ps[j]
  }

  lemma {:induction false} PlacedFilesUnrepeated(levels: Levels, n: nat)
    requires ValidLevels(levels) && n <= NUM_LEVELS
    ensures Unrepeated(PlacedFiles(levels, n))
  {
    if n > 0 {
      PlacedFilesUnrepeated(levels, n - 1);
      var front, files := PlacedFiles(levels, n - 1), levels[n - 1];
      forall p | p in front
        ensures p.level < n - 1
      {
        PlacedFilesAre(levels, n - 1, p);
      }
      assert forall i :: 0 <= i < |front| ==> front[i] in front;
      forall i, j | 0 <= i < j < |files|
        ensures files[i] != files[j]
      {
        NoRepeatsAt(files, i, j);
      }
    }
  }

  /** The children of the internal iterator: memtables first, then every file. */
  function Children(mem: seq<Entry>, imm: Option<seq<Entry>>, files: seq<Placed>): seq<seq<Entry>> {
    [mem] + (if imm.Some? then [imm.value] else []) + seq(|files|, i requires 0 <= i < |files| => files[i].file.entries)
  }

  /** Which container a child is. */
  datatype Source = Mem | Imm | Table(p: Placed)

  ghost function SourceOf(imm: Option<seq<Entry>>, files: seq<Placed>, i: nat): Source
    requires i < 1 + (if imm.Some? then 1 else 0) + |files|
  {
    if i == 0 then Mem
    else if imm.Some? && i == 1 then Imm
    else Table(files[i - 1 - (if imm.Some? then 1 else 0)])
  }

  ghost predicate Contains(db: Database, source: Source, e: Entry)
    reads db
  {
    match source
    case Mem => e in db.mem
    case Imm => db.imm.Some? && e in db.imm.value
    case Table(p) => p in FilesOf(db.levels) && e in p.file.entries
  }

  lemma ChildIs(db: Database, files: seq<Placed>, i: nat, e: Entry)
    requires i < |Children(db.mem, db.imm, files)| && e in Children(db.mem, db.imm, files)[i]
    requires forall p :: p in files ==> p in FilesOf(db.levels)
    ensures i < 1 + (if db.imm.Some? then 1 else 0) + |files|
    ensures Contains(db, SourceOf(db.imm, files, i), e)
  {
    var source := SourceOf(db.imm, files, i);
    if source.Table? {
      assert source.p in files;
    }
  }

  /** No internal key is stored in two places. */
  lemma DifferentKeys(db: Database, a: Source, b: Source, x: Entry, y: Entry)
    requires db.Valid() && a != b && Contains(db, a, x) && Contains(db, b, y)
    ensures x.k != y.k
  {
    var s := db.View();
    assert a.Mem? ==> x in s.mem;
    assert b.Mem? ==> y in s.mem;
    assert a.Imm? ==> x in ImmEntries(s);
    assert b.Imm? ==> y in ImmEntries(s);
    assert a.Table? ==> x in FileEntries(s.files);
    assert b.Table? ==> y in FileEntries(s.files);
    if a.Table? && b.Table? {
      KeysStoredOnce(s, a.p, b.p, x, y);
    }
  }

  lemma ChildrenMergeable(db: Database, files: seq<Placed>)
    requires db.Valid() && files == PlacedFiles(db.levels, NUM_LEVELS)
    ensures var children := Children(db.mem, db.imm, files);
      Merger.SortedAll(children) && Merger.KeysDistinct(children)
  {
    hide Sound;
    var children := Children(db.mem, db.imm, files);
    FilesListed(db.levels, files);
    PlacedFilesUnrepeated(db.levels, NUM_LEVELS);
    ValidLevelFiles(db.levels);
    forall i | 0 <= i < |children|
      ensures Sorted(children[i])
    {
      var source := SourceOf(db.imm, files, i);
      if source.Table? {
        assert source.p in files;
      }
    }
    forall i, j, x: Entry, y: Entry | 0 <= i < |children| && 0 <= j < |children| && i != j && x in children[i] && y in children[j]
      ensures x.k != y.k
    {
      ChildIs(db, files, i, x);
      ChildIs(db, files, j, y);
      SourcesDiffer(db.imm, files, i, j);
      DifferentKeys(db, SourceOf(db.imm, files, i), SourceOf(db.imm, files, j), x, y);
    }
  }

  lemma SourcesDiffer(imm: Option<seq<Entry>>, files: seq<Placed>, i: nat, j: nat)
    requires i != j && Unrepeated(files)
    requires i < 1 + (if imm.Some? then 1 else 0) + |files| && j < 1 + (if imm.Some? then 1 else 0) + |files|
    ensures SourceOf(imm, files, i) != SourceOf(imm, files, j)
  {
  }

  lemma FilesListed(levels: Levels, files: seq<Placed>)
    requires ValidLevels(levels) && files == PlacedFiles(levels, NUM_LEVELS)
    ensures forall p :: p in files <==> p in FilesOf(levels)
  {
    forall p: Placed
      ensures p in files <==> p in FilesOf(levels)
    {
      PlacedFilesAre(levels, NUM_LEVELS, p);
      if p.level < NUM_LEVELS {
        InFiles(levels, p.level, p.file);
      }
    }
  }

  lemma ChildIsStored(db: Database, files: seq<Placed>, i: nat, e: Entry)
    requires db.Lists() && (forall p :: p in files <==> p in FilesOf(db.levels))
    requires i < |Children(db.mem, db.imm, files)| && e in Children(db.mem, db.imm, files)[i]
    ensures e in All(db.View())
  {
    hide FilesOf;
    ChildIs(db, files, i, e);
    hide Children;
    var source := SourceOf(db.imm, files, i);
    if source.Table? {
      assert e in FileEntries(db.View().files);
    }
  }

  lemma StoredIsChild(db: Database, files: seq<Placed>, e: Entry) returns (i: nat)
    requires db.Lists() && (forall p :: p in files <==> p in FilesOf(db.levels)) && e in All(db.View())
    ensures i < |Children(db.mem, db.imm, files)| && e in Children(db.mem, db.imm, files)[i]
  {
    hide FilesOf;
    if e in EntrySet(db.mem) {
      i := 0;
    } else if db.imm.Some? && e in EntrySet(db.imm.value) {
      i := 1;
    } else {
      var p :| p in FilesOf(db.levels) && e in p.file.entries;
      var j :| 0 <= j < |files| && files[j] == p;
      i := 1 + (if db.imm.Some? then 1 else 0) + j;
    }
  }

  lemma ChildrenAreAll(db: Database, files: seq<Placed>)
    requires db.Lists() && files == PlacedFiles(db.levels, NUM_LEVELS)
    ensures AllOf(Children(db.mem, db.imm, files)) == All(db.View())
  {
    var children := Children(db.mem, db.imm, files);
    FilesListed(db.levels, files);
    hide Children, PlacedFiles, FilesOf, All;
    forall e | e in AllOf(children)
      ensures e in All(db.View())
    {
      var i :| 0 <= i < |children| && e in children[i];
      ChildIsStored(db, files, i, e);
    }
    forall e | e in All(db.View())
      ensures e in AllOf(children)
    {
      var i := StoredIsChild(db, files, e);
    }
  }

  lemma UnionVersions(s: State, union: seq<Entry>)
    requires FromHistory(All(s), s.history) && Sorted(union) && EntrySet(union) == All(s)
    ensures Versions(union)
  {
    forall i, j | 0 <= i < j < |union| && union[i].k.user == union[j].k.user
      ensures union[i].k.seqno > union[j].k.seqno
    {
      assert union[i] in EntrySet(union) && union[j] in EntrySet(union);
      SeqnoDetermines(s, union[i], union[j]);
      assert Less(union[i].k, union[j].k);
    }
  }

  /** The entries that an iterator shows are the map after the first `n` operations: the same keys
      with the same values. */
  ghost predicate ShowsMap(all: seq<Entry>, n: nat, history: seq<Op>)
    requires n <= |history|
  {
    forall k: UserKey, v: Bytes ::
      MapAt(history, n, k) == Some(v) <==> exists i: nat :: Shown(all, n, i) && all[i].k.user == k && all[i].v == v
  }

  lemma ShownAreMap(s: State, union: seq<Entry>, n: nat)
    requires Inv(s) && (n == |s.history| || n in s.snapshots) && Sorted(union) && EntrySet(union) == All(s)
    ensures n <= |s.history| && ShowsMap(union, n, s.history)
  {
    assert s.floor <= n <= |s.history|;
    UnionVersions(s, union);
    forall k: UserKey, v: Bytes
      ensures MapAt(s.history, n, k) == Some(v) <==> exists i: nat :: Shown(union, n, i) && union[i].k.user == k && union[i].v == v
    {
      ShownIsMap(union, n, k, v);
      assert ReadsAs(All(s), k, n, MapAt(s.history, n, k));
      if ReadsAs(All(s), k, n, Some(v)) {
        OneAnswer(s, k, n, Some(v), MapAt(s.history, n, k));
      }
    }
  }

  /** DBImpl::NewIterator at the last sequence number or at a live snapshot.  The iterator stands
      over everything stored and, while the invariant of the tree holds, walks over exactly the map
      that the writes up to that point make; what happens to the database later does not concern it. */
  method NewIterator(db: Database, snapshot: Option<nat>) returns (it: DBIter)
    requires db.Valid() && (snapshot.Some? ==> snapshot.value in db.snapshots)
    ensures it.Valid() && !it.valid && fresh(it) && fresh(it.inner)
    ensures it.sequence == if snapshot.Some? then snapshot.value else |db.history|
    ensures EntrySet(it.All()) == All(db.View()) && it.sequence <= |db.history|
    ensures Inv(db.View()) ==> ShowsMap(it.All(), it.sequence, db.history)
  {
    hide Shown, MapAt, Sorted, ShowsMap, Inv;
    var n := if snapshot.Some? then snapshot.value else db.lastSequence;
    var files := PlacedFiles(db.levels, NUM_LEVELS);
    var children := Children(db.mem, db.imm, files);
    ChildrenMergeable(db, files);
    ghost var union := UnionExists(children);
    UnionIsUnion(union, children);
    ChildrenAreAll(db, files);
    if Inv(db.View()) {
      ShownAreMap(db.View(), union, n);
    }
    var inner := new Merger.MergingIterator(children, union);
    it := new DBIter(inner, n);
  }
}
