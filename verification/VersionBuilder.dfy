/** VersionSet::Builder: applying a sequence of edits to a version without building the
    versions in between (db/version_set.cc, db/version_edit.h). */
module VersionBuilder {
  import opened DbFormat
  import opened Lsm
  import opened Version
  import opened CompactionInputs

  datatype Edit = Edit(deletedFiles: set<(nat, nat)>, newFiles: seq<(nat, File)>)

  /** BySmallestKey: by smallest key, ties broken by file number. */
  predicate Before(f: File, g: File)
    requires |f.entries| > 0 && |g.entries| > 0
  {
    Less(Smallest(f), Smallest(g)) || (Smallest(f) == Smallest(g) && f.number < g.number)
  }

  ghost predicate SortedFiles(files: seq<File>) {
    AllValid(files) && forall i, j :: 0 <= i < j < |files| ==> Before(files[i], files[j])
  }

  ghost predicate SortedLevels(levels: Levels) {
    |levels| == NUM_LEVELS && forall l :: 0 <= l < NUM_LEVELS ==> SortedFiles(levels[l])
  }

  /** A strictly sorted list is determined by its elements. */
  lemma {:induction false} SortedUnique(a: seq<File>, b: seq<File>)
    requires SortedFiles(a) && SortedFiles(b) && FileSet(a) == FileSet(b)
    ensures a == b
  {
    if a == [] {
      assert forall i :: 0 <= i < |b| ==> b[i] in FileSet(b);
    } else {
      assert a[0] in FileSet(b);
      assert b[0] in FileSet(a);
      assert a[0] == b[0];
      forall f | f in FileSet(a[1..]) ensures f in FileSet(b[1..]) {
        RestInRest(a, b, f);
      }
      forall f | f in FileSet(b[1..]) ensures f in FileSet(a[1..]) {
        RestInRest(b, a, f);
      }
      SortedUnique(a[1..], b[1..]);
      assert a == [a[0]] + a[1..] && b == [b[0]] + b[1..];
    }
  }

  lemma {:induction false} SortedNoRepeats(files: seq<File>)
    requires SortedFiles(files)
    ensures NoRepeats(files)
  {
    if files != [] {
      var n := |files| - 1;
      SortedNoRepeats(files[..n]);
      assert forall i :: 0 <= i < n ==> Before(files[i], files[n]);
    }
  }

  lemma RestInRest(a: seq<File>, b: seq<File>, f: File)
    requires SortedFiles(a) && SortedFiles(b) && FileSet(a) == FileSet(b)
    requires a != [] && b != [] && a[0] == b[0] && f in a[1..]
    ensures f in b[1..]
  {
    var i :| 1 <= i < |a| && a[i] == f;
    assert f in FileSet(a);
    var j :| 0 <= j < |b| && b[j] == f;
    assert Before(a[0], a[i]);
    assert b[1..][j - 1] == f;
  }

  /** What one edit does to the set of placed files. */
  ghost function ApplyEdit(files: set<Placed>, edit: Edit): set<Placed> {
    (set p | p in files && (p.level, p.file.number) !in edit.deletedFiles) +
    (set i | 0 <= i < |edit.newFiles| :: Placed(edit.newFiles[i].0, edit.newFiles[i].1))
  }

  ghost function ApplyEdits(files: set<Placed>, edits: seq<Edit>): set<Placed> {
    if edits == [] then files
    else ApplyEdit(ApplyEdits(files, edits[..|edits| - 1]), edits[|edits| - 1])
  }

  ghost predicate ValidEdit(edit: Edit) {
    forall i :: 0 <= i < |edit.newFiles| ==> edit.newFiles[i].0 < NUM_LEVELS && ValidFile(edit.newFiles[i].1)
  }

  /** No level is given the same file number twice. */
  ghost predicate FreshIn(known: set<Placed>, edit: Edit) {
    (forall i, p :: 0 <= i < |edit.newFiles| && p in known && p.level == edit.newFiles[i].0 ==>
      p.file.number != edit.newFiles[i].1.number) &&
    (forall i, j :: 0 <= i < j < |edit.newFiles| && edit.newFiles[i].0 == edit.newFiles[j].0 ==>
      edit.newFiles[i].1.number != edit.newFiles[j].1.number)
  }

  class Builder {
    const base: Levels
    var deleted: seq<set<nat>>
    var added: Levels

    ghost predicate Valid()
      reads this
    {
      SortedLevels(base) && SortedLevels(added) && |deleted| == NUM_LEVELS
    }

    /** Every file the builder has heard of. */
    ghost function Known(): set<Placed>
      reads this
    {
      FilesOf(base) + FilesOf(added)
    }

    /** The files of the version that SaveTo would produce. */
    ghost function Result(): set<Placed>
      requires Valid()
      reads this
    {
      set p | p in Known() && p.level < NUM_LEVELS && p.file.number !in deleted[p.level]
    }

    constructor (base: Levels)
      requires SortedLevels(base)
      ensures Valid() && this.base == base && Result() == FilesOf(base) && Known() == FilesOf(base)
      ensures Separate(base, added)
    {
      this.base := base;
      deleted := seq(NUM_LEVELS, i => {});
      added := seq(NUM_LEVELS, i => []);
    }

    /** std::set::insert under BySmallestKey. */
    static method Insert(files: seq<File>, f: File) returns (r: seq<File>)
      requires SortedFiles(files) && ValidFile(f)
      requires forall g :: g in files ==> g.number != f.number
      ensures SortedFiles(r) && forall g :: g in r <==> g in files || g == f
    {
      var i := 0;
      while i < |files| && Before(files[i], f)
        invariant i <= |files|
        invariant forall j :: 0 <= j < i ==> Before(files[j], f)
      {
        i := i + 1;
      }
      hide Before;
      r := files[..i] + [f] + files[i..];
      assert forall g :: g in files <==> g in files[..i] || g in files[i..];
      forall j | i <= j < |files|
        ensures Before(f, files[j])
      {
        assert files[i] in files;
        BeforeTotal(f, files[i]);
        if i < j {
          BeforeTransitive(f, files[i], files[j]);
        }
      }
    }

    method ApplyDeletions(del: set<(nat, nat)>)
      requires Valid() && forall d :: d in del ==> d.0 < NUM_LEVELS
      modifies this`deleted
      ensures Valid()
      ensures forall l, n :: 0 <= l < NUM_LEVELS ==> (n in deleted[l] <==> n in old(deleted[l]) || (l, n) in del)
    {
      var left := del;
      while left != {}
        invariant Valid() && left <= del
        invariant forall l, n :: 0 <= l < NUM_LEVELS ==>
          (n in deleted[l] <==> n in old(deleted[l]) || (l, n) in del - left)
      {
        var d :| d in left;
        deleted := deleted[d.0 := deleted[d.0] + {d.1}];
        left := left - {d};
      }
    }

    method Apply(edit: Edit)
      requires Valid() && ValidEdit(edit) && FreshIn(Known(), edit)
      requires forall d :: d in edit.deletedFiles ==> d.0 < NUM_LEVELS
      requires Separate(base, added)
      modifies this`deleted, this`added
      ensures Valid() && Separate(base, added)
      ensures Known() == old(Known()) + EditFiles(edit, |edit.newFiles|)
      ensures Result() == ApplyEdit(old(Result()), edit)
    {
      ghost var del0 := deleted;
      ghost var known0 := Known();
      ApplyDeletions(edit.deletedFiles);
      assert Erased(deleted, del0, edit, 0);
      hide Erased;
      for i := 0 to |edit.newFiles|
        invariant Valid() && Separate(base, added)
        invariant Known() == known0 + EditFiles(edit, i)
        invariant Erased(deleted, del0, edit, i)
      {
        var level, f := edit.newFiles[i].0, edit.newFiles[i].1;
        NewFileIsFresh(base, added, known0, edit, i);
        ErasedStep(deleted, del0, edit, i);
        deleted := deleted[level := deleted[level] - {f.number}];
        ghost var before := added;
        var inserted := Insert(added[level], f);
        added := added[level := inserted];
        AddedOne(before, added, level, f);
        assert EditFiles(edit, i + 1) == EditFiles(edit, i) + {Placed(level, f)};
      }
      ResultFollows(known0, del0, edit, deleted);
    }

    /** One level of SaveTo: merge the sorted lists, skipping deleted files. */
    static method MergeLevel(disjoint: bool, base: seq<File>, added: seq<File>, deleted: set<nat>) returns (v: seq<File>)
      requires SortedFiles(base) && SortedFiles(added)
      requires forall f, g :: f in base && g in added ==> f.number != g.number
      requires disjoint ==> AliveDisjoint(base, added, deleted)
      ensures SortedFiles(v)
      ensures forall f :: f in v <==> (f in base || f in added) && f.number !in deleted
      ensures disjoint ==> InOrder(v)
    {
      v := [];
      var bi := 0;
      for ai := 0 to |added|
        invariant bi <= |base|
        invariant MergedTo(base, bi, added, ai, deleted, v)
        invariant disjoint ==> InOrder(v)
      {
        while bi < |base| && !Before(added[ai], base[bi])
          invariant bi <= |base|
          invariant MergedTo(base, bi, added, ai, deleted, v)
          invariant disjoint ==> InOrder(v)
        {
          NextFromBase(base, bi, added, ai, deleted, v);
          v := MaybeAddFile(disjoint, base, added, deleted, v, base[bi]);
          bi := bi + 1;
        }
        NextFromAdded(base, bi, added, ai, deleted, v);
        v := MaybeAddFile(disjoint, base, added, deleted, v, added[ai]);
      }
      while bi < |base|
        invariant bi <= |base|
        invariant MergedTo(base, bi, added, |added|, deleted, v)
        invariant disjoint ==> InOrder(v)
      {
        NextFromBase(base, bi, added, |added|, deleted, v);
        v := MaybeAddFile(disjoint, base, added, deleted, v, base[bi]);
        bi := bi + 1;
      }
    }

    /** MaybeAddFile: its assertion, that a file added above level zero starts after the
        last one ends, is proved here. */
    static method MaybeAddFile(disjoint: bool, base: seq<File>, added: seq<File>, deleted: set<nat>,
                               files: seq<File>, f: File)
      returns (r: seq<File>)
      requires SortedFiles(files) && ValidFile(f) && (f in base || f in added)
      requires forall g :: g in files ==> Before(g, f)
      requires forall g :: g in files ==> (g in base || g in added) && g.number !in deleted
      requires disjoint ==> AliveDisjoint(base, added, deleted) && InOrder(files)
      ensures r == if f.number in deleted then files else files + [f]
      ensures SortedFiles(r) && (disjoint ==> InOrder(r))
    {
      if f.number in deleted {
        r := files;
      } else {
        if disjoint && files != [] {
          AfterAll(base, added, deleted, files, f);
          assert Less(Largest(files[|files| - 1]), Smallest(f));
        }
        assert forall i :: 0 <= i < |files| ==> files[i] in files;
        r := files + [f];
      }
    }

    method SaveTo() returns (v: Levels)
      requires Valid() && Separate(base, added)
      requires FilesValid(Result()) && LevelsDisjoint(Result())
      ensures SortedLevels(v) && ValidLevels(v) && FilesOf(v) == Result()
    {
      v := [];
      for level := 0 to NUM_LEVELS
        invariant |v| == level
        invariant forall l :: 0 <= l < level ==> SortedFiles(v[l]) && NoRepeats(v[l]) && (l > 0 ==> InOrder(v[l]))
        invariant forall l, f :: 0 <= l < level ==> (f in v[l] <==> Alive(base[l], added[l], deleted[l], f))
      {
        if level > 0 {
          LevelDisjoint(base, added, deleted, level);
        }
        var files := MergeLevel(level > 0, base[level], added[level], deleted[level]);
        SortedNoRepeats(files);
        v := v + [files];
      }
      SavedIsResult(base, added, deleted, v);
    }
  }

  // ---------------------------------------------------------------- facts about the lists

  ghost predicate Separate(base: Levels, added: Levels)
    requires |base| == |added| == NUM_LEVELS
  {
    forall l, f, g :: 0 <= l < NUM_LEVELS && f in base[l] && g in added[l] ==> f.number != g.number
  }

  ghost function EditFiles(edit: Edit, n: nat): set<Placed>
    requires n <= |edit.newFiles|
  {
    set i | 0 <= i < n :: Placed(edit.newFiles[i].0, edit.newFiles[i].1)
  }

  ghost predicate NewNumber(edit: Edit, n: nat, l: nat, number: nat)
    requires n <= |edit.newFiles|
  {
    exists i :: 0 <= i < n && edit.newFiles[i].0 == l && edit.newFiles[i].1.number == number
  }

  ghost function ResultOf(known: set<Placed>, deleted: seq<set<nat>>): set<Placed>
    requires |deleted| == NUM_LEVELS
  {
    set p | p in known && p.level < NUM_LEVELS && p.file.number !in deleted[p.level]
  }

  /** The deleted numbers after the deletions and the first `n` additions of an edit. */
  ghost predicate Erased(deleted: seq<set<nat>>, del0: seq<set<nat>>, edit: Edit, n: nat) {
    |deleted| == |del0| == NUM_LEVELS && n <= |edit.newFiles| &&
    forall l, x :: 0 <= l < NUM_LEVELS ==>
      (x in deleted[l] <==> (x in del0[l] || (l, x) in edit.deletedFiles) && !NewNumber(edit, n, l, x))
  }

  lemma ErasedStep(deleted: seq<set<nat>>, del0: seq<set<nat>>, edit: Edit, i: nat)
    requires Erased(deleted, del0, edit, i) && ValidEdit(edit) && i < |edit.newFiles|
    ensures var level, f := edit.newFiles[i].0, edit.newFiles[i].1;
      Erased(deleted[level := deleted[level] - {f.number}], del0, edit, i + 1)
  {
    var level, f := edit.newFiles[i].0, edit.newFiles[i].1;
    forall l, x
      ensures NewNumber(edit, i + 1, l, x) <==> NewNumber(edit, i, l, x) || (l == level && x == f.number)
    {
      if NewNumber(edit, i + 1, l, x) {
        var j :| 0 <= j < i + 1 && edit.newFiles[j].0 == l && edit.newFiles[j].1.number == x;
        assert j < i ==> NewNumber(edit, i, l, x);
      }
    }
  }

  lemma NewFileIsFresh(base: Levels, added: Levels, known0: set<Placed>, edit: Edit, i: nat)
    requires |base| == |added| == NUM_LEVELS && i < |edit.newFiles| && ValidEdit(edit) && FreshIn(known0, edit)
    requires FilesOf(base) + FilesOf(added) == known0 + EditFiles(edit, i)
    ensures var level, f := edit.newFiles[i].0, edit.newFiles[i].1;
      (forall g :: g in added[level] ==> g.number != f.number) &&
      (forall g :: g in base[level] ==> g.number != f.number)
  {
    var level, f := edit.newFiles[i].0, edit.newFiles[i].1;
    forall g | g in added[level] || g in base[level] ensures g.number != f.number {
      InFiles(added, level, g);
      InFiles(base, level, g);
      var p := Placed(level, g);
      if p !in known0 {
        var j :| 0 <= j < i && p == Placed(edit.newFiles[j].0, edit.newFiles[j].1);
      }
    }
  }

  lemma AddedOne(before: Levels, after: Levels, level: nat, f: File)
    requires |before| == |after| && level < |before|
    requires forall l :: 0 <= l < |before| && l != level ==> after[l] == before[l]
    requires forall g :: g in after[level] <==> g in before[level] || g == f
    ensures FilesOf(after) == FilesOf(before) + {Placed(level, f)}
  {
    forall p: Placed | p.level < |before| ensures p in FilesOf(after) <==> p in FilesOf(before) + {Placed(level, f)} {
      InFiles(before, p.level, p.file);
      InFiles(after, p.level, p.file);
    }
  }

  lemma ResultFollows(known0: set<Placed>, del0: seq<set<nat>>, edit: Edit, deleted: seq<set<nat>>)
    requires |del0| == |deleted| == NUM_LEVELS && ValidEdit(edit) && FreshIn(known0, edit)
    requires Erased(deleted, del0, edit, |edit.newFiles|)
    ensures ResultOf(known0 + EditFiles(edit, |edit.newFiles|), deleted) == ApplyEdit(ResultOf(known0, del0), edit)
  {
    var n := |edit.newFiles|;
    forall p ensures p in ResultOf(known0 + EditFiles(edit, n), deleted) <==> p in ApplyEdit(ResultOf(known0, del0), edit) {
      if p in EditFiles(edit, n) {
        var i :| 0 <= i < n && p == Placed(edit.newFiles[i].0, edit.newFiles[i].1);
        assert NewNumber(edit, n, p.level, p.file.number);
      } else if p in known0 && p.level < NUM_LEVELS {
        assert !NewNumber(edit, n, p.level, p.file.number);
      }
    }
  }

  ghost predicate Alive(base: seq<File>, added: seq<File>, deleted: set<nat>, f: File) {
    (f in base || f in added) && f.number !in deleted
  }

  ghost predicate AliveDisjoint(base: seq<File>, added: seq<File>, deleted: set<nat>) {
    forall f, g :: Alive(base, added, deleted, f) && Alive(base, added, deleted, g) && f != g ==>
      ValidFile(f) && ValidFile(g) && (Precedes(f, g) || Precedes(g, f))
  }

  /** `v` holds what is alive of the two prefixes, and comes before everything still to merge. */
  ghost predicate MergedTo(base: seq<File>, bi: nat, added: seq<File>, ai: nat, deleted: set<nat>, v: seq<File>)
    requires AllValid(base) && AllValid(added) && bi <= |base| && ai <= |added|
  {
    SortedFiles(v) &&
    (forall f :: f in v <==> (f in base[..bi] || f in added[..ai]) && f.number !in deleted) &&
    (forall f, j :: f in v && bi <= j < |base| ==> |f.entries| > 0 && Before(f, base[j])) &&
    (forall f, j :: f in v && ai <= j < |added| ==> |f.entries| > 0 && Before(f, added[j]))
  }

  lemma BeforeTotal(f: File, g: File)
    requires |f.entries| > 0 && |g.entries| > 0 && f.number != g.number
    ensures Before(f, g) || Before(g, f)
  {
    LessIsPackedOrder(Smallest(f), Smallest(g));
  }

  lemma BeforeTransitive(f: File, g: File, h: File)
    requires |f.entries| > 0 && |g.entries| > 0 && |h.entries| > 0 && Before(f, g) && Before(g, h)
    ensures Before(f, h)
  {
  }

  lemma NextFromBase(base: seq<File>, bi: nat, added: seq<File>, ai: nat, deleted: set<nat>, v: seq<File>)
    requires SortedFiles(base) && SortedFiles(added) && bi < |base| && ai <= |added|
    requires forall f, g :: f in base && g in added ==> f.number != g.number
    requires MergedTo(base, bi, added, ai, deleted, v)
    requires ai < |added| ==> !Before(added[ai], base[bi])
    ensures forall g :: g in v ==> Before(g, base[bi])
    ensures SortedFiles(v + [base[bi]]) ==>
      MergedTo(base, bi + 1, added, ai, deleted, if base[bi].number in deleted then v else v + [base[bi]])
    ensures base[bi].number in deleted ==> MergedTo(base, bi + 1, added, ai, deleted, v)
  {
    hide Before;
    var f := base[bi];
    assert base[..bi + 1] == base[..bi] + [f];
    if ai < |added| {
      assert f in base && added[ai] in added;
      BeforeTotal(f, added[ai]);
      forall j | ai <= j < |added| ensures Before(f, added[j]) {
        if ai < j {
          BeforeTransitive(f, added[ai], added[j]);
        }
      }
    }
  }

  lemma NextFromAdded(base: seq<File>, bi: nat, added: seq<File>, ai: nat, deleted: set<nat>, v: seq<File>)
    requires SortedFiles(base) && SortedFiles(added) && bi <= |base| && ai < |added|
    requires MergedTo(base, bi, added, ai, deleted, v)
    requires bi < |base| ==> Before(added[ai], base[bi])
    ensures forall g :: g in v ==> Before(g, added[ai])
    ensures SortedFiles(v + [added[ai]]) ==>
      MergedTo(base, bi, added, ai + 1, deleted, if added[ai].number in deleted then v else v + [added[ai]])
    ensures added[ai].number in deleted ==> MergedTo(base, bi, added, ai + 1, deleted, v)
  {
    hide Before;
    var f := added[ai];
    assert added[..ai + 1] == added[..ai] + [f];
    forall j | bi <= j < |base| ensures Before(f, base[j]) {
      if bi < j {
        BeforeTransitive(f, base[bi], base[j]);
      }
    }
  }

  lemma AfterAll(base: seq<File>, added: seq<File>, deleted: set<nat>, files: seq<File>, f: File)
    requires AliveDisjoint(base, added, deleted)
    requires SortedFiles(files) && ValidFile(f) && Alive(base, added, deleted, f)
    requires forall g :: g in files ==> Before(g, f) && Alive(base, added, deleted, g)
    ensures forall i :: 0 <= i < |files| ==> Precedes(files[i], f)
  {
    forall i | 0 <= i < |files| ensures Precedes(files[i], f) {
      var g := files[i];
      assert g in files && Before(g, f) && g != f;
      assert Alive(base, added, deleted, g);
      EntryInRange(f, f.entries[0]);
    }
  }

  lemma LevelDisjoint(base: Levels, added: Levels, deleted: seq<set<nat>>, level: nat)
    requires SortedLevels(base) && SortedLevels(added) && |deleted| == NUM_LEVELS && 0 < level < NUM_LEVELS
    requires var result := ResultOf(FilesOf(base) + FilesOf(added), deleted); FilesValid(result) && LevelsDisjoint(result)
    ensures AliveDisjoint(base[level], added[level], deleted[level])
  {
    var result := ResultOf(FilesOf(base) + FilesOf(added), deleted);
    forall f, g | Alive(base[level], added[level], deleted[level], f) && Alive(base[level], added[level], deleted[level], g) && f != g
      ensures ValidFile(f) && ValidFile(g) && (Precedes(f, g) || Precedes(g, f))
    {
      InFiles(base, level, f);
      InFiles(added, level, f);
      InFiles(base, level, g);
      InFiles(added, level, g);
      assert Placed(level, f) in result && Placed(level, g) in result;
    }
  }

  lemma SavedIsResult(base: Levels, added: Levels, deleted: seq<set<nat>>, v: Levels)
    requires |base| == |added| == |deleted| == |v| == NUM_LEVELS
    requires forall l, f :: 0 <= l < NUM_LEVELS ==> (f in v[l] <==> Alive(base[l], added[l], deleted[l], f))
    ensures FilesOf(v) == ResultOf(FilesOf(base) + FilesOf(added), deleted)
  {
    var result := ResultOf(FilesOf(base) + FilesOf(added), deleted);
    forall p: Placed ensures p in FilesOf(v) <==> p in result {
      if p.level < NUM_LEVELS {
        InFiles(v, p.level, p.file);
        InFiles(base, p.level, p.file);
        InFiles(added, p.level, p.file);
        assert p.file in v[p.level] <==> Alive(base[p.level], added[p.level], deleted[p.level], p.file);
      }
    }
  }
}
