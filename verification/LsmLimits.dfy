/** Exactly when the two unchecked hypotheses matter. */
module LsmLimits {
  import opened DbFormat
  import opened Lsm
  import opened LsmProof

  /** Moving a file down keeps newest-first order exactly when no older part of one of its
      user keys is left in its level. */
  lemma MoveKeepsOrderIff(s: State, from: nat, file: File)
    requires Shape(s) && Enabled(s, TrivialMove(from, file))
    ensures LevelOrder(Next(s, TrivialMove(from, file)).files) <==> NoOlderLeft(s.files, from, {file})
  {
    hide NoOlderLeft, LevelOrder, RangeClosed;
    assert file in {file};
    if NoOlderLeft(s.files, from, {file}) {
      MoveOrder(s, from, file);
    }
    if LevelOrder(Next(s, TrivialMove(from, file)).files) {
      MoveNeeds(s.files, from, file);
    }
  }

  lemma MoveNeeds(files: set<Placed>, from: nat, file: File)
    requires LevelOrder(files - {Placed(from, file)} + {Placed(from + 1, file)})
    ensures NoOlderLeft(files, from, {file})
  {
    var files' := files - {Placed(from, file)} + {Placed(from + 1, file)};
    forall p | p in files && p.level == from && p.file !in {file} ensures NewerOnShared(p.file, file) {
      assert p in files' && Above(p, Placed(from + 1, file));
    }
  }

  ghost predicate NewestInput(inputs: set<Entry>, b: Entry) {
    b in inputs && forall x :: x in inputs && x.k.user == b.k.user ==> x.k.seqno <= b.k.seqno
  }

  /** For every user key, the level's files that stay hold only entries newer than the newest
      input entry, unless rule (B) drops that entry. */
  ghost predicate LeavesOrder(s: State)
    requires WellFormed(s) && s.compaction.Running?
  {
    var c := s.compaction;
    var inputs := InputEntries(c.in0 + c.in1);
    forall p, a, b ::
      (p in s.files && p.level == c.level && p.file !in c.in0 && a in p.file.entries &&
       NewestInput(inputs, b) && a.k.user == b.k.user) ==>
      a.k.seqno > b.k.seqno || Obsolete(c.files, c.level, c.smallest, b)
  }

  lemma {:induction false} NewestInputExists(inputs: set<Entry>, b: Entry) returns (n: Entry)
    requires b in inputs
    ensures NewestInput(inputs, n) && n.k.user == b.k.user && b.k.seqno <= n.k.seqno
    decreases |inputs|
  {
    if x :| x in inputs && x.k.user == b.k.user && b.k.seqno < x.k.seqno {
      n := NewestInputExists(inputs - {b}, x);
    } else {
      n := b;
    }
  }

  /** Installing a compaction keeps newest-first order exactly when it leaves nothing older. */
  lemma FinishKeepsOrderIff(s: State, outputs: set<File>)
    requires WellFormed(s) && LevelOrder(s.files) && Enabled(s, FinishCompaction(outputs))
    ensures LevelOrder(Next(s, FinishCompaction(outputs)).files) <==> LeavesOrder(s)
  {
    if LevelOrder(Next(s, FinishCompaction(outputs)).files) {
      OrderNeeds(s, outputs);
    }
    if LeavesOrder(s) {
      OrderFollows(s, outputs);
    }
  }

  lemma OrderNeeds(s: State, outputs: set<File>)
    requires WellFormed(s) && LevelOrder(s.files) && Enabled(s, FinishCompaction(outputs))
    requires LevelOrder(Next(s, FinishCompaction(outputs)).files)
    ensures LeavesOrder(s)
  {
    hide Obsolete, NewestInput, GoodOutputs, FilesValid, AtLevel;
    var c := s.compaction;
    var files' := Next(s, FinishCompaction(outputs)).files;
    var inputs := InputEntries(c.in0 + c.in1);
    forall p, a, b | p in s.files && p.level == c.level && p.file !in c.in0 && a in p.file.entries &&
      NewestInput(inputs, b) && a.k.user == b.k.user && !Obsolete(c.files, c.level, c.smallest, b)
      ensures a.k.seqno > b.k.seqno
    {
      NewestStays(c, b);
      var f := OutputWith(s, outputs, b);
      var q := Placed(c.level + 1, f);
      assert p in files' && q in files' && Above(p, q);
    }
  }

  lemma NewestStays(c: Compaction, b: Entry)
    requires c.Running? && FilesValid(c.files) && NewestInput(InputEntries(c.in0 + c.in1), b)
    requires !Obsolete(c.files, c.level, c.smallest, b)
    ensures b in Survivors(c)
  {
    hide Obsolete, FilesValid;
    assert !Hidden(InputEntries(c.in0 + c.in1), c.smallest, b);
  }

  lemma OutputWith(s: State, outputs: set<File>, b: Entry) returns (f: File)
    requires WellFormed(s) && Enabled(s, FinishCompaction(outputs)) && b in Survivors(s.compaction)
    ensures f in outputs && b in f.entries
  {
    hide FilesValid, Survivors, AtLevel, OutputsDisjoint;
    assert b in InputEntries(outputs);
    f :| f in outputs && b in f.entries;
  }

  lemma OrderFollows(s: State, outputs: set<File>)
    requires WellFormed(s) && LevelOrder(s.files) && Enabled(s, FinishCompaction(outputs))
    requires LeavesOrder(s)
    ensures LevelOrder(Next(s, FinishCompaction(outputs)).files)
  {
    var c := s.compaction;
    var files' := Next(s, FinishCompaction(outputs)).files;
    forall p, q | p in files' && q in files' && Above(p, q)
      ensures NewerOnShared(p.file, q.file)
    {
      if p !in s.files || IsInput(c, p) {
        assert p.file in outputs && p.level == c.level + 1;
        if q.level > c.level + 1 {
          assert q in s.files;
          OutputAbove(s, outputs, p.file, q);
        }
      } else if q !in s.files || IsInput(c, q) {
        assert q.file in outputs && q.level == c.level + 1;
        OrderAboveOutput(s, outputs, p, q.file);
      }
    }
  }

  lemma OrderAboveOutput(s: State, outputs: set<File>, p: Placed, f: File)
    requires WellFormed(s) && LevelOrder(s.files) && Enabled(s, FinishCompaction(outputs))
    requires LeavesOrder(s)
    requires f in outputs && p in s.files && !IsInput(s.compaction, p) && p.level < s.compaction.level + 1
    ensures NewerOnShared(p.file, f)
  {
    var c := s.compaction;
    var inputs := InputEntries(c.in0 + c.in1);
    forall a, b | a in p.file.entries && b in f.entries && a.k.user == b.k.user
      ensures a.k.seqno > b.k.seqno
    {
      assert b in InputEntries(outputs);
      assert b in Survivors(c);
      var home := InputHome(s, b);
      if p.level == home.level {
        var n := NewestInputExists(inputs, b);
        if Obsolete(c.files, c.level, c.smallest, n) && n != b {
          SurvivorIsNewest(c, n, b);
        }
      } else {
        assert Above(p, home);
      }
    }
  }

  /** Once the newest input entry of a key is visible to every reader, the key's other entries go. */
  lemma SurvivorIsNewest(c: Compaction, n: Entry, b: Entry)
    requires c.Running? && FilesValid(c.files)
    requires NewestInput(InputEntries(c.in0 + c.in1), n) && b in Survivors(c) && n.k.user == b.k.user
    requires n.k.seqno <= c.smallest
    ensures b.k.seqno == n.k.seqno
  {
    assert !Hidden(InputEntries(c.in0 + c.in1), c.smallest, b);
  }

  // ---------------------------------------------------------------- reads

  /** Everything the run keeps except that nothing older is left behind. */
  ghost predicate Loose(s: State) {
    WellFormed(s) && CompactionSound(s) && LevelOrder(s.files) && Separated(s) &&
    FromHistory(All(s), s.history)
  }

  /** The files of the two input levels that the compaction does not read. */
  ghost function LeftBehind(s: State): set<Placed>
    requires s.compaction.Running?
  {
    set p | p in s.files && !IsInput(s.compaction, p) &&
            (p.level == s.compaction.level || p.level == s.compaction.level + 1)
  }

  /** Looking up the user key of a dropped deletion marker in the files left behind finds no
      value older than the marker, for every marker that a reader at smallest_snapshot relied on. */
  ghost predicate NothingResurfaces(s: State)
    requires WellFormed(s) && s.compaction.Running?
  {
    var c := s.compaction;
    forall e ::
      (e in InputEntries(c.in0 + c.in1) && Obsolete(c.files, c.level, c.smallest, e) &&
       IsNewest(All(s), e.k.user, c.smallest, e)) ==>
      ReadsAs(FileEntries(LeftBehind(s)), e.k.user, e.k.seqno, None)
  }

  ghost predicate SameReads(s: State, s': State, from: nat) {
    forall k: UserKey, n: nat, r: Option<Bytes> :: from <= n && ReadsAs(All(s), k, n, r) ==> ReadsAs(All(s'), k, n, r)
  }

  lemma AboveIsNewer(files: set<Placed>, p: Placed, q: Placed, x: Entry, e: Entry)
    requires LevelOrder(files) && p in files && q in files && Above(p, q)
    requires x in p.file.entries && e in q.file.entries && x.k.user == e.k.user
    ensures x.k.seqno > e.k.seqno
  {
    assert NewerOnShared(p.file, q.file);
  }

  lemma OlderFile(s: State, e: Entry, p: Placed, x: Entry)
    requires WellFormed(s) && s.compaction.Running? && CompactionSound(s) && LevelOrder(s.files)
    requires e in InputEntries(s.compaction.in0 + s.compaction.in1)
    requires IsBase(s.compaction.files, s.compaction.level, e.k.user)
    requires p in s.files && !IsInput(s.compaction, p) && x in p.file.entries
    requires x.k.user == e.k.user && x.k.seqno <= e.k.seqno
    ensures p in LeftBehind(s)
  {
    var home := InputHome(s, e);
    if p.level >= s.compaction.level + 2 {
      BaseHasNone(s, e, p, x);
    } else if p.level < s.compaction.level {
      AboveIsNewer(s.files, p, home, x, e);
    }
  }

  /** What is no newer than a dropped marker and outlives it lies in the files left behind. */
  lemma OlderHome(s: State, outputs: set<File>, e: Entry, x: Entry)
    requires Loose(s) && Enabled(s, FinishCompaction(outputs))
    requires e in InputEntries(s.compaction.in0 + s.compaction.in1)
    requires Obsolete(s.compaction.files, s.compaction.level, s.compaction.smallest, e)
    requires x in All(Next(s, FinishCompaction(outputs))) && x.k.user == e.k.user && x.k.seqno <= e.k.seqno
    ensures x in FileEntries(LeftBehind(s))
  {
    var files' := Next(s, FinishCompaction(outputs)).files;
    InputStored(s, e);
    assert x !in s.mem && x !in ImmEntries(s);
    var p :| p in files' && x in p.file.entries;
    if p in s.files && !IsInput(s.compaction, p) {
      OlderFile(s, e, p, x);
    } else {
      assert p.file in outputs && x in InputEntries(outputs);
      ObsoleteTakesOlder(s, e, x);
    }
  }

  lemma ObsoleteTakesOlder(s: State, e: Entry, x: Entry)
    requires Loose(s) && s.compaction.Running?
    requires e in InputEntries(s.compaction.in0 + s.compaction.in1)
    requires Obsolete(s.compaction.files, s.compaction.level, s.compaction.smallest, e)
    requires x.k.user == e.k.user && x.k.seqno <= e.k.seqno
    ensures x !in Survivors(s.compaction)
  {
    if x in Survivors(s.compaction) {
      InputStored(s, e);
      InputStored(s, x);
      SeqnoDetermines(s, e, x);
    }
  }

  /** One compaction leaves every view at or above smallest_snapshot unchanged exactly when
      no value resurfaces from a file it leaves behind. */
  lemma FinishKeepsReadsIff(s: State, outputs: set<File>)
    requires Loose(s) && Enabled(s, FinishCompaction(outputs))
    ensures SameReads(s, Next(s, FinishCompaction(outputs)), s.compaction.smallest) <==> NothingResurfaces(s)
  {
    if NothingResurfaces(s) {
      forall k: UserKey, n: nat, r: Option<Bytes> | s.compaction.smallest <= n && ReadsAs(All(s), k, n, r)
        ensures ReadsAs(All(Next(s, FinishCompaction(outputs))), k, n, r)
      {
        ReadsSurvive(s, outputs, k, n, r);
      }
    }
    if SameReads(s, Next(s, FinishCompaction(outputs)), s.compaction.smallest) {
      var c := s.compaction;
      forall e | e in InputEntries(c.in0 + c.in1) && Obsolete(c.files, c.level, c.smallest, e) &&
        IsNewest(All(s), e.k.user, c.smallest, e)
        ensures ReadsAs(FileEntries(LeftBehind(s)), e.k.user, e.k.seqno, None)
      {
        ReadsNeed(s, outputs, e);
      }
    }
  }

  lemma LeftBehindStays(s: State, outputs: set<File>, x: Entry)
    requires WellFormed(s) && Enabled(s, FinishCompaction(outputs))
    requires x in FileEntries(LeftBehind(s))
    ensures x in All(Next(s, FinishCompaction(outputs)))
  {
    FinishEntries(s, outputs);
    var p :| p in LeftBehind(s) && x in p.file.entries;
  }

  lemma ReadsSurvive(s: State, outputs: set<File>, k: UserKey, n: nat, r: Option<Bytes>)
    requires Loose(s) && Enabled(s, FinishCompaction(outputs)) && NothingResurfaces(s)
    requires s.compaction.smallest <= n && ReadsAs(All(s), k, n, r)
    ensures ReadsAs(All(Next(s, FinishCompaction(outputs))), k, n, r)
  {
    var s' := Next(s, FinishCompaction(outputs));
    FinishEntries(s, outputs);
    assert All(s') <= All(s);
    if r.Some? {
      var e :| IsNewest(All(s), k, n, e) && e.k.kind.Value? && e.v == r.value;
      NewestSurvives(s, outputs, k, n, e);
      assert IsNewest(All(s'), k, n, e);
    } else {
      forall x | IsNewest(All(s'), k, n, x) ensures x.k.kind.Deletion? {
        var e := NewestExists(All(s), k, n, x);
        NewestSurvives(s, outputs, k, n, e);
        if e !in All(s') {
          assert IsNewest(All(s), k, s.compaction.smallest, e);
          OlderHome(s, outputs, e, x);
          NewestLeftBehind(s, outputs, e, x, n);
        } else {
          SeqnoDetermines(s, e, x);
        }
      }
    }
  }

  lemma NewestLeftBehind(s: State, outputs: set<File>, e: Entry, x: Entry, n: nat)
    requires Loose(s) && Enabled(s, FinishCompaction(outputs))
    requires x in FileEntries(LeftBehind(s)) && x.k.seqno <= e.k.seqno <= n
    requires IsNewest(All(Next(s, FinishCompaction(outputs))), e.k.user, n, x)
    ensures IsNewest(FileEntries(LeftBehind(s)), e.k.user, e.k.seqno, x)
  {
    forall y | y in FileEntries(LeftBehind(s)) && y.k.user == e.k.user && y.k.seqno <= e.k.seqno
      ensures y.k.seqno <= x.k.seqno
    {
      LeftBehindStays(s, outputs, y);
    }
  }

  lemma ReadsNeed(s: State, outputs: set<File>, e: Entry)
    requires Loose(s) && Enabled(s, FinishCompaction(outputs))
    requires SameReads(s, Next(s, FinishCompaction(outputs)), s.compaction.smallest)
    requires e in InputEntries(s.compaction.in0 + s.compaction.in1)
    requires Obsolete(s.compaction.files, s.compaction.level, s.compaction.smallest, e)
    requires IsNewest(All(s), e.k.user, s.compaction.smallest, e)
    ensures ReadsAs(FileEntries(LeftBehind(s)), e.k.user, e.k.seqno, None)
  {
    var s' := Next(s, FinishCompaction(outputs));
    var left := FileEntries(LeftBehind(s));
    var n := s.compaction.smallest;
    FinishEntries(s, outputs);
    assert All(s') <= All(s);
    assert ReadsAs(All(s), e.k.user, n, None) by {
      forall y | IsNewest(All(s), e.k.user, n, y) ensures y.k.kind.Deletion? {
        SeqnoDetermines(s, e, y);
      }
    }
    assert ReadsAs(All(s'), e.k.user, n, None);
    forall x | IsNewest(left, e.k.user, e.k.seqno, x) ensures x.k.kind.Deletion? {
      LeftBehindStays(s, outputs, x);
      forall y | y in All(s') && y.k.user == e.k.user && y.k.seqno <= n ensures y.k.seqno <= x.k.seqno {
        OlderHome(s, outputs, e, y);
      }
      assert IsNewest(All(s'), e.k.user, n, x);
    }
  }

  /** A table flushed while a compaction runs leaves its inputs usable exactly when it does
      not land between them. */
  lemma FlushKeepsInputsIff(s: State, level: nat, file: File)
    requires Shape(s) && s.compaction.Running? && Enabled(s, Flush(level, file))
    ensures GoodInputs(Next(s, Flush(level, file)).files, s.compaction.level, s.compaction.in0, s.compaction.in1)
      <==> FlushFits(s.compaction, level, file)
  {
    var c := s.compaction;
    if FlushFits(c, level, file) {
      FlushDuringCompaction(s, level, file);
    }
    var p := Placed(level, file);
    if GoodInputs(s.files + {p}, c.level, c.in0, c.in1) && level == c.level + 1 {
      assert p in s.files + {p};
      if file in c.in1 {
        assert false;
      }
    }
  }
}
