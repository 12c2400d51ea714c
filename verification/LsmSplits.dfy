/** When the hypothesis about split user keys holds, and what happens when it does not. */
module LsmSplits {
  import opened DbFormat
  import opened Lsm
  import opened LsmProof

  // ---------------------------------------------------------------- snapshot-free compactions

  /** Inputs of a compaction started when every stored entry was visible at its snapshot. */
  ghost predicate AllVisible(c: Compaction) {
    c.Running? ==> forall e :: e in InputEntries(c.in0 + c.in1) ==> e.k.seqno <= c.smallest
  }

  ghost predicate UnsplitInv(s: State) {
    Inv(s) && Unsplit(s.files) && AllVisible(s.compaction)
  }

  /** The events of a tree that starts no compaction while a snapshot is live and flushes
      during a compaction only when its inputs are connected. */
  ghost predicate SnapshotFree(s: State, ev: Event)
    requires WellFormed(s) && Enabled(s, ev)
  {
    match ev
    case BeginCompaction(from, in0, in1) => s.snapshots == []
    case Flush(level, file) => s.compaction.Running? ==> Connected(s.compaction.in0 + s.compaction.in1)
    case _ => true
  }

  /** Range-picked inputs of an unsplit tree leave nothing older behind. */
  lemma PickedLeavesNothingOlder(files: set<Placed>, level: nat, in0: set<File>, in1: set<File>)
    requires PickedByRange(files, level, in0, in1) && Unsplit(files)
    ensures NoOlderLeft(files, level, in0) && NoOlderLeft(files, level + 1, in1)
  {
    forall p, f | p in files && p.level == level && p.file !in in0 && f in in0
      ensures NewerOnShared(p.file, f)
    {
      if level == 0 {
        SharedMeansOverlap(p.file, Placed(0, f).file);
      } else {
        assert NoSharedUser(p.file, Placed(level, f).file);
      }
    }
    forall p, f | p in files && p.level == level + 1 && p.file !in in1 && f in in1
      ensures NewerOnShared(p.file, f)
    {
      assert NoSharedUser(p.file, Placed(level + 1, f).file);
    }
  }

  /** A table that PickLevelForMemTableOutput sinks to the output level lies outside
      connected inputs. */
  lemma ConnectedFlushFits(s: State, level: nat, file: File)
    requires WellFormed(s) && Enabled(s, Flush(level, file)) && s.compaction.Running?
    requires s.compaction.in0 != {} && Connected(s.compaction.in0 + s.compaction.in1)
    ensures FlushFits(s.compaction, level, file)
  {
    var c := s.compaction;
    var group := c.in0 + c.in1;
    if level == c.level + 1 {
      forall f | f in group ensures !UserOverlap(f, file) {
        if f in c.in0 {
          assert !UserOverlap(Placed(c.level, f).file, file);
        } else {
          assert !UserOverlap(Placed(c.level + 1, f).file, file);
        }
      }
      EntryInRange(file, file.entries[0]);
      var k := Smallest(file).user;
      assert NoGapAt(group, k);
      if forall f :: f in group ==> EndsBefore(f, k) {
        forall f | f in group ensures Precedes(f, file) {
          assert EndsBefore(f, k);
        }
      } else {
        forall f | f in group ensures Precedes(file, f) {
          assert !UserOverlap(f, file) && ValidFile(f);
          assert !Covers(f, k);
          assert forall g :: g in group ==> !UserOverlap(g, file) && !Covers(g, k);
          assert StartsAfter(f, k);
        }
      }
    }
  }

  lemma SnapshotFreeIsCareful(s: State, ev: Event)
    requires UnsplitInv(s) && Enabled(s, ev) && SnapshotFree(s, ev)
    ensures Careful(s, ev)
  {
    match ev
    case Flush(level, file) =>
      if s.compaction.Running? {
        ConnectedFlushFits(s, level, file);
      }
    case TrivialMove(from, file) => PickedLeavesNothingOlder(s.files, from, {file}, {});
    case BeginCompaction(from, in0, in1) => PickedLeavesNothingOlder(s.files, from, in0, in1);
    case _ =>
  }

  lemma FlushStaysUnsplit(s: State, level: nat, file: File)
    requires UnsplitInv(s) && Enabled(s, Flush(level, file))
    ensures Unsplit(Next(s, Flush(level, file)).files)
  {
    var files' := Next(s, Flush(level, file)).files;
    forall p, q | p in files' && q in files' && p != q && p.level == q.level > 0
      ensures NoSharedUser(p.file, q.file)
    {
      if p == Placed(level, file) {
        SharedMeansOverlap(q.file, file);
      } else if q == Placed(level, file) {
        SharedMeansOverlap(p.file, file);
      }
    }
  }

  lemma MoveStaysUnsplit(s: State, from: nat, file: File)
    requires UnsplitInv(s) && Enabled(s, TrivialMove(from, file))
    ensures Unsplit(Next(s, TrivialMove(from, file)).files)
  {
    var files' := Next(s, TrivialMove(from, file)).files;
    var moved := Placed(from + 1, file);
    assert file in {file};
    forall q | q in files' && q != moved && q.level == from + 1
      ensures NoSharedUser(q.file, file) && NoSharedUser(file, q.file)
    {
      assert q in s.files && q.file !in {};
      assert NoSharedUser(q.file, file);
    }
  }

  /** A compaction that sees everything keeps at most one entry per user key. */
  lemma OneSurvivorPerKey(s: State, a: Entry, b: Entry)
    requires Inv(s) && s.compaction.Running? && AllVisible(s.compaction)
    requires a in Survivors(s.compaction) && b in Survivors(s.compaction) && a.k.user == b.k.user
    ensures a == b
  {
    var c := s.compaction;
    var inputs := InputEntries(c.in0 + c.in1);
    assert !Hidden(inputs, c.smallest, a) && !Hidden(inputs, c.smallest, b);
    assert a in inputs && b in inputs;
    InputStored(s, a);
    InputStored(s, b);
    SeqnoDetermines(s, a, b);
  }

  lemma OutputsShareNothing(s: State, outputs: set<File>, f: File, g: File)
    requires UnsplitInv(s) && Enabled(s, FinishCompaction(outputs))
    requires f in outputs && g in outputs && f != g
    ensures NoSharedUser(f, g)
  {
    forall a, b | a in f.entries && b in g.entries ensures a.k.user != b.k.user {
      assert a in InputEntries(outputs) && b in InputEntries(outputs);
      if a.k.user == b.k.user {
        OneSurvivorPerKey(s, a, b);
        if Precedes(f, g) {
          DisjointFilesShareNoEntry(f, g, a);
        } else {
          DisjointFilesShareNoEntry(g, f, a);
        }
      }
    }
  }

  lemma OutputSharesNothingBeside(s: State, outputs: set<File>, p: Placed, f: File)
    requires UnsplitInv(s) && Enabled(s, FinishCompaction(outputs))
    requires f in outputs && p in s.files && !IsInput(s.compaction, p) && p.level == s.compaction.level + 1
    ensures NoSharedUser(p.file, f) && NoSharedUser(f, p.file)
  {
    forall a, b | a in p.file.entries && b in f.entries ensures a.k.user != b.k.user {
      assert b in InputEntries(outputs);
      var home := InputHome(s, b);
      assert NoSharedUser(p.file, home.file);
    }
  }

  lemma FinishStaysUnsplit(s: State, outputs: set<File>)
    requires UnsplitInv(s) && Enabled(s, FinishCompaction(outputs))
    ensures Unsplit(Next(s, FinishCompaction(outputs)).files)
  {
    var c := s.compaction;
    var files' := Next(s, FinishCompaction(outputs)).files;
    forall p, q | p in files' && q in files' && p != q && p.level == q.level > 0
      ensures NoSharedUser(p.file, q.file)
    {
      var oldP, oldQ := p in s.files && !IsInput(c, p), q in s.files && !IsInput(c, q);
      if oldP && !oldQ {
        OutputSharesNothingBeside(s, outputs, p, q.file);
      } else if !oldP && oldQ {
        OutputSharesNothingBeside(s, outputs, q, p.file);
      } else if !oldP && !oldQ {
        OutputsShareNothing(s, outputs, p.file, q.file);
      }
    }
  }

  lemma BeginSeesAll(s: State, from: nat, in0: set<File>, in1: set<File>)
    requires UnsplitInv(s) && Enabled(s, BeginCompaction(from, in0, in1)) && s.snapshots == []
    ensures AllVisible(Next(s, BeginCompaction(from, in0, in1)).compaction)
  {
    forall e | e in InputEntries(in0 + in1) ensures e.k.seqno <= |s.history| {
      var f :| f in in0 + in1 && e in f.entries;
      assert Placed(from, f) in s.files || Placed(from + 1, f) in s.files;
      assert e in FileEntries(s.files);
    }
  }

  lemma SnapshotFreeStepKeeps(s: State, ev: Event)
    requires UnsplitInv(s) && Enabled(s, ev) && SnapshotFree(s, ev)
    ensures UnsplitInv(Next(s, ev))
  {
    SnapshotFreeIsCareful(s, ev);
    StepKeeps(s, ev);
    match ev
    case Flush(level, file) => FlushStaysUnsplit(s, level, file);
    case TrivialMove(from, file) => MoveStaysUnsplit(s, from, file);
    case BeginCompaction(from, in0, in1) => BeginSeesAll(s, from, in0, in1);
    case FinishCompaction(outputs) => FinishStaysUnsplit(s, outputs);
    case _ =>
  }

  ghost predicate SnapshotFreeRun(states: seq<State>, events: seq<Event>) {
    IsRun(states, events) && forall i :: 0 <= i < |events| ==> SnapshotFree(states[i], events[i])
  }

  /** In every run whose compactions start with no live snapshot, no user key lives in two
      files of one level, newer data lies in younger containers, and reading at the last
      sequence number agrees with the plain map of the writes. */
  lemma {:induction false} SnapshotFreeRunReadsRight(states: seq<State>, events: seq<Event>, i: nat)
    requires SnapshotFreeRun(states, events) && i < |states|
    ensures UnsplitInv(states[i])
    ensures Unsplit(states[i].files) && LevelOrder(states[i].files) && Separated(states[i])
    ensures forall k: UserKey :: ReadsAs(All(states[i]), k, |states[i].history|,
      MapAt(states[i].history, |states[i].history|, k))
  {
    if i == 0 {
      InitInv();
    } else {
      SnapshotFreeRunReadsRight(states, events, i - 1);
      SnapshotFreeStepKeeps(states[i - 1], events[i - 1]);
    }
  }
}
