/** Merging, dropping and cutting (DBImpl::DoCompactionWork in db/db_impl.cc; class Compaction
    in db/version_set.cc). */
module CompactionWork {
  import opened DbFormat
  import opened Lsm
  import opened Version
  import opened CompactionInputs
  import opened CompactionCuts

  /** The bookkeeping that a running compaction updates in place. */
  class Cursor {
    const level: nat
    const levels: Levels
    const grandparents: seq<File>
    const overlapLimit: nat
    var levelPtrs: seq<nat>
    var grandparentIndex: nat
    var seenKey: bool
    var overlappedBytes: nat

    ghost predicate Valid()
      reads this
    {
      ValidLevels(levels) && |levelPtrs| == NUM_LEVELS && AllValid(grandparents) &&
      grandparentIndex <= |grandparents| &&
      forall l :: 0 <= l < NUM_LEVELS ==> levelPtrs[l] <= |levels[l]|
    }

    /** Every file a level pointer has passed ends before `k`. */
    ghost predicate PassedBefore(k: UserKey)
      requires Valid()
      reads this
    {
      forall l, i :: 0 <= l < NUM_LEVELS && 0 <= i < levelPtrs[l] ==> Largest(levels[l][i]).user < k
    }

    constructor (level: nat, levels: Levels, grandparents: seq<File>, overlapLimit: nat)
      requires ValidLevels(levels) && AllValid(grandparents)
      ensures Valid() && this.level == level && this.levels == levels && forall k: UserKey :: PassedBefore(k)
      ensures grandparentIndex == 0 && !seenKey && overlappedBytes == 0
      ensures this.grandparents == grandparents && this.overlapLimit == overlapLimit
    {
      this.level, this.levels, this.grandparents, this.overlapLimit := level, levels, grandparents, overlapLimit;
      levelPtrs := seq(NUM_LEVELS, i => 0);
      grandparentIndex, seenKey, overlappedBytes := 0, false, 0;
    }

    /** IsBaseLevelForKey.  Asked about keys in order, the pointers that only ever move forward
        answer as a scan of every deeper file would. */
    method IsBaseLevelForKey(k: UserKey) returns (base: bool)
      requires Valid() && PassedBefore(k)
      modifies this`levelPtrs
      ensures Valid() && PassedBefore(k)
      ensures FilesValid(FilesOf(levels))
      ensures base <==> IsBase(FilesOf(levels), level, k)
      ensures base <==> forall l, i :: level + 2 <= l < 7 && 0 <= i < |levels[l]| ==>
        k < Smallest(levels[l][i]).user || Largest(levels[l][i]).user < k
    {
      BaseMeans(levels, level, k);
      ValidLevelFiles(levels);
      var lvl := level + 2;
      while lvl < NUM_LEVELS
        invariant Valid() && PassedBefore(k) && level + 2 <= lvl
        invariant forall l, i :: level + 2 <= l < lvl && l < NUM_LEVELS && 0 <= i < |levels[l]| ==> !Covers(levels[l][i], k)
        decreases NUM_LEVELS - lvl
      {
        var at, hit := AdvanceLevel(lvl, k);
        if hit {
          PlacedIn(levels, lvl, at);
          return false;
        }
        lvl := lvl + 1;
      }
      forall p | p in FilesOf(levels) && p.level >= level + 2 ensures !Covers(p.file, k) {
        InFiles(levels, p.level, p.file);
      }
      return true;
    }

    /** One level of IsBaseLevelForKey. */
    method AdvanceLevel(lvl: nat, k: UserKey) returns (at: nat, hit: bool)
      requires Valid() && PassedBefore(k) && 1 <= lvl < NUM_LEVELS
      modifies this`levelPtrs
      ensures Valid() && PassedBefore(k)
      ensures hit ==> at < |levels[lvl]| && Covers(levels[lvl][at], k)
      ensures !hit ==> forall i :: 0 <= i < |levels[lvl]| ==> !Covers(levels[lvl][i], k)
    {
      hit := false;
      while levelPtrs[lvl] < |levels[lvl]|
        invariant Valid() && PassedBefore(k)
        decreases |levels[lvl]| - levelPtrs[lvl]
      {
        var f := levels[lvl][levelPtrs[lvl]];
        if k <= Largest(f).user {
          at := levelPtrs[lvl];
          hit := k >= Smallest(f).user;
          forall i | at < i < |levels[lvl]| && !hit ensures !Covers(levels[lvl][i], k) {
            assert Precedes(f, levels[lvl][i]);
            EntryInRange(f, f.entries[0]);
          }
          return;
        }
        levelPtrs := levelPtrs[lvl := levelPtrs[lvl] + 1];
      }
      at := levelPtrs[lvl];
    }

    /** ShouldStopBefore: close the output once it overlaps too much of the level below. */
    method ShouldStopBefore(key: IKey) returns (stop: bool)
      requires Valid()
      requires forall i :: 0 <= i < grandparentIndex ==> Less(Largest(grandparents[i]), key)
      modifies this`grandparentIndex, this`seenKey, this`overlappedBytes
      ensures Valid() && seenKey
      ensures forall i :: 0 <= i < grandparentIndex ==> Less(Largest(grandparents[i]), key)
      ensures grandparentIndex < |grandparents| ==> !Less(Largest(grandparents[grandparentIndex]), key)
      ensures var passed := TotalFileSize(grandparents[..grandparentIndex]) -
                            TotalFileSize(grandparents[..old(grandparentIndex)]);
        var bytes := old(overlappedBytes) + if old(seenKey) then passed else 0;
        (stop <==> bytes > overlapLimit) && overlappedBytes == if stop then 0 else bytes
    {
      var counting := seenKey;
      while grandparentIndex < |grandparents| && Less(Largest(grandparents[grandparentIndex]), key)
        invariant Valid() && old(grandparentIndex) <= grandparentIndex && seenKey == counting
        invariant forall i :: 0 <= i < grandparentIndex ==> Less(Largest(grandparents[i]), key)
        invariant overlappedBytes == old(overlappedBytes) +
          if counting then TotalFileSize(grandparents[..grandparentIndex]) - TotalFileSize(grandparents[..old(grandparentIndex)])
          else 0
        decreases |grandparents| - grandparentIndex
      {
        assert grandparents[..grandparentIndex + 1][..grandparentIndex] == grandparents[..grandparentIndex];
        if seenKey {
          overlappedBytes := overlappedBytes + grandparents[grandparentIndex].size;
        }
        grandparentIndex := grandparentIndex + 1;
      }
      seenKey := true;
      stop := overlappedBytes > overlapLimit;
      if stop {
        overlappedBytes := 0;
      }
    }
  }

  /** No file at least two levels below the inputs covers the key. */
  lemma BaseMeans(levels: Levels, level: nat, k: UserKey)
    requires ValidLevels(levels)
    ensures FilesValid(FilesOf(levels))
    ensures IsBase(FilesOf(levels), level, k) <==> forall l, i :: level + 2 <= l < 7 && 0 <= i < |levels[l]| ==>
      k < Smallest(levels[l][i]).user || Largest(levels[l][i]).user < k
  {
    ValidLevelFiles(levels);
    if IsBase(FilesOf(levels), level, k) {
      forall l, i | level + 2 <= l < 7 && 0 <= i < |levels[l]|
        ensures k < Smallest(levels[l][i]).user || Largest(levels[l][i]).user < k
      {
        PlacedIn(levels, l, i);
        assert Placed(l, levels[l][i]).level >= level + 2;
      }
    }
  }

  /** The bookkeeping of ShouldStopBefore stands where the plan says, before entry `i` comes up. */
  ghost predicate Counts(c: Cursor, p: Plan, i: nat)
    reads c
  {
    PlanOk(p) && i <= |p.merged| && p.grandparents == c.grandparents && p.limit == c.overlapLimit &&
    if i == 0 then
      !c.seenKey && c.grandparentIndex == 0 && c.overlappedBytes == 0
    else
      c.seenKey && c.grandparentIndex == OverlapAt(p, i - 1).index && c.overlappedBytes == OverlapAt(p, i - 1).bytes
  }

  lemma PassedIs(gs: seq<File>, from: nat, k: IKey, n: nat)
    requires AllValid(gs) && from <= n <= |gs| && (forall g :: from <= g < n ==> Less(Largest(gs[g]), k))
    requires n < |gs| ==> !Less(Largest(gs[n]), k)
    ensures Passed(gs, from, k) == n
  {
  }

  /** What ShouldStopBefore does to the count. */
  lemma CountStep(p: Plan, i: nat, from: nat, before: nat, seen: bool, index: nat, stop: bool, bytes: nat)
    requires PlanOk(p) && i < |p.merged| && from <= index <= |p.grandparents|
    requires if i == 0 then !seen && from == 0 && before == 0
      else seen && from == OverlapAt(p, i - 1).index && before == OverlapAt(p, i - 1).bytes
    requires forall g :: from <= g < index ==> Less(Largest(p.grandparents[g]), p.merged[i].k)
    requires index < |p.grandparents| ==> !Less(Largest(p.grandparents[index]), p.merged[i].k)
    requires var passed := TotalFileSize(p.grandparents[..index]) - TotalFileSize(p.grandparents[..from]);
      var sum := before + if seen then passed else 0;
      (stop <==> sum > p.limit) && bytes == if stop then 0 else sum
    ensures OverlapAt(p, i) == Overlap(index, bytes, stop) && (StopsAt(p, i) <==> stop)
  {
    PassedIs(p.grandparents, from, p.merged[i].k, index);
  }

  // ---------------------------------------------------------------- the merge loop

  /** Sorted, and one version of a user key per sequence number. */
  ghost predicate MergedInput(merged: seq<Entry>) {
    Sorted(merged) &&
    forall i, j :: 0 <= i < j < |merged| && merged[i].k.user == merged[j].k.user ==> merged[i].k.seqno > merged[j].k.seqno
  }

  ghost predicate Keep(merged: seq<Entry>, files: set<Placed>, level: nat, smallest: nat, e: Entry)
    requires FilesValid(files)
  {
    !Hidden(EntrySet(merged), smallest, e) && !Obsolete(files, level, smallest, e)
  }

  /** The entries among the first `n` that rules (A) and (B) keep, in order. */
  ghost function Kept(merged: seq<Entry>, n: nat, files: set<Placed>, level: nat, smallest: nat): (r: seq<Entry>)
    requires FilesValid(files) && n <= |merged|
    ensures forall e :: e in r <==> e in merged[..n] && Keep(merged, files, level, smallest, e)
  {
    if n == 0 then []
    else
      assert merged[..n] == merged[..n - 1] + [merged[n - 1]];
      Kept(merged, n - 1, files, level, smallest) +
      if Keep(merged, files, level, smallest, merged[n - 1]) then [merged[n - 1]] else []
  }

  lemma {:induction false} KeptSorted(merged: seq<Entry>, n: nat, files: set<Placed>, level: nat, smallest: nat)
    requires FilesValid(files) && n <= |merged| && Sorted(merged)
    ensures Sorted(Kept(merged, n, files, level, smallest))
  {
    if n > 0 {
      KeptSorted(merged, n - 1, files, level, smallest);
      var before := Kept(merged, n - 1, files, level, smallest);
      forall i | 0 <= i < |before| ensures Less(before[i].k, merged[n - 1].k) {
        assert before[i] in before;
        assert before[i] in merged[..n - 1];
      }
    }
  }

  /** last_sequence_for_key at or below the oldest snapshot means hidden by a newer entry. */
  lemma HiddenByPrevious(merged: seq<Entry>, i: nat, smallest: nat)
    requires MergedInput(merged) && i < |merged|
    ensures Hidden(EntrySet(merged), smallest, merged[i]) <==>
      i > 0 && merged[i - 1].k.user == merged[i].k.user && merged[i - 1].k.seqno <= smallest
  {
    if Hidden(EntrySet(merged), smallest, merged[i]) {
      var x :| x in EntrySet(merged) && x.k.user == merged[i].k.user && merged[i].k.seqno < x.k.seqno <= smallest;
      var j :| 0 <= j < |merged| && merged[j] == x;
      assert j < i;
      if j < i - 1 {
        assert Less(merged[j].k, merged[i - 1].k) && Less(merged[i - 1].k, merged[i].k);
      }
    }
    if i > 0 && merged[i - 1].k.user == merged[i].k.user && merged[i - 1].k.seqno <= smallest {
      assert merged[i - 1] in EntrySet(merged);
    }
  }

  function Flat(outputs: seq<File>): seq<Entry> {
    if outputs == [] then [] else Flat(outputs[..|outputs| - 1]) + outputs[|outputs| - 1].entries
  }

  ghost predicate Numbered(outputs: seq<File>, numbers: seq<nat>) {
    |outputs| <= |numbers| &&
    forall j :: 0 <= j < |outputs| ==> outputs[j].number == numbers[j] && outputs[j].entries != []
  }

  /** The entry after which its output has reached the size limit. */
  ghost predicate Fills(merged: seq<Entry>, full: seq<bool>, e: Entry) {
    exists x :: 0 <= x < |merged| && x < |full| && full[x] && merged[x] == e
  }

  /** An output is closed as soon as it is full. */
  ghost predicate CutWhenFull(merged: seq<Entry>, full: seq<bool>, size: nat, outputs: seq<File>) {
    forall f :: f in outputs ==> f.size == size && NotFullInside(merged, full, f.entries)
  }

  ghost predicate NotFullInside(merged: seq<Entry>, full: seq<bool>, entries: seq<Entry>) {
    forall y :: 0 <= y < |entries| - 1 ==> !Fills(merged, full, entries[y])
  }

  /** FinishCompactionOutputFile. */
  method FinishOutput(outputs: seq<File>, numbers: seq<nat>, size: nat, current: seq<Entry>) returns (r: seq<File>)
    requires current != [] && Numbered(outputs, numbers) && |outputs| < |numbers|
    ensures r == outputs + [File(numbers[|outputs|], size, current)]
    ensures Numbered(r, numbers) && Flat(r) == Flat(outputs) + current
  {
    r := outputs + [File(numbers[|outputs|], size, current)];
    assert r[..|r| - 1] == outputs;
  }

  /** The drop decision of one iteration, given the user key and sequence number of the
      entry before. */
  method Decide(c: Cursor, merged: seq<Entry>, i: nat, smallest: nat,
                previousKey: Option<UserKey>, previousSequence: nat)
    returns (drop: bool)
    requires c.Valid() && MergedInput(merged) && i < |merged| && c.PassedBefore(merged[i].k.user)
    requires smallest < MAX_SEQUENCE_NUMBER
    requires i > 0 ==> previousKey == Some(merged[i - 1].k.user) && previousSequence == merged[i - 1].k.seqno
    requires i == 0 ==> previousKey == None
    modifies c`levelPtrs
    ensures c.Valid() && c.PassedBefore(merged[i].k.user) && FilesValid(FilesOf(c.levels))
    ensures drop <==> !Keep(merged, FilesOf(c.levels), c.level, smallest, merged[i])
  {
    var e := merged[i];
    ValidLevelFiles(c.levels);
    HiddenByPrevious(merged, i, smallest);
    var lastSequenceForKey := previousSequence;
    if previousKey != Some(e.k.user) {
      lastSequenceForKey := MAX_SEQUENCE_NUMBER;
    }
    drop := false;
    if lastSequenceForKey <= smallest {
      drop := true;
    } else if e.k.kind.Deletion? && e.k.seqno <= smallest {
      drop := c.IsBaseLevelForKey(e.k.user);
    }
  }

  /** Add one kept entry, closing the output when it is full. */
  method AddToOutput(outputs: seq<File>, current: seq<Entry>, numbers: seq<nat>, size: nat, e: Entry, full: bool)
    returns (outputs': seq<File>, current': seq<Entry>)
    requires Numbered(outputs, numbers) && |outputs| < |numbers|
    ensures Numbered(outputs', numbers) && |outputs'| + (if current' == [] then 0 else 1) == |outputs| + 1
    ensures Flat(outputs') + current' == Flat(outputs) + current + [e]
    ensures if full then outputs' == outputs + [File(numbers[|outputs|], size, current + [e])] && current' == []
      else outputs' == outputs && current' == current + [e]
  {
    outputs', current' := outputs, current + [e];
    if full {
      outputs' := FinishOutput(outputs, numbers, size, current');
      current' := [];
    }
  }

  lemma MovesForward(c: Cursor, a: IKey, b: IKey)
    requires c.Valid() && Less(a, b) && c.PassedBefore(a.user)
    requires forall g :: 0 <= g < c.grandparentIndex ==> Less(Largest(c.grandparents[g]), a)
    ensures c.PassedBefore(b.user)
    ensures forall g :: 0 <= g < c.grandparentIndex ==> Less(Largest(c.grandparents[g]), b)
  {
  }

  ghost predicate PassedEntry(c: Cursor, k: IKey)
    requires c.Valid()
    reads c
  {
    c.PassedBefore(k.user) && forall g :: 0 <= g < c.grandparentIndex ==> Less(Largest(c.grandparents[g]), k)
  }

  lemma KeptStep(merged: seq<Entry>, i: nat, files: set<Placed>, level: nat, smallest: nat)
    requires FilesValid(files) && i < |merged|
    ensures Kept(merged, i + 1, files, level, smallest) ==
      if Keep(merged, files, level, smallest, merged[i]) then Kept(merged, i, files, level, smallest) + [merged[i]]
      else Kept(merged, i, files, level, smallest)
  {
  }

  /** What the loop remembers of the entry before entry `i`. */
  ghost predicate Remembers(merged: seq<Entry>, i: nat, key: Option<UserKey>, sequence: nat)
    requires i <= |merged|
  {
    if i == 0 then key == None
    else key == Some(merged[i - 1].k.user) && sequence == merged[i - 1].k.seqno
  }

  /** The closed outputs and the open one hold what is kept of the first `i` entries. */
  ghost predicate Written(merged: seq<Entry>, i: nat, files: set<Placed>, level: nat, smallest: nat,
                          numbers: seq<nat>, outputs: seq<File>, current: seq<Entry>)
    requires FilesValid(files) && i <= |merged|
  {
    Numbered(outputs, numbers) && |outputs| + (if current == [] then 0 else 1) <= i &&
    Flat(outputs) + current == Kept(merged, i, files, level, smallest)
  }

  /** ShouldStopBefore, asked about entry `i`. */
  method CountStop(c: Cursor, p: Plan, i: nat) returns (stop: bool)
    requires c.Valid() && i < |p.merged| && PassedEntry(c, p.merged[i].k) && Counts(c, p, i)
    modifies c`grandparentIndex, c`seenKey, c`overlappedBytes
    ensures c.Valid() && PassedEntry(c, p.merged[i].k) && Counts(c, p, i + 1)
    ensures stop == StopsAt(p, i)
  {
    hide StopsAt, Sorted, ValidLevels, AllValid, OverlapAt, TotalFileSize;
    stop := c.ShouldStopBefore(p.merged[i].k);
    CountStep(p, i, old(c.grandparentIndex), old(c.overlappedBytes), old(c.seenKey), c.grandparentIndex, stop, c.overlappedBytes);
  }

  /** A stop closes the open output. */
  method CutAtStop(ghost p: Plan, ghost i: nat, stop: bool, numbers: seq<nat>, size: nat, outputs: seq<File>, current: seq<Entry>)
    returns (outputs': seq<File>, current': seq<Entry>)
    requires PlanOk(p) && stop == StopsAt(p, i)
    requires Numbered(outputs, numbers) && |outputs| + (if current == [] then 0 else 1) <= i < |numbers|
    requires CutSoFar(p, i, i, outputs, current) && Sized(outputs, size)
    ensures Numbered(outputs', numbers) && |outputs'| + (if current' == [] then 0 else 1) <= i
    ensures Flat(outputs') + current' == Flat(outputs) + current
    ensures CutSoFar(p, i, i + 1, outputs', current') && Sized(outputs', size)
  {
    hide CutSoFar, StopsAt, PlanOk;
    outputs', current' := outputs, current;
    StopStep(p, i, outputs, current, File(numbers[|outputs|], size, current));
    if stop && current != [] {
      outputs' := FinishOutput(outputs, numbers, size, current);
      current' := [];
    }
  }

  ghost predicate Sized(outputs: seq<File>, size: nat) {
    forall f :: f in outputs ==> f.size == size
  }

  lemma CountsPlan(c: Cursor, p: Plan, i: nat)
    requires Counts(c, p, i)
    ensures PlanOk(p)
  {
  }

  method DecideEntry(c: Cursor, p: Plan, i: nat, smallest: nat, previousKey: Option<UserKey>, previousSequence: nat)
    returns (drop: bool)
    requires c.Valid() && MergedInput(p.merged) && i < |p.merged| && PassedEntry(c, p.merged[i].k) && Counts(c, p, i + 1)
    requires smallest < MAX_SEQUENCE_NUMBER && Remembers(p.merged, i, previousKey, previousSequence)
    modifies c`levelPtrs
    ensures c.Valid() && PassedEntry(c, p.merged[i].k) && Counts(c, p, i + 1) && FilesValid(FilesOf(c.levels))
    ensures drop <==> !Keep(p.merged, FilesOf(c.levels), c.level, smallest, p.merged[i])
  {
    hide AllValid, ValidLevels, FilesValid, MergedInput, OverlapAt, Keep, PlanOk;
    drop := Decide(c, p.merged, i, smallest, previousKey, previousSequence);
  }

  /** One iteration: maybe cut, decide, maybe add. */
  method MergeStep(c: Cursor, p: Plan, i: nat, smallest: nat, numbers: seq<nat>, size: nat,
                   previousKey: Option<UserKey>, previousSequence: nat, outputs: seq<File>, current: seq<Entry>)
    returns (outputs': seq<File>, current': seq<Entry>)
    requires c.Valid() && MergedInput(p.merged) && i < |p.merged| && PassedEntry(c, p.merged[i].k) && Counts(c, p, i)
    requires smallest < MAX_SEQUENCE_NUMBER && Remembers(p.merged, i, previousKey, previousSequence)
    requires FilesValid(FilesOf(c.levels)) && i < |numbers|
    requires Written(p.merged, i, FilesOf(c.levels), c.level, smallest, numbers, outputs, current)
    requires CutSoFar(p, i, i, outputs, current) && Sized(outputs, size)
    modifies c
    ensures c.Valid() && PassedEntry(c, p.merged[i].k) && Counts(c, p, i + 1)
    ensures Written(p.merged, i + 1, FilesOf(c.levels), c.level, smallest, numbers, outputs', current')
    ensures CutSoFar(p, i + 1, i + 1, outputs', current') && Sized(outputs', size)
  {
    CountsPlan(c, p, i);
    hide CutSoFar, StopsAt, AllValid, ValidLevels, FilesValid, MergedInput, Keep, Sized, Kept, Counts, PassedEntry, Cursor.Valid, PlanOk;
    var stop := CountStop(c, p, i);
    outputs', current' := CutAtStop(p, i, stop, numbers, size, outputs, current);
    var drop := DecideEntry(c, p, i, smallest, previousKey, previousSequence);
    KeptStep(p.merged, i, FilesOf(c.levels), c.level, smallest);
    outputs', current' := KeepEntry(p, i, !drop, numbers, size, outputs', current');
  }

  /** The second half of an iteration: what is kept is added. */
  method KeepEntry(p: Plan, i: nat, keep: bool, numbers: seq<nat>, size: nat, outputs: seq<File>, current: seq<Entry>)
    returns (outputs': seq<File>, current': seq<Entry>)
    requires PlanOk(p) && i < |p.merged|
    requires Numbered(outputs, numbers) && |outputs| + (if current == [] then 0 else 1) <= i < |numbers|
    requires CutSoFar(p, i, i + 1, outputs, current) && Sized(outputs, size)
    ensures Numbered(outputs', numbers) && |outputs'| + (if current' == [] then 0 else 1) <= i + 1
    ensures Flat(outputs') + current' == Flat(outputs) + current + if keep then [p.merged[i]] else []
    ensures CutSoFar(p, i + 1, i + 1, outputs', current') && Sized(outputs', size)
  {
    hide CutSoFar, Sorted, AllValid;
    outputs', current' := outputs, current;
    if keep {
      AddStep(p, i, outputs, current, File(numbers[|outputs|], size, current + [p.merged[i]]));
      outputs', current' := AddToOutput(outputs, current, numbers, size, p.merged[i], p.full[i]);
    } else {
      SkipStep(p, i, outputs, current);
      assert Flat(outputs) + current + [] == Flat(outputs) + current;
    }
  }

  /** Some output holds the entry. */
  ghost predicate Held(outputs: seq<File>, e: Entry) {
    exists j :: 0 <= j < |outputs| && e in outputs[j].entries
  }

  lemma {:induction false} HeldInFlat(outputs: seq<File>, e: Entry)
    ensures Held(outputs, e) <==> e in Flat(outputs)
  {
    if outputs != [] {
      HeldInFlat(outputs[..|outputs| - 1], e);
      HeldInLast(outputs, e);
      hide Held;
    }
  }

  lemma HeldInLast(outputs: seq<File>, e: Entry)
    requires outputs != []
    ensures var n := |outputs| - 1; Held(outputs, e) <==> Held(outputs[..n], e) || e in outputs[n].entries
  {
    var n := |outputs| - 1;
    if Held(outputs[..n], e) {
      var j :| 0 <= j < n && e in outputs[..n][j].entries;
      assert e in outputs[j].entries;
    }
    if Held(outputs, e) {
      var j :| 0 <= j < |outputs| && e in outputs[j].entries;
      assert j < n ==> e in outputs[..n][j].entries;
    }
  }

  /** What the two rules mean for one input entry. */
  lemma KeptMeans(merged: seq<Entry>, levels: Levels, level: nat, smallest: nat, outputs: seq<File>, i: nat)
    requires ValidLevels(levels) && FilesValid(FilesOf(levels)) && i < |merged|
    requires Flat(outputs) == Kept(merged, |merged|, FilesOf(levels), level, smallest)
    ensures Held(outputs, merged[i]) <==>
      !(exists x :: x in merged && x.k.user == merged[i].k.user && merged[i].k.seqno < x.k.seqno <= smallest) &&
      !(merged[i].k.kind.Deletion? && merged[i].k.seqno <= smallest &&
        forall l, f :: level + 2 <= l < 7 && 0 <= f < |levels[l]| ==>
          merged[i].k.user < Smallest(levels[l][f]).user || Largest(levels[l][f]).user < merged[i].k.user)
  {
    hide ValidLevels, FilesValid, IsBase;
    HeldInFlat(outputs, merged[i]);
    BaseMeans(levels, level, merged[i].k.user);
    assert merged[..|merged|] == merged;
    assert forall x :: x in EntrySet(merged) <==> x in merged;
  }

  /** DoCompactionWork.  `full[i]` says whether the output has reached its size limit after
      entry i; `numbers` are the file numbers that NewFileNumber hands out. */
  method DoCompactionWork(c: Cursor, merged: seq<Entry>, smallest: nat, numbers: seq<nat>, full: seq<bool>, size: nat)
    returns (outputs: seq<File>)
    requires c.Valid() && merged != [] && PassedEntry(c, merged[0].k)
    requires MergedInput(merged) && smallest < MAX_SEQUENCE_NUMBER
    requires |numbers| >= |merged| && |full| == |merged|
    requires !c.seenKey && c.grandparentIndex == 0 && c.overlappedBytes == 0
    modifies c
    ensures FilesValid(FilesOf(c.levels))
    ensures Flat(outputs) == Kept(merged, |merged|, FilesOf(c.levels), c.level, smallest)
    ensures Numbered(outputs, numbers) && CutWhenFull(merged, full, size, outputs)
    ensures WellCut(Plan(merged, full, c.grandparents, c.overlapLimit), outputs)
    ensures forall i :: 0 <= i < |merged| ==>
      ((exists j :: 0 <= j < |outputs| && merged[i] in outputs[j].entries) <==>
       !(exists x :: x in merged && x.k.user == merged[i].k.user && merged[i].k.seqno < x.k.seqno <= smallest) &&
       !(merged[i].k.kind.Deletion? && merged[i].k.seqno <= smallest &&
         forall l, f :: c.level + 2 <= l < 7 && 0 <= f < |c.levels[l]| ==>
           merged[i].k.user < Smallest(c.levels[l][f]).user || Largest(c.levels[l][f]).user < merged[i].k.user))
  {
    hide WellCut, CutWhenFull, PlanOk;
    outputs := MergeAll(c, merged, smallest, numbers, full, size);
    forall i | 0 <= i < |merged|
      ensures (exists j :: 0 <= j < |outputs| && merged[i] in outputs[j].entries) <==>
       !(exists x :: x in merged && x.k.user == merged[i].k.user && merged[i].k.seqno < x.k.seqno <= smallest) &&
       !(merged[i].k.kind.Deletion? && merged[i].k.seqno <= smallest &&
         forall l, f :: c.level + 2 <= l < 7 && 0 <= f < |c.levels[l]| ==>
           merged[i].k.user < Smallest(c.levels[l][f]).user || Largest(c.levels[l][f]).user < merged[i].k.user)
    {
      KeptMeans(merged, c.levels, c.level, smallest, outputs, i);
    }
  }

  /** The loop of DoCompactionWork. */
  method MergeAll(c: Cursor, merged: seq<Entry>, smallest: nat, numbers: seq<nat>, full: seq<bool>, size: nat)
    returns (outputs: seq<File>)
    requires c.Valid() && merged != [] && PassedEntry(c, merged[0].k)
    requires MergedInput(merged) && smallest < MAX_SEQUENCE_NUMBER
    requires |numbers| >= |merged| && |full| == |merged|
    requires !c.seenKey && c.grandparentIndex == 0 && c.overlappedBytes == 0
    modifies c
    ensures FilesValid(FilesOf(c.levels))
    ensures Flat(outputs) == Kept(merged, |merged|, FilesOf(c.levels), c.level, smallest)
    ensures Numbered(outputs, numbers) && CutWhenFull(merged, full, size, outputs)
    ensures WellCut(Plan(merged, full, c.grandparents, c.overlapLimit), outputs)
  {
    ValidLevelFiles(c.levels);
    outputs := [];
    var current: seq<Entry> := [];
    var currentUserKey: Option<UserKey> := None;
    var lastSequenceForKey: nat := MAX_SEQUENCE_NUMBER;
    var p := Plan(merged, full, c.grandparents, c.overlapLimit);
    Uncut(p);
    StartsWritten(merged, FilesOf(c.levels), c.level, smallest, numbers);
    assert Counts(c, p, 0);
    hide CutSoFar, WellCut, FilesValid, ValidLevels, MergedInput, Written, CutWhenFull, Sized, Counts, PassedEntry, Cursor.Valid,
      PlanOk, Kept, Numbered;
    for i := 0 to |merged|
      invariant c.Valid() && (i < |merged| ==> PassedEntry(c, merged[i].k)) && Counts(c, p, i)
      invariant Remembers(merged, i, currentUserKey, lastSequenceForKey)
      invariant Written(merged, i, FilesOf(c.levels), c.level, smallest, numbers, outputs, current)
      invariant CutSoFar(p, i, i, outputs, current) && Sized(outputs, size)
    {
      outputs, current := MergeStep(c, p, i, smallest, numbers, size, currentUserKey, lastSequenceForKey, outputs, current);
      currentUserKey, lastSequenceForKey := Some(merged[i].k.user), merged[i].k.seqno;
      if i + 1 < |merged| {
        NextEntry(c, merged, i);
      }
    }
    CountsPlan(c, p, |merged|);
    outputs := LastOutput(p, smallest, numbers, size, FilesOf(c.levels), c.level, outputs, current);
  }

  lemma NextEntry(c: Cursor, merged: seq<Entry>, i: nat)
    requires c.Valid() && MergedInput(merged) && i + 1 < |merged| && PassedEntry(c, merged[i].k)
    ensures PassedEntry(c, merged[i + 1].k)
  {
    MovesForward(c, merged[i].k, merged[i + 1].k);
  }

  lemma StartsWritten(merged: seq<Entry>, files: set<Placed>, level: nat, smallest: nat, numbers: seq<nat>)
    requires FilesValid(files)
    ensures Written(merged, 0, files, level, smallest, numbers, [], []) && Sized([], 0) && forall size :: Sized([], size)
  {
  }

  /** After the loop: the output that is still open is closed. */
  method LastOutput(ghost p: Plan, ghost smallest: nat, numbers: seq<nat>, size: nat, ghost files: set<Placed>, ghost level: nat,
                    outputs: seq<File>, current: seq<Entry>)
    returns (r: seq<File>)
    requires PlanOk(p) && FilesValid(files) && |numbers| >= |p.merged|
    requires Written(p.merged, |p.merged|, files, level, smallest, numbers, outputs, current)
    requires CutSoFar(p, |p.merged|, |p.merged|, outputs, current) && Sized(outputs, size)
    ensures Flat(r) == Kept(p.merged, |p.merged|, files, level, smallest)
    ensures Numbered(r, numbers) && CutWhenFull(p.merged, p.full, size, r) && WellCut(p, r)
  {
    ghost var n := |p.merged|;
    assert WellCut(p, outputs);
    r := outputs;
    hide CutSoFar, WellCut, Kept, PlanOk, FilesValid, CutWhenFull;
    if current != [] {
      Closed(p, n, n, outputs, current, File(numbers[|outputs|], size, current));
      r := FinishOutput(outputs, numbers, size, current);
    } else {
      assert Flat(outputs) + [] == Flat(outputs);
    }
    ClosedWhenFull(p, size, r, files, level, smallest);
  }

  lemma Uncut(p: Plan)
    ensures CutSoFar(p, 0, 0, [], []) && WellCut(p, [])
  {
  }

  /** Outputs that are cut where they should be are closed as soon as they are full. */
  lemma ClosedWhenFull(p: Plan, size: nat, outputs: seq<File>, files: set<Placed>, level: nat, smallest: nat)
    requires PlanOk(p) && WellCut(p, outputs) && Sized(outputs, size) && FilesValid(files)
    requires Flat(outputs) == Kept(p.merged, |p.merged|, files, level, smallest)
    ensures CutWhenFull(p.merged, p.full, size, outputs)
  {
    KeptSorted(p.merged, |p.merged|, files, level, smallest);
    hide Sorted, Kept, WellCut;
    assert forall f :: f in outputs ==> f.entries != [] by { NotEmptyOutputs(p, outputs); }
    FlatInOrder(outputs);
    assert p.merged[..|p.merged|] == p.merged;
    var flat := Flat(outputs);
    assert forall e :: e in flat ==> e in p.merged;
    hide Flat;
    forall f, y, x | f in outputs && 0 <= y < |f.entries| - 1 && 0 <= x < |p.merged| && p.merged[x] == f.entries[y]
      ensures !p.full[x]
    {
      NotFullAt(p, outputs, f, y, x);
    }
  }

  lemma NotFullAt(p: Plan, outputs: seq<File>, f: File, y: nat, x: nat)
    requires PlanOk(p) && WellCut(p, outputs) && AllValid(outputs) && (forall e :: e in Flat(outputs) ==> e in p.merged)
    requires f in outputs && y + 1 < |f.entries| && x < |p.merged| && p.merged[x] == f.entries[y]
    ensures !p.full[x]
  {
    var j :| 0 <= j < |outputs| && outputs[j] == f;
    assert Sorted(f.entries) && Sorted(p.merged) && |p.full| == |p.merged|;
    hide Sorted, WellCut, Flat, AllValid, PlanOk;
    assert Held(outputs, f.entries[y + 1]);
    HeldInFlat(outputs, f.entries[y + 1]);
    var z :| 0 <= z < |p.merged| && p.merged[z] == f.entries[y + 1];
    InTheirOrder(p.merged, f.entries, y, x, z);
    CompactionCuts.NotFullInside(p, outputs, f, y, x, z);
  }

  lemma NotEmptyOutputs(p: Plan, outputs: seq<File>)
    requires WellCut(p, outputs)
    ensures forall f :: f in outputs ==> f.entries != []
  {
  }

  lemma SortedAt(s: seq<Entry>, i: nat, j: nat)
    requires Sorted(s) && i < j < |s|
    ensures Less(s[i].k, s[j].k)
  {
  }

  lemma InTheirOrder(merged: seq<Entry>, entries: seq<Entry>, y: nat, x: nat, z: nat)
    requires Sorted(merged) && Sorted(entries) && y + 1 < |entries| && x < |merged| && z < |merged|
    requires merged[x] == entries[y] && merged[z] == entries[y + 1]
    ensures x < z
  {
    if z < x {
      SortedAt(merged, z, x);
    }
  }

  // ---------------------------------------------------------------- the outputs as files

  lemma {:induction false} FlatEntries(outputs: seq<File>)
    ensures EntrySet(Flat(outputs)) == InputEntries(FileSet(outputs))
  {
    if outputs == [] {
    } else {
      var n := |outputs| - 1;
      FlatEntries(outputs[..n]);
      assert outputs == outputs[..n] + [outputs[n]];
      assert Flat(outputs) == Flat(outputs[..n]) + outputs[n].entries;
      forall e | e in InputEntries(FileSet(outputs)) ensures e in EntrySet(Flat(outputs)) {
        var f :| f in FileSet(outputs) && e in f.entries;
        if f != outputs[n] {
          assert f in FileSet(outputs[..n]);
          assert e in EntrySet(Flat(outputs[..n]));
        }
      }
      forall e | e in EntrySet(Flat(outputs)) ensures e in InputEntries(FileSet(outputs)) {
        if e in outputs[n].entries {
          assert outputs[n] in FileSet(outputs);
        } else {
          assert e in EntrySet(Flat(outputs[..n]));
          var f :| f in FileSet(outputs[..n]) && e in f.entries;
          assert f in FileSet(outputs);
        }
      }
    }
  }

  /** Cutting a sorted run anywhere gives files in order. */
  lemma {:induction false} FlatInOrder(outputs: seq<File>)
    requires Sorted(Flat(outputs)) && forall f :: f in outputs ==> f.entries != []
    ensures AllValid(outputs) && InOrder(outputs)
  {
    if outputs != [] {
      var n := |outputs| - 1;
      var flat, head, last := Flat(outputs), Flat(outputs[..n]), outputs[n].entries;
      assert outputs[n] in outputs;
      assert flat == head + last;
      SortedParts(head, last);
      FlatInOrder(outputs[..n]);
      forall i | 0 <= i < n ensures ValidFile(outputs[i]) && ValidFile(outputs[n]) && Precedes(outputs[i], outputs[n]) {
        assert outputs[..n][i] == outputs[i];
        var a := outputs[i].entries[|outputs[i].entries| - 1];
        assert a in outputs[i].entries;
        FlatEntries(outputs[..n]);
        assert outputs[i] in FileSet(outputs[..n]);
        assert a in EntrySet(head);
      }
      forall i, j | 0 <= i < j < |outputs| ensures ValidFile(outputs[i]) && ValidFile(outputs[j]) && Precedes(outputs[i], outputs[j]) {
        if j < n {
          assert outputs[..n][i] == outputs[i] && outputs[..n][j] == outputs[j];
        }
      }
      assert forall i :: 0 <= i < n ==> outputs[..n][i] == outputs[i];
    }
  }

  lemma SortedParts(a: seq<Entry>, b: seq<Entry>)
    requires Sorted(a + b)
    ensures Sorted(a) && Sorted(b)
    ensures forall x, y :: x in a && y in b ==> Less(x.k, y.k)
  {
    var s := a + b;
    assert forall i :: 0 <= i < |a| ==> s[i] == a[i];
    assert forall i :: 0 <= i < |b| ==> s[|a| + i] == b[i];
  }
}
