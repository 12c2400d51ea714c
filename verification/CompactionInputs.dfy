/** Choosing what to compact (db/version_set.cc). */
module CompactionInputs {
  import opened DbFormat
  import opened Lsm
  import opened Version

  /** A picked compaction: its inputs, the files of the level below the output that it
      overlaps, and where the next compaction of the level should start. */
  datatype Picked = Picked(level: nat, in0: seq<File>, in1: seq<File>, grandparents: seq<File>, pointer: IKey)

  /** GetRange: the least internal-key range that covers all the inputs. */
  method GetRange(inputs: seq<File>) returns (smallest: IKey, largest: IKey)
    requires inputs != [] && AllValid(inputs)
    ensures forall f :: f in inputs ==> smallest.user <= Smallest(f).user && Largest(f).user <= largest.user
    ensures forall f :: f in inputs ==> !Less(Smallest(f), smallest) && !Less(largest, Largest(f))
    ensures exists f :: f in inputs && Smallest(f) == smallest
    ensures exists f :: f in inputs && Largest(f) == largest
  {
    smallest, largest := Smallest(inputs[0]), Largest(inputs[0]);
    for i := 1 to |inputs|
      invariant forall j :: 0 <= j < i ==> !Less(Smallest(inputs[j]), smallest) && !Less(largest, Largest(inputs[j]))
      invariant exists j :: 0 <= j < i && Smallest(inputs[j]) == smallest
      invariant exists j :: 0 <= j < i && Largest(inputs[j]) == largest
    {
      if Less(Smallest(inputs[i]), smallest) {
        smallest := Smallest(inputs[i]);
      }
      if Less(largest, Largest(inputs[i])) {
        largest := Largest(inputs[i]);
      }
    }
  }

  ghost predicate Covering(files: seq<File>, lo: UserKey, hi: UserKey) {
    AllValid(files) &&
    (forall f :: f in files ==> lo <= Smallest(f).user && Largest(f).user <= hi) &&
    (exists f :: f in files && Smallest(f).user == lo) && (exists f :: f in files && Largest(f).user == hi)
  }

  /** `key` is the last key of the files. */
  ghost predicate EndsAt(files: seq<File>, key: IKey) {
    AllValid(files) && (exists f :: f in files && Largest(f) == key) &&
    forall f :: f in files ==> !Less(key, Largest(f))
  }

  lemma MeetingWithin(files: seq<File>, b: UserKey, e: UserKey, b': UserKey, e': UserKey)
    requires b' <= b && e <= e'
    ensures |Meeting(files, Some(b), Some(e))| <= |Meeting(files, Some(b'), Some(e'))|
    ensures |Meeting(files, Some(b), Some(e))| == |Meeting(files, Some(b'), Some(e'))| ==>
      Meeting(files, Some(b), Some(e)) == Meeting(files, Some(b'), Some(e'))
  {
  }

  lemma InFiles(levels: Levels, l: nat, f: File)
    requires l < |levels|
    ensures f in levels[l] <==> Placed(l, f) in FilesOf(levels)
  {
    if f in levels[l] {
      var i :| 0 <= i < |levels[l]| && levels[l][i] == f;
    }
  }

  lemma ValidLevelFiles(levels: Levels)
    requires ValidLevels(levels)
    ensures FilesValid(FilesOf(levels))
  {
  }

  lemma ChosenAtLevel(levels: Levels, l: nat, chosen: seq<File>)
    requires l < |levels| && forall f :: f in chosen ==> f in levels[l]
    ensures AtLevel(FilesOf(levels), l, FileSet(chosen))
  {
    forall f | f in chosen ensures Placed(l, f) in FilesOf(levels) {
      InFiles(levels, l, f);
    }
  }

  lemma ApartShareNothing(f: File, g: File)
    requires ValidFile(f) && ValidFile(g) && (Largest(f).user < Smallest(g).user || Largest(g).user < Smallest(f).user)
    ensures NoSharedUser(f, g) && (Precedes(f, g) || Precedes(g, f))
  {
    EntryInRange(f, f.entries[0]);
    EntryInRange(g, g.entries[0]);
    forall a, b | a in f.entries && b in g.entries ensures a.k.user != b.k.user {
      EntryInRange(f, a);
      EntryInRange(g, b);
    }
  }

  /** Of two files of one level, the one that meets a range and the one that ends before or
      starts after it are in that order. */
  lemma SideOfRange(files: seq<File>, p: File, g: File, lo: UserKey, hi: UserKey)
    requires AllValid(files) && InOrder(files) && p in files && g in files
    requires Meets(g, Some(lo), Some(hi)) && !Meets(p, Some(lo), Some(hi))
    ensures ValidFile(p) && ValidFile(g)
    ensures Largest(p).user < lo ==> Precedes(p, g)
    ensures Largest(p).user >= lo ==> Precedes(g, p)
  {
    TwoOfLevel(files, p, g);
    EntryInRange(p, p.entries[0]);
    EntryInRange(g, g.entries[0]);
  }

  /** A file of the output level that was not picked shares no user key with the upper inputs
      and lies to one side of all the inputs. */
  lemma UnpickedIsOutside(levels: Levels, level: nat, in0: seq<File>, lo: UserKey, hi: UserKey, p: Placed)
    requires ValidLevels(levels) && level + 1 < NUM_LEVELS && Covering(in0, lo, hi)
    requires p in FilesOf(levels) && p.level == level + 1
    requires p.file !in Meeting(levels[level + 1], Some(lo), Some(hi))
    ensures forall f :: f in in0 ==> ValidFile(f) && NoSharedUser(p.file, f)
    ensures var group := FileSet(in0) + FileSet(Meeting(levels[level + 1], Some(lo), Some(hi)));
      ValidFile(p.file) && (forall g :: g in group ==> ValidFile(g)) && Outside(p.file, group)
  {
    hide NoSharedUser, Meeting, NoRepeats;
    var in1 := Meeting(levels[level + 1], Some(lo), Some(hi));
    InFiles(levels, level + 1, p.file);
    SubsetValid(levels[level + 1], [p.file]);
    assert ValidFile([p.file][0]);
    EntryInRange(p.file, p.file.entries[0]);
    forall f | f in in0
      ensures ValidFile(f) && NoSharedUser(p.file, f)
      ensures Largest(p.file).user < lo ==> Precedes(p.file, f)
      ensures Largest(p.file).user >= lo ==> Precedes(f, p.file)
    {
      ApartShareNothing(p.file, f);
    }
    forall g | g in in1
      ensures ValidFile(g)
      ensures Largest(p.file).user < lo ==> Precedes(p.file, g)
      ensures Largest(p.file).user >= lo ==> Precedes(g, p.file)
    {
      SideOfRange(levels[level + 1], p.file, g, lo, hi);
    }
  }

  lemma TwoOfLevel(files: seq<File>, f: File, g: File)
    requires AllValid(files) && InOrder(files) && f in files && g in files && f != g
    ensures ValidFile(f) && ValidFile(g)
    ensures Precedes(f, g) || Precedes(g, f)
  {
    var i :| 0 <= i < |files| && files[i] == f;
    var j :| 0 <= j < |files| && files[j] == g;
  }

  lemma RangePicked(levels: Levels, level: nat, in0: seq<File>, lo: UserKey, hi: UserKey)
    requires ValidLevels(levels) && level + 1 < NUM_LEVELS && in0 != [] && Covering(in0, lo, hi)
    requires forall f :: f in in0 ==> f in levels[level]
    requires level == 0 ==> forall f, g :: f in levels[0] && f !in in0 && g in in0 ==> ValidFile(f) && !UserOverlap(f, g)
    ensures PickedByRange(FilesOf(levels), level, FileSet(in0), FileSet(Meeting(levels[level + 1], Some(lo), Some(hi))))
  {
    var in1 := Meeting(levels[level + 1], Some(lo), Some(hi));
    ValidLevelFiles(levels);
    ChosenAtLevel(levels, level, in0);
    ChosenAtLevel(levels, level + 1, in1);
    assert in0[0] in FileSet(in0);
    forall p | p in FilesOf(levels) && p.level == level + 1 && p.file !in FileSet(in1)
      ensures (forall f :: f in FileSet(in0) ==> NoSharedUser(p.file, f)) &&
        Outside(p.file, FileSet(in0) + FileSet(in1))
    {
      UnpickedIsOutside(levels, level, in0, lo, hi, p);
    }
    if level == 0 {
      forall p, f | p in FilesOf(levels) && p.level == 0 && p.file !in FileSet(in0) && f in FileSet(in0)
        ensures !UserOverlap(p.file, f)
      {
        InFiles(levels, 0, p.file);
      }
    }
  }

  /** Level-zero inputs taken from a closed range overlap no level-zero file left behind. */
  lemma ClosedLeavesNoOverlap(files: seq<File>, b: Option<UserKey>, e: Option<UserKey>)
    requires AllValid(files) && ClosedRange(files, b, e)
    ensures forall f, g :: f in files && f !in Meeting(files, b, e) && g in Meeting(files, b, e) ==>
      ValidFile(f) && !UserOverlap(f, g)
  {
  }

  /** The files of a level that overlap a range; at level zero those of the least range around it that
      is closed under overlap. */
  ghost predicate Overlapping(files: seq<File>, levelZero: bool, begin: Option<UserKey>, end: Option<UserKey>, inputs: seq<File>) {
    exists b, e :: inputs == Meeting(files, b, e) &&
      if levelZero then
        AtMost(b, begin) && AtLeast(e, end) && (begin.None? <==> b.None?) && (end.None? <==> e.None?) &&
        ClosedRange(files, b, e) && InEveryClosedRange(files, begin, end, b, e)
      else
        b == begin && e == end
  }

  /** What the level offers for growing the upper inputs: all that overlaps the range of all inputs. */
  ghost predicate Offered(levels: Levels, level: nat, all: seq<File>, wider: seq<File>)
    requires level < |levels|
  {
    exists lo, hi :: Covering(all, lo, hi) && Overlapping(levels[level], level == 0, Some(lo), Some(hi), wider)
  }

  /** The upper inputs grow when that adds files, stays under the limit and calls for no further file of
      the next level. */
  ghost predicate MayGrow(levels: Levels, level: nat, start: seq<File>, in1: seq<File>, wider: seq<File>, limit: nat)
    requires level + 1 < |levels|
  {
    |wider| > |start| && TotalFileSize(in1) + TotalFileSize(wider) < limit &&
    exists lo, hi :: Covering(wider, lo, hi) && |Meeting(levels[level + 1], Some(lo), Some(hi))| == |in1|
  }

  /** The inputs that `start` leads to. */
  ghost predicate FromStart(levels: Levels, level: nat, start: seq<File>, in0: seq<File>, in1: seq<File>, limit: nat)
    requires level + 1 < |levels|
  {
    (exists lo, hi :: Covering(start, lo, hi) && in1 == Meeting(levels[level + 1], Some(lo), Some(hi))) &&
    (in1 == [] ==> in0 == start) &&
    (in1 != [] ==> GrownIfPossible(levels, level, start, in0, in1, limit))
  }

  ghost predicate GrownIfPossible(levels: Levels, level: nat, start: seq<File>, in0: seq<File>, in1: seq<File>, limit: nat)
    requires level + 1 < |levels|
  {
    exists wider ::
      Offered(levels, level, start + in1, wider) &&
      in0 == if MayGrow(levels, level, start, in1, wider, limit) then wider else start
  }

  lemma OneRange(files: seq<File>, lo: UserKey, hi: UserKey, lo': UserKey, hi': UserKey)
    requires Covering(files, lo, hi) && Covering(files, lo', hi')
    ensures lo == lo' && hi == hi'
  {
    var a :| a in files && Smallest(a).user == lo;
    var b :| b in files && Smallest(b).user == lo';
    var c :| c in files && Largest(c).user == hi;
    var d :| d in files && Largest(d).user == hi';
  }

  ghost predicate GoodStart(levels: Levels, level: nat, in0: seq<File>)
    requires ValidLevels(levels)
  {
    level + 1 < NUM_LEVELS && in0 != [] && (forall f :: f in in0 ==> f in levels[level]) && NoRepeats(in0) &&
    (level == 0 ==> forall f, g :: f in levels[0] && f !in in0 && g in in0 ==> ValidFile(f) && !UserOverlap(f, g))
  }

  lemma SubsetValid(files: seq<File>, chosen: seq<File>)
    requires AllValid(files) && forall f :: f in chosen ==> f in files
    ensures AllValid(chosen)
  {
    forall i | 0 <= i < |chosen| ensures ValidFile(chosen[i]) {
      assert chosen[i] in files;
    }
  }

  /** Inputs grown from `start` whose next-level part is what `start` alone calls for. */
  ghost predicate InputsFor(levels: Levels, level: nat, start: seq<File>, in0: seq<File>, in1: seq<File>)
    requires ValidLevels(levels)
  {
    GoodStart(levels, level, in0) && FileSet(start) <= FileSet(in0) && NoRepeats(in1) &&
    (forall f :: f in in1 ==> f in levels[level + 1]) &&
    PickedByRange(FilesOf(levels), level, FileSet(in0), FileSet(in1)) &&
    (exists lo, hi :: Covering(start, lo, hi) && in1 == Meeting(levels[level + 1], Some(lo), Some(hi))) &&
    (Connected(FileSet(start)) ==> Connected(FileSet(in0) + FileSet(in1)))
  }

  lemma BothValid(levels: Levels, level: nat, in0: seq<File>, in1: seq<File>)
    requires ValidLevels(levels) && level + 1 < NUM_LEVELS
    requires forall f :: f in in0 ==> f in levels[level]
    requires forall f :: f in in1 ==> f in levels[level + 1]
    ensures AllValid(in0) && AllValid(in1) && AllValid(in0 + in1)
  {
    SubsetValid(levels[level], in0);
    SubsetValid(levels[level + 1], in1);
  }

  /** The next-level inputs of `start`. */
  method NextLevelInputs(levels: Levels, level: nat, start: seq<File>)
    returns (in1: seq<File>, smallest: IKey, largest: IKey)
    requires ValidLevels(levels) && GoodStart(levels, level, start)
    ensures Covering(start, smallest.user, largest.user)
    ensures in1 == Meeting(levels[level + 1], Some(smallest.user), Some(largest.user))
    ensures InputsFor(levels, level, start, start, in1) && EndsAt(start, largest)
  {
    SubsetValid(levels[level], start);
    smallest, largest := GetRange(start);
    assert Covering(start, smallest.user, largest.user);
    var chosen, _, _ := GetOverlappingInputs(levels[level + 1], false, Some(smallest.user), Some(largest.user));
    in1 := chosen;
    MeetingNoRepeats(levels[level + 1], Some(smallest.user), Some(largest.user));
    RangePicked(levels, level, start, smallest.user, largest.user);
    GrowConnected(FileSet(start), FileSet(in1), Some(smallest.user), Some(largest.user));
  }

  /** Try to take more files of the level without changing the number picked in the next. */
  method Grow(levels: Levels, level: nat, start: seq<File>, in1: seq<File>,
              smallest: IKey, largest: IKey, lo: UserKey, hi: UserKey, expandedLimit: nat)
    returns (grown: bool, in0': seq<File>, largest': IKey)
    requires ValidLevels(levels) && GoodStart(levels, level, start)
    requires InputsFor(levels, level, start, start, in1) && Covering(start, smallest.user, largest.user)
    requires in1 == Meeting(levels[level + 1], Some(smallest.user), Some(largest.user))
    requires Covering(start + in1, lo, hi)
    requires EndsAt(start, largest)
    ensures grown ==> InputsFor(levels, level, start, in0', in1) && |in0'| > |start|
    ensures EndsAt(in0', largest')
    ensures !grown ==> in0' == start && largest' == largest
    ensures GrownIfPossible(levels, level, start, in0', in1, expandedLimit)
  {
    hide Offered, MayGrow;
    var expanded0 := Expand(levels, level, start, in1, lo, hi);
    grown, in0', largest' := TakeWider(levels, level, start, in1, smallest, largest, expanded0, expandedLimit);
  }

  /** Take the wider inputs if that is allowed. */
  method TakeWider(levels: Levels, level: nat, start: seq<File>, in1: seq<File>,
                   smallest: IKey, largest: IKey, expanded0: seq<File>, expandedLimit: nat)
    returns (grown: bool, in0': seq<File>, largest': IKey)
    requires ValidLevels(levels) && GoodStart(levels, level, start) && GoodStart(levels, level, expanded0)
    requires FileSet(start) <= FileSet(expanded0)
    requires Connected(FileSet(start) + FileSet(in1)) ==> Connected(FileSet(expanded0) + FileSet(in1))
    requires InputsFor(levels, level, start, start, in1) && Covering(start, smallest.user, largest.user)
    requires in1 == Meeting(levels[level + 1], Some(smallest.user), Some(largest.user)) && EndsAt(start, largest)
    ensures grown ==> InputsFor(levels, level, start, in0', in1) && |in0'| > |start|
    ensures EndsAt(in0', largest')
    ensures in0' == if MayGrow(levels, level, start, in1, expanded0, expandedLimit) then expanded0 else start
    ensures !grown ==> in0' == start && largest' == largest
  {
    grown, in0', largest' := false, start, largest;
    if |expanded0| > |start| && TotalFileSize(in1) + TotalFileSize(expanded0) < expandedLimit {
      SubsetValid(levels[level], expanded0);
      assert start[0] in FileSet(start);
      var newStart, newLimit := GetRange(expanded0);
      assert Covering(expanded0, newStart.user, newLimit.user);
      MayGrowIs(levels, level, start, in1, expanded0, expandedLimit, newStart.user, newLimit.user);
      var expanded1, _, _ := GetOverlappingInputs(levels[level + 1], false, Some(newStart.user), Some(newLimit.user));
      if |expanded1| == |in1| {
        WiderInputs(levels, level, start, in1, smallest, largest, expanded0, newStart, newLimit);
        grown, in0', largest' := true, expanded0, newLimit;
      }
    }
  }

  lemma MayGrowIs(levels: Levels, level: nat, start: seq<File>, in1: seq<File>, wider: seq<File>, limit: nat, lo: UserKey, hi: UserKey)
    requires level + 1 < |levels| && Covering(wider, lo, hi)
    ensures MayGrow(levels, level, start, in1, wider, limit) <==>
      |wider| > |start| && TotalFileSize(in1) + TotalFileSize(wider) < limit &&
      |Meeting(levels[level + 1], Some(lo), Some(hi))| == |in1|
  {
    hide Covering;
    if MayGrow(levels, level, start, in1, wider, limit) {
      var lo', hi' :| Covering(wider, lo', hi') && |Meeting(levels[level + 1], Some(lo'), Some(hi'))| == |in1|;
      OneRange(wider, lo, hi, lo', hi');
    }
  }

  lemma WiderInputs(levels: Levels, level: nat, start: seq<File>, in1: seq<File>, smallest: IKey, largest: IKey,
                    wider: seq<File>, newStart: IKey, newLimit: IKey)
    requires ValidLevels(levels) && GoodStart(levels, level, start) && GoodStart(levels, level, wider)
    requires FileSet(start) <= FileSet(wider)
    requires Connected(FileSet(start) + FileSet(in1)) ==> Connected(FileSet(wider) + FileSet(in1))
    requires InputsFor(levels, level, start, start, in1) && Covering(start, smallest.user, largest.user)
    requires in1 == Meeting(levels[level + 1], Some(smallest.user), Some(largest.user))
    requires Covering(wider, newStart.user, newLimit.user)
    requires |Meeting(levels[level + 1], Some(newStart.user), Some(newLimit.user))| == |in1|
    ensures InputsFor(levels, level, start, wider, in1)
  {
    assert forall f :: f in start ==> f in FileSet(start);
    MeetingWithin(levels[level + 1], smallest.user, largest.user, newStart.user, newLimit.user);
    RangePicked(levels, level, wider, newStart.user, newLimit.user);
    if Connected(FileSet(start)) {
      assert Connected(FileSet(start) + FileSet(in1));
    }
  }

  /** The files of the next level, and more files of this level as long as that leaves the choice in the
      next level unchanged. */
  method ChooseInputs(levels: Levels, level: nat, start: seq<File>, expandedLimit: nat)
    returns (in0: seq<File>, in1: seq<File>, largest: IKey)
    requires ValidLevels(levels) && GoodStart(levels, level, start)
    ensures InputsFor(levels, level, start, in0, in1) && EndsAt(in0, largest)
    ensures FromStart(levels, level, start, in0, in1, expandedLimit)
  {
    hide GrownIfPossible, EndsAt, InputsFor, FromStart, Covering;
    var smallest;
    in1, smallest, largest := NextLevelInputs(levels, level, start);
    ghost var lo, hi := smallest.user, largest.user;
    in0 := start;
    if in1 != [] {
      InputsAre(levels, level, start, start, in1);
      BothValid(levels, level, start, in1);
      var allStart, allLimit := GetRange(start + in1);
      RangeCovers(start + in1, allStart, allLimit);
      var grown;
      grown, in0, largest := Grow(levels, level, start, in1, smallest, largest, allStart.user, allLimit.user, expandedLimit);
    }
    FromStartIs(levels, level, start, in0, in1, expandedLimit, lo, hi);
  }

  lemma RangeCovers(files: seq<File>, smallest: IKey, largest: IKey)
    requires AllValid(files)
    requires forall f :: f in files ==> smallest.user <= Smallest(f).user && Largest(f).user <= largest.user
    requires exists f :: f in files && Smallest(f) == smallest
    requires exists f :: f in files && Largest(f) == largest
    ensures Covering(files, smallest.user, largest.user)
  {
  }

  lemma FromStartIs(levels: Levels, level: nat, start: seq<File>, in0: seq<File>, in1: seq<File>, limit: nat,
                    lo: UserKey, hi: UserKey)
    requires level + 1 < |levels| && Covering(start, lo, hi) && in1 == Meeting(levels[level + 1], Some(lo), Some(hi))
    requires if in1 == [] then in0 == start else GrownIfPossible(levels, level, start, in0, in1, limit)
    ensures FromStart(levels, level, start, in0, in1, limit)
  {
    hide Covering, GrownIfPossible;
  }

  lemma InputsAre(levels: Levels, level: nat, start: seq<File>, in0: seq<File>, in1: seq<File>)
    requires ValidLevels(levels) && InputsFor(levels, level, start, in0, in1)
    ensures level + 1 < NUM_LEVELS && in0 != []
    ensures (forall f :: f in in0 ==> f in levels[level]) && (forall f :: f in in1 ==> f in levels[level + 1])
  {
    hide PickedByRange, Connected, ValidLevels;
  }

  /** SetupOtherInputs. */
  method SetupOtherInputs(levels: Levels, level: nat, start: seq<File>, expandedLimit: nat) returns (c: Picked)
    requires ValidLevels(levels) && GoodStart(levels, level, start)
    ensures c.level == level && InputsFor(levels, level, start, c.in0, c.in1)
    ensures EndsAt(c.in0, c.pointer) && Usable(levels, c)
    ensures FromStart(levels, level, start, c.in0, c.in1, expandedLimit)
    ensures level + 2 < NUM_LEVELS ==> MeetsInputs(levels[level + 2], c.in0 + c.in1, c.grandparents)
  {
    hide FromStart, InputsFor, EndsAt, MeetsInputs, Usable;
    var in0, in1, largest := ChooseInputs(levels, level, start, expandedLimit);
    InputsAre(levels, level, start, in0, in1);
    var grandparents := Grandparents(levels, level, in0, in1);
    c := Picked(level, in0, in1, grandparents, largest);
    InputsUsable(levels, start, c);
  }

  lemma InputsUsable(levels: Levels, start: seq<File>, c: Picked)
    requires ValidLevels(levels) && InputsFor(levels, c.level, start, c.in0, c.in1) && AllValid(c.grandparents)
    ensures Usable(levels, c)
  {
  }

  /** The inputs are lists of files of the two levels, without repetition, and picked by range. */
  ghost predicate Usable(levels: Levels, c: Picked) {
    c.level + 1 < |levels| && NoRepeats(c.in0) && NoRepeats(c.in1) && AllValid(c.grandparents) &&
    (forall f :: f in c.in0 ==> f in levels[c.level]) && (forall f :: f in c.in1 ==> f in levels[c.level + 1]) &&
    PickedByRange(FilesOf(levels), c.level, FileSet(c.in0), FileSet(c.in1))
  }

  ghost predicate MeetsInputs(files: seq<File>, inputs: seq<File>, chosen: seq<File>) {
    exists lo, hi :: Covering(inputs, lo, hi) && chosen == Meeting(files, Some(lo), Some(hi))
  }

  /** The files two levels down that overlap the compaction. */
  method Grandparents(levels: Levels, level: nat, in0: seq<File>, in1: seq<File>) returns (grandparents: seq<File>)
    requires ValidLevels(levels) && level + 1 < NUM_LEVELS && in0 != []
    requires (forall f :: f in in0 ==> f in levels[level]) && (forall f :: f in in1 ==> f in levels[level + 1])
    ensures AllValid(grandparents)
    ensures level + 2 < NUM_LEVELS ==> MeetsInputs(levels[level + 2], in0 + in1, grandparents)
  {
    BothValid(levels, level, in0, in1);
    var allStart, allLimit := GetRange(in0 + in1);
    grandparents := [];
    if level + 2 < NUM_LEVELS {
      var overlapping, _, _ := GetOverlappingInputs(levels[level + 2], false, Some(allStart.user), Some(allLimit.user));
      grandparents := overlapping;
      assert Covering(in0 + in1, allStart.user, allLimit.user);
      SubsetValid(levels[level + 2], grandparents);
    }
  }

  /** The candidates for growing the upper inputs: everything of the level that meets the whole range. */
  method Expand(levels: Levels, level: nat, start: seq<File>, in1: seq<File>, lo: UserKey, hi: UserKey)
    returns (expanded0: seq<File>)
    requires ValidLevels(levels) && GoodStart(levels, level, start) && Covering(start + in1, lo, hi)
    ensures GoodStart(levels, level, expanded0)
    ensures FileSet(start) <= FileSet(expanded0)
    ensures Connected(FileSet(start) + FileSet(in1)) ==> Connected(FileSet(expanded0) + FileSet(in1))
    ensures Offered(levels, level, start + in1, expanded0)
  {
    var b, e;
    expanded0, b, e := GetOverlappingInputs(levels[level], level == 0, Some(lo), Some(hi));
    StartInExpanded(levels, level, start, in1, lo, hi, b, e);
    MeetingNoRepeats(levels[level], b, e);
    if level == 0 {
      ClosedLeavesNoOverlap(levels[0], b, e);
    }
    assert FileSet(start + in1) == FileSet(start) + FileSet(in1);
    ExpandConnected(levels[level], level == 0, FileSet(start), FileSet(in1), start + in1, lo, hi, b, e);
  }

  lemma StartInExpanded(levels: Levels, level: nat, start: seq<File>, in1: seq<File>, lo: UserKey, hi: UserKey,
                        b: Option<UserKey>, e: Option<UserKey>)
    requires ValidLevels(levels) && level < NUM_LEVELS && start != [] && forall f :: f in start ==> f in levels[level]
    requires Covering(start + in1, lo, hi) && AtMost(b, Some(lo)) && AtLeast(e, Some(hi))
    ensures FileSet(start) <= FileSet(Meeting(levels[level], b, e)) && Meeting(levels[level], b, e) != []
  {
    forall f | f in start ensures f in Meeting(levels[level], b, e) {
      assert f in start + in1 && f in levels[level];
      EntryInRange(f, f.entries[0]);
    }
    assert start[0] in start;
  }

  lemma ExpandConnected(files: seq<File>, levelZero: bool, in0: set<File>, in1: set<File>, all: seq<File>,
                        lo: UserKey, hi: UserKey, b: Option<UserKey>, e: Option<UserKey>)
    requires Covering(all, lo, hi) && FileSet(all) == in0 + in1
    requires AtMost(b, Some(lo)) && AtLeast(e, Some(hi)) && b.Some? && e.Some?
    requires levelZero ==> ClosedRange(files, b, e) && InEveryClosedRange(files, Some(lo), Some(hi), b, e)
    requires !levelZero ==> b == Some(lo) && e == Some(hi)
    requires in0 <= FileSet(Meeting(files, b, e))
    ensures Connected(in0 + in1) ==> Connected(FileSet(Meeting(files, b, e)) + in1)
  {
    var seed, more := in0 + in1, FileSet(Meeting(files, b, e));
    if Connected(seed) {
      assert seed + more == more + in1;
      var f :| f in all && Smallest(f).user == lo;
      var g :| g in all && Largest(g).user == hi;
      assert f in seed && g in seed;
      if levelZero {
        ClosureConnected(files, seed, Some(lo), Some(hi), b, e);
      } else {
        GrowConnected(seed, more, b, e);
      }
    }
  }

  /** PickCompaction, size-triggered: the first file of the level after compact_pointer_,
      wrapping around to the first. */
  method FirstAfterPointer(files: seq<File>, pointer: Option<IKey>) returns (at: nat)
    requires AllValid(files) && files != []
    ensures at < |files|
    ensures (pointer.None? ==> at == 0) &&
      (pointer.Some? && Less(pointer.value, Largest(files[at])) ==>
        forall i :: 0 <= i < at ==> !Less(pointer.value, Largest(files[i]))) &&
      (pointer.Some? && !Less(pointer.value, Largest(files[at])) ==>
        at == 0 && forall i :: 0 <= i < |files| ==> !Less(pointer.value, Largest(files[i])))
  {
    for i := 0 to |files|
      invariant pointer.Some? ==> forall j :: 0 <= j < i ==> !Less(pointer.value, Largest(files[j]))
      invariant pointer.None? ==> i == 0
    {
      if pointer.None? || Less(pointer.value, Largest(files[i])) {
        return i;
      }
    }
    return 0;
  }

  /** The first file of the level that ends after the pointer, or the first of all. */
  ghost predicate ByPointer(files: seq<File>, pointer: Option<IKey>, at: nat)
    requires AllValid(files)
  {
    at < |files| &&
    if pointer.Some? && exists i :: 0 <= i < |files| && Less(pointer.value, Largest(files[i])) then
      Less(pointer.value, Largest(files[at])) && forall i :: 0 <= i < at ==> !Less(pointer.value, Largest(files[i]))
    else
      at == 0
  }

  lemma OneFileConnected(f: File)
    requires ValidFile(f)
    ensures Connected(FileSet([f])) && Reaches(FileSet([f]), Some(Smallest(f).user), Some(Largest(f).user))
  {
    EntryInRange(f, f.entries[0]);
    assert f in FileSet([f]);
    forall k: UserKey ensures NoGapAt(FileSet([f]), k) {
      assert Covers(f, k) || EndsBefore(f, k) || StartsAfter(f, k);
    }
  }

  /** Start from one file; at level zero take everything connected to it. */
  method StartFrom(levels: Levels, level: nat, f: File) returns (start: seq<File>)
    requires ValidLevels(levels) && level + 1 < NUM_LEVELS && f in levels[level]
    ensures GoodStart(levels, level, start) && f in start && Connected(FileSet(start))
    ensures level > 0 ==> start == [f]
    ensures level == 0 ==> Overlapping(levels[0], true, Some(Smallest(f).user), Some(Largest(f).user), start)
  {
    SubsetValid(levels[level], [f]);
    assert ValidFile([f][0]);
    OneFileConnected(f);
    start := [f];
    if level == 0 {
      var smallest, largest := GetRange([f]);
      var inputs, b, e := GetOverlappingInputs(levels[0], true, Some(smallest.user), Some(largest.user));
      EntryInRange(f, f.entries[0]);
      assert f in inputs;
      ClosedLeavesNoOverlap(levels[0], b, e);
      MeetingNoRepeats(levels[0], b, e);
      ClosureConnected(levels[0], FileSet([f]), Some(smallest.user), Some(largest.user), b, e);
      assert FileSet([f]) + FileSet(inputs) == FileSet(inputs);
      start := inputs;
    }
  }

  /** The inputs of an automatic compaction that starts from one file. */
  ghost predicate PickedFrom(levels: Levels, f: File, c: Picked, expandedLimit: nat)
    requires ValidLevels(levels) && c.level + 1 < NUM_LEVELS
  {
    f in levels[c.level] && f in c.in0 && |f.entries| > 0 &&
    exists start :: FromStart(levels, c.level, start, c.in0, c.in1, expandedLimit) &&
      if c.level > 0 then start == [f]
      else Overlapping(levels[0], true, Some(Smallest(f).user), Some(Largest(f).user), start)
  }

  /** The grandparents are all that overlaps the inputs two levels down. */
  ghost predicate GrandparentsOf(levels: Levels, c: Picked)
    requires |levels| == NUM_LEVELS
  {
    c.level + 2 < NUM_LEVELS ==> MeetsInputs(levels[c.level + 2], c.in0 + c.in1, c.grandparents)
  }

  /** The file to start from. */
  method PickFile(levels: Levels, pointers: seq<Option<IKey>>, sizeLevel: Option<nat>, seekFile: Option<Placed>)
    returns (level: nat, f: File)
    requires ValidLevels(levels) && |pointers| == NUM_LEVELS && (sizeLevel.Some? || seekFile.Some?)
    requires sizeLevel.Some? ==> sizeLevel.value + 1 < NUM_LEVELS && levels[sizeLevel.value] != []
    requires seekFile.Some? ==> seekFile.value in FilesOf(levels) && seekFile.value.level + 1 < NUM_LEVELS
    ensures level + 1 < NUM_LEVELS && f in levels[level]
    ensures sizeLevel.Some? ==>
      level == sizeLevel.value && exists at: nat :: ByPointer(levels[level], pointers[level], at) && levels[level][at] == f
    ensures sizeLevel.None? ==> level == seekFile.value.level && f == seekFile.value.file
  {
    if sizeLevel.Some? {
      level := sizeLevel.value;
      var at := FirstAfterPointer(levels[level], pointers[level]);
      f := levels[level][at];
      assert ByPointer(levels[level], pointers[level], at);
    } else {
      level, f := seekFile.value.level, seekFile.value.file;
      InFiles(levels, level, f);
    }
  }

  /** PickCompaction: a level over its size limit first, then a file that was sought too often. */
  method PickCompaction(levels: Levels, pointers: seq<Option<IKey>>, sizeLevel: Option<nat>, seekFile: Option<Placed>,
                        expandedLimit: nat)
    returns (c: Option<Picked>)
    requires ValidLevels(levels) && |pointers| == NUM_LEVELS
    requires sizeLevel.Some? ==> sizeLevel.value + 1 < NUM_LEVELS && levels[sizeLevel.value] != []
    requires seekFile.Some? ==> seekFile.value in FilesOf(levels) && seekFile.value.level + 1 < NUM_LEVELS
    ensures c.None? <==> sizeLevel.None? && seekFile.None?
    ensures c.Some? ==>
      c.value.level == (if sizeLevel.Some? then sizeLevel.value else seekFile.value.level) &&
      Usable(levels, c.value) && Connected(FileSet(c.value.in0) + FileSet(c.value.in1)) &&
      EndsAt(c.value.in0, c.value.pointer) && GrandparentsOf(levels, c.value)
    ensures sizeLevel.Some? ==>
      exists at: nat :: ByPointer(levels[sizeLevel.value], pointers[sizeLevel.value], at) &&
        levels[sizeLevel.value][at] in c.value.in0 &&
        PickedFrom(levels, levels[sizeLevel.value][at], c.value, expandedLimit)
    ensures sizeLevel.None? && seekFile.Some? ==> PickedFrom(levels, seekFile.value.file, c.value, expandedLimit)
  {
    hide ByPointer, FromStart, Overlapping, GoodStart, Connected, PickedByRange, EndsAt, Usable, MeetsInputs;
    if sizeLevel.None? && seekFile.None? {
      return None;
    }
    var level, f := PickFile(levels, pointers, sizeLevel, seekFile);
    var start := StartFrom(levels, level, f);
    var picked := SetupOtherInputs(levels, level, start, expandedLimit);
    assert f in FileSet(start);
    SubsetValid(levels[level], [f]);
    assert ValidFile([f][0]);
    c := Some(picked);
  }

  /** The least nonempty prefix that reaches the size limit, or everything. */
  ghost predicate IsCut(inputs: seq<File>, files: seq<File>, sizeLimit: nat) {
    inputs != [] && inputs <= files && (inputs == files || TotalFileSize(inputs) >= sizeLimit) &&
    forall n :: 0 < n < |inputs| ==> TotalFileSize(files[..n]) < sizeLimit
  }

  /** Cut a list of inputs short once it is big enough. */
  method CutAtSize(files: seq<File>, sizeLimit: nat) returns (inputs: seq<File>)
    requires NoRepeats(files) && files != []
    ensures NoRepeats(inputs) && IsCut(inputs, files, sizeLimit)
  {
    inputs := files;
    var total := 0;
    for i := 0 to |files|
      invariant inputs == files && total == TotalFileSize(files[..i])
      invariant forall n :: 0 < n <= i ==> TotalFileSize(files[..n]) < sizeLimit
    {
      assert files[..i + 1][..i] == files[..i];
      total := total + files[i].size;
      if total >= sizeLimit {
        NoRepeatsPrefix(files, i + 1);
        inputs := files[..i + 1];
        break;
      }
    }
  }

  /** What CompactRange starts from: everything that overlaps, cut short above level zero. */
  method ManualStart(levels: Levels, level: nat, begin: Option<UserKey>, end: Option<UserKey>, sizeLimit: nat)
    returns (start: seq<File>)
    requires ValidLevels(levels) && level + 1 < NUM_LEVELS
    ensures start == [] <==> forall f :: f in levels[level] ==> !Meets(f, begin, end)
    ensures start != [] ==> GoodStart(levels, level, start)
    ensures start != [] && level > 0 ==> IsCut(start, Meeting(levels[level], begin, end), sizeLimit)
    ensures start != [] && level == 0 ==> Overlapping(levels[0], true, begin, end, start)
  {
    var inputs, b, e := GetOverlappingInputs(levels[level], level == 0, begin, end);
    start := inputs;
    if inputs == [] {
      forall f | f in levels[level] ensures !Meets(f, begin, end) {
        assert Meets(f, begin, end) ==> Meets(f, b, e) && f in inputs;
      }
      return;
    }
    assert inputs[0] in inputs;
    MeetingNoRepeats(levels[level], b, e);
    if level == 0 {
      ClosedLeavesNoOverlap(levels[0], b, e);
      NoneMeetIsClosed(levels[0], begin, end, b, e, inputs[0]);
    } else {
      start := CutAtSize(inputs, sizeLimit);
    }
  }

  /** The inputs of a manual compaction: what the range and, above level zero, the size limit call for,
      and more only if the next level takes part. */
  ghost predicate ManualInputs(levels: Levels, begin: Option<UserKey>, end: Option<UserKey>, sizeLimit: nat,
                               c: Picked, expandedLimit: nat)
    requires ValidLevels(levels) && c.level + 1 < NUM_LEVELS
  {
    Usable(levels, c) &&
    exists start ::
      FromStart(levels, c.level, start, c.in0, c.in1, expandedLimit) &&
      if c.level > 0 then IsCut(start, Meeting(levels[c.level], begin, end), sizeLimit)
      else Overlapping(levels[0], true, begin, end, start)
  }

  /** CompactRange (manual). */
  method CompactRange(levels: Levels, level: nat, begin: Option<UserKey>, end: Option<UserKey>,
                      sizeLimit: nat, expandedLimit: nat)
    returns (c: Option<Picked>)
    requires ValidLevels(levels) && level + 1 < NUM_LEVELS
    ensures c.None? <==> forall f :: f in levels[level] ==> !Meets(f, begin, end)
    ensures c.Some? ==>
      c.value.level == level && Usable(levels, c.value) &&
      EndsAt(c.value.in0, c.value.pointer) && GrandparentsOf(levels, c.value) &&
      ManualInputs(levels, begin, end, sizeLimit, c.value, expandedLimit)
  {
    hide FromStart, Overlapping, IsCut, EndsAt, MeetsInputs, GoodStart, PickedByRange;
    var start := ManualStart(levels, level, begin, end, sizeLimit);
    if start == [] {
      return None;
    }
    var picked := SetupOtherInputs(levels, level, start, expandedLimit);
    c := Some(picked);
  }

  /** A range that no file meets is closed, so the closure can only contain files when the
      range itself meets one. */
  lemma NoneMeetIsClosed(files: seq<File>, begin: Option<UserKey>, end: Option<UserKey>,
                         b: Option<UserKey>, e: Option<UserKey>, f: File)
    requires InEveryClosedRange(files, begin, end, b, e) && f in files && Meets(f, b, e)
    requires (begin.None? <==> b.None?) && (end.None? <==> e.None?)
    requires AtMost(b, begin) && AtLeast(e, end)
    ensures exists g :: g in files && Meets(g, begin, end)
  {
    if forall g :: g in files ==> !Meets(g, begin, end) {
      assert ClosedRange(files, begin, end);
      assert AtMost(begin, begin) && AtLeast(end, end);
    }
  }
}
