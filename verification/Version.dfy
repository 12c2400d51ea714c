/** Searching one version of the tree (db/version_set.cc). */
module Version {
  import opened DbFormat
  import opened Lsm

  /** Version::files_: one list of files per level. */
  type Levels = seq<seq<File>>

  ghost function FilesOf(levels: Levels): set<Placed> {
    set l, i | 0 <= l < |levels| && 0 <= i < |levels[l]| :: Placed(l, levels[l][i])
  }

  ghost predicate AllValid(files: seq<File>) {
    forall i :: 0 <= i < |files| ==> ValidFile(files[i])
  }

  /** Files in order, none meeting the next. */
  ghost predicate InOrder(files: seq<File>)
    requires AllValid(files)
  {
    forall i, j :: 0 <= i < j < |files| ==> Precedes(files[i], files[j])
  }

  ghost predicate ValidLevels(levels: Levels) {
    |levels| == NUM_LEVELS &&
    (forall l :: 0 <= l < NUM_LEVELS ==> AllValid(levels[l])) &&
    (forall l :: 1 <= l < NUM_LEVELS ==> InOrder(levels[l])) &&
    (forall l :: 0 <= l < NUM_LEVELS ==> NoRepeats(levels[l]))
  }

  ghost predicate NoRepeats(files: seq<File>) {
    files == [] || (files[|files| - 1] !in files[..|files| - 1] && NoRepeats(files[..|files| - 1]))
  }

  lemma {:induction false} NoRepeatsAt(files: seq<File>, i: nat, j: nat)
    requires NoRepeats(files) && i < j < |files|
    ensures files[i] != files[j]
  {
    var n := |files| - 1;
    if j < n {
      NoRepeatsAt(files[..n], i, j);
    } else {
      assert files[..n][i] == files[i];
    }
  }

  lemma {:induction false} NoRepeatsPrefix(files: seq<File>, n: nat)
    requires NoRepeats(files) && n <= |files|
    ensures NoRepeats(files[..n])
  {
    if n < |files| {
      NoRepeatsPrefix(files[..|files| - 1], n);
      assert files[..|files| - 1][..n] == files[..n];
    } else {
      assert files[..n] == files;
    }
  }

  lemma PlacedIn(levels: Levels, l: nat, i: nat)
    requires l < |levels| && i < |levels[l]|
    ensures Placed(l, levels[l][i]) in FilesOf(levels)
  {
  }

  /** Binary search for the first file whose largest key is at or after `key`. */
  method FindFile(files: seq<File>, key: IKey) returns (right: nat)
    requires AllValid(files) && InOrder(files)
    ensures right <= |files|
    ensures forall i :: 0 <= i < right ==> Less(Largest(files[i]), key)
    ensures forall i :: right <= i < |files| ==> !Less(Largest(files[i]), key)
  {
    var left := 0;
    right := |files|;
    while left < right
      invariant left <= right <= |files|
      invariant forall i :: 0 <= i < left ==> Less(Largest(files[i]), key)
      invariant forall i :: right <= i < |files| ==> !Less(Largest(files[i]), key)
    {
      var mid := (left + right) / 2;
      if Less(Largest(files[mid]), key) {
        forall i | 0 <= i < mid ensures Less(Largest(files[i]), key) {
          EntryInRange(files[mid], files[mid].entries[0]);
          assert Precedes(files[i], files[mid]);
        }
        left := mid + 1;
      } else {
        forall i | mid < i < |files| ensures !Less(Largest(files[i]), key) {
          EntryInRange(files[i], files[i].entries[0]);
          assert Precedes(files[mid], files[i]);
        }
        right := mid;
      }
    }
  }

  /** NULL bounds are unbounded. */
  predicate AfterFile(userKey: Option<UserKey>, f: File)
    requires |f.entries| > 0
  {
    userKey.Some? && userKey.value > Largest(f).user
  }

  predicate BeforeFile(userKey: Option<UserKey>, f: File)
    requires |f.entries| > 0
  {
    userKey.Some? && userKey.value < Smallest(f).user
  }

  /** The file's user-key range meets the range [begin, end]. */
  predicate Meets(f: File, begin: Option<UserKey>, end: Option<UserKey>) {
    |f.entries| > 0 && !AfterFile(begin, f) && !BeforeFile(end, f)
  }

  ghost predicate SeqnosFit(files: seq<File>) {
    forall i, e :: 0 <= i < |files| && e in files[i].entries ==> e.k.seqno <= MAX_SEQUENCE_NUMBER
  }

  /** SomeFileOverlapsRange: scanning level zero, binary search elsewhere. */
  method SomeFileOverlapsRange(disjoint: bool, files: seq<File>, smallest: Option<UserKey>, largest: Option<UserKey>)
    returns (overlap: bool)
    requires AllValid(files) && (disjoint ==> InOrder(files))
    requires SeqnosFit(files)
    ensures overlap <==> exists i :: 0 <= i < |files| && Meets(files[i], smallest, largest)
  {
    if !disjoint {
      for i := 0 to |files|
        invariant forall j :: 0 <= j < i ==> !Meets(files[j], smallest, largest)
      {
        if !AfterFile(smallest, files[i]) && !BeforeFile(largest, files[i]) {
          return true;
        }
      }
      return false;
    }
    var index := 0;
    if smallest.Some? {
      index := FindFile(files, IKey(smallest.value, MAX_SEQUENCE_NUMBER, Value));
    }
    forall i | 0 <= i < index ensures !Meets(files[i], smallest, largest) {
      var last := files[i].entries[|files[i].entries| - 1];
      assert last in files[i].entries && last.k.seqno <= MAX_SEQUENCE_NUMBER;
      assert Less(Largest(files[i]), IKey(smallest.value, MAX_SEQUENCE_NUMBER, Value));
    }
    if index >= |files| {
      return false;
    }
    assert !AfterFile(smallest, files[index]);
    forall i | index < i < |files| && BeforeFile(largest, files[index])
      ensures !Meets(files[i], smallest, largest)
    {
      assert Precedes(files[index], files[i]);
      EntryInRange(files[index], files[index].entries[0]);
    }
    return !BeforeFile(largest, files[index]);
  }

  // ---------------------------------------------------------------- overlapping inputs

  /** The files, in order, that meet the range. */
  function Meeting(files: seq<File>, begin: Option<UserKey>, end: Option<UserKey>): (r: seq<File>)
    ensures forall f :: f in r <==> f in files && Meets(f, begin, end)
  {
    if files == [] then []
    else
      var n := |files| - 1;
      Meeting(files[..n], begin, end) + if Meets(files[n], begin, end) then [files[n]] else []
  }

  predicate Inside(f: File, begin: Option<UserKey>, end: Option<UserKey>) {
    |f.entries| > 0 && (begin.Some? ==> begin.value <= Smallest(f).user) && (end.Some? ==> Largest(f).user <= end.value)
  }

  lemma {:induction false} MeetingNoRepeats(files: seq<File>, begin: Option<UserKey>, end: Option<UserKey>)
    requires NoRepeats(files)
    ensures NoRepeats(Meeting(files, begin, end))
  {
    if files != [] {
      var n := |files| - 1;
      MeetingNoRepeats(files[..n], begin, end);
      var before := Meeting(files[..n], begin, end);
      assert files[n] !in before;
      if Meets(files[n], begin, end) {
        assert Meeting(files, begin, end) == before + [files[n]];
        assert (before + [files[n]])[..|before|] == before;
      } else {
        assert Meeting(files, begin, end) == before + [] == before;
      }
    }
  }

  /** No file that meets the range sticks out of it. */
  ghost predicate ClosedRange(files: seq<File>, begin: Option<UserKey>, end: Option<UserKey>) {
    forall f :: f in files && Meets(f, begin, end) ==> Inside(f, begin, end)
  }

  predicate AtMost(a: Option<UserKey>, b: Option<UserKey>) {
    a.None? || (b.Some? && a.value <= b.value)
  }

  predicate AtLeast(a: Option<UserKey>, b: Option<UserKey>) {
    a.None? || (b.Some? && a.value >= b.value)
  }

  ghost function StartsBelow(files: seq<File>, b: Option<UserKey>): set<nat> {
    set i | 0 <= i < |files| && |files[i].entries| > 0 && b.Some? && Smallest(files[i]).user < b.value
  }

  ghost function EndsAbove(files: seq<File>, e: Option<UserKey>): set<nat> {
    set i | 0 <= i < |files| && |files[i].entries| > 0 && e.Some? && Largest(files[i]).user > e.value
  }

  /** `group` reaches down to `b` and up to `e`. */
  ghost predicate Reaches(group: set<File>, b: Option<UserKey>, e: Option<UserKey>) {
    b.Some? && e.Some? &&
    (exists g :: g in group && |g.entries| > 0 && Smallest(g).user <= b.value) &&
    (exists g :: g in group && |g.entries| > 0 && Largest(g).user >= e.value)
  }

  function FileSet(files: seq<File>): set<File> {
    set f | f in files
  }

  /** Every closed range that contains [begin, end] contains [b, e]. */
  ghost predicate InEveryClosedRange(files: seq<File>, begin: Option<UserKey>, end: Option<UserKey>,
                                     b: Option<UserKey>, e: Option<UserKey>)
  {
    forall b', e' :: AtMost(b', begin) && AtLeast(e', end) && ClosedRange(files, b', e') ==>
      AtMost(b', b) && AtLeast(e', e)
  }

  lemma MeetingSticksOut(files: seq<File>, begin: Option<UserKey>, end: Option<UserKey>,
                         b: Option<UserKey>, e: Option<UserKey>, i: nat)
    requires InEveryClosedRange(files, begin, end, b, e) && i < |files| && Meets(files[i], b, e)
    ensures InEveryClosedRange(files, begin, end, if b.Some? && Smallest(files[i]).user < b.value
                                                  then Some(Smallest(files[i]).user) else b, e)
    ensures InEveryClosedRange(files, begin, end, b, if e.Some? && Largest(files[i]).user > e.value
                                                     then Some(Largest(files[i]).user) else e)
  {
    forall b', e' | AtMost(b', begin) && AtLeast(e', end) && ClosedRange(files, b', e')
      ensures b'.Some? && b.Some? ==> b'.value <= Smallest(files[i]).user
      ensures e'.Some? && e.Some? ==> e'.value >= Largest(files[i]).user
    {
      assert AtMost(b', b) && AtLeast(e', e);
      assert Meets(files[i], b', e');
    }
  }

  lemma WiderIsLess(files: seq<File>, b: Option<UserKey>, e: Option<UserKey>, i: nat)
    requires i < |files| && |files[i].entries| > 0
    ensures b.Some? && Smallest(files[i]).user < b.value ==>
      StartsBelow(files, Some(Smallest(files[i]).user)) < StartsBelow(files, b)
    ensures e.Some? && Largest(files[i]).user > e.value ==>
      EndsAbove(files, Some(Largest(files[i]).user)) < EndsAbove(files, e)
  {
    if b.Some? && Smallest(files[i]).user < b.value {
      assert i in StartsBelow(files, b) && i !in StartsBelow(files, Some(Smallest(files[i]).user));
    }
    if e.Some? && Largest(files[i]).user > e.value {
      assert i in EndsAbove(files, e) && i !in EndsAbove(files, Some(Largest(files[i]).user));
    }
  }

  /** GetOverlappingInputs.  Above level zero the files that meet the range; at level zero the
      files that meet the least range that contains it and is closed under overlap. */
  method GetOverlappingInputs(files: seq<File>, levelZero: bool, begin: Option<UserKey>, end: Option<UserKey>)
    returns (inputs: seq<File>, userBegin: Option<UserKey>, userEnd: Option<UserKey>)
    requires AllValid(files)
    ensures inputs == Meeting(files, userBegin, userEnd)
    ensures !levelZero ==> userBegin == begin && userEnd == end
    ensures AtMost(userBegin, begin) && AtLeast(userEnd, end)
    ensures (begin.None? <==> userBegin.None?) && (end.None? <==> userEnd.None?)
    ensures levelZero ==> ClosedRange(files, userBegin, userEnd)
    ensures InEveryClosedRange(files, begin, end, userBegin, userEnd)
  {
    userBegin, userEnd := begin, end;
    inputs := [];
    var i := 0;
    while i < |files|
      invariant i <= |files|
      invariant inputs == Meeting(files[..i], userBegin, userEnd)
      invariant !levelZero ==> userBegin == begin && userEnd == end
      invariant AtMost(userBegin, begin) && AtLeast(userEnd, end)
      invariant (begin.None? <==> userBegin.None?) && (end.None? <==> userEnd.None?)
      invariant levelZero ==> AllInside(inputs, userBegin, userEnd)
      invariant InEveryClosedRange(files, begin, end, userBegin, userEnd)
      decreases StartsBelow(files, userBegin), EndsAbove(files, userEnd), |files| - i
    {
      var f := files[i];
      MeetingSnoc(files, i, userBegin, userEnd);
      if userBegin.Some? && Largest(f).user < userBegin.value {
        i := i + 1;
      } else if userEnd.Some? && Smallest(f).user > userEnd.value {
        i := i + 1;
      } else {
        WiderIsLess(files, userBegin, userEnd, i);
        MeetingSticksOut(files, begin, end, userBegin, userEnd, i);
        inputs := inputs + [f];
        i := i + 1;
        if levelZero {
          if userBegin.Some? && Smallest(f).user < userBegin.value {
            userBegin := Some(Smallest(f).user);
            inputs := [];
            i := 0;
          } else if userEnd.Some? && Largest(f).user > userEnd.value {
            userEnd := Some(Largest(f).user);
            inputs := [];
            i := 0;
          }
        }
      }
    }
    assert files[..|files|] == files;
  }

  ghost predicate AllInside(files: seq<File>, begin: Option<UserKey>, end: Option<UserKey>) {
    forall f :: f in files ==> Inside(f, begin, end)
  }

  lemma MeetingSnoc(files: seq<File>, i: nat, b: Option<UserKey>, e: Option<UserKey>)
    requires i < |files|
    ensures Meeting(files[..i + 1], b, e) ==
      if Meets(files[i], b, e) then Meeting(files[..i], b, e) + [files[i]] else Meeting(files[..i], b, e)
  {
    assert files[..i + 1][..i] == files[..i];
  }

  /** Adding files that meet a range which a connected group spans keeps it connected. */
  lemma GrowConnected(group: set<File>, more: set<File>, b: Option<UserKey>, e: Option<UserKey>)
    requires forall f :: f in more ==> Meets(f, b, e)
    ensures Connected(group) && Reaches(group, b, e) ==> Connected(group + more) && Reaches(group + more, b, e)
  {
    if Connected(group) && Reaches(group, b, e) {
      var g0 :| g0 in group && |g0.entries| > 0 && Smallest(g0).user <= b.value;
      var g1 :| g1 in group && |g1.entries| > 0 && Largest(g1).user >= e.value;
      assert g0 in group + more && g1 in group + more;
      forall k: UserKey ensures NoGapAt(group + more, k) {
        assert NoGapAt(group, k);
        if f :| f in group && Covers(f, k) {
          assert f in group + more;
        } else if f :| f in more && Covers(f, k) {
          assert f in group + more;
        } else if forall f :: f in group ==> EndsBefore(f, k) {
          forall f | f in group + more ensures EndsBefore(f, k) {
            if f in more {
              assert EndsBefore(g1, k) && Meets(f, b, e) && !Covers(f, k);
            }
          }
        } else {
          forall f | f in group + more ensures StartsAfter(f, k) {
            if f in more {
              assert StartsAfter(g0, k) && Meets(f, b, e) && !Covers(f, k);
            }
          }
        }
      }
    }
  }

  /** The least closed range around a connected group adds only files connected to it. */
  lemma ClosureConnected(files: seq<File>, seed: set<File>, begin: Option<UserKey>, end: Option<UserKey>,
                         b: Option<UserKey>, e: Option<UserKey>)
    requires Connected(seed) && Reaches(seed, begin, end)
    requires AtMost(b, begin) && AtLeast(e, end) && b.Some? && e.Some?
    requires ClosedRange(files, b, e) && InEveryClosedRange(files, begin, end, b, e)
    ensures Connected(seed + FileSet(Meeting(files, b, e)))
    ensures Reaches(seed + FileSet(Meeting(files, b, e)), begin, end)
  {
    var group := seed + FileSet(Meeting(files, b, e));
    var g0 :| g0 in seed && |g0.entries| > 0 && Smallest(g0).user <= begin.value;
    var g1 :| g1 in seed && |g1.entries| > 0 && Largest(g1).user >= end.value;
    assert g0 in group && g1 in group;
    forall k: UserKey ensures NoGapAt(group, k) {
      assert NoGapAt(seed, k);
      if f :| f in group && Covers(f, k) {
      } else if forall f :: f in seed ==> EndsBefore(f, k) {
        assert EndsBefore(g1, k);
        if k < e.value {
          forall f | f in files && Meets(f, b, Some(k)) ensures Inside(f, b, Some(k)) {
            assert Meets(f, b, e);
            assert f in group && !Covers(f, k);
          }
          assert AtLeast(Some(k), end) && ClosedRange(files, b, Some(k));
        }
        assert forall f :: f in group ==> EndsBefore(f, k);
      } else {
        assert forall f :: f in seed ==> StartsAfter(f, k) by {
          assert forall f :: f in seed ==> !Covers(f, k);
        }
        assert StartsAfter(g0, k);
        if k > b.value {
          forall f | f in files && Meets(f, Some(k), e) ensures Inside(f, Some(k), e) {
            assert Meets(f, b, e);
            assert f in group && !Covers(f, k);
          }
          assert AtMost(Some(k), begin) && ClosedRange(files, Some(k), e);
        }
        assert forall f :: f in group ==> StartsAfter(f, k);
      }
    }
  }

  function TotalFileSize(files: seq<File>): nat {
    if files == [] then 0 else TotalFileSize(files[..|files| - 1]) + files[|files| - 1].size
  }

  ghost predicate LevelMeets(levels: Levels, l: nat, lo: UserKey, hi: UserKey)
    requires l < |levels|
  {
    exists i :: 0 <= i < |levels[l]| && Meets(levels[l][i], Some(lo), Some(hi))
  }

  /** PickLevelForMemTableOutput: sink past levels the table does not meet, unless too many
      bytes two levels further down would overlap; and no further than level two. */
  method PickLevelForMemTableOutput(levels: Levels, lo: UserKey, hi: UserKey, grandParentLimit: nat)
    returns (level: nat)
    requires ValidLevels(levels) && forall l :: 0 <= l < NUM_LEVELS ==> SeqnosFit(levels[l])
    ensures level <= MAX_MEM_COMPACT_LEVEL
    ensures level > 0 ==> forall l :: 0 <= l <= level ==> !LevelMeets(levels, l, lo, hi)
    ensures level < MAX_MEM_COMPACT_LEVEL ==>
      (level == 0 && LevelMeets(levels, 0, lo, hi)) || LevelMeets(levels, level + 1, lo, hi) ||
      TotalFileSize(Meeting(levels[level + 2], Some(lo), Some(hi))) > grandParentLimit
  {
    level := 0;
    var overlap := SomeFileOverlapsRange(false, levels[0], Some(lo), Some(hi));
    if !overlap {
      while level < MAX_MEM_COMPACT_LEVEL
        invariant level <= MAX_MEM_COMPACT_LEVEL
        invariant forall l :: 0 <= l <= level ==> !LevelMeets(levels, l, lo, hi)
      {
        overlap := SomeFileOverlapsRange(true, levels[level + 1], Some(lo), Some(hi));
        if overlap {
          break;
        }
        if level + 2 < NUM_LEVELS {
          var overlaps, _, _ := GetOverlappingInputs(levels[level + 2], false, Some(lo), Some(hi));
          if TotalFileSize(overlaps) > grandParentLimit {
            break;
          }
        }
        level := level + 1;
      }
    }
  }

  // ---------------------------------------------------------------- point lookups

  /** Where an iterator over a table or memtable stands after Seek(target). */
  function SeekIndex(entries: seq<Entry>, target: IKey): (i: nat)
    ensures i <= |entries|
    ensures forall j :: 0 <= j < i ==> Less(entries[j].k, target)
    ensures i < |entries| ==> !Less(entries[i].k, target)
  {
    if entries == [] || !Less(entries[0].k, target) then 0
    else
      assert forall j :: 1 <= j < |entries| ==> entries[j] == entries[1..][j - 1];
      1 + SeekIndex(entries[1..], target)
  }

  /** MemTable::Get, and Table::InternalGet followed by SaveValue: the entry that Seek lands
      on, when it belongs to the user key. */
  function Lookup(entries: seq<Entry>, k: UserKey, snapshot: nat): Option<Entry> {
    var i := SeekIndex(entries, Target(k, snapshot));
    if i < |entries| && entries[i].k.user == k then Some(entries[i]) else None
  }

  ghost predicate Visible(e: Entry, k: UserKey, snapshot: nat) {
    e.k.user == k && e.k.seqno <= snapshot
  }

  /** A sorted run answers with its newest visible entry. */
  lemma LookupIsNewest(entries: seq<Entry>, k: UserKey, snapshot: nat)
    requires Sorted(entries)
    ensures var r := Lookup(entries, k, snapshot);
      (r.Some? ==> r.value in entries && Visible(r.value, k, snapshot)) &&
      (forall e :: e in entries && Visible(e, k, snapshot) ==> r.Some? && e.k.seqno <= r.value.k.seqno)
  {
    var t := Target(k, snapshot);
    var i := SeekIndex(entries, t);
    forall e | e in entries && Visible(e, k, snapshot)
      ensures i < |entries| && entries[i].k.user == k && e.k.seqno <= entries[i].k.seqno
    {
      var j :| 0 <= j < |entries| && entries[j] == e;
      assert !Less(e.k, t);
      assert i <= j;
    }
  }

  /** In level zero, the files that cover the user key, newest first. */
  predicate NewestFirst(files: seq<File>) {
    forall i, j :: 0 <= i < j < |files| ==> files[i].number >= files[j].number
  }

  /** One step of sorting by NewestFirst. */
  method InsertNewestFirst(files: seq<File>, f: File) returns (r: seq<File>)
    requires NewestFirst(files)
    ensures NewestFirst(r) && |r| == |files| + 1
    ensures forall g :: g in r <==> g in files || g == f
  {
    var i := 0;
    while i < |files| && files[i].number >= f.number
      invariant i <= |files|
      invariant forall j :: 0 <= j < i ==> files[j].number >= f.number
    {
      i := i + 1;
    }
    r := files[..i] + [f] + files[i..];
    assert forall g :: g in files <==> g in files[..i] || g in files[i..];
  }

  method FilesCovering(files: seq<File>, k: UserKey) returns (tmp: seq<File>)
    requires AllValid(files)
    ensures NewestFirst(tmp)
    ensures forall f :: f in tmp <==> f in files && Smallest(f).user <= k <= Largest(f).user
  {
    tmp := [];
    for i := 0 to |files|
      invariant NewestFirst(tmp)
      invariant forall f :: f in tmp <==> f in files[..i] && Smallest(f).user <= k <= Largest(f).user
    {
      if k >= Smallest(files[i]).user && k <= Largest(files[i]).user {
        tmp := InsertNewestFirst(tmp, files[i]);
      }
    }
    assert files[..|files|] == files;
  }

  ghost predicate NoneVisible(files: seq<File>, k: UserKey, snapshot: nat) {
    forall i, e :: 0 <= i < |files| && e in files[i].entries ==> !Visible(e, k, snapshot)
  }

  /** `e` is the newest visible entry of the level. */
  ghost predicate NewestOfLevel(files: seq<File>, k: UserKey, snapshot: nat, e: Entry) {
    (exists i :: 0 <= i < |files| && e in files[i].entries) && Visible(e, k, snapshot) &&
    forall i, x :: 0 <= i < |files| && x in files[i].entries && Visible(x, k, snapshot) ==> x.k.seqno <= e.k.seqno
  }

  ghost predicate HitOf(files: seq<File>, k: UserKey, snapshot: nat, e: Entry) {
    (exists i :: 0 <= i < |files| && e in files[i].entries) && Visible(e, k, snapshot)
  }

  ghost predicate NewerByNumber(files: seq<File>) {
    forall i, j :: 0 <= i < |files| && 0 <= j < |files| && files[i].number > files[j].number ==>
      NewerOnShared(files[i], files[j])
  }

  ghost predicate DistinctNumbers(files: seq<File>) {
    forall i, j :: 0 <= i < |files| && 0 <= j < |files| && files[i].number == files[j].number ==> files[i] == files[j]
  }

  /** Level zero: search the covering files newest first and stop at the first hit. */
  method SearchLevelZero(files: seq<File>, k: UserKey, snapshot: nat) returns (r: Option<Entry>)
    requires AllValid(files)
    ensures r.None? ==> NoneVisible(files, k, snapshot)
    ensures r.Some? ==> HitOf(files, k, snapshot, r.value)
    ensures r.Some? && NewerByNumber(files) && DistinctNumbers(files) ==> NewestOfLevel(files, k, snapshot, r.value)
  {
    var tmp := FilesCovering(files, k);
    for i := 0 to |tmp|
      invariant forall j, e :: 0 <= j < i && e in tmp[j].entries ==> !Visible(e, k, snapshot)
    {
      assert tmp[i] in tmp;
      ghost var at :| 0 <= at < |files| && files[at] == tmp[i];
      LookupIsNewest(tmp[i].entries, k, snapshot);
      r := Lookup(tmp[i].entries, k, snapshot);
      if r.Some? {
        forall m, x | 0 <= m < |files| && x in files[m].entries && Visible(x, k, snapshot) &&
          NewerByNumber(files) && DistinctNumbers(files)
          ensures x.k.seqno <= r.value.k.seqno
        {
          EntryInRange(files[m], x);
          assert files[m] in tmp;
          var j :| 0 <= j < |tmp| && tmp[j] == files[m];
          assert j >= i;
          assert files[at].number > files[m].number ==> NewerOnShared(files[at], files[m]);
        }
        return;
      }
    }
    forall m, x | 0 <= m < |files| && x in files[m].entries ensures !Visible(x, k, snapshot) {
      EntryInRange(files[m], x);
    }
    return None;
  }

  lemma EarlierFilesEnd(f: File, t: IKey)
    requires ValidFile(f) && Less(Largest(f), t)
    ensures forall e :: e in f.entries ==> Less(e.k, t)
  {
    forall e | e in f.entries ensures Less(e.k, t) {
      EntryInRange(f, e);
    }
  }

  lemma LaterFilesFollow(files: seq<File>, i: nat, j: nat, a: Entry, b: Entry)
    requires AllValid(files) && InOrder(files) && i < j < |files|
    requires a in files[i].entries && b in files[j].entries
    ensures Less(a.k, b.k)
  {
    assert Precedes(files[i], files[j]);
    EntryInRange(files[i], a);
    EntryInRange(files[j], b);
  }

  /** Above level zero: one binary search and at most one file. */
  method SearchSortedLevel(files: seq<File>, k: UserKey, snapshot: nat) returns (r: Option<Entry>)
    requires AllValid(files) && InOrder(files)
    ensures r.None? ==> NoneVisible(files, k, snapshot)
    ensures r.Some? ==> NewestOfLevel(files, k, snapshot, r.value)
  {
    var t := Target(k, snapshot);
    var index := FindFile(files, t);
    forall i, e | 0 <= i < index && e in files[i].entries ensures !Visible(e, k, snapshot) {
      EarlierFilesEnd(files[i], t);
    }
    r := None;
    if index < |files| {
      var f := files[index];
      EntryInRange(f, f.entries[0]);
      if k < Smallest(f).user {
        AllBeyond(files, index, f.entries[0], k, snapshot);
      } else {
        LookupIsNewest(f.entries, k, snapshot);
        r := Lookup(f.entries, k, snapshot);
        if r.Some? {
          forall i, x | index < i < |files| && x in files[i].entries && Visible(x, k, snapshot)
            ensures x.k.seqno <= r.value.k.seqno
          {
            LaterFilesFollow(files, index, i, r.value, x);
          }
        } else {
          var last := f.entries[|f.entries| - 1];
          assert last in f.entries && !Visible(last, k, snapshot);
          AllBeyond(files, index, last, k, snapshot);
        }
      }
    }
  }

  /** Once an entry at or after the target belongs to another user key, nothing later is visible. */
  lemma AllBeyond(files: seq<File>, index: nat, e: Entry, k: UserKey, snapshot: nat)
    requires AllValid(files) && InOrder(files) && index < |files| && e in files[index].entries
    requires e.k.user > k
    ensures forall i, x :: index < i < |files| && x in files[i].entries ==> !Visible(x, k, snapshot)
    ensures e == files[index].entries[0] ==>
      forall x :: x in files[index].entries ==> !Visible(x, k, snapshot)
  {
    forall i, x | index < i < |files| && x in files[i].entries ensures !Visible(x, k, snapshot) {
      LaterFilesFollow(files, index, i, e, x);
    }
    if e == files[index].entries[0] {
      forall x | x in files[index].entries ensures !Visible(x, k, snapshot) {
        EntryInRange(files[index], x);
      }
    }
  }

  /** Version::Get: level by level, stopping at the first hit.  That hit is the newest visible
      entry when the version is in newest-first order. */
  method Get(levels: Levels, k: UserKey, snapshot: nat) returns (r: Option<Entry>)
    requires ValidLevels(levels)
    ensures r.None? ==> forall e :: e in FileEntries(FilesOf(levels)) ==> !Visible(e, k, snapshot)
    ensures r.Some? ==> r.value in FileEntries(FilesOf(levels)) && Visible(r.value, k, snapshot)
    ensures r.Some? && LevelOrder(FilesOf(levels)) && NumbersUnique(FilesOf(levels)) ==>
      IsNewest(FileEntries(FilesOf(levels)), k, snapshot, r.value)
  {
    for level := 0 to NUM_LEVELS
      invariant forall l :: 0 <= l < level ==> NoneVisible(levels[l], k, snapshot)
    {
      if level == 0 {
        r := SearchLevelZero(levels[0], k, snapshot);
      } else {
        r := SearchSortedLevel(levels[level], k, snapshot);
      }
      if r.Some? {
        HitIsStored(levels, level, k, snapshot, r.value);
        if LevelOrder(FilesOf(levels)) && NumbersUnique(FilesOf(levels)) {
          LevelZeroOrder(levels);
          HitIsNewest(levels, level, k, snapshot, r.value);
        }
        return;
      }
    }
    return None;
  }

  lemma HitIsStored(levels: Levels, level: nat, k: UserKey, snapshot: nat, e: Entry)
    requires level < |levels| && HitOf(levels[level], k, snapshot, e)
    ensures e in FileEntries(FilesOf(levels))
  {
    var i :| 0 <= i < |levels[level]| && e in levels[level][i].entries;
    PlacedIn(levels, level, i);
    assert Placed(level, levels[level][i]) in FilesOf(levels);
  }

  lemma LevelZeroOrder(levels: Levels)
    requires ValidLevels(levels) && LevelOrder(FilesOf(levels)) && NumbersUnique(FilesOf(levels))
    ensures NewerByNumber(levels[0]) && DistinctNumbers(levels[0])
  {
    forall i, j | 0 <= i < |levels[0]| && 0 <= j < |levels[0]| && levels[0][i].number > levels[0][j].number
      ensures NewerOnShared(levels[0][i], levels[0][j])
    {
      PlacedIn(levels, 0, i);
      PlacedIn(levels, 0, j);
      assert Above(Placed(0, levels[0][i]), Placed(0, levels[0][j]));
    }
    forall i, j | 0 <= i < |levels[0]| && 0 <= j < |levels[0]| && levels[0][i].number == levels[0][j].number
      ensures levels[0][i] == levels[0][j]
    {
      PlacedIn(levels, 0, i);
      PlacedIn(levels, 0, j);
      assert Placed(0, levels[0][i]).file.number == Placed(0, levels[0][j]).file.number;
    }
  }

  lemma DeeperIsOlder(files: set<Placed>, p: Placed, q: Placed, e: Entry, x: Entry)
    requires LevelOrder(files) && p in files && q in files && p.level < q.level
    requires e in p.file.entries && x in q.file.entries && e.k.user == x.k.user
    ensures x.k.seqno < e.k.seqno
  {
    assert Above(p, q) && NewerOnShared(p.file, q.file);
  }

  lemma NotDeeper(levels: Levels, level: nat, k: UserKey, snapshot: nat, e: Entry, q: Placed, x: Entry)
    requires level < |levels| && q in FilesOf(levels) && q.level <= level
    requires forall l :: 0 <= l < level ==> NoneVisible(levels[l], k, snapshot)
    requires NewestOfLevel(levels[level], k, snapshot, e)
    requires x in q.file.entries && Visible(x, k, snapshot)
    ensures x.k.seqno <= e.k.seqno
  {
    var j :| 0 <= j < |levels[q.level]| && levels[q.level][j] == q.file;
  }

  /** Entries never hop across levels, so a hit makes the deeper levels irrelevant. */
  lemma HitIsNewest(levels: Levels, level: nat, k: UserKey, snapshot: nat, e: Entry)
    requires ValidLevels(levels) && LevelOrder(FilesOf(levels)) && level < NUM_LEVELS
    requires forall l :: 0 <= l < level ==> NoneVisible(levels[l], k, snapshot)
    requires NewestOfLevel(levels[level], k, snapshot, e)
    ensures IsNewest(FileEntries(FilesOf(levels)), k, snapshot, e)
  {
    var i :| 0 <= i < |levels[level]| && e in levels[level][i].entries;
    var p := Placed(level, levels[level][i]);
    PlacedIn(levels, level, i);
    assert p in FilesOf(levels);
    forall x | x in FileEntries(FilesOf(levels)) && x.k.user == k && x.k.seqno <= snapshot
      ensures x.k.seqno <= e.k.seqno
    {
      var q :| q in FilesOf(levels) && x in q.file.entries;
      if q.level > level {
        DeeperIsOlder(FilesOf(levels), p, q, e, x);
      } else {
        NotDeeper(levels, level, k, snapshot, e, q, x);
      }
    }
  }
}
