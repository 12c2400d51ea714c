/** The log-structured merge tree as a state machine (db/db_impl.cc, db/version_set.cc).

    A state holds the two memtables, the placed table files, the live snapshots and the
    compaction that is running, if any, together with the history of writes that the
    tree is meant to represent. */
module Lsm {
  import opened DbFormat

  datatype Op = Op(key: UserKey, kind: Kind, value: Bytes)

  datatype Placed = Placed(level: nat, file: File)

  /** `files` is the version the compaction was started from, `smallest` its smallest_snapshot. */
  datatype Compaction =
    | Idle
    | Running(level: nat, in0: set<File>, in1: set<File>, files: set<Placed>, smallest: nat)

  /** `history[i]` was written with sequence number i + 1.  `floor` is the least sequence
      number at which reads are still owed: compactions may forget older views. */
  datatype State = State(
    mem: set<Entry>,
    imm: Option<set<Entry>>,
    files: set<Placed>,
    snapshots: seq<nat>,
    nextFile: nat,
    compaction: Compaction,
    history: seq<Op>,
    floor: nat)

  datatype Event =
    | Write(ops: seq<Op>)
    | SwitchMemTable
    | ReserveFileNumber
    | Flush(level: nat, file: File)
    | FlushEmpty
    | TrivialMove(from: nat, file: File)
    | BeginCompaction(from: nat, in0: set<File>, in1: set<File>)
    | FinishCompaction(outputs: set<File>)
    | TakeSnapshot
    | ReleaseSnapshot(index: nat)

  // ---------------------------------------------------------------- reading

  ghost function FileEntries(files: set<Placed>): set<Entry> {
    set p, e | p in files && e in p.file.entries :: e
  }

  ghost function InputEntries(files: set<File>): set<Entry> {
    set f, e | f in files && e in f.entries :: e
  }

  ghost function ImmEntries(s: State): set<Entry> {
    if s.imm.Some? then s.imm.value else {}
  }

  /** Every entry stored anywhere in the tree. */
  ghost function All(s: State): set<Entry> {
    s.mem + ImmEntries(s) + FileEntries(s.files)
  }

  ghost predicate IsNewest(all: set<Entry>, k: UserKey, snapshot: nat, e: Entry) {
    e in all && e.k.user == k && e.k.seqno <= snapshot &&
    forall x :: x in all && x.k.user == k && x.k.seqno <= snapshot ==> x.k.seqno <= e.k.seqno
  }

  /** The flat lookup: `r` is the value of the newest entry of `k` at or below `snapshot`,
      or None when there is none or it is a deletion. */
  ghost predicate ReadsAs(all: set<Entry>, k: UserKey, snapshot: nat, r: Option<Bytes>) {
    match r
    case Some(v) => exists e :: IsNewest(all, k, snapshot, e) && e.k.kind.Value? && e.v == v
    case None => forall e :: IsNewest(all, k, snapshot, e) ==> e.k.kind.Deletion?
  }

  /** The specification: a plain map built by the first `n` writes, looked up at `k`. */
  function MapAt(history: seq<Op>, n: nat, k: UserKey): Option<Bytes>
    requires n <= |history|
  {
    if n == 0 then None
    else if history[n - 1].key == k then
      if history[n - 1].kind.Value? then Some(history[n - 1].value) else None
    else MapAt(history, n - 1, k)
  }

  function EntryOf(op: Op, seqno: nat): Entry {
    Entry(IKey(op.key, seqno, op.kind), op.value)
  }

  // ---------------------------------------------------------------- ordering

  /** Where a reader looks first. */
  predicate Above(p: Placed, q: Placed) {
    p.level < q.level || (p.level == 0 && q.level == 0 && p.file.number > q.file.number)
  }

  /** No entry of `newer` is older than an entry of `older` for the same user key. */
  ghost predicate NewerOnShared(newer: File, older: File) {
    forall a, b :: a in newer.entries && b in older.entries && a.k.user == b.k.user ==> a.k.seqno > b.k.seqno
  }

  ghost predicate NoSharedUser(f: File, g: File) {
    forall a, b :: a in f.entries && b in g.entries ==> a.k.user != b.k.user
  }

  ghost predicate LevelOrder(files: set<Placed>) {
    forall p, q :: p in files && q in files && Above(p, q) ==> NewerOnShared(p.file, q.file)
  }

  /** Levels one and up are lists of disjoint files. */
  ghost predicate LevelsDisjoint(files: set<Placed>)
    requires FilesValid(files)
  {
    forall p, q :: p in files && q in files && p != q && p.level == q.level > 0 ==>
      Precedes(p.file, q.file) || Precedes(q.file, p.file)
  }

  /** No user key lives in two files of one level above zero. */
  ghost predicate Unsplit(files: set<Placed>) {
    forall p, q :: p in files && q in files && p != q && p.level == q.level > 0 ==>
      NoSharedUser(p.file, q.file)
  }

  ghost predicate FilesValid(files: set<Placed>) {
    forall p :: p in files ==> p.level < NUM_LEVELS && ValidFile(p.file)
  }

  ghost predicate NumbersUnique(files: set<Placed>) {
    forall p, q :: p in files && q in files && p.file.number == q.file.number ==> p == q
  }

  // ---------------------------------------------------------------- compaction inputs

  ghost predicate AtLevel(files: set<Placed>, level: nat, chosen: set<File>) {
    forall f :: f in chosen ==> Placed(level, f) in files
  }

  /** `f` lies wholly on one side of all the files of `group`. */
  ghost predicate Outside(f: File, group: set<File>)
    requires ValidFile(f) && forall g :: g in group ==> ValidFile(g)
  {
    (forall g :: g in group ==> Precedes(f, g)) || (forall g :: g in group ==> Precedes(g, f))
  }

  /** What picking the next-level inputs by user-key range guarantees: a file that stays
      in the output level shares no user key with the upper inputs and lies outside the
      range of all the inputs. */
  ghost predicate RangeClosed(files: set<Placed>, level: nat, in0: set<File>, in1: set<File>)
    requires FilesValid(files) && AtLevel(files, level, in0) && AtLevel(files, level + 1, in1)
  {
    forall p :: p in files && p.level == level + 1 && p.file !in in1 ==>
      (forall f :: f in in0 ==> NoSharedUser(p.file, f)) && Outside(p.file, in0 + in1)
  }

  /** A file of this level that is left behind holds, for every user key it shares with a
      chosen file, only newer entries. */
  ghost predicate NoOlderLeft(files: set<Placed>, level: nat, chosen: set<File>) {
    forall p, f :: p in files && p.level == level && p.file !in chosen && f in chosen ==>
      NewerOnShared(p.file, f)
  }

  /** What PickCompaction, CompactRange and SetupOtherInputs guarantee: inputs are chosen by
      user-key range, transitively at level zero. */
  ghost predicate PickedByRange(files: set<Placed>, level: nat, in0: set<File>, in1: set<File>) {
    FilesValid(files) && level + 1 < NUM_LEVELS && in0 != {} &&
    AtLevel(files, level, in0) && AtLevel(files, level + 1, in1) &&
    RangeClosed(files, level, in0, in1) &&
    (level == 0 ==> forall p, f :: p in files && p.level == 0 && p.file !in in0 && f in in0 ==>
      !UserOverlap(p.file, f))
  }

  /** What a running compaction relies on. */
  ghost predicate GoodInputs(files: set<Placed>, level: nat, in0: set<File>, in1: set<File>) {
    FilesValid(files) && level + 1 < NUM_LEVELS && in0 != {} &&
    AtLevel(files, level, in0) && AtLevel(files, level + 1, in1) &&
    RangeClosed(files, level, in0, in1) &&
    NoOlderLeft(files, level, in0) && NoOlderLeft(files, level + 1, in1)
  }

  predicate Covers(f: File, k: UserKey) {
    |f.entries| > 0 && Smallest(f).user <= k <= Largest(f).user
  }

  predicate EndsBefore(f: File, k: UserKey) {
    |f.entries| > 0 && Largest(f).user < k
  }

  predicate StartsAfter(f: File, k: UserKey) {
    |f.entries| > 0 && k < Smallest(f).user
  }

  /** No gap between the inputs at `k`: an input covers it or all lie to one side. */
  ghost predicate NoGapAt(group: set<File>, k: UserKey) {
    (exists f :: f in group && Covers(f, k)) ||
    (forall f :: f in group ==> EndsBefore(f, k)) ||
    (forall f :: f in group ==> StartsAfter(f, k))
  }

  /** True of the inputs that PickCompaction chooses, not of those of a manual compaction. */
  ghost predicate Connected(group: set<File>) {
    forall k: UserKey :: NoGapAt(group, k)
  }

  // ---------------------------------------------------------------- what a compaction drops

  /** Compaction::IsBaseLevelForKey as a full scan: no file below the output level covers `k`. */
  ghost predicate IsBase(files: set<Placed>, level: nat, k: UserKey)
    requires FilesValid(files)
  {
    forall p :: p in files && p.level >= level + 2 ==>
      !(Smallest(p.file).user <= k <= Largest(p.file).user)
  }

  /** Rule (A): hidden by a newer entry that every live reader sees. */
  ghost predicate Hidden(inputs: set<Entry>, smallest: nat, e: Entry) {
    exists x :: x in inputs && x.k.user == e.k.user && e.k.seqno < x.k.seqno <= smallest
  }

  /** Rule (B): a deletion marker with nothing left below to delete. */
  ghost predicate Obsolete(files: set<Placed>, level: nat, smallest: nat, e: Entry)
    requires FilesValid(files)
  {
    e.k.kind.Deletion? && e.k.seqno <= smallest && IsBase(files, level, e.k.user)
  }

  ghost function Survivors(c: Compaction): set<Entry>
    requires c.Running? && FilesValid(c.files)
  {
    var inputs := InputEntries(c.in0 + c.in1);
    set e | e in inputs && !Hidden(inputs, c.smallest, e) && !Obsolete(c.files, c.level, c.smallest, e)
  }

  ghost predicate OutputsDisjoint(outputs: set<File>)
    requires forall f :: f in outputs ==> ValidFile(f)
  {
    forall f, g :: f in outputs && g in outputs && f != g ==> Precedes(f, g) || Precedes(g, f)
  }

  /** The surviving entries, cut into files at any points, under reserved unused numbers. */
  ghost predicate GoodOutputs(s: State, outputs: set<File>)
    requires s.compaction.Running? && FilesValid(s.compaction.files)
  {
    (forall f :: f in outputs ==> ValidFile(f)) &&
    InputEntries(outputs) == Survivors(s.compaction) &&
    OutputsDisjoint(outputs) &&
    (forall f, g :: f in outputs && g in outputs && f.number == g.number ==> f == g) &&
    (forall f :: f in outputs ==> f.number < s.nextFile) &&
    (forall f, p :: f in outputs && p in s.files ==> f.number != p.file.number)
  }

  ghost function Installed(files: set<Placed>, c: Compaction, outputs: set<File>): set<Placed>
    requires c.Running?
  {
    (set p | p in files && !(p.level == c.level && p.file in c.in0) && !(p.level == c.level + 1 && p.file in c.in1))
    + (set f | f in outputs :: Placed(c.level + 1, f))
  }

  // ---------------------------------------------------------------- steps

  /** PickLevelForMemTableOutput: a flushed table may sink below level zero only past
      levels whose files it does not meet. */
  ghost predicate FlushLevelOk(files: set<Placed>, level: nat, file: File)
    requires FilesValid(files) && ValidFile(file)
  {
    level <= MAX_MEM_COMPACT_LEVEL &&
    (level > 0 ==> forall p :: p in files && p.level <= level ==> !UserOverlap(p.file, file))
  }

  /** A table flushed while a compaction runs must not land between its outputs. */
  ghost predicate FlushFits(c: Compaction, level: nat, file: File)
    requires ValidFile(file)
    requires c.Running? ==> forall f :: f in c.in0 + c.in1 ==> ValidFile(f)
  {
    c.Running? && level == c.level + 1 ==> Outside(file, c.in0 + c.in1)
  }

  /** The chosen files are files, and stay where they are while the compaction runs. */
  ghost predicate WellFormed(s: State) {
    FilesValid(s.files) &&
    (s.compaction.Running? ==>
      FilesValid(s.compaction.files) && s.compaction.level + 1 < NUM_LEVELS &&
      AtLevel(s.files, s.compaction.level, s.compaction.in0) &&
      AtLevel(s.files, s.compaction.level + 1, s.compaction.in1))
  }

  /** What holds of a running compaction whatever its inputs leave behind. */
  ghost predicate CompactionSound(s: State)
    requires WellFormed(s)
  {
    s.compaction.Running? ==>
      var c := s.compaction;
      c.in0 != {} && RangeClosed(s.files, c.level, c.in0, c.in1) &&
      (forall p, f :: p in s.files && p !in c.files && p.level >= c.level + 2 && f in c.in0 + c.in1 ==>
        NoSharedUser(p.file, f)) &&
      c.smallest <= |s.history| &&
      (forall i :: 0 <= i < |s.snapshots| ==> c.smallest <= s.snapshots[i])
  }

  ghost predicate CompactionValid(s: State)
    requires WellFormed(s)
  {
    CompactionSound(s) &&
    (s.compaction.Running? ==>
      NoOlderLeft(s.files, s.compaction.level, s.compaction.in0) &&
      NoOlderLeft(s.files, s.compaction.level + 1, s.compaction.in1))
  }

  /** The events the code allows. */
  ghost predicate Enabled(s: State, ev: Event)
    requires WellFormed(s)
  {
    match ev
    case Write(ops) => true
    case SwitchMemTable => s.imm.None?
    case ReserveFileNumber => true
    case Flush(level, file) =>
      s.imm.Some? && ValidFile(file) && (set e | e in file.entries) == s.imm.value &&
      file.number == s.nextFile && FlushLevelOk(s.files, level, file)
    case FlushEmpty => s.imm == Some({})
    case TrivialMove(from, file) =>
      s.compaction.Idle? && PickedByRange(s.files, from, {file}, {})
    case BeginCompaction(from, in0, in1) =>
      s.compaction.Idle? && PickedByRange(s.files, from, in0, in1)
    case FinishCompaction(outputs) =>
      s.compaction.Running? && GoodOutputs(s, outputs)
    case TakeSnapshot => true
    case ReleaseSnapshot(index) => index < |s.snapshots|
  }

  /** What the code does not check: a compaction leaves no older part of a split user key
      behind, and a table flushed meanwhile does not land between the outputs. */
  ghost predicate Careful(s: State, ev: Event)
    requires WellFormed(s) && Enabled(s, ev)
  {
    match ev
    case Flush(level, file) => FlushFits(s.compaction, level, file)
    case TrivialMove(from, file) => NoOlderLeft(s.files, from, {file})
    case BeginCompaction(from, in0, in1) =>
      NoOlderLeft(s.files, from, in0) && NoOlderLeft(s.files, from + 1, in1)
    case _ => true
  }

  ghost function WriteEntries(ops: seq<Op>, after: nat): set<Entry> {
    set i | 0 <= i < |ops| :: EntryOf(ops[i], after + i + 1)
  }

  /** DoCompactionWork: the oldest live snapshot, or the last sequence when none is live. */
  function SmallestSnapshot(s: State): nat {
    if s.snapshots == [] then |s.history| else s.snapshots[0]
  }

  ghost function Next(s: State, ev: Event): State
    requires WellFormed(s) && Enabled(s, ev)
  {
    match ev
    case Write(ops) =>
      s.(mem := s.mem + WriteEntries(ops, |s.history|), history := s.history + ops)
    case SwitchMemTable => s.(imm := Some(s.mem), mem := {})
    case ReserveFileNumber => s.(nextFile := s.nextFile + 1)
    case Flush(level, file) =>
      s.(imm := None, files := s.files + {Placed(level, file)}, nextFile := s.nextFile + 1)
    case FlushEmpty => s.(imm := None)
    case TrivialMove(from, file) =>
      s.(files := s.files - {Placed(from, file)} + {Placed(from + 1, file)})
    case BeginCompaction(from, in0, in1) =>
      s.(compaction := Running(from, in0, in1, s.files, SmallestSnapshot(s)))
    case FinishCompaction(outputs) =>
      var c := s.compaction;
      s.(files := Installed(s.files, c, outputs), compaction := Idle,
         floor := if s.floor < c.smallest then c.smallest else s.floor)
    case TakeSnapshot => s.(snapshots := s.snapshots + [|s.history|])
    case ReleaseSnapshot(index) =>
      s.(snapshots := s.snapshots[..index] + s.snapshots[index + 1..])
  }

  const EMPTY := State({}, None, {}, [], 2, Idle, [], 0)

  // ---------------------------------------------------------------- the invariant

  /** Whatever sits in a younger container was written later. */
  ghost predicate Separated(s: State) {
    (forall a, b :: a in s.mem && b in ImmEntries(s) ==> a.k.seqno > b.k.seqno) &&
    (forall a, b :: a in s.mem && b in FileEntries(s.files) ==> a.k.seqno > b.k.seqno) &&
    (forall a, b :: a in ImmEntries(s) && b in FileEntries(s.files) ==> a.k.seqno > b.k.seqno)
  }

  ghost predicate FromHistory(all: set<Entry>, history: seq<Op>) {
    forall e :: e in all ==> 1 <= e.k.seqno <= |history| && e == EntryOf(history[e.k.seqno - 1], e.k.seqno)
  }

  ghost predicate ReadsRight(all: set<Entry>, history: seq<Op>, floor: nat) {
    forall k: UserKey, n: nat :: floor <= n <= |history| ==> ReadsAs(all, k, n, MapAt(history, n, k))
  }

  ghost predicate SnapshotsValid(s: State) {
    s.floor <= |s.history| &&
    (forall i :: 0 <= i < |s.snapshots| ==> s.floor <= s.snapshots[i] <= |s.history|) &&
    (forall i, j :: 0 <= i < j < |s.snapshots| ==> s.snapshots[i] <= s.snapshots[j])
  }

  ghost predicate NumbersBelow(files: set<Placed>, n: nat) {
    forall p :: p in files ==> p.file.number < n
  }

  /** No entry is stored in two files. */
  ghost predicate StoredOnce(files: set<Placed>) {
    forall p, q, e :: p in files && q in files && p != q && e in p.file.entries ==> e !in q.file.entries
  }

  /** What holds whatever becomes of split user keys. */
  ghost predicate Frame(s: State) {
    WellFormed(s) && NumbersUnique(s.files) && NumbersBelow(s.files, s.nextFile) &&
    LevelsDisjoint(s.files) && CompactionSound(s) && Separated(s) && SnapshotsValid(s)
  }

  ghost predicate Sound(s: State) {
    Frame(s) && StoredOnce(s.files) && FromHistory(All(s), s.history)
  }

  ghost predicate Shape(s: State) {
    Frame(s) && LevelOrder(s.files) && CompactionValid(s)
  }

  ghost predicate Inv(s: State) {
    Shape(s) && FromHistory(All(s), s.history) && ReadsRight(All(s), s.history, s.floor)
  }
}
