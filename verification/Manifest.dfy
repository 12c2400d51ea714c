/** The manifest: logging edits, and recovering the version from whatever of the log survived
    (VersionSet::LogAndApply, WriteSnapshot and Recover in db/version_set.cc). */
module Manifest {
  import opened DbFormat
  import opened Coding
  import opened Lsm
  import opened Version
  import opened VersionBuilder
  import opened VersionEdit
  import opened Log
  import opened LogProof
  import Recovery
  import CompactionInputs

  /** Table files are named by number and never rewritten, so a number stands for a file. */
  type Disk = nat -> File

  ghost predicate OnDisk(disk: Disk, e: VersionEdit) {
    forall i :: 0 <= i < |e.added| ==>
      disk(e.added[i].1.number).number == e.added[i].1.number && ValidFile(disk(e.added[i].1.number))
  }

  /** The edit in terms of files. */
  function EditOf(disk: Disk, e: VersionEdit): Edit {
    Edit(set d | d in e.deleted,
      seq(|e.added|, i requires 0 <= i < |e.added| => (e.added[i].0, disk(e.added[i].1.number))))
  }

  function EditsOf(disk: Disk, es: seq<VersionEdit>): (r: seq<Edit>)
    ensures |r| == |es|
  {
    seq(|es|, i requires 0 <= i < |es| => EditOf(disk, es[i]))
  }

  function Encodings(es: seq<VersionEdit>): (r: seq<Bytes>)
    ensures |r| == |es|
  {
    seq(|es|, i requires 0 <= i < |es| => Encode(es[i]))
  }

  /** Every file ever added by some edits. */
  ghost function EverAdded(es: seq<Edit>): set<Placed> {
    if es == [] then {} else EverAdded(es[..|es| - 1]) + EditFiles(es[|es| - 1], |es[|es| - 1].newFiles|)
  }

  /** Each pair of a level and a file number is added at most once. */
  ghost predicate FreshRun(es: seq<Edit>) {
    forall i :: 0 <= i < |es| ==> FreshIn(EverAdded(es[..i]), es[i])
  }

  ghost predicate Loadable(disk: Disk, es: seq<VersionEdit>) {
    (forall i :: 0 <= i < |es| ==> GoodEdit(es[i]) && OnDisk(disk, es[i])) && FreshRun(EditsOf(disk, es))
  }

  /** The files after some edits. */
  ghost function FilesAfter(disk: Disk, es: seq<VersionEdit>): set<Placed> {
    ApplyEdits({}, EditsOf(disk, es))
  }

  /** The last value that some edits give to a scalar. */
  function Last(values: seq<Option<nat>>): (r: Option<nat>) {
    if values == [] then
      None
    else if values[|values| - 1].Some? then
      values[|values| - 1]
    else
      Last(values[..|values| - 1])
  }

  function LogNumbers(es: seq<VersionEdit>): seq<Option<nat>> {
    seq(|es|, i requires 0 <= i < |es| => es[i].log_number)
  }

  function PrevLogNumbers(es: seq<VersionEdit>): seq<Option<nat>> {
    seq(|es|, i requires 0 <= i < |es| => es[i].prev_log_number)
  }

  function NextFiles(es: seq<VersionEdit>): seq<Option<nat>> {
    seq(|es|, i requires 0 <= i < |es| => es[i].next_file)
  }

  function LastSequences(es: seq<VersionEdit>): seq<Option<nat>> {
    seq(|es|, i requires 0 <= i < |es| => es[i].last_sequence)
  }

  /** Compaction pointers: later ones replace earlier ones. */
  function SetPointer(m: map<nat, Bytes>, ps: seq<(nat, Bytes)>): map<nat, Bytes> {
    if ps == [] then m else SetPointer(m, ps[..|ps| - 1])[ps[|ps| - 1].0 := ps[|ps| - 1].1]
  }

  function PointersAfter(es: seq<VersionEdit>): map<nat, Bytes> {
    if es == [] then map[] else SetPointer(PointersAfter(es[..|es| - 1]), es[|es| - 1].pointers)
  }

  // ---------------------------------------------------------------- many edits through one builder

  /** No edit gives a level a file number that it has had before. */
  ghost predicate FreshFrom(known: set<Placed>, es: seq<Edit>) {
    forall i :: 0 <= i < |es| ==> FreshIn(known + EverAdded(es[..i]), es[i])
  }

  ghost predicate ValidEdits(es: seq<Edit>) {
    forall i :: 0 <= i < |es| ==> ValidEdit(es[i]) && forall d :: d in es[i].deletedFiles ==> d.0 < NUM_LEVELS
  }

  lemma EditsGrow(base: set<Placed>, es: seq<Edit>, i: nat)
    requires i < |es|
    ensures ApplyEdits(base, es[..i + 1]) == ApplyEdit(ApplyEdits(base, es[..i]), es[i])
    ensures EverAdded(es[..i + 1]) == EverAdded(es[..i]) + EditFiles(es[i], |es[i].newFiles|)
  {
    hide ApplyEdit, EditFiles;
    assert es[..i + 1][..i] == es[..i];
  }

  lemma {:induction false} OnlyBaseAndAdded(base: set<Placed>, es: seq<Edit>)
    ensures ApplyEdits(base, es) <= base + EverAdded(es)
  {
    if es != [] {
      OnlyBaseAndAdded(base, es[..|es| - 1]);
    }
  }

  /** All the edits through one builder, as Recover does. */
  method ApplyTogether(base: Levels, es: seq<Edit>) returns (v: Levels)
    requires SortedLevels(base) && ValidEdits(es) && FreshFrom(FilesOf(base), es)
    requires var after := ApplyEdits(FilesOf(base), es); FilesValid(after) && LevelsDisjoint(after)
    ensures SortedLevels(v) && FilesOf(v) == ApplyEdits(FilesOf(base), es)
  {
    hide ApplyEdit, EditFiles, EverAdded, FilesOf, FreshIn, ValidEdit;
    var builder := new Builder(base);
    NoEditsYet(FilesOf(base), es);
    for i := 0 to |es|
      invariant builder.Valid() && Separate(builder.base, builder.added) && fresh(builder)
      invariant builder.Known() == FilesOf(base) + EverAdded(es[..i])
      invariant builder.Result() == ApplyEdits(FilesOf(base), es[..i])
    {
      EditsGrow(FilesOf(base), es, i);
      builder.Apply(es[i]);
    }
    assert es[..|es|] == es;
    v := builder.SaveTo();
  }

  /** One version after another, as LogAndApply does. */
  method ApplyOneByOne(base: Levels, es: seq<Edit>) returns (v: Levels)
    requires SortedLevels(base) && ValidEdits(es) && FreshFrom(FilesOf(base), es)
    requires forall i :: 0 <= i <= |es| ==> SoundFiles(ApplyEdits(FilesOf(base), es[..i]))
    ensures SortedLevels(v) && FilesOf(v) == ApplyEdits(FilesOf(base), es)
  {
    hide ApplyEdit, EditFiles, EverAdded, FilesOf, ValidEdit;
    v := base;
    NoEditsYet(FilesOf(base), es);
    for i := 0 to |es|
      invariant SortedLevels(v) && FilesOf(v) == ApplyEdits(FilesOf(base), es[..i])
    {
      EditsGrow(FilesOf(base), es, i);
      OnlyBaseAndAdded(FilesOf(base), es[..i]);
      assert SoundFiles(ApplyEdits(FilesOf(base), es[..i + 1]));
      var builder := new Builder(v);
      assert FreshIn(builder.Known(), es[i]);
      builder.Apply(es[i]);
      v := builder.SaveTo();
    }
    assert es[..|es|] == es;
  }

  ghost predicate SoundFiles(files: set<Placed>) {
    FilesValid(files) && LevelsDisjoint(files)
  }

  lemma NoEditsYet(base: set<Placed>, es: seq<Edit>)
    ensures ApplyEdits(base, es[..0]) == base && EverAdded(es[..0]) == {}
  {
  }

  /** Both ways end in the same lists of files. */
  method TogetherIsOneByOne(base: Levels, es: seq<Edit>) returns (together: Levels, stepwise: Levels)
    requires SortedLevels(base) && ValidEdits(es) && FreshFrom(FilesOf(base), es)
    requires forall i :: 0 <= i <= |es| ==> SoundFiles(ApplyEdits(FilesOf(base), es[..i]))
    ensures together == stepwise && FilesOf(together) == ApplyEdits(FilesOf(base), es)
  {
    assert es[..|es|] == es && SoundFiles(ApplyEdits(FilesOf(base), es[..|es|]));
    together := ApplyTogether(base, es);
    stepwise := ApplyOneByOne(base, es);
    SameLists(together, stepwise);
  }

  // ---------------------------------------------------------------- recovery

  /** The edits that Recover applies before it meets a bad record, and whether it meets none. */
  function Loaded(records: seq<Bytes>, name: Bytes): (r: (seq<VersionEdit>, bool)) {
    if records == [] then
      ([], true)
    else
      var front := Loaded(records[..|records| - 1], name);
      var e := Decode(records[|records| - 1]);
      if front.1 && e.Some? && (e.value.comparator.None? || e.value.comparator.value == name) then
        (front.0 + [e.value], true)
      else
        (front.0, false)
  }

  lemma {:induction false} LoadedGrows(a: seq<Bytes>, b: seq<Bytes>, name: Bytes)
    ensures Loaded(a, name).0 <= Loaded(a + b, name).0
    ensures Loaded(a + b, name).1 ==> Loaded(a, name).1
    ensures !Loaded(a, name).1 ==> Loaded(a + b, name).0 == Loaded(a, name).0
    decreases |b|
  {
    hide Decode;
    if b == [] {
      assert a + b == a;
    } else {
      assert (a + b)[..|a + b| - 1] == a + b[..|b| - 1];
      LoadedGrows(a, b[..|b| - 1], name);
    }
  }

  datatype Recovered = Recovered(
    levels: Levels,
    pointers: map<nat, Bytes>,
    next_file: nat,
    last_sequence: nat,
    log_number: nat,
    prev_log_number: nat)

  /** The builder has been fed exactly `es`. */
  ghost predicate Fed(builder: Builder, disk: Disk, es: seq<VersionEdit>)
    reads builder
  {
    builder.Valid() && Separate(builder.base, builder.added) &&
    builder.Known() == EverAdded(EditsOf(disk, es)) && builder.Result() == FilesAfter(disk, es)
  }

  function EmptyLevels(): Levels {
    seq(NUM_LEVELS, i => [])
  }

  lemma EmptyLevelsAre()
    ensures SortedLevels(EmptyLevels()) && FilesOf(EmptyLevels()) == {}
  {
  }

  lemma EditsSnoc(disk: Disk, es: seq<VersionEdit>, e: VersionEdit)
    ensures EditsOf(disk, es + [e]) == EditsOf(disk, es) + [EditOf(disk, e)]
    ensures FilesAfter(disk, es + [e]) == ApplyEdit(FilesAfter(disk, es), EditOf(disk, e))
    ensures var edit := EditOf(disk, e);
      EverAdded(EditsOf(disk, es + [e])) == EverAdded(EditsOf(disk, es)) + EditFiles(edit, |edit.newFiles|)
  {
    hide ApplyEdit, EditFiles;
    var all := EditsOf(disk, es + [e]);
    assert all == EditsOf(disk, es) + [EditOf(disk, e)];
    assert all[..|es|] == EditsOf(disk, es);
  }

  lemma EditIsValid(disk: Disk, e: VersionEdit)
    requires GoodEdit(e) && OnDisk(disk, e)
    ensures ValidEdit(EditOf(disk, e)) && forall d :: d in EditOf(disk, e).deletedFiles ==> d.0 < NUM_LEVELS
  {
    var edit := EditOf(disk, e);
    forall i | 0 <= i < |e.added|
      ensures e.added[i].0 < NUM_LEVELS
    {
      assert Additions(e)[i] in FieldsOf(e);
    }
    forall i | 0 <= i < |e.deleted|
      ensures e.deleted[i].0 < NUM_LEVELS
    {
      assert Deletions(e)[i] in FieldsOf(e);
    }
  }

  /** Builder::Apply on a decoded edit. */
  method Feed(builder: Builder, disk: Disk, ghost es: seq<VersionEdit>, e: VersionEdit)
    requires Fed(builder, disk, es) && GoodEdit(e) && OnDisk(disk, e)
    requires FreshIn(EverAdded(EditsOf(disk, es)), EditOf(disk, e))
    modifies builder
    ensures Fed(builder, disk, es + [e])
  {
    hide ApplyEdit, EditFiles, EverAdded, FilesAfter, GoodEdit;
    EditIsValid(disk, e);
    builder.Apply(EditOf(disk, e));
    EditsSnoc(disk, es, e);
  }

  lemma FreshAt(disk: Disk, es: seq<VersionEdit>, e: VersionEdit, all: seq<VersionEdit>)
    requires Loadable(disk, all) && es + [e] <= all
    ensures GoodEdit(e) && OnDisk(disk, e) && FreshIn(EverAdded(EditsOf(disk, es)), EditOf(disk, e))
  {
    hide FreshIn, EverAdded, GoodEdit, OnDisk;
    var i := |es|;
    assert all[i] == (es + [e])[i] == e;
    assert EditsOf(disk, all)[..i] == EditsOf(disk, es) by { assert all[..i] == es; }
    assert EditsOf(disk, all)[i] == EditOf(disk, e);
  }

  method Replace(m: map<nat, Bytes>, ps: seq<(nat, Bytes)>) returns (r: map<nat, Bytes>)
    ensures r == SetPointer(m, ps)
  {
    r := m;
    for i := 0 to |ps|
      invariant r == SetPointer(m, ps[..i])
    {
      assert ps[..i + 1][..i] == ps[..i];
      r := r[ps[i].0 := ps[i].1];
    }
    assert ps[..|ps|] == ps;
  }

  /** The counters gathered from some edits. */
  datatype Counters = Counters(log_number: Option<nat>, prev_log_number: Option<nat>, next_file: Option<nat>, last_sequence: Option<nat>)

  function CountersOf(es: seq<VersionEdit>): Counters {
    Counters(Last(LogNumbers(es)), Last(PrevLogNumbers(es)), Last(NextFiles(es)), Last(LastSequences(es)))
  }

  function Newer(s: Counters, e: VersionEdit): Counters {
    Counters(
      if e.log_number.Some? then e.log_number else s.log_number,
      if e.prev_log_number.Some? then e.prev_log_number else s.prev_log_number,
      if e.next_file.Some? then e.next_file else s.next_file,
      if e.last_sequence.Some? then e.last_sequence else s.last_sequence)
  }

  lemma CountersSnoc(es: seq<VersionEdit>, e: VersionEdit)
    ensures CountersOf(es + [e]) == Newer(CountersOf(es), e)
    ensures PointersAfter(es + [e]) == SetPointer(PointersAfter(es), e.pointers)
  {
    var all := es + [e];
    assert all[..|es|] == es;
    assert LogNumbers(all)[..|es|] == LogNumbers(es);
    assert PrevLogNumbers(all)[..|es|] == PrevLogNumbers(es);
    assert NextFiles(all)[..|es|] == NextFiles(es);
    assert LastSequences(all)[..|es|] == LastSequences(es);
  }

  ghost predicate Complete(s: Counters) {
    s.next_file.Some? && s.log_number.Some? && s.last_sequence.Some?
  }

  /** The state of the recovery loop. */
  datatype Progress = Progress(ok: bool, counters: Counters, pointers: map<nat, Bytes>)

  /** Read and apply the records of a manifest. */
  method Replay(file: Bytes, name: Bytes, disk: Disk, builder: Builder) returns (p: Progress)
    requires Fed(builder, disk, [])
    requires Loadable(disk, Loaded(ReadAll(file, 0).0, name).0)
    modifies builder
    ensures var (es, fine) := Loaded(ReadAll(file, 0).0, name);
      p.ok == (fine && ReadAll(file, 0).1 == []) &&
      (p.ok ==> Fed(builder, disk, es) && p.counters == CountersOf(es) && p.pointers == PointersAfter(es))
  {
    hide Fed, Loadable, Loaded, ReadAll, Decode, CountersOf, PointersAfter, Recovery.HasRead;
    ghost var all := ReadAll(file, 0);
    var reader := Recovery.OpenLog(file);
    ghost var done: seq<Bytes> := [];
    var counters, pointers: map<nat, Bytes> := Counters(None, None, None, None), map[];
    NothingLoaded(name);
    while true
      invariant reader.file == file && fresh(reader) && Recovery.HasRead(reader, done) && reader.drops == []
      invariant Loaded(done, name).1 && Fed(builder, disk, Loaded(done, name).0)
      invariant counters == CountersOf(Loaded(done, name).0) && pointers == PointersAfter(Loaded(done, name).0)
      decreases |file| - reader.Position()
    {
      var record, reported := Recovery.NextRecord(reader, done);
      if reported {
        return Progress(false, counters, pointers);
      }
      if record.None? {
        return Progress(true, counters, pointers);
      }
      var edit := DecodeFrom(record.value);
      ghost var es := Loaded(done, name).0;
      LoadedStep(done, record.value, all.0, name);
      if edit.None? || (edit.value.comparator.Some? && edit.value.comparator.value != name) {
        return Progress(false, counters, pointers);
      }
      FreshAt(disk, es, edit.value, Loaded(all.0, name).0);
      Feed(builder, disk, es, edit.value);
      CountersSnoc(es, edit.value);
      counters := Newer(counters, edit.value);
      pointers := Replace(pointers, edit.value.pointers);
      done := done + [record.value];
    }
  }

  lemma NothingLoaded(name: Bytes)
    ensures Loaded([], name) == ([], true)
    ensures CountersOf([]) == Counters(None, None, None, None) && PointersAfter([]) == map[]
  {
  }

  lemma LoadedStep(done: seq<Bytes>, record: Bytes, all: seq<Bytes>, name: Bytes)
    requires done + [record] <= all && Loaded(done, name).1
    ensures var e := Decode(record);
      if e.Some? && (e.value.comparator.None? || e.value.comparator.value == name) then
        Loaded(done + [record], name) == (Loaded(done, name).0 + [e.value], true) &&
        Loaded(done, name).0 + [e.value] <= Loaded(all, name).0
      else
        !Loaded(all, name).1
  {
    hide Decode;
    var one := done + [record];
    assert one[..|done|] == done;
    assert all == one + all[|one|..];
    LoadedGrows(one, all[|one|..], name);
  }

  // ---------------------------------------------------------------- what a manifest must hold

  datatype Counter = NextFileCount | LogCount | SequenceCount | PrevLogCount

  /** What a record gives as the value of a counter. */
  ghost function Given(record: Bytes, c: Counter): Option<nat> {
    var e := Decode(record);
    if e.None? then None
    else match c
      case NextFileCount => e.value.next_file
      case LogCount => e.value.log_number
      case SequenceCount => e.value.last_sequence
      case PrevLogCount => e.value.prev_log_number
  }

  ghost predicate Has(record: Bytes, c: Counter) {
    Given(record, c).Some?
  }

  ghost predicate SomeHas(records: seq<Bytes>, c: Counter) {
    exists i :: 0 <= i < |records| && Has(records[i], c)
  }

  /** The last record that does. */
  ghost predicate LastWith(records: seq<Bytes>, i: nat, c: Counter) {
    i < |records| && Has(records[i], c) && forall j :: i < j < |records| ==> !Has(records[j], c)
  }

  /** The record decodes, and does not name another comparator. */
  ghost predicate Accepted(record: Bytes, name: Bytes) {
    Decode(record).Some? && (Decode(record).value.comparator.None? || Decode(record).value.comparator.value == name)
  }

  lemma {:induction false} LoadedMeans(records: seq<Bytes>, name: Bytes)
    ensures Loaded(records, name).1 <==> forall i :: 0 <= i < |records| ==> Accepted(records[i], name)
    ensures Loaded(records, name).1 ==> |Loaded(records, name).0| == |records|
    ensures Loaded(records, name).1 ==>
      forall i :: 0 <= i < |records| ==> Decode(records[i]) == Some(Loaded(records, name).0[i])
  {
    hide Decode;
    if records != [] {
      var n := |records| - 1;
      LoadedMeans(records[..n], name);
      assert forall i :: 0 <= i < n ==> records[..n][i] == records[i];
    }
  }

  lemma {:induction false} LastAt(records: seq<Bytes>, values: seq<Option<nat>>, c: Counter, i: nat)
    requires |values| == |records| && forall j :: 0 <= j < |records| ==> (values[j].Some? <==> Has(records[j], c))
    requires LastWith(records, i, c)
    ensures i < |records| && Last(values) == values[i]
  {
    hide Has;
    var n := |records| - 1;
    if i < n {
      assert forall j :: 0 <= j < n ==> records[..n][j] == records[j];
      LastAt(records[..n], values[..n], c, i);
    }
  }

  lemma {:induction false} LastIsGiven(records: seq<Bytes>, values: seq<Option<nat>>, c: Counter)
    requires |values| == |records| && forall j :: 0 <= j < |records| ==> (values[j].Some? <==> Has(records[j], c))
    ensures Last(values).Some? <==> SomeHas(records, c)
  {
    hide Has;
    if records != [] {
      var n := |records| - 1;
      LastIsGiven(records[..n], values[..n], c);
      if SomeHas(records[..n], c) {
        var i :| 0 <= i < n && Has(records[..n][i], c);
        assert Has(records[i], c);
      }
      if values[n].None? && SomeHas(records, c) {
        var i :| 0 <= i < |records| && Has(records[i], c);
        assert Has(records[..n][i], c);
      }
      hide SomeHas;
    }
  }

  function Pick(s: Counters, c: Counter): Option<nat> {
    match c
    case NextFileCount => s.next_file
    case LogCount => s.log_number
    case SequenceCount => s.last_sequence
    case PrevLogCount => s.prev_log_number
  }

  /** Of each counter the last one given counts. */
  lemma CountersMean(records: seq<Bytes>, es: seq<VersionEdit>, c: Counter)
    requires |es| == |records| && forall i :: 0 <= i < |records| ==> Decode(records[i]) == Some(es[i])
    ensures Pick(CountersOf(es), c).Some? <==> SomeHas(records, c)
    ensures forall i: nat :: LastWith(records, i, c) ==> Pick(CountersOf(es), c) == Given(records[i], c)
  {
    hide Decode, Last, LastWith, SomeHas;
    var values := match c
      case NextFileCount => NextFiles(es)
      case LogCount => LogNumbers(es)
      case SequenceCount => LastSequences(es)
      case PrevLogCount => PrevLogNumbers(es);
    LastIsGiven(records, values, c);
    forall i: nat | LastWith(records, i, c)
      ensures i < |records| && values[i] == Given(records[i], c) && Last(values) == values[i]
    {
      LastAt(records, values, c, i);
    }
  }

  /** VersionSet::Recover, from the manifest that CURRENT names: it succeeds exactly when the
      log reads without a reported drop, every record decodes and names the right comparator,
      and the three counters are there.  Then it restores the version after all the edits. */
  method Recover(file: Bytes, name: Bytes, disk: Disk) returns (r: Option<Recovered>)
    requires var (es, fine) := Loaded(ReadAll(file, 0).0, name);
      Loadable(disk, es) && (fine ==> FilesValid(FilesAfter(disk, es)) && LevelsDisjoint(FilesAfter(disk, es)))
    ensures var (es, fine) := Loaded(ReadAll(file, 0).0, name);
      var s := CountersOf(es);
      (r.Some? <==> fine && ReadAll(file, 0).1 == [] && Complete(s)) &&
      (r.Some? ==>
        SortedLevels(r.value.levels) && ValidLevels(r.value.levels) && FilesOf(r.value.levels) == FilesAfter(disk, es) &&
        r.value.pointers == PointersAfter(es) && r.value.next_file == s.next_file.value + 1 &&
        r.value.last_sequence == s.last_sequence.value && r.value.log_number == s.log_number.value &&
        r.value.prev_log_number == if s.prev_log_number.Some? then s.prev_log_number.value else 0)
  {
    hide Loadable, Loaded, ReadAll, CountersOf, PointersAfter;
    EmptyLevelsAre();
    var builder := new Builder(EmptyLevels());
    var p := Replay(file, name, disk, builder);
    if !p.ok || p.counters.next_file.None? || p.counters.log_number.None? || p.counters.last_sequence.None? {
      return None;
    }
    var levels := builder.SaveTo();
    return Some(Recovered(levels, p.pointers, p.counters.next_file.value + 1, p.counters.last_sequence.value,
      p.counters.log_number.value, if p.counters.prev_log_number.Some? then p.counters.prev_log_number.value else 0));
  }

  /** A manifest that holds the encodings of some edits, cut at any byte, loads exactly the edits
      that lie wholly before the cut. */
  lemma CutManifestLoads(es: seq<VersionEdit>, name: Bytes, cut: nat, k: nat)
    requires forall i :: 0 <= i < |es| ==> GoodEdit(es[i]) && (es[i].comparator.Some? ==> es[i].comparator.value == name)
    requires cut <= |LogFile(Encodings(es))| && WholeRecords(Encodings(es), cut, k)
    ensures var (records, drops) := ReadAll(LogFile(Encodings(es))[..cut], 0);
      drops == [] && Loaded(records, name) == (es[..k], true)
  {
    hide LogFile, ReadAll, Encode, Loaded, GoodEdit;
    CutLogReadsWholeRecords(Encodings(es), cut, k);
    assert Encodings(es)[..k] == Encodings(es[..k]);
    LoadsAll(es[..k], name);
  }

  lemma {:induction false} LoadsAll(es: seq<VersionEdit>, name: Bytes)
    requires forall i :: 0 <= i < |es| ==> GoodEdit(es[i]) && (es[i].comparator.Some? ==> es[i].comparator.value == name)
    ensures Loaded(Encodings(es), name) == (es, true)
  {
    hide Encode, Decode, GoodEdit;
    if es != [] {
      var n := |es| - 1;
      LoadsAll(es[..n], name);
      assert Encodings(es)[..n] == Encodings(es[..n]);
      EditRoundTrip(es[n]);
      assert es == es[..n] + [es[n]];
    }
  }

  // ---------------------------------------------------------------- logging edits

  /** What WriteSnapshot stores about a file; `keys` gives its encoded bounds. */
  function MetaOf(f: File, keys: File -> (Bytes, Bytes)): Meta {
    Meta(f.number, f.size, keys(f).0, keys(f).1)
  }

  /** The files of the first `n` levels, in the order in which WriteSnapshot adds them. */
  function LevelFiles(levels: Levels, n: nat): seq<(nat, File)>
    requires n <= |levels|
  {
    if n == 0 then
      []
    else
      LevelFiles(levels, n - 1) + seq(|levels[n - 1]|, i requires 0 <= i < |levels[n - 1]| => (n - 1, levels[n - 1][i]))
  }

  lemma {:induction false} LevelFilesAre(levels: Levels, n: nat, p: (nat, File))
    requires n <= |levels|
    ensures p in LevelFiles(levels, n) <==> p.0 < n && p.1 in levels[p.0]
  {
    if n > 0 {
      LevelFilesAre(levels, n - 1, p);
      var last := seq(|levels[n - 1]|, i requires 0 <= i < |levels[n - 1]| => (n - 1, levels[n - 1][i]));
      if p.0 == n - 1 && p.1 in levels[n - 1] {
        var i :| 0 <= i < |levels[n - 1]| && levels[n - 1][i] == p.1;
        assert last[i] == p;
      }
    }
  }

  /** No number occurs twice in a level. */
  ghost predicate NumbersDistinct(levels: Levels) {
    forall l, i, j :: 0 <= l < |levels| && 0 <= i < j < |levels[l]| ==> levels[l][i].number != levels[l][j].number
  }

  /** No list gives a level the same file number twice. */
  ghost predicate NoTwice(fs: seq<(nat, File)>) {
    forall i, j :: 0 <= i < j < |fs| && fs[i].0 == fs[j].0 ==> fs[i].1.number != fs[j].1.number
  }

  lemma {:induction false} LevelFilesFresh(levels: Levels, n: nat)
    requires n <= |levels| && NumbersDistinct(levels)
    ensures NoTwice(LevelFiles(levels, n))
  {
    if n > 0 {
      LevelFilesFresh(levels, n - 1);
      var front := LevelFiles(levels, n - 1);
      var last := seq(|levels[n - 1]|, i requires 0 <= i < |levels[n - 1]| => (n - 1, levels[n - 1][i]));
      forall p | p in front
        ensures p.0 < n - 1
      {
        LevelFilesAre(levels, n - 1, p);
      }
      var files := levels[n - 1];
      assert forall i, j :: 0 <= i < j < |files| ==> files[i].number != files[j].number;
      JoinedFresh(front, last, n - 1);
    }
  }

  lemma JoinedFresh(a: seq<(nat, File)>, b: seq<(nat, File)>, l: nat)
    requires NoTwice(a) && NoTwice(b) && (forall p :: p in a ==> p.0 < l) && (forall p :: p in b ==> p.0 == l)
    ensures NoTwice(a + b)
  {
    assert forall i :: 0 <= i < |a| ==> a[i] in a;
    assert forall j :: 0 <= j < |b| ==> b[j] in b;
  }

  function PointerList(pointers: map<nat, Bytes>, n: nat): seq<(nat, Bytes)> {
    if n == 0 then [] else PointerList(pointers, n - 1) + if n - 1 in pointers then [(n - 1, pointers[n - 1])] else []
  }

  lemma {:induction false} PointersBack(pointers: map<nat, Bytes>, n: nat)
    ensures SetPointer(map[], PointerList(pointers, n)) == map l | l in pointers && l < n :: pointers[l]
    ensures forall p :: p in PointerList(pointers, n) ==> p.0 < n && p.0 in pointers && p.1 == pointers[p.0]
  {
    if n > 0 {
      PointersBack(pointers, n - 1);
      var front := PointerList(pointers, n - 1);
      if n - 1 in pointers {
        assert (front + [(n - 1, pointers[n - 1])])[..|front|] == front;
      } else {
        assert front + [] == front;
      }
    }
  }

  /** The edit of WriteSnapshot. */
  function Snapshot(name: Bytes, levels: Levels, pointers: map<nat, Bytes>, keys: File -> (Bytes, Bytes)): VersionEdit
    requires |levels| == NUM_LEVELS
  {
    var fs := LevelFiles(levels, NUM_LEVELS);
    NO_EDIT.(comparator := Some(name), pointers := PointerList(pointers, NUM_LEVELS),
      added := seq(|fs|, i requires 0 <= i < |fs| => (fs[i].0, MetaOf(fs[i].1, keys))))
  }

  /** What can be stored: names, keys and numbers fit, and every file is where its number says. */
  ghost predicate Storable(name: Bytes, levels: Levels, pointers: map<nat, Bytes>, keys: File -> (Bytes, Bytes), disk: Disk) {
    |levels| == NUM_LEVELS && |name| < WORD32 &&
    (forall l :: l in pointers ==> l < NUM_LEVELS && |pointers[l]| < WORD32) &&
    (forall l, f :: 0 <= l < NUM_LEVELS && f in levels[l] ==> disk(f.number) == f && GoodMeta(MetaOf(f, keys)))
  }

  lemma SnapshotIsGood(name: Bytes, levels: Levels, pointers: map<nat, Bytes>, keys: File -> (Bytes, Bytes), disk: Disk)
    requires Storable(name, levels, pointers, keys, disk) && SortedLevels(levels)
    ensures var e := Snapshot(name, levels, pointers, keys);
      GoodEdit(e) && OnDisk(disk, e) && EditOf(disk, e).newFiles == LevelFiles(levels, NUM_LEVELS)
  {
    hide SortedLevels, GoodEdit, PointerList, GoodMeta, ValidFile;
    var e := Snapshot(name, levels, pointers, keys);
    var fs := LevelFiles(levels, NUM_LEVELS);
    forall i | 0 <= i < |fs|
      ensures fs[i].0 < NUM_LEVELS && GoodMeta(e.added[i].1) && disk(e.added[i].1.number) == fs[i].1 && ValidFile(fs[i].1)
    {
      assert fs[i] in fs;
      LevelFilesAre(levels, NUM_LEVELS, fs[i]);
      SortedAreValid(levels, fs[i].0, fs[i].1);
    }
    hide LevelFiles;
    assert EditOf(disk, e).newFiles == fs;
    PointersBack(pointers, NUM_LEVELS);
    OnlyLists(e);
  }

  /** An edit with a comparator name and good lists is good. */
  lemma OnlyLists(e: VersionEdit)
    requires e.comparator.Some? && |e.comparator.value| < WORD32
    requires e == NO_EDIT.(comparator := e.comparator, pointers := e.pointers, added := e.added)
    requires forall p :: p in e.pointers ==> p.0 < NUM_LEVELS && |p.1| < WORD32
    requires forall i :: 0 <= i < |e.added| ==> e.added[i].0 < NUM_LEVELS && GoodMeta(e.added[i].1)
    ensures GoodEdit(e)
  {
    hide GoodMeta;
    forall f | f in FieldsOf(e)
      ensures GoodField(f)
    {
      if f in Pointers(e) {
        var i :| 0 <= i < |e.pointers| && f == CompactPointer(e.pointers[i].0, e.pointers[i].1);
        assert e.pointers[i] in e.pointers;
      }
    }
  }

  lemma SortedAreValid(levels: Levels, l: nat, f: File)
    requires SortedLevels(levels) && l < NUM_LEVELS && f in levels[l]
    ensures ValidFile(f)
  {
    assert SortedFiles(levels[l]);
  }

  lemma SnapshotRestores(name: Bytes, levels: Levels, pointers: map<nat, Bytes>, keys: File -> (Bytes, Bytes), disk: Disk)
    requires Storable(name, levels, pointers, keys, disk) && SortedLevels(levels) && NumbersDistinct(levels)
    ensures var es := [Snapshot(name, levels, pointers, keys)];
      Loadable(disk, es) && FilesAfter(disk, es) == FilesOf(levels) && PointersAfter(es) == pointers
  {
    hide GoodEdit, OnDisk, NumbersDistinct, SortedLevels, FilesOf, LevelFiles, PointerList;
    var e := Snapshot(name, levels, pointers, keys);
    SnapshotIsGood(name, levels, pointers, keys, disk);
    SnapshotPointers(name, levels, pointers, keys);
    assert [e] == [] + [e];
    EditsSnoc(disk, [], e);
    CountersSnoc([], e);
    LevelFilesFresh(levels, NUM_LEVELS);
    assert EditsOf(disk, [e])[..0] == [];
    AppliedToNothing(levels, EditOf(disk, e));
    PointersBack(pointers, NUM_LEVELS);
  }

  lemma AppliedToNothing(levels: Levels, edit: Edit)
    requires |levels| == NUM_LEVELS && edit.newFiles == LevelFiles(levels, NUM_LEVELS)
    ensures ApplyEdit({}, edit) == FilesOf(levels)
  {
    var fs := edit.newFiles;
    forall p: Placed
      ensures p in ApplyEdit({}, edit) <==> p in FilesOf(levels)
    {
      LevelFilesAre(levels, NUM_LEVELS, (p.level, p.file));
      if p in FilesOf(levels) {
        var i :| 0 <= i < |fs| && fs[i] == (p.level, p.file);
      }
    }
  }

  lemma SnapshotPointers(name: Bytes, levels: Levels, pointers: map<nat, Bytes>, keys: File -> (Bytes, Bytes))
    requires |levels| == NUM_LEVELS
    ensures Snapshot(name, levels, pointers, keys).pointers == PointerList(pointers, NUM_LEVELS)
  {
  }

  /** The version and the compaction pointers are what the edits make. */
  ghost predicate Consistent(name: Bytes, disk: Disk, current: Levels, pointers: map<nat, Bytes>, edits: seq<VersionEdit>) {
    SortedLevels(current) && ValidLevels(current) &&
    Loadable(disk, edits) && FilesOf(current) == FilesAfter(disk, edits) &&
    (forall i :: 0 <= i < |edits| && edits[i].comparator.Some? ==> edits[i].comparator.value == name) &&
    pointers == PointersAfter(edits) && Lived(disk, edits) && Counted(edits)
  }

  /** Every version on the way was sound. */
  ghost predicate Lived(disk: Disk, es: seq<VersionEdit>) {
    forall i :: 0 <= i <= |es| ==> FilesValid(FilesAfter(disk, es[..i])) && LevelsDisjoint(FilesAfter(disk, es[..i]))
  }

  /** A snapshot without counters, then edits with all of them. */
  ghost predicate Counted(es: seq<VersionEdit>) {
    |es| > 0 && es[0].log_number.None? && es[0].next_file.None? && es[0].last_sequence.None? && es[0].prev_log_number.None? &&
    forall i :: 1 <= i < |es| ==> HasCounters(es[i])
  }

  ghost predicate HasCounters(e: VersionEdit) {
    e.log_number.Some? && e.next_file.Some? && e.last_sequence.Some? && e.prev_log_number.Some?
  }

  lemma LivedSnoc(disk: Disk, es: seq<VersionEdit>, e: VersionEdit)
    requires Lived(disk, es)
    requires FilesValid(FilesAfter(disk, es + [e])) && LevelsDisjoint(FilesAfter(disk, es + [e]))
    ensures Lived(disk, es + [e])
  {
    hide FilesAfter, FilesValid, LevelsDisjoint;
    var more := es + [e];
    forall i | 0 <= i <= |more|
      ensures FilesValid(FilesAfter(disk, more[..i])) && LevelsDisjoint(FilesAfter(disk, more[..i]))
    {
      if i <= |es| {
        assert more[..i] == es[..i];
      } else {
        assert more[..i] == more;
      }
    }
  }

  lemma LivedFromNothing(disk: Disk)
    ensures Lived(disk, [])
  {
    var none: seq<VersionEdit> := [];
    assert none[..0] == none;
  }

  /** The counters that recovery finds are those of the last edit. */
  lemma CountersAreLast(es: seq<VersionEdit>)
    requires Counted(es)
    ensures CountersOf(es) ==
      var last := es[|es| - 1]; Counters(last.log_number, last.prev_log_number, last.next_file, last.last_sequence)
  {
    var n := |es| - 1;
    CountersSnoc(es[..n], es[n]);
    assert es == es[..n] + [es[n]];
    if n == 0 {
      assert es[..n] == [];
    }
  }

  class VersionSet {
    const name: Bytes
    const disk: Disk
    const descriptor_log: Writer
    var current: Levels
    var pointers: map<nat, Bytes>
    var log_number: nat
    var prev_log_number: nat
    var next_file_number: nat
    var last_sequence: nat
    /** Everything written to the manifest. */
    ghost var edits: seq<VersionEdit>

    /** The manifest is the encoding of the edits, and the current version and counters are what
        recovering it would give. */
    ghost predicate Valid()
      reads this, descriptor_log
    {
      descriptor_log.Valid() && descriptor_log.dest == LogFile(Encodings(edits)) &&
      Consistent(name, disk, current, pointers, edits) &&
      log_number < WORD64 && prev_log_number < WORD64 && next_file_number < WORD64 && last_sequence < WORD64
    }

    /** A new manifest, begun by WriteSnapshot with a record of the current version. */
    constructor (name: Bytes, disk: Disk, keys: File -> (Bytes, Bytes), r: Recovered)
      requires SortedLevels(r.levels) && ValidLevels(r.levels) && NumbersDistinct(r.levels)
      requires Storable(name, r.levels, r.pointers, keys, disk)
      requires r.log_number < WORD64 && r.prev_log_number < WORD64 && r.next_file < WORD64 && r.last_sequence < WORD64
      ensures Valid() && fresh(descriptor_log) && current == r.levels && pointers == r.pointers
      ensures edits == [Snapshot(name, r.levels, r.pointers, keys)] && this.disk == disk && this.name == name
    {
      hide Snapshot, Storable, NumbersDistinct, Consistent, ValidLevels, LogFile, Encodings, Encoded, Encode, Writer.Valid, OffsetAt, SortedFiles;
      var e := Snapshot(name, r.levels, r.pointers, keys);
      var log := new Writer([]);
      var record := EncodeTo(e);
      log.AddRecord(record);
      FirstRecord(e);
      SnapshotConsistent(name, disk, keys, r);
      this.name, this.disk, descriptor_log := name, disk, log;
      current, pointers := r.levels, r.pointers;
      log_number, prev_log_number := r.log_number, r.prev_log_number;
      next_file_number, last_sequence := r.next_file, r.last_sequence;
      edits := [e];
    }

    /** The edit with the counters that LogAndApply fills in. */
    ghost function Filled(e: VersionEdit): VersionEdit
      reads this
    {
      e.(log_number := if e.log_number.Some? then e.log_number else Some(log_number),
         prev_log_number := if e.prev_log_number.Some? then e.prev_log_number else Some(prev_log_number),
         next_file := Some(next_file_number),
         last_sequence := Some(last_sequence))
    }

    /** LogAndApply once the manifest exists: the record that it appends makes recovery arrive at
        the version that it installs. */
    method LogAndApply(e: VersionEdit)
      requires Valid() && GoodEdit(e) && OnDisk(disk, e) && e.comparator.None?
      requires FreshIn(EverAdded(EditsOf(disk, edits)), EditOf(disk, e))
      requires var after := ApplyEdit(FilesOf(current), EditOf(disk, e)); FilesValid(after) && LevelsDisjoint(after)
      modifies this, descriptor_log
      ensures Valid() && edits == old(edits) + [old(Filled(e))]
      ensures FilesOf(current) == ApplyEdit(old(FilesOf(current)), EditOf(disk, e))
      ensures pointers == SetPointer(old(pointers), e.pointers)
      ensures Some(log_number) == old(Filled(e)).log_number && Some(prev_log_number) == old(Filled(e)).prev_log_number
      ensures next_file_number == old(next_file_number) && last_sequence == old(last_sequence)
    {
      hide Consistent, GoodEdit, OnDisk, FreshIn, EverAdded, FilesValid, LevelsDisjoint, ApplyEdit, FilesOf, LogFile, Encodings;
      hide Encoded, Encode, EditOf, EditsOf, SetPointer, Writer.Valid, OffsetAt, AllBytes;
      assert e.log_number.Some? ==> e.log_number.value < WORD64 by { LogNumberFits(e); }
      assert e.prev_log_number.Some? ==> e.prev_log_number.value < WORD64 by { LogNumberFits(e); }
      var edit := e;
      if edit.log_number.None? {
        edit := edit.(log_number := Some(log_number));
      }
      if edit.prev_log_number.None? {
        edit := edit.(prev_log_number := Some(prev_log_number));
      }
      edit := edit.(next_file := Some(next_file_number), last_sequence := Some(last_sequence));
      var v := Install(name, disk, current, pointers, edits, e, edit);
      var record := EncodeTo(edit);
      descriptor_log.AddRecord(record);
      Appended(edits, edit);
      pointers := Replace(pointers, edit.pointers);
      current := v;
      log_number, prev_log_number := edit.log_number.value, edit.prev_log_number.value;
      edits := edits + [edit];
    }
  }

  /** Whatever prefix of the manifest survives a crash, recovery restores the version, the
      compaction pointers and the counters as they stood after the last edit wholly inside it;
      it fails only when not even one edit follows the snapshot. */
  method CrashAndRecover(vs: VersionSet, cut: nat) returns (r: Option<Recovered>)
    requires vs.Valid() && cut <= |vs.descriptor_log.dest|
    ensures r.Some? <==> Kept(vs, cut) >= 2
    ensures r.Some? ==>
      var k := Kept(vs, cut);
      var last := vs.edits[k - 1];
      SortedLevels(r.value.levels) && FilesOf(r.value.levels) == FilesAfter(vs.disk, vs.edits[..k]) &&
      r.value.pointers == PointersAfter(vs.edits[..k]) &&
      Some(r.value.log_number) == last.log_number && Some(r.value.prev_log_number) == last.prev_log_number &&
      Some(r.value.last_sequence) == last.last_sequence && Some(r.value.next_file - 1) == last.next_file
    ensures Kept(vs, cut) == |vs.edits| && r.Some? ==> r.value.levels == vs.current
  {
    hide LogFile, Encodings, Encode, Loaded, ReadAll, CountersOf, PointersAfter, FilesAfter, FilesValid, LevelsDisjoint, FilesOf;
    ghost var es := vs.edits;
    ghost var k := Kept(vs, cut);
    EncodingsLength(es);
    CutManifestLoads(es, vs.name, cut, k);
    LoadablePrefix(vs.disk, es, k);
    NoneCounted();
    if k > 0 {
      CountersAreLast(es[..k]);
    }
    r := Recover(vs.descriptor_log.dest[..cut], vs.name, vs.disk);
    if r.Some? && k == |es| {
      assert es[..k] == es;
      SameLists(r.value.levels, vs.current);
    }
  }

  lemma EncodingsLength(es: seq<VersionEdit>)
    ensures |Encodings(es)| == |es|
  {
  }

  /** How many edits a crash leaves whole. */
  ghost function Kept(vs: VersionSet, cut: nat): (k: nat)
    reads vs
    ensures k <= |vs.edits|
  {
    EncodingsLength(vs.edits);
    WholeCount(Encodings(vs.edits), cut)
  }

  lemma NoneCounted()
    ensures CountersOf([]) == Counters(None, None, None, None)
  {
  }

  lemma LoadablePrefix(disk: Disk, es: seq<VersionEdit>, k: nat)
    requires Loadable(disk, es) && k <= |es|
    ensures Loadable(disk, es[..k])
  {
    hide GoodEdit, OnDisk, FreshIn, EverAdded;
    var all, part := EditsOf(disk, es), EditsOf(disk, es[..k]);
    forall i | 0 <= i < k
      ensures FreshIn(EverAdded(part[..i]), part[i])
    {
      assert part[..i] == all[..i] && part[i] == all[i];
    }
  }

  /** Sorted levels with the same files are the same lists. */
  lemma SameLists(a: Levels, b: Levels)
    requires SortedLevels(a) && SortedLevels(b) && FilesOf(a) == FilesOf(b)
    ensures a == b
  {
    forall l | 0 <= l < NUM_LEVELS
      ensures a[l] == b[l]
    {
      forall f
        ensures f in a[l] <==> f in b[l]
      {
        CompactionInputs.InFiles(a, l, f);
        CompactionInputs.InFiles(b, l, f);
      }
      SortedUnique(a[l], b[l]);
    }
  }

  lemma LogNumberFits(e: VersionEdit)
    requires GoodEdit(e)
    ensures e.log_number.Some? ==> e.log_number.value < WORD64
    ensures e.prev_log_number.Some? ==> e.prev_log_number.value < WORD64
  {
    if e.log_number.Some? {
      assert LogNumber(e.log_number.value) in Scalars(e) && LogNumber(e.log_number.value) in FieldsOf(e);
    }
    if e.prev_log_number.Some? {
      assert PrevLogNumber(e.prev_log_number.value) in Scalars(e) && PrevLogNumber(e.prev_log_number.value) in FieldsOf(e);
    }
  }

  lemma FirstRecord(e: VersionEdit)
    ensures LogFile(Encodings([e])) == Encoded(OffsetAt(0), Encode(e), true)
  {
    hide Encoded, Encode;
    EmptyLog();
    Appended([], e);
    assert [] + [e] == [e] && Encodings([]) == [];
  }

  lemma SnapshotConsistent(name: Bytes, disk: Disk, keys: File -> (Bytes, Bytes), r: Recovered)
    requires SortedLevels(r.levels) && ValidLevels(r.levels) && NumbersDistinct(r.levels)
    requires Storable(name, r.levels, r.pointers, keys, disk)
    ensures Consistent(name, disk, r.levels, r.pointers, [Snapshot(name, r.levels, r.pointers, keys)])
  {
    hide Snapshot, Storable, NumbersDistinct, Loadable, FilesAfter, ValidLevels;
    var e := Snapshot(name, r.levels, r.pointers, keys);
    SnapshotRestores(name, r.levels, r.pointers, keys, disk);
    SnapshotName(name, r.levels, r.pointers, keys);
    FilesAreValid(r.levels);
    LivedFromNothing(disk);
    assert [] + [e] == [e];
    LivedSnoc(disk, [], e);
  }

  lemma FilesAreValid(levels: Levels)
    requires ValidLevels(levels)
    ensures FilesValid(FilesOf(levels)) && LevelsDisjoint(FilesOf(levels))
  {
    CompactionInputs.ValidLevelFiles(levels);
    var files := FilesOf(levels);
    forall p, q | p in files && q in files && p != q && p.level == q.level > 0
      ensures Precedes(p.file, q.file) || Precedes(q.file, p.file)
    {
      var fs := levels[p.level];
      var i :| 0 <= i < |fs| && fs[i] == p.file;
      var j :| 0 <= j < |fs| && fs[j] == q.file;
      assert InOrder(fs);
    }
  }

  lemma SnapshotName(name: Bytes, levels: Levels, pointers: map<nat, Bytes>, keys: File -> (Bytes, Bytes))
    requires |levels| == NUM_LEVELS
    ensures var e := Snapshot(name, levels, pointers, keys);
      e.comparator == Some(name) && e == NO_EDIT.(comparator := Some(name), pointers := e.pointers, added := e.added)
  {
  }

  /** One edit `e`, with its counters filled in, through a builder over the current version. */
  method Install(name: Bytes, disk: Disk, current: Levels, ghost pointers: map<nat, Bytes>, ghost es: seq<VersionEdit>,
                 ghost e: VersionEdit, edit: VersionEdit)
    returns (v: Levels)
    requires Consistent(name, disk, current, pointers, es) && GoodEdit(e) && OnDisk(disk, e) && e.comparator.None?
    requires FreshIn(EverAdded(EditsOf(disk, es)), EditOf(disk, e)) && IsFilled(e, edit)
    requires var after := ApplyEdit(FilesOf(current), EditOf(disk, e)); FilesValid(after) && LevelsDisjoint(after)
    ensures Consistent(name, disk, v, SetPointer(pointers, e.pointers), es + [edit])
    ensures FilesOf(v) == ApplyEdit(FilesOf(current), EditOf(disk, e))
  {
    hide ApplyEdit, EditFiles, EverAdded, FilesAfter, GoodEdit, FilesOf, Loadable, PointersAfter, Lived;
    FilledIsGood(e, edit);
    assert EditOf(disk, edit) == EditOf(disk, e);
    EditIsValid(disk, edit);
    AliveWereAdded(EditsOf(disk, es));
    AfterIs(disk, es);
    var builder := new Builder(current);
    assert FreshIn(builder.Known(), EditOf(disk, edit));
    builder.Apply(EditOf(disk, edit));
    v := builder.SaveTo();
    LoadableSnoc(disk, es, edit);
    CountersSnoc(es, edit);
    EditsSnoc(disk, es, edit);
    LivedSnoc(disk, es, edit);
  }

  /** The same edit, with every counter present. */
  ghost predicate IsFilled(e: VersionEdit, edit: VersionEdit) {
    edit == e.(log_number := edit.log_number, prev_log_number := edit.prev_log_number,
               next_file := edit.next_file, last_sequence := edit.last_sequence) &&
    Fits(edit.log_number) && Fits(edit.prev_log_number) && Fits(edit.next_file) && Fits(edit.last_sequence)
  }

  ghost predicate Fits(n: Option<nat>) {
    n.Some? && n.value < WORD64
  }

  lemma AfterIs(disk: Disk, es: seq<VersionEdit>)
    ensures FilesAfter(disk, es) == ApplyEdits({}, EditsOf(disk, es))
  {
  }

  lemma {:induction false} AliveWereAdded(es: seq<Edit>)
    ensures ApplyEdits({}, es) <= EverAdded(es)
  {
    if es != [] {
      AliveWereAdded(es[..|es| - 1]);
    }
  }

  lemma FilledIsGood(e: VersionEdit, edit: VersionEdit)
    requires GoodEdit(e)
    requires IsFilled(e, edit)
    ensures GoodEdit(edit)
  {
    forall f | f in FieldsOf(edit)
      ensures GoodField(f)
    {
      if f in Pointers(e) + (Deletions(e) + Additions(e)) {
        assert f in FieldsOf(e);
      } else {
        assert f in Scalars(edit);
        if f.Comparator? {
          assert f in FieldsOf(e);
        }
      }
    }
  }

  lemma Appended(es: seq<VersionEdit>, e: VersionEdit)
    ensures LogFile(Encodings(es + [e])) ==
      LogFile(Encodings(es)) + Encoded(OffsetAt(|LogFile(Encodings(es))|), Encode(e), true)
  {
    hide Encoded, Encode;
    var all := Encodings(es + [e]);
    assert all[..|es|] == Encodings(es);
  }

  lemma LoadableSnoc(disk: Disk, es: seq<VersionEdit>, e: VersionEdit)
    requires Loadable(disk, es) && GoodEdit(e) && OnDisk(disk, e)
    requires FreshIn(EverAdded(EditsOf(disk, es)), EditOf(disk, e))
    ensures Loadable(disk, es + [e])
  {
    hide GoodEdit, OnDisk, FreshIn, EverAdded;
    var more := EditsOf(disk, es + [e]);
    forall i | 0 <= i < |more|
      ensures FreshIn(EverAdded(more[..i]), more[i])
    {
      assert more[..i] == EditsOf(disk, es)[..i];
      if i < |es| {
        assert more[i] == EditsOf(disk, es)[i];
      } else {
        assert EditsOf(disk, es)[..i] == EditsOf(disk, es) && more[i] == EditOf(disk, e);
      }
    }
  }
}
