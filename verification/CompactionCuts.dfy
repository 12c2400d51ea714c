/** Where a compaction cuts its output (DBImpl::DoCompactionWork in db/db_impl.cc;
    Compaction::ShouldStopBefore in db/version_set.cc). */
module CompactionCuts {
  import opened DbFormat
  import opened Lsm
  import opened Version
  import opened CompactionInputs

  /** The merged input; after which entries the output has reached its size limit; the files two
      levels down and how many bytes of them one output may overlap. */
  datatype Plan = Plan(merged: seq<Entry>, full: seq<bool>, grandparents: seq<File>, limit: nat)

  ghost predicate PlanOk(p: Plan) {
    Sorted(p.merged) && |p.full| == |p.merged| && AllValid(p.grandparents)
  }

  // ---------------------------------------------------------------- the bytes overlapped

  /** The first file from `from` on that does not end before the key. */
  ghost function Passed(gs: seq<File>, from: nat, k: IKey): (n: nat)
    requires AllValid(gs) && from <= |gs|
    ensures from <= n <= |gs| && (forall g :: from <= g < n ==> Less(Largest(gs[g]), k))
    ensures n < |gs| ==> !Less(Largest(gs[n]), k)
    decreases |gs| - from
  {
    if from < |gs| && Less(Largest(gs[from]), k) then Passed(gs, from + 1, k) else from
  }

  datatype Overlap = Overlap(index: nat, bytes: int, stop: bool)

  /** The count when entry `i` comes up: the sizes of the files passed since the first entry or
      since the last stop.  More than the limit is a stop. */
  ghost function OverlapAt(p: Plan, i: nat): (r: Overlap)
    requires PlanOk(p) && i < |p.merged|
    ensures r.index <= |p.grandparents|
  {
    var before := if i == 0 then Overlap(0, 0, false) else OverlapAt(p, i - 1);
    var index := Passed(p.grandparents, before.index, p.merged[i].k);
    var bytes := if i == 0 then 0
      else before.bytes + TotalFileSize(p.grandparents[..index]) - TotalFileSize(p.grandparents[..before.index]);
    Overlap(index, if bytes > p.limit then 0 else bytes, bytes > p.limit)
  }

  ghost predicate StopsAt(p: Plan, i: nat) {
    PlanOk(p) && i < |p.merged| && OverlapAt(p, i).stop
  }

  // ---------------------------------------------------------------- cuts

  /** After the entry, and before entry `i`, the output was full or there was a stop. */
  ghost predicate Gap(p: Plan, e: Entry, i: nat) {
    exists x: nat :: x < i && IsAt(p, e, x) && (p.full[x] || exists s: nat :: x < s < i && StopsAt(p, s))
  }

  ghost predicate IsAt(p: Plan, e: Entry, x: nat) {
    x < |p.merged| && x < |p.full| && p.merged[x] == e
  }

  /** A full output, or a stop up to and including `b`, lies between two entries. */
  ghost predicate Apart(p: Plan, a: Entry, b: Entry) {
    exists y: nat :: IsAt(p, b, y) && Gap(p, a, y + 1)
  }

  /** Nothing lies between the entries of one output. */
  ghost predicate Whole(p: Plan, entries: seq<Entry>) {
    forall y :: 0 <= y < |entries| - 1 ==> !Apart(p, entries[y], entries[y + 1])
  }

  /** Outputs are cut exactly where the entries on both sides are apart. */
  ghost predicate WellCut(p: Plan, outputs: seq<File>) {
    (forall j :: 0 <= j < |outputs| ==> outputs[j].entries != [] && Whole(p, outputs[j].entries)) &&
    forall j :: 0 <= j < |outputs| - 1 ==> Apart(p, LastOf(outputs[j].entries), FirstOf(outputs[j + 1].entries))
  }

  function LastOf(entries: seq<Entry>): Entry {
    if entries == [] then NO_ENTRY else entries[|entries| - 1]
  }

  function FirstOf(entries: seq<Entry>): Entry {
    if entries == [] then NO_ENTRY else entries[0]
  }

  const NO_ENTRY := Entry(IKey(0.0, 0, Deletion), [])

  /** The entry written last. */
  function LastWritten(outputs: seq<File>, current: seq<Entry>): Entry {
    if current != [] || outputs == [] then LastOf(current) else LastOf(outputs[|outputs| - 1].entries)
  }

  ghost predicate Before(p: Plan, e: Entry, seen: nat) {
    exists x: nat :: x < seen && IsAt(p, e, x)
  }

  /** The closed outputs and the open one, when the first `seen` entries have been dealt with and the
      stops before entry `i` are known. */
  ghost predicate CutSoFar(p: Plan, seen: nat, i: nat, outputs: seq<File>, current: seq<Entry>) {
    WellCut(p, outputs) && Whole(p, current) &&
    (outputs != [] && current != [] ==> Apart(p, LastOf(outputs[|outputs| - 1].entries), current[0])) &&
    (outputs != [] || current != [] ==>
      Before(p, LastWritten(outputs, current), seen) && (Gap(p, LastWritten(outputs, current), i) <==> current == []))
  }

  // ---------------------------------------------------------------- one lemma per step of the loop

  lemma OnlyAt(p: Plan, e: Entry, x: nat, y: nat)
    requires PlanOk(p) && IsAt(p, e, x) && IsAt(p, e, y)
    ensures x == y
  {
    if x < y {
      SortedDiffer(p.merged, x, y);
    } else if y < x {
      SortedDiffer(p.merged, y, x);
    }
  }

  lemma SortedDiffer(s: seq<Entry>, i: nat, j: nat)
    requires Sorted(s) && i < j < |s|
    ensures s[i] != s[j]
  {
    assert Less(s[i].k, s[j].k);
  }

  lemma GapAt(p: Plan, e: Entry, x: nat, i: nat)
    requires PlanOk(p) && IsAt(p, e, x) && x < i
    ensures Gap(p, e, i) <==> p.full[x] || exists s: nat :: x < s < i && StopsAt(p, s)
  {
    hide StopsAt;
    forall y: nat | y < i && IsAt(p, e, y)
      ensures y == x
    {
      OnlyAt(p, e, x, y);
    }
  }

  lemma GapGrows(p: Plan, e: Entry, x: nat, i: nat)
    requires PlanOk(p) && IsAt(p, e, x) && x < i
    ensures Gap(p, e, i + 1) <==> Gap(p, e, i) || StopsAt(p, i)
  {
    hide StopsAt, PlanOk, Gap;
    GapAt(p, e, x, i);
    GapAt(p, e, x, i + 1);
  }

  lemma ApartIs(p: Plan, a: Entry, i: nat)
    requires PlanOk(p) && i < |p.merged|
    ensures Apart(p, a, p.merged[i]) <==> Gap(p, a, i + 1)
  {
    hide Gap;
    var e := p.merged[i];
    assert IsAt(p, e, i);
    forall y: nat | IsAt(p, e, y)
      ensures y == i
    {
      OnlyAt(p, e, i, y);
    }
  }

  /** Closing the open output. */
  lemma Closed(p: Plan, seen: nat, i: nat, outputs: seq<File>, current: seq<Entry>, f: File)
    requires CutSoFar(p, seen, i, outputs, current) && current != [] && f.entries == current
    ensures WellCut(p, outputs + [f])
  {
    hide Apart, Gap, IsAt;
  }

  lemma NowClosed(p: Plan, seen: nat, i: nat, outputs: seq<File>, f: File)
    requires WellCut(p, outputs + [f]) && Gap(p, LastOf(f.entries), i)
    requires Before(p, LastOf(f.entries), seen)
    ensures CutSoFar(p, seen, i, outputs + [f], [])
  {
    hide Apart, Gap, Before, WellCut;
    assert (outputs + [f])[|outputs|] == f;
  }

  /** Entry `i` comes up: a stop closes the open output. */
  lemma StopStep(p: Plan, i: nat, outputs: seq<File>, current: seq<Entry>, f: File)
    requires PlanOk(p) && CutSoFar(p, i, i, outputs, current)
    ensures !StopsAt(p, i) || current == [] ==> CutSoFar(p, i, i + 1, outputs, current)
    ensures StopsAt(p, i) && current != [] && f.entries == current ==> CutSoFar(p, i, i + 1, outputs + [f], [])
  {
    hide Apart, Gap, StopsAt, WellCut, Whole, PlanOk;
    if outputs != [] || current != [] {
      var last := LastWritten(outputs, current);
      var x: nat :| x < i && IsAt(p, last, x);
      GapGrows(p, last, x, i);
      if StopsAt(p, i) && current != [] && f.entries == current {
        Closed(p, i, i, outputs, current, f);
        NowClosed(p, i, i + 1, outputs, f);
      }
    }
  }

  /** The entry is added to the open output. */
  lemma AddStep(p: Plan, i: nat, outputs: seq<File>, current: seq<Entry>, f: File)
    requires PlanOk(p) && i < |p.merged| && CutSoFar(p, i, i + 1, outputs, current)
    ensures var more := current + [p.merged[i]];
      (!p.full[i] ==> CutSoFar(p, i + 1, i + 1, outputs, more)) &&
      (p.full[i] && f.entries == more ==> CutSoFar(p, i + 1, i + 1, outputs + [f], []))
  {
    var e := p.merged[i];
    var more := current + [e];
    assert IsAt(p, e, i);
    GapAt(p, e, i, i + 1);
    ApartIs(p, LastWritten(outputs, current), i);
    Added(p, i, outputs, current, e);
    hide PlanOk, Apart, Gap, StopsAt, IsAt, WellCut, Whole;
    if p.full[i] && f.entries == more {
      assert WellCut(p, outputs + [f]) by { GrownClosed(p, outputs, more, f); }
      NowClosed(p, i + 1, i + 1, outputs, f);
    }
  }

  lemma Added(p: Plan, i: nat, outputs: seq<File>, current: seq<Entry>, e: Entry)
    requires CutSoFar(p, i, i + 1, outputs, current) && (Apart(p, LastWritten(outputs, current), e) <==> Gap(p, LastWritten(outputs, current), i + 1))
    ensures var more := current + [e];
      WellCut(p, outputs) && Whole(p, more) &&
      (outputs != [] ==> Apart(p, LastOf(outputs[|outputs| - 1].entries), more[0]))
  {
    hide Apart, Gap, IsAt, WellCut, Before;
    var more := current + [e];
    forall y | 0 <= y < |more| - 1
      ensures !Apart(p, more[y], more[y + 1])
    {
      assert y + 1 < |current| ==> !Apart(p, current[y], current[y + 1]);
    }
  }

  lemma GrownClosed(p: Plan, outputs: seq<File>, more: seq<Entry>, f: File)
    requires WellCut(p, outputs) && Whole(p, more) && more != [] && f.entries == more
    requires outputs != [] ==> Apart(p, LastOf(outputs[|outputs| - 1].entries), more[0])
    ensures WellCut(p, outputs + [f])
  {
    hide Apart, Whole;
  }

  /** The entry is dropped. */
  lemma SkipStep(p: Plan, i: nat, outputs: seq<File>, current: seq<Entry>)
    requires CutSoFar(p, i, i + 1, outputs, current)
    ensures CutSoFar(p, i + 1, i + 1, outputs, current)
  {
    hide WellCut, Whole, Apart, Gap, IsAt;
  }

  /** An output is closed as soon as it is full. */
  lemma NotFullInside(p: Plan, outputs: seq<File>, f: File, y: nat, x: nat, z: nat)
    requires PlanOk(p) && WellCut(p, outputs) && f in outputs && y + 1 < |f.entries|
    requires IsAt(p, f.entries[y], x) && IsAt(p, f.entries[y + 1], z) && x < z
    ensures !p.full[x]
  {
    ApartIs(p, f.entries[y], z);
    GapAt(p, f.entries[y], x, z + 1);
  }
}
