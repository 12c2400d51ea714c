/** Block::Iter: a two-way cursor over the entries of a block (table/block.cc). */
module BlockIter {
  import opened DbFormat
  import opened Coding
  import opened Block

  ghost predicate Transitive(less: (Bytes, Bytes) -> bool) {
    forall a, b, c :: less(a, b) && less(b, c) ==> less(a, c)
  }

  ghost predicate Increasing(less: (Bytes, Bytes) -> bool, es: seq<KV>) {
    forall i, j :: 0 <= i < j < |es| ==> less(es[i].key, es[j].key)
  }

  /** `i` is the first entry that is not before the target, or the end. */
  ghost predicate IsSeek(less: (Bytes, Bytes) -> bool, es: seq<KV>, target: Bytes, i: nat) {
    i <= |es| && (forall j :: 0 <= j < i ==> less(es[j].key, target)) && (i < |es| ==> !less(es[i].key, target))
  }

  /** What the bytes of a block say. */
  lemma RestartPoint(data: Bytes, es: seq<KV>, points: seq<nat>, j: nat)
    requires IsBlock(data, es, points) && j < |points|
    ensures points[j] <= |es| && Offset(es, points, points[j]) <= Offset(es, points, |es|)
    ensures Offset(es, points, |es|) + 4 * j + 4 <= |data|
    ensures Word(data, Offset(es, points, |es|) + 4 * j) == Offset(es, points, points[j])
  {
    hide Data, Word, WordsBetween;
    var ws := RestartOffsets(es, points) + [|points|];
    DataPrefix(es, points, points[j], |es|);
    assert ws[j] == Offset(es, points, points[j]);
    WordSlice(Data(es, points, |es|), ws, [], data, j);
    WordInside(Data(es, points, |es|), ws, [], data, j);
  }

  lemma BlockPrefix(data: Bytes, es: seq<KV>, points: seq<nat>)
    requires IsBlock(data, es, points)
    ensures Data(es, points, |es|) <= data && |data| == Offset(es, points, |es|) + 4 * |points| + 4 < WORD32
    ensures Word(data, |data| - 4) == |points|
  {
    hide Data, Word, WordsBetween;
    var ws := RestartOffsets(es, points) + [|points|];
    BetweenPrefix(Data(es, points, |es|), ws, [], data);
    WordInside(Data(es, points, |es|), ws, [], data, |points|);
  }

  lemma OffsetsIncrease(es: seq<KV>, points: seq<nat>, i: nat, j: nat)
    requires i <= |es| && j <= |es|
    ensures i < j <==> Offset(es, points, i) < Offset(es, points, j)
  {
    hide Data;
    if i <= j {
      DataPrefix(es, points, i, j);
    } else {
      DataPrefix(es, points, j, i);
    }
  }

  class Iter {
    const less: (Bytes, Bytes) -> bool
    const data: Bytes
    const restarts: nat
    const num_restarts: nat
    ghost const es: seq<KV>
    ghost const points: seq<nat>
    var current: nat
    var restart_index: nat
    var key: Bytes
    /** The slice value_, as an offset and a size. */
    var value_start: nat
    var value_size: nat
    /** The entry at which the cursor stands, |es| when it stands nowhere. */
    ghost var at: nat

    ghost predicate Fixed()
    {
      IsBlock(data, es, points) && restarts == Offset(es, points, |es|) && num_restarts == |points|
    }

    /** The cursor stands at entry `i`. */
    ghost predicate At(i: nat)
      reads this
      requires Fixed()
    {
      i < |es| && at == i && current == Offset(es, points, i) && key == es[i].key &&
      value_start + value_size == Offset(es, points, i + 1) <= |data| &&
      data[value_start..value_start + value_size] == es[i].value &&
      restart_index < num_restarts && points[restart_index] <= i &&
      (restart_index + 1 < num_restarts ==> i <= points[restart_index + 1])
    }

    /** ParseNextKey would read entry `i`. */
    ghost predicate Before(i: nat)
      reads this
      requires Fixed()
    {
      i <= |es| && value_start + value_size == Offset(es, points, i) &&
      (i < |es| ==>
        var shared := SharedAt(es, points, i);
        shared <= |key| && key[..shared] == es[i].key[..shared]) &&
      restart_index < num_restarts && points[restart_index] <= i
    }

    ghost predicate Valid()
      reads this
    {
      Fixed() && (At(at) || (at == |es| && current == restarts))
    }

    constructor (less: (Bytes, Bytes) -> bool, data: Bytes, ghost es: seq<KV>, ghost points: seq<nat>)
      requires IsBlock(data, es, points)
      ensures Valid() && at == |es| && this.less == less && this.es == es && this.data == data
    {
      BlockPrefix(data, es, points);
      this.less, this.data, this.es, this.points := less, data, es, points;
      var n := Word(data, |data| - 4);
      num_restarts := n;
      restarts := |data| - (1 + n) * 4;
      current, restart_index := |data| - (1 + n) * 4, n;
      key, value_start, value_size, at := [], 0, 0, |es|;
    }

    predicate IsValid()
      reads this
    {
      current < restarts
    }

    lemma ValidMeans()
      requires Valid()
      ensures at <= |es| && (IsValid() <==> at < |es|)
    {
      hide IsBlock;
      OffsetsIncrease(es, points, at, |es|);
    }

    /** value(): the bytes of the current entry's value. */
    method Value() returns (value: Bytes)
      requires Valid() && IsValid()
      ensures at < |es| && value == es[at].value && key == es[at].key
    {
      hide IsBlock;
      ValidMeans();
      value := data[value_start..value_start + value_size];
    }

    function GetRestartPoint(index: nat): nat
      requires restarts + 4 * index + 4 <= |data|
    {
      Word(data, restarts + 4 * index)
    }

    method SeekToRestartPoint(index: nat)
      requires Fixed() && index < num_restarts
      modifies this`key, this`restart_index, this`value_start, this`value_size
      ensures Before(points[index]) && restart_index == index
    {
      RestartPoint(data, es, points, index);
      key := [];
      restart_index := index;
      value_start, value_size := GetRestartPoint(index), 0;
    }

    /** ParseNextKey on entry `i`, rebuilding its key from the one before.  No error is ever found in
        a block that the builder wrote. */
    method ParseNextKey(ghost i: nat) returns (more: bool)
      requires Fixed() && Before(i)
      modifies this
      ensures Valid() && at == i && more == (i < |es|)
      ensures more ==> value_start + value_size == Offset(es, points, i + 1)
    {
      hide IsBlock, DecodeEntry, Offset, SharedAt, Body, Data;
      current := value_start + value_size;
      at := i;
      OffsetsIncrease(es, points, i, |es|);
      if current >= restarts {
        current, restart_index := restarts, num_restarts;
        return false;
      }
      BlockPrefix(data, es, points);
      DecodeAt(data, es, points, i);
      var entry := DecodeEntry(data[current..restarts]);
      assert entry.Decoded? && entry.shared <= |key|;
      ghost var tail := data[Offset(es, points, i + 1)..restarts];
      KeyAndValue(es, points, i, tail);
      ValueSlice(data, current, restarts, entry, i);
      key := key[..entry.shared] + entry.rest[..entry.non_shared];
      value_start := restarts - |entry.rest| + entry.non_shared;
      value_size := entry.value_length;
      SkipRestarts(i);
      more := true;
    }

    /** Where the value of a decoded entry lies. */
    lemma ValueSlice(s: Bytes, from: nat, limit: nat, entry: Decoded, i: nat)
      requires Fixed() && s == data && limit == restarts && i < |es| && from == Offset(es, points, i)
      requires from <= limit <= |s| && entry == DecodeEntry(s[from..limit]) && entry.Decoded?
      ensures entry.value_length == |es[i].value|
      ensures var start := limit - |entry.rest| + entry.non_shared;
        0 <= start && start + entry.value_length == Offset(es, points, i + 1) <= |s| &&
        s[start..start + entry.value_length] == es[i].value
    {
      hide IsBlock, DecodeEntry, Offset, Data, SharedAt;
      BlockPrefix(data, es, points);
      DecodeAt(data, es, points, i);
      ValueAt(data, es, points, i);
      assert |Body(es, points, i)| == entry.non_shared + entry.value_length;
    }

    /** The loop that keeps restart_index just before the entry. */
    method SkipRestarts(ghost i: nat)
      requires Fixed() && i < |es| && current == Offset(es, points, i)
      requires restart_index < num_restarts && points[restart_index] <= i
      modifies this`restart_index
      ensures restart_index < num_restarts && points[restart_index] <= i
      ensures restart_index + 1 < num_restarts ==> i <= points[restart_index + 1]
    {
      hide IsBlock, Offset, Word;
      BlockPrefix(data, es, points);
      while restart_index + 1 < num_restarts && GetRestartPoint(restart_index + 1) < current
        invariant restart_index < num_restarts && points[restart_index] <= i
        decreases num_restarts - restart_index
      {
        RestartPoint(data, es, points, restart_index + 1);
        OffsetsIncrease(es, points, points[restart_index + 1], i);
        restart_index := restart_index + 1;
      }
      if restart_index + 1 < num_restarts {
        RestartPoint(data, es, points, restart_index + 1);
        OffsetsIncrease(es, points, points[restart_index + 1], i);
      }
    }

    /** Having read an entry, the cursor is ready for the one after it. */
    lemma ReadyForNext()
      requires Fixed() && At(at)
      ensures Before(at + 1)
    {
      hide IsBlock;
    }

    method Next()
      requires Valid() && IsValid()
      modifies this
      ensures Valid() && at == old(at) + 1
    {
      hide IsBlock, Offset;
      ValidMeans();
      ReadyForNext();
      var more := ParseNextKey(at + 1);
    }

    method SeekToFirst()
      requires Valid()
      modifies this
      ensures Valid() && at == 0
    {
      hide IsBlock, Offset, SharedAt;
      FirstPoint();
      SeekToRestartPoint(0);
      var more := ParseNextKey(0);
    }

    lemma FirstPoint()
      requires Fixed()
      ensures num_restarts > 0 && points[0] == 0 && forall j :: 0 <= j < |points| ==> points[j] < |es| || |es| == 0
      ensures es == [] ==> |points| == 1
    {
      assert |points| > 1 ==> points[1] < |es|;
    }

    method SeekToLast()
      requires Valid()
      modifies this
      ensures Valid() && at == if es == [] then 0 else |es| - 1
    {
      hide IsBlock, Offset, SharedAt;
      FirstPoint();
      SeekToRestartPoint(num_restarts - 1);
      ghost var i := points[num_restarts - 1];
      var more := ParseNextKey(i);
      while more && value_start + value_size < restarts
        invariant Valid() && at == i <= |es| && more == (i < |es|) && (es != [] ==> i < |es|)
        invariant more ==> value_start + value_size == Offset(es, points, i + 1)
        decreases |es| - i
      {
        OffsetsIncrease(es, points, i, |es|);
        OffsetsIncrease(es, points, i + 1, |es|);
        ReadyForNext();
        i := i + 1;
        more := ParseNextKey(i);
      }
      if more {
        OffsetsIncrease(es, points, i + 1, |es|);
      }
    }

    /** The first loop of Prev: back to a restart point before the entry. */
    method BackToRestart() returns (found: bool)
      requires Fixed() && At(at)
      modifies this`restart_index
      ensures found <==> at > 0
      ensures found ==> restart_index < num_restarts && points[restart_index] < at
    {
      hide IsBlock, Offset, SharedAt, Word;
      FirstPoint();
      BlockPrefix(data, es, points);
      var original := current;
      while GetRestartPoint(restart_index) >= original
        invariant restart_index < num_restarts && restarts + 4 * restart_index + 4 <= |data|
        decreases restart_index
      {
        RestartPoint(data, es, points, restart_index);
        OffsetsIncrease(es, points, points[restart_index], at);
        if restart_index == 0 {
          return false;
        }
        restart_index := restart_index - 1;
      }
      RestartPoint(data, es, points, restart_index);
      OffsetsIncrease(es, points, points[restart_index], at);
      return true;
    }

    /** Back to the last restart point before the entry, and forward again to its neighbour. */
    method Prev()
      requires Valid() && IsValid()
      modifies this
      ensures Valid() && at == if old(at) == 0 then |es| else old(at) - 1
    {
      hide IsBlock, Offset, SharedAt, Word;
      ValidMeans();
      var original := current;
      ghost var here := at;
      var found := BackToRestart();
      if !found {
        current, restart_index := restarts, num_restarts;
        at := |es|;
        return;
      }
      SeekToRestartPoint(restart_index);
      ghost var i := points[restart_index];
      var more := ParseNextKey(i);
      while more && value_start + value_size < original
        invariant Valid() && at == i < here && more
        invariant value_start + value_size == Offset(es, points, i + 1)
        decreases here - i
      {
        OffsetsIncrease(es, points, i, |es|);
        OffsetsIncrease(es, points, i + 1, here);
        ReadyForNext();
        i := i + 1;
        more := ParseNextKey(i);
      }
      OffsetsIncrease(es, points, i + 1, here);
    }

    /** The key at a restart point is stored whole. */
    method RestartKey(index: nat) returns (k: Bytes)
      requires Fixed() && 0 < index < num_restarts
      ensures points[index] < |es| && k == es[points[index]].key
    {
      hide IsBlock, Offset, DecodeEntry, Word;
      FirstPoint();
      BlockPrefix(data, es, points);
      RestartPoint(data, es, points, index);
      ghost var i := points[index];
      DecodeAt(data, es, points, i);
      var region_offset := GetRestartPoint(index);
      var entry := DecodeEntry(data[region_offset..restarts]);
      assert points[index] in points;
      assert entry.shared == 0;
      KeyAndValue(es, points, i, data[Offset(es, points, i + 1)..restarts]);
      k := entry.rest[..entry.non_shared];
    }

    /** Binary search over the restart points: the last one whose key is before the target. */
    method FindRestart(target: Bytes) returns (left: nat)
      requires Fixed()
      ensures left < num_restarts && (left > 0 ==> points[left] < |es| && less(es[points[left]].key, target))
    {
      hide IsBlock, Offset, SharedAt;
      FirstPoint();
      left := 0;
      var right := num_restarts - 1;
      while left < right
        invariant 0 <= left <= right < num_restarts
        invariant left > 0 ==> points[left] < |es| && less(es[points[left]].key, target)
      {
        var mid := (left + right + 1) / 2;
        var mid_key := RestartKey(mid);
        if less(mid_key, target) {
          left := mid;
        } else {
          right := mid - 1;
        }
      }
    }

    /** Binary search over the restart points, then a linear scan: the first key not before the
        target. */
    method Seek(target: Bytes)
      requires Valid() && Transitive(less) && Increasing(less, es)
      modifies this
      ensures Valid() && IsSeek(less, es, target, at)
    {
      hide IsBlock, Offset, SharedAt, IsSeek;
      FirstPoint();
      var left := FindRestart(target);
      SeekToRestartPoint(left);
      ghost var i := points[left];
      AllBefore(less, es, target, i, left > 0);
      var more := ParseNextKey(i);
      while more && less(key, target)
        invariant Valid() && at == i <= |es| && more == (i < |es|)
        invariant forall j :: 0 <= j < i ==> less(es[j].key, target)
        decreases |es| - i
      {
        OffsetsIncrease(es, points, i, |es|);
        ReadyForNext();
        i := i + 1;
        more := ParseNextKey(i);
      }
      if more {
        OffsetsIncrease(es, points, i, |es|);
      }
      SeekFound(less, es, target, at);
    }
  }

  lemma AllBefore(less: (Bytes, Bytes) -> bool, es: seq<KV>, target: Bytes, i: nat, known: bool)
    requires Transitive(less) && Increasing(less, es)
    requires if known then i < |es| && less(es[i].key, target) else i == 0
    ensures forall j :: 0 <= j < i ==> j < |es| && less(es[j].key, target)
  {
    forall j | 0 <= j < i
      ensures less(es[j].key, target)
    {
      assert less(es[j].key, es[i].key);
    }
  }

  lemma SeekFound(less: (Bytes, Bytes) -> bool, es: seq<KV>, target: Bytes, i: nat)
    requires i <= |es| && (forall j :: 0 <= j < i ==> less(es[j].key, target)) && (i < |es| ==> !less(es[i].key, target))
    ensures IsSeek(less, es, target, i)
  {
  }

  /** The key of an entry: the shared prefix and what follows the header. */
  lemma KeyAndValue(es: seq<KV>, points: seq<nat>, i: nat, tail: Bytes)
    requires i < |es|
    ensures var shared, rest := SharedAt(es, points, i), Body(es, points, i) + tail;
      var n := |es[i].key| - shared;
      n <= |rest| && es[i].key[..shared] + rest[..n] == es[i].key
  {
  }
}
