/** TwoLevelIterator: a cursor over the concatenation of the blocks that an index names
    (table/two_level_iterator.cc). */
module TwoLevel {
  import opened DbFormat
  import opened Coding
  import opened Comparator
  import opened Format
  import opened Block
  import opened BlockIter
  import opened Table
  import opened TableReader

  /** The rows of the first `n` blocks. */
  function Flat(blocks: seq<seq<Row>>, n: nat): seq<Row>
    requires n <= |blocks|
  {
    if n == 0 then [] else Flat(blocks, n - 1) + blocks[n - 1]
  }

  function Start(blocks: seq<seq<Row>>, b: nat): nat
    requires b <= |blocks|
  {
    |Flat(blocks, b)|
  }

  lemma {:induction false} FlatPrefix(blocks: seq<seq<Row>>, b: nat, n: nat)
    requires b <= n <= |blocks|
    ensures Flat(blocks, b) <= Flat(blocks, n)
  {
    if b < n {
      FlatPrefix(blocks, b, n - 1);
    }
  }

  /** Where a row of a block is in the concatenation. */
  lemma FlatAt(blocks: seq<seq<Row>>, b: nat, j: nat)
    requires b < |blocks| && j < |blocks[b]|
    ensures Start(blocks, b) + j < Start(blocks, b + 1) <= Start(blocks, |blocks|)
    ensures Flat(blocks, |blocks|)[Start(blocks, b) + j] == blocks[b][j]
  {
    FlatPrefix(blocks, b + 1, |blocks|);
    assert Flat(blocks, b + 1) == Flat(blocks, b) + blocks[b];
    assert Flat(blocks, b + 1)[Start(blocks, b) + j] == blocks[b][j];
  }

  function BlockRows(blocks: seq<DataBlock>): (r: seq<seq<Row>>)
    ensures |r| == |blocks|
  {
    seq(|blocks|, i requires 0 <= i < |blocks| => blocks[i].rows)
  }

  /** Index keys bound their blocks: nothing in block `i` is after the key, nothing later is at
      or before it. */
  ghost predicate Bounds(index: seq<InternalKey>, blocks: seq<seq<Row>>) {
    |index| == |blocks| &&
    (forall i, j :: 0 <= i < |blocks| && 0 <= j < |blocks[i]| ==> KeyAtMost(blocks[i][j].key, index[i])) &&
    (forall i, m, j :: 0 <= i < m < |blocks| && 0 <= j < |blocks[m]| ==> KeyLess(index[i], blocks[m][j].key))
  }

  /** The first row of the concatenation that is not before the target. */
  ghost predicate IsFirst(rows: seq<Row>, target: InternalKey, at: nat) {
    at <= |rows| && (forall i :: 0 <= i < at ==> KeyLess(rows[i].key, target)) &&
    (at < |rows| ==> !KeyLess(rows[at].key, target))
  }

  /** Handles of stored blocks are told apart by their encodings. */
  lemma SameHandle(file: Bytes, blocks: seq<DataBlock>, i: nat, b: nat)
    requires |file| < WORD32 && HoldsBlocks(file, blocks) && i < |blocks| && b < |blocks|
    requires forall i, j :: 0 <= i < j < |blocks| ==> blocks[i].handle != blocks[j].handle
    requires EncodeHandle(blocks[i].handle) == EncodeHandle(blocks[b].handle)
    ensures i == b
  {
    hide HoldsBlock, EncodeHandle, DecodeHandle;
    var x, y := blocks[i].handle, blocks[b].handle;
    var _, _ := HeldBlock(file, x, RowKVs(blocks[i].rows));
    var _, _ := HeldBlock(file, y, RowKVs(blocks[b].rows));
    HandleRoundTrip(x, []);
    HandleRoundTrip(y, []);
    assert x == y;
  }

  /** Index entries name the blocks, each under its own handle, and keys fit into their encoding. */
  ghost predicate Names(index: seq<IndexEntry>, blocks: seq<DataBlock>) {
    |index| == |blocks| &&
    (forall i :: 0 <= i < |index| ==> index[i].handle == blocks[i].handle && index[i].key.pack < WORD64) &&
    (forall i, j :: 0 <= i < j < |blocks| ==> blocks[i].handle != blocks[j].handle) &&
    (forall i, j :: 0 <= i < |blocks| && 0 <= j < |blocks[i].rows| ==> blocks[i].rows[j].key.pack < WORD64)
  }

  class TwoLevelIterator {
    const file: Bytes
    const verify: bool
    const index_iter: Iter
    ghost const index: seq<IndexEntry>
    ghost const blocks: seq<DataBlock>
    /** An iterator over the block under the index iterator, or none. */
    var data_iter: Iter?
    /** The index value from which it was made. */
    var data_block_handle: Bytes
    ghost var at: nat

    ghost function All(): seq<Row>
    {
      Flat(BlockRows(blocks), |blocks|)
    }

    ghost predicate Fixed()
    {
      |file| < WORD32 && HoldsBlocks(file, blocks) && Names(index, blocks)
    }

    ghost predicate IndexOn()
      reads index_iter
    {
      index_iter.Valid() && index_iter.less == EncodedLess && index_iter.es == IndexKVs(index)
    }

    /** The data iterator was made for block `b`. */
    ghost predicate DataOn(b: nat)
      reads this, data_iter
    {
      data_iter != null && data_iter != index_iter && data_iter.Valid() && data_iter.less == EncodedLess &&
      b < |blocks| && data_iter.es == RowKVs(blocks[b].rows) && data_block_handle == EncodeHandle(blocks[b].handle)
    }

    ghost predicate Shape()
      reads this, index_iter, data_iter
    {
      Fixed() && IndexOn() && (if data_iter == null then index_iter.at == |blocks| else DataOn(index_iter.at))
    }

    /** Where the data iterator stands in the concatenation of the blocks. */
    ghost function Place(): nat
      reads this, index_iter, data_iter
    {
      if data_iter == null || index_iter.at > |blocks| then |All()| else Start(BlockRows(blocks), index_iter.at) + data_iter.at
    }

    ghost predicate Valid()
      reads this, index_iter, data_iter
    {
      Shape() && at == if OnRow() then Place() else |All()|
    }

    ghost predicate OnRow()
      reads this, data_iter
    {
      data_iter != null && data_iter.at < |data_iter.es|
    }

    predicate IsValid()
      reads this, data_iter
    {
      data_iter != null && data_iter.IsValid()
    }

    /** The end of one block is the beginning of the next. */
    lemma StepOver(b: nat)
      requires Shape() && index_iter.at == b < |blocks| && data_iter != null && !OnRow()
      ensures Place() == Start(BlockRows(blocks), b + 1)
    {
      hide HoldsBlocks, Iter.Valid, EncodeKey, EncodeHandle;
      data_iter.ValidMeans();
    }

    lemma ValidMeans()
      requires Shape()
      ensures IsValid() <==> OnRow()
      ensures OnRow() ==>
        index_iter.at < |blocks| && Place() < |All()| &&
        data_iter.at < |blocks[index_iter.at].rows| && All()[Place()] == blocks[index_iter.at].rows[data_iter.at]
      ensures |index_iter.es| == |blocks| && (index_iter.IsValid() <==> index_iter.at < |blocks|)
    {
      hide HoldsBlocks, Iter.Valid, EncodeKey, EncodeHandle, Flat;
      index_iter.ValidMeans();
      if data_iter != null {
        data_iter.ValidMeans();
        if OnRow() {
          FlatAt(BlockRows(blocks), index_iter.at, data_iter.at);
        }
      }
    }

    constructor (file: Bytes, verify: bool, index_iter: Iter, ghost index: seq<IndexEntry>, ghost blocks: seq<DataBlock>)
      requires |file| < WORD32 && HoldsBlocks(file, blocks) && Names(index, blocks)
      requires index_iter.Valid() && index_iter.less == EncodedLess && index_iter.es == IndexKVs(index) && index_iter.at == |index|
      ensures Valid() && at == |All()| && data_iter == null
      ensures this.index == index && this.blocks == blocks && this.index_iter == index_iter
    {
      hide HoldsBlocks, Iter.Valid, Flat, EncodeKey, EncodeHandle;
      this.file, this.verify, this.index_iter, this.index, this.blocks := file, verify, index_iter, index, blocks;
      data_iter, data_block_handle := null, [];
      at := |Flat(BlockRows(blocks), |blocks|)|;
    }

    /** key() and value(). */
    method Current() returns (row: Row)
      requires Valid() && IsValid()
      ensures at < |All()| && row == All()[at]
    {
      hide HoldsBlocks, Iter.Valid, EncodeKey, ParseKey, EncodeHandle;
      ValidMeans();
      var value := data_iter.Value();
      KeyRoundTrip(blocks[index_iter.at].rows[data_iter.at].key);
      row := Row(ParseKey(data_iter.key), value);
    }

    /** InitDataBlock: an iterator already made for this block is kept, where it stands. */
    method InitDataBlock(ghost b: nat)
      requires Fixed() && IndexOn() && (data_iter != null ==> DataOn(b))
      modifies this`data_iter, this`data_block_handle
      ensures Shape() && (data_iter == null || data_iter == old(data_iter) || fresh(data_iter))
    {
      hide HoldsBlock, Iter.Valid, EncodeKey, EncodeHandle;
      index_iter.ValidMeans();
      if !index_iter.IsValid() {
        data_iter := null;
      } else {
        var handle := index_iter.Value();
        ghost var i := index_iter.at;
        assert handle == EncodeHandle(blocks[i].handle);
        if data_iter != null && handle == data_block_handle {
          SameHandle(file, blocks, i, b);
        } else {
          data_iter := BlockReader(file, handle, verify, blocks[i]);
          data_block_handle := handle;
        }
      }
    }

    /** On to the first row at or after where the data iterator stands. */
    method SkipEmptyDataBlocksForward(ghost p: nat)
      requires Shape() && p == Place()
      modifies this, index_iter, data_iter
      ensures Valid() && at == p && (data_iter == null || data_iter == old(data_iter) || fresh(data_iter))
    {
      hide HoldsBlocks, Names, Iter.Valid, EncodeKey, EncodeHandle, IndexKVs, RowKVs, Flat;
      ValidMeans();
      while !IsValid()
        invariant Shape() && p == Place() && (IsValid() <==> OnRow())
        invariant data_iter == null || data_iter == old(data_iter) || fresh(data_iter)
        decreases |blocks| - index_iter.at
      {
        ValidMeans();
        if !index_iter.IsValid() {
          data_iter := null;
          at := p;
          return;
        }
        ghost var b := index_iter.at;
        StepOver(b);
        index_iter.Next();
        InitDataBlock(b);
        if data_iter != null {
          data_iter.SeekToFirst();
        }
        ValidMeans();
      }
      ValidMeans();
      at := p;
    }

    /** Back to the last row before flat position `p`, if there is one.  The data iterator stands on
        it already, or nowhere at the beginning of its block. */
    method SkipEmptyDataBlocksBackward(ghost p: nat)
      requires Shape()
      requires p == if OnRow() then Place() + 1 else if data_iter == null then 0 else Start(BlockRows(blocks), index_iter.at)
      modifies this, index_iter, data_iter
      ensures Valid() && at == (if p == 0 then |All()| else p - 1)
      ensures data_iter == null || data_iter == old(data_iter) || fresh(data_iter)
    {
      hide HoldsBlocks, Names, Iter.Valid, EncodeKey, EncodeHandle, IndexKVs, RowKVs, Flat;
      ValidMeans();
      StartsGrow(BlockRows(blocks), 0, 0);
      while !IsValid()
        invariant Shape() && (IsValid() <==> OnRow())
        invariant p == if OnRow() then Place() + 1 else if data_iter == null then 0 else Start(BlockRows(blocks), index_iter.at)
        invariant data_iter == null || data_iter == old(data_iter) || fresh(data_iter)
        decreases if data_iter == null then 0 else index_iter.at + 1
      {
        ValidMeans();
        if !index_iter.IsValid() {
          data_iter := null;
          at := |All()|;
          return;
        }
        ghost var b := index_iter.at;
        index_iter.Prev();
        InitDataBlock(b);
        if data_iter != null {
          data_iter.SeekToLast();
          LastOf(index_iter.at);
        }
        ValidMeans();
      }
      ValidMeans();
      at := p - 1;
    }

    /** Standing on the last row of a block, or in an empty block, is standing before the next one. */
    lemma LastOf(b: nat)
      requires Shape() && index_iter.at == b < |blocks| && data_iter != null
      requires data_iter.at == if data_iter.es == [] then 0 else |data_iter.es| - 1
      ensures Start(BlockRows(blocks), b + 1) == if OnRow() then Place() + 1 else Start(BlockRows(blocks), b)
    {
      hide HoldsBlocks, Iter.Valid, EncodeKey, EncodeHandle;
    }

    method Next()
      requires Valid() && IsValid()
      modifies this, index_iter, data_iter
      ensures Valid() && at == old(at) + 1 && (data_iter == null || data_iter == old(data_iter) || fresh(data_iter))
    {
      hide HoldsBlocks, Names, Iter.Valid, EncodeKey, EncodeHandle, IndexKVs, RowKVs;
      ValidMeans();
      data_iter.Next();
      SkipEmptyDataBlocksForward(at + 1);
    }

    method Prev()
      requires Valid() && IsValid()
      modifies this, index_iter, data_iter
      ensures Valid() && at == (if old(at) == 0 then |All()| else old(at) - 1)
      ensures data_iter == null || data_iter == old(data_iter) || fresh(data_iter)
    {
      hide HoldsBlocks, Names, Iter.Valid, EncodeKey, EncodeHandle, IndexKVs, RowKVs, Flat;
      ValidMeans();
      ghost var p := at;
      data_iter.Prev();
      SkipEmptyDataBlocksBackward(p);
    }

    method SeekToFirst()
      requires Valid()
      modifies this, index_iter, data_iter
      ensures Valid() && at == 0 && (data_iter == null || data_iter == old(data_iter) || fresh(data_iter))
    {
      hide HoldsBlocks, Names, Iter.Valid, EncodeKey, EncodeHandle, RowKVs;
      ghost var b := index_iter.at;
      index_iter.SeekToFirst();
      InitDataBlock(b);
      if data_iter != null {
        data_iter.SeekToFirst();
      }
      SkipEmptyDataBlocksForward(0);
    }

    method SeekToLast()
      requires Valid()
      modifies this, index_iter, data_iter
      ensures Valid() && at == (if All() == [] then 0 else |All()| - 1)
      ensures data_iter == null || data_iter == old(data_iter) || fresh(data_iter)
    {
      hide HoldsBlocks, Names, Iter.Valid, EncodeKey, EncodeHandle, RowKVs;
      ValidMeans();
      ghost var b := index_iter.at;
      index_iter.SeekToLast();
      InitDataBlock(b);
      if data_iter != null {
        data_iter.SeekToLast();
        LastOf(index_iter.at);
      }
      SkipEmptyDataBlocksBackward(|All()|);
    }

    /** Seek: in the index, then in the block. */
    method Seek(target: InternalKey)
      requires Valid() && Bounds(EntryKeys(index), BlockRows(blocks)) && SortedRows(All()) && target.pack < WORD64
      requires Increasing(EncodedLess, IndexKVs(index))
      modifies this, index_iter, data_iter
      ensures Valid() && IsFirst(All(), target, at)
      ensures data_iter == null || data_iter == old(data_iter) || fresh(data_iter)
    {
      hide HoldsBlocks, Names, Iter.Valid, EncodeKey, EncodeHandle, EncodedLess, SeekKey, Flat, KeyLess, Bounds, SortedRows,
        IsFirst, RowKVs, IndexKVs, Increasing;
      ghost var b := index_iter.at;
      SeekIndex(target);
      InitDataBlock(b);
      ValidMeans();
      if data_iter != null {
        SeekData(target);
        SeekIsFirst(EntryKeys(index), BlockRows(blocks), target, index_iter.at, data_iter.at);
      } else {
        SeekIsFirst(EntryKeys(index), BlockRows(blocks), target, index_iter.at, 0);
      }
      SkipEmptyDataBlocksForward(Place());
    }

    method SeekIndex(target: InternalKey)
      requires Fixed() && IndexOn() && target.pack < WORD64 && Increasing(EncodedLess, IndexKVs(index))
      modifies index_iter
      ensures IndexOn() && index_iter.at == SeekKey(EntryKeys(index), target)
    {
      hide HoldsBlocks, Iter.Valid, EncodeKey, EncodeHandle, EncodedLess, SeekKey;
      EncodedTransitive();
      index_iter.Seek(EncodeKey(target));
      EncodedSeek(IndexKVs(index), EntryKeys(index), target, index_iter.at);
    }

    method SeekData(target: InternalKey)
      requires Shape() && data_iter != null && target.pack < WORD64 && SortedRows(All())
      modifies data_iter
      ensures Shape() && index_iter.at < |blocks| && data_iter.at == SeekKey(RowKeys(blocks[index_iter.at].rows), target)
    {
      hide HoldsBlocks, Iter.Valid, EncodeKey, EncodeHandle, EncodedLess, SeekKey, Flat, SortedRows, IndexKVs;
      EncodedTransitive();
      ghost var rows := blocks[index_iter.at].rows;
      BlockEncoded(blocks, index_iter.at);
      data_iter.Seek(EncodeKey(target));
      EncodedSeek(RowKVs(rows), RowKeys(rows), target, data_iter.at);
    }
  }

  function EntryKeys(index: seq<IndexEntry>): (r: seq<InternalKey>)
    ensures |r| == |index|
  {
    seq(|index|, i requires 0 <= i < |index| => index[i].key)
  }

  lemma BlockEncoded(blocks: seq<DataBlock>, b: nat)
    requires b < |blocks| && SortedRows(Flat(BlockRows(blocks), |blocks|))
    requires forall j :: 0 <= j < |blocks[b].rows| ==> blocks[b].rows[j].key.pack < WORD64
    ensures Encoded(RowKVs(blocks[b].rows), RowKeys(blocks[b].rows)) && Increasing(EncodedLess, RowKVs(blocks[b].rows))
  {
    hide EncodeKey, EncodedLess, KeyLess;
    var rows := blocks[b].rows;
    forall i, j | 0 <= i < j < |rows|
      ensures KeyLess(rows[i].key, rows[j].key)
    {
      FlatAt(BlockRows(blocks), b, i);
      FlatAt(BlockRows(blocks), b, j);
    }
    EncodedIncreasing(RowKVs(rows), RowKeys(rows));
  }

  lemma {:induction false} FlatHome(blocks: seq<seq<Row>>, n: nat, i: nat) returns (b: nat, j: nat)
    requires n <= |blocks| && i < |Flat(blocks, n)|
    ensures b < n && j < |blocks[b]| && i == Start(blocks, b) + j && Flat(blocks, n)[i] == blocks[b][j]
  {
    if i < |Flat(blocks, n - 1)| {
      b, j := FlatHome(blocks, n - 1, i);
    } else {
      b, j := n - 1, i - |Flat(blocks, n - 1)|;
    }
  }

  lemma StartsGrow(blocks: seq<seq<Row>>, a: nat, b: nat)
    requires a <= b <= |blocks|
    ensures Start(blocks, 0) == 0 && Start(blocks, a) <= Start(blocks, b)
    ensures a < b ==> Start(blocks, a) + |blocks[a]| <= Start(blocks, b)
  {
    FlatPrefix(blocks, a, b);
    if a < b {
      FlatPrefix(blocks, a + 1, b);
    }
  }

  /** Seeking in the index and then in the block finds the first row overall. */
  lemma SeekIsFirst(index: seq<InternalKey>, blocks: seq<seq<Row>>, target: InternalKey, b: nat, j: nat)
    requires Bounds(index, blocks) && SortedRows(Flat(blocks, |blocks|)) && b == SeekKey(index, target)
    requires b < |blocks| ==> j == SeekKey(RowKeys(blocks[b]), target)
    ensures IsFirst(Flat(blocks, |blocks|), target,
      if b < |blocks| then Start(blocks, b) + j else Start(blocks, |blocks|))
  {
    hide KeyLess, Flat, SeekKey;
    var rows := Flat(blocks, |blocks|);
    var p := if b < |blocks| then Start(blocks, b) + j else Start(blocks, |blocks|);
    if b < |blocks| {
      StartsGrow(blocks, b, |blocks|);
    }
    forall i | 0 <= i < p
      ensures KeyLess(rows[i].key, target)
    {
      var c, a := FlatHome(blocks, |blocks|, i);
      HomeBefore(blocks, b, j, c, a);
      if c < b {
        assert KeyAtMost(blocks[c][a].key, index[c]);
        BeforeBound(blocks[c][a].key, index[c], target);
      } else {
        assert RowKeys(blocks[b])[a] == blocks[b][a].key;
      }
    }
    if p < |rows| {
      var c, a := FlatHome(blocks, |blocks|, p);
      HomeAfter(blocks, b, j, c, a);
      if c == b {
        assert RowKeys(blocks[b])[a] == blocks[b][a].key;
      } else {
        assert KeyLess(index[b], blocks[c][a].key);
        AfterBound(index[b], blocks[c][a].key, target);
      }
    }
  }

  lemma BeforeBound(x: InternalKey, bound: InternalKey, target: InternalKey)
    requires KeyAtMost(x, bound) && KeyLess(bound, target)
    ensures KeyLess(x, target)
  {
    if x != bound {
      KeyTransitive(x, bound, target);
    }
  }

  lemma AfterBound(bound: InternalKey, x: InternalKey, target: InternalKey)
    requires KeyLess(bound, x) && !KeyLess(bound, target)
    ensures !KeyLess(x, target)
  {
    if KeyLess(x, target) {
      KeyTransitive(bound, x, target);
    }
  }

  lemma HomeBefore(blocks: seq<seq<Row>>, b: nat, j: nat, c: nat, a: nat)
    requires b <= |blocks| && c < |blocks| && a < |blocks[c]|
    requires Start(blocks, c) + a < if b < |blocks| then Start(blocks, b) + j else Start(blocks, |blocks|)
    requires b < |blocks| ==> j <= |blocks[b]|
    ensures c < b || (c == b && a < j)
  {
    if b < c {
      StartsGrow(blocks, b, c);
    }
  }

  lemma HomeAfter(blocks: seq<seq<Row>>, b: nat, j: nat, c: nat, a: nat)
    requires b <= |blocks| && c < |blocks| && a < |blocks[c]|
    requires Start(blocks, c) + a == if b < |blocks| then Start(blocks, b) + j else Start(blocks, |blocks|)
    requires b < |blocks| ==> j <= |blocks[b]|
    ensures b < |blocks| && (b < c || (c == b && a == j))
  {
    if c < b {
      StartsGrow(blocks, c, b);
    }
  }

  // ---------------------------------------------------------------- tables

  lemma {:induction false} FlatIsAll(blocks: seq<DataBlock>, n: nat)
    requires n <= |blocks|
    ensures Flat(BlockRows(blocks), n) == AllRows(blocks[..n])
  {
    if n > 0 {
      FlatIsAll(blocks, n - 1);
      assert blocks[..n][..n - 1] == blocks[..n - 1];
    }
  }

  /** Shortened separators bound their blocks. */
  lemma TableIsBounded(t: Layout, rows: seq<Row>)
    requires IsTable(t, rows)
    ensures Bounds(EntryKeys(t.index), BlockRows(t.blocks)) && Flat(BlockRows(t.blocks), |t.blocks|) == rows
  {
    hide AllRows, KeyLess, SortedRows;
    var blocks, index := t.blocks, EntryKeys(t.index);
    FlatIsAll(blocks, |blocks|);
    assert blocks[..|blocks|] == blocks;
    forall i, j | 0 <= i < |blocks| && 0 <= j < |blocks[i].rows|
      ensures KeyAtMost(blocks[i].rows[j].key, index[i])
    {
      AtMostSeparator(t, rows, i, j);
    }
    forall i, m, j | 0 <= i < m < |blocks| && 0 <= j < |blocks[m].rows|
      ensures KeyLess(index[i], blocks[m].rows[j].key)
    {
      AfterSeparator(t, rows, i, m, j);
    }
  }

  lemma TableNames(t: Layout, rows: seq<Row>)
    requires IsTable(t, rows) && KeysFit(rows)
    ensures Names(t.index, t.blocks)
  {
    hide AllRows, KeyLess, SortedRows, BytesLess;
    forall i | 0 <= i < |t.index|
      ensures t.index[i].handle == t.blocks[i].handle && t.index[i].key.pack < WORD64
    {
      assert EntryOf(t.blocks, t.index[i], i);
      BlockKeysFit(t.blocks, i, |t.blocks[i].rows| - 1);
    }
    forall i, j | 0 <= i < |t.blocks| && 0 <= j < |t.blocks[i].rows|
      ensures t.blocks[i].rows[j].key.pack < WORD64
    {
      BlockKeysFit(t.blocks, i, j);
    }
  }

  /** Table::NewIterator: a cursor over all the rows of the table, read from its bytes. */
  method NewIterator(table: TableReader, verify: bool) returns (it: TwoLevelIterator)
    requires table.Valid()
    ensures fresh(it) && fresh(it.index_iter) && it.data_iter == null && it.Valid() && it.All() == table.rows && it.at == |it.All()|
    ensures Bounds(EntryKeys(it.index), BlockRows(it.blocks)) && SortedRows(it.All())
    ensures Increasing(EncodedLess, IndexKVs(it.index))
  {
    hide IsBlock, HoldsBlock, Bounds, Names, EncodedLess, KeyLess, Flat, AllRows, Indexed, BlocksOk, DecodeFooter;
    assert IsTable(table.t, table.rows);
    TableIsBounded(table.t, table.rows);
    TableNames(table.t, table.rows);
    IndexEncoded(table.t, table.rows);
    var index_iter := new Iter(EncodedLess, table.index_block, IndexKVs(table.t.index), table.points);
    it := new TwoLevelIterator(table.file, verify, index_iter, table.t.index, table.t.blocks);
  }
}
