/** TableBuilder: rows are added in order, cut into blocks that go to the file as they fill up, and
    indexed one block late (table/table_builder.cc). */
module TableBuilder {
  import opened DbFormat
  import opened Coding
  import opened Comparator
  import opened Crc
  import opened Format
  import opened Filter
  import opened Block
  import opened Table

  /** The index while the table grows.  The entry of the last block waits (`pending`) until the
      first key of the next block is known. */
  ghost predicate IndexOk(blocks: seq<DataBlock>, index: seq<IndexEntry>, open: seq<Row>, pending: bool) {
    BlocksOk(blocks) && |index| + (if pending then 1 else 0) == |blocks| && (pending ==> open == []) &&
    (!pending && blocks != [] ==> open != []) &&
    forall i :: 0 <= i < |index| ==> EntryOk(blocks, index[i], open, i)
  }

  ghost predicate EntryOk(blocks: seq<DataBlock>, entry: IndexEntry, open: seq<Row>, i: nat)
    requires BlocksOk(blocks) && i < |blocks|
  {
    entry.handle == blocks[i].handle &&
    if i + 1 < |blocks| then
      Separates(entry.key, LastKey(blocks[i]), FirstKey(blocks[i + 1]))
    else
      open != [] && Separates(entry.key, LastKey(blocks[i]), open[0].key)
  }

  /** Every row is, or will be, in the filter of its block. */
  ghost predicate FilterOk(filter: FilterBlockBuilder?, blocks: seq<DataBlock>, open: seq<Row>, offset: nat)
    reads filter
  {
    filter != null ==>
      filter.Valid() && |filter.offsets| == offset / BASE &&
      (forall i, j :: 0 <= i < |blocks| && 0 <= j < |blocks[i].rows| ==>
        filter.Has(blocks[i].handle.offset / BASE, blocks[i].rows[j].key.user)) &&
      (forall j :: 0 <= j < |open| ==> filter.Has(offset / BASE, open[j].key.user))
  }

  ghost predicate RowsOk(rows: seq<Row>, blocks: seq<DataBlock>, open: seq<Row>, last_key: InternalKey) {
    SortedRows(rows) && KeysFit(rows) && rows == AllRows(blocks) + open &&
    (rows != [] ==> last_key == rows[|rows| - 1].key)
  }

  ghost predicate OffsetsBelow(blocks: seq<DataBlock>, offset: nat) {
    forall i :: 0 <= i < |blocks| ==> blocks[i].handle.offset < offset
  }

  class TableBuilder {
    const policy: Option<Policy>
    const block_size: nat
    const interval: nat
    const data_block: BlockBuilder
    const index_block: BlockBuilder
    const filter_block: FilterBlockBuilder?
    var file: Bytes
    var offset: nat
    var last_key: InternalKey
    var pending_index_entry: bool
    var pending_handle: Handle
    ghost var rows: seq<Row>
    ghost var blocks: seq<DataBlock>
    ghost var index: seq<IndexEntry>
    /** The rows of the block under construction. */
    ghost var open: seq<Row>

    ghost predicate Parts()
    {
      data_block != index_block && interval >= 1 && data_block.interval == interval && index_block.interval == 1 &&
      (filter_block == null <==> policy.None?) && (filter_block != null ==> filter_block.policy == policy.value)
    }

    /** What the file and the block builders hold. */
    ghost predicate Written()
      reads this, data_block, index_block
    {
      offset == |file| && HoldsBlocks(file, blocks) &&
      data_block.Valid() && data_block.es == RowKVs(open) &&
      index_block.Valid() && index_block.es == IndexKVs(index)
    }

    ghost predicate Valid()
      reads this, data_block, index_block, filter_block
    {
      Parts() && Written() && RowsOk(rows, blocks, open, last_key) && OffsetsBelow(blocks, offset) &&
      IndexOk(blocks, index, open, pending_index_entry) &&
      (pending_index_entry ==> pending_handle == blocks[|blocks| - 1].handle) &&
      FilterOk(filter_block, blocks, open, offset)
    }

    constructor (policy: Option<Policy>, block_size: nat, interval: nat)
      requires interval >= 1
      ensures Valid() && rows == [] && file == [] && this.policy == policy
      ensures this.block_size == block_size && blocks == [] && open == []
      ensures fresh(data_block) && fresh(index_block) && (filter_block != null ==> fresh(filter_block))
    {
      hide BlockBuilder.Valid, FilterBlockBuilder.Valid, RowsOk, HoldsBlocks, IndexOk, OffsetsBelow;
      this.policy, this.block_size, this.interval := policy, block_size, interval;
      data_block := new BlockBuilder(interval);
      index_block := new BlockBuilder(1);
      if policy.Some? {
        var filters := new FilterBlockBuilder(policy.value);
        filter_block := filters;
      } else {
        filter_block := null;
      }
      file, offset, last_key := [], 0, InternalKey([], 0);
      pending_index_entry, pending_handle := false, Handle(0, 0);
      rows, blocks, index, open := [], [], [], [];
      new;
      NothingYet(last_key);
      if filter_block != null {
        filter_block.StartBlock(0);
      }
    }

    /** TableBuilder::Add.  A block is closed as soon as its size reaches `block_size`, and not before. */
    method Add(row: Row)
      requires Valid() && SortedRows(rows + [row]) && row.key.pack < WORD64
      modifies this, data_block, index_block, filter_block
      ensures Valid() && rows == old(rows) + [row]
      ensures
        if open == [] then
          |blocks| == |old(blocks)| + 1 && blocks[..|old(blocks)|] == old(blocks) &&
          blocks[|old(blocks)|].rows == old(open) + [row] && blocks[|old(blocks)|].handle.size >= block_size
        else
          blocks == old(blocks) && open == old(open) + [row] &&
          |data_block.buffer| + 4 * |data_block.restarts| + 4 < block_size
    {
      hide IndexOk, FilterOk, OffsetsBelow, SortedRows, AllRows, HoldsBlocks, BlockBuilder.Valid, EncodeKey, EncodeHandle, RowKVs, IndexKVs, RowsOk;
      SettleIndex(row);
      AddToFilter(row);
      RowAdded(rows, blocks, open, last_key, row);
      last_key := row.key;
      rows := rows + [row];
      data_block.Add(EncodeKey(row.key), row.value);
      RowKVsGrow(open, row);
      open := open + [row];
      if data_block.CurrentSizeEstimate() >= block_size {
        Flush();
      }
    }

    /** The index entry of the last block, now that the first key after it is known. */
    method SettleIndex(row: Row)
      requires Parts() && index_block.Valid() && index_block.es == IndexKVs(index) && RowsOk(rows, blocks, open, last_key)
      requires IndexOk(blocks, index, open, pending_index_entry)
      requires pending_index_entry ==> pending_handle == blocks[|blocks| - 1].handle
      modifies index_block, this`index, this`pending_index_entry
      ensures index_block.Valid() && index_block.es == IndexKVs(index)
      ensures !pending_index_entry && IndexOk(blocks, index, open + [row], false)
    {
      hide IndexOk, BlockBuilder.Valid, IndexKVs, RowsOk;
      if pending_index_entry {
        LastIsLast(rows, blocks, open, last_key, index);
        var sep := FindKeySeparator(last_key, row.key);
        IndexGrows(blocks, index, open, sep, pending_handle, row);
        AddIndexEntry(sep);
        pending_index_entry := false;
      } else {
        IndexStays(blocks, index, open, row);
      }
    }

    method AddIndexEntry(key: InternalKey)
      requires index_block.Valid() && index_block.es == IndexKVs(index)
      modifies index_block, this`index
      ensures index_block.Valid() && index == old(index) + [IndexEntry(key, pending_handle)]
      ensures index_block.es == IndexKVs(index)
    {
      hide BlockBuilder.Valid;
      index_block.Add(EncodeKey(key), EncodeHandle(pending_handle));
      index := index + [IndexEntry(key, pending_handle)];
    }

    method AddToFilter(row: Row)
      requires FilterOk(filter_block, blocks, open, offset)
      modifies filter_block
      ensures FilterOk(filter_block, blocks, open + [row], offset)
    {
      hide FilterBlockBuilder.Valid;
      if filter_block != null {
        filter_block.AddKey(row.key.user);
      }
    }

    /** WriteRawBlock: contents and trailer at the end of the file. */
    method WriteRawBlock(data: Bytes) returns (h: Handle)
      requires offset == |file|
      modifies this`file, this`offset
      ensures offset == |file| && h == Handle(|old(file)|, |data|) && Stored(file, h, data)
      ensures file == old(file) + (data + Trailer(data))
    {
      hide Extend, Crc.Value, Mask, Fixed;
      h := Handle(offset, |data|);
      StoredAtEnd(file, data);
      ghost var before := file;
      file := file + data;
      var crc := Extend(Crc.Value(data), [NO_COMPRESSION]);
      file := file + ([NO_COMPRESSION] + Fixed(4, Mask(crc) as nat));
      assert file == before + (data + Trailer(data));
      offset := offset + |data| + TRAILER_SIZE;
    }

    /** WriteBlock, without compression. */
    method WriteBlock(block: BlockBuilder) returns (h: Handle)
      requires offset == |file| && block.Valid() && block.interval >= 1
      modifies this`file, this`offset, block
      ensures offset == |file| && h.offset == |old(file)| < |file| && HoldsBlock(file, h, old(block.es))
      ensures block.Valid() && block.es == []
      ensures Grows(old(file), file)
      ensures h.size == old(|block.buffer| + 4 * |block.restarts| + 4)
    {
      hide BlockBuilder.Valid, IsBlock, Stored, Trailer;
      var raw := block.Finish();
      assert BlockOf(raw, block.es);
      h := WriteRawBlock(raw);
      block.Reset();
    }

    /** Flush: the open block goes to the file. */
    method Flush()
      requires Valid()
      modifies this, data_block, filter_block
      ensures Valid() && rows == old(rows) && open == []
      ensures pending_index_entry <==> blocks != []
      ensures old(open) == [] ==> blocks == old(blocks)
      ensures old(open) != [] ==>
        |blocks| == |old(blocks)| + 1 && blocks[..|old(blocks)|] == old(blocks) && blocks[|old(blocks)|].rows == old(open) &&
        blocks[|old(blocks)|].handle.size == old(|data_block.buffer| + 4 * |data_block.restarts| + 4)
    {
      hide IndexOk, FilterOk, OffsetsBelow, SortedRows, AllRows, HoldsBlocks, HoldsBlock, BlockBuilder.Valid;
      var empty := data_block.Empty();
      if empty {
        NothingOpen(blocks, index, open, pending_index_entry);
        return;
      }
      assert !pending_index_entry by { PendingIsEmpty(blocks, index, open, pending_index_entry); }
      ghost var start, before := offset, file;
      pending_handle := WriteBlock(data_block);
      ghost var block := DataBlock(pending_handle, open);
      BlockClosed(blocks, index, block, offset);
      RowsClosed(rows, blocks, block);
      BlockHeld(before, file, blocks, block);
      if filter_block != null {
        StartBlock(block, start);
      } else {
        NoFilter(blocks + [block], offset);
      }
      blocks, open := blocks + [block], [];
      pending_index_entry := true;
    }

    method StartBlock(ghost block: DataBlock, ghost start: nat)
      requires filter_block != null && FilterOk(filter_block, blocks, block.rows, start) && block.handle.offset == start <= offset
      modifies filter_block
      ensures FilterOk(filter_block, blocks + [block], [], offset)
    {
      hide FilterBlockBuilder.Valid;
      assert start / BASE <= offset / BASE;
      filter_block.StartBlock(offset);
    }

    /** The filters of all blocks, after the last one. */
    method FinishFilter() returns (filter: Bytes, h: Handle)
      requires Parts() && policy.Some? && NoFalseNegatives(policy.value)
      requires offset == |file| && FilterOk(filter_block, blocks, open, offset)
      modifies filter_block, this`file, this`offset
      ensures offset == |file| && Grows(old(file), file)
      ensures Stored(file, h, filter) && (|filter| < WORD32 ==> Filtered(policy.value, filter, blocks))
    {
      hide FilterBlockBuilder.Valid, KeyMayMatch, NoFalseNegatives, Stored, Trailer;
      filter := filter_block.Finish();
      h := WriteRawBlock(filter);
    }

    /** The metaindex block: under which name the filters lie where. */
    method WriteMetaindex(h: Handle) returns (m: Handle)
      requires interval >= 1 && offset == |file|
      modifies this`file, this`offset
      ensures offset == |file| && Grows(old(file), file)
      ensures HoldsBlock(file, m, MetaKVs(policy, h))
    {
      hide HoldsBlock, BlockBuilder.Valid, EncodeHandle;
      var meta_index_block := new BlockBuilder(interval);
      if policy.Some? {
        meta_index_block.Add(FILTER_PREFIX + policy.value.name, EncodeHandle(h));
      }
      assert meta_index_block.es == MetaKVs(policy, h);
      m := WriteBlock(meta_index_block);
    }

    /** The index block, with its last entry, a successor of the last key. */
    method WriteIndex() returns (x: Handle)
      requires Parts() && offset == |file| && index_block.Valid() && index_block.es == IndexKVs(index)
      requires RowsOk(rows, blocks, open, last_key) && open == []
      requires IndexOk(blocks, index, open, pending_index_entry) && (pending_index_entry <==> blocks != [])
      requires pending_index_entry ==> pending_handle == blocks[|blocks| - 1].handle
      modifies this`file, this`offset, this`index, this`pending_index_entry, index_block
      ensures offset == |file| && Grows(old(file), file)
      ensures BlocksOk(blocks) && Indexed(blocks, index, |blocks|) && HoldsBlock(file, x, IndexKVs(index))
    {
      hide HoldsBlock, HoldsBlocks, BlockBuilder.Valid, IndexKVs, RowsOk, AllRows;
      if pending_index_entry {
        LastIsLast(rows, blocks, open, last_key, index);
        var sep := FindKeySuccessor(last_key);
        IndexComplete(blocks, index, sep, pending_handle);
        AddIndexEntry(sep);
        pending_index_entry := false;
      }
      x := WriteBlock(index_block);
    }

    method WriteFooter(footer: Footer)
      requires offset == |file|
      modifies this`file, this`offset
      ensures offset == |file| && file == old(file) + EncodeFooter(footer)
    {
      hide EncodeFooter;
      file := file + EncodeFooter(footer);
      offset := |file|;
    }

    /** Finish: flush the last block, then filters, metaindex, index and footer. */
    method Finish() returns (ghost t: Layout)
      requires Valid() && (policy.Some? ==> NoFalseNegatives(policy.value))
      modifies this, data_block, index_block, filter_block
      ensures |file| < WORD32 ==> IsTableFile(file, t, policy, old(rows))
      ensures old(blocks) <= t.blocks && |t.blocks| <= |old(blocks)| + 1
    {
      hide IndexOk, FilterOk, OffsetsBelow, RowsOk, HoldsBlocks, HoldsBlock, BlockBuilder.Valid, NoFalseNegatives, Stored,
        MetaKVs, IndexKVs, Filtered, Indexed, BlocksOk, EncodeFooter, IsTableFile;
      Flush();
      ghost var file0 := file;
      var filter, filter_handle := [], Handle(0, 0);
      if policy.Some? {
        filter, filter_handle := FinishFilter();
      } else {
        assert Grows(file0, file) by { assert file == file0 + []; }
      }
      ghost var file1 := file;
      var metaindex_handle := WriteMetaindex(filter_handle);
      ghost var file2 := file;
      var index_handle := WriteIndex();
      ghost var file3 := file;
      var footer := Footer(metaindex_handle, index_handle);
      WriteFooter(footer);
      t := Layout(blocks, index, filter, filter_handle, footer);
      FileComplete(file0, file1, file2, file3, file, t, policy, rows, last_key);
    }
  }

  /** BuildTable (db/builder.cc): add every row, then finish. */
  method BuildTable(rows: seq<Row>, policy: Option<Policy>, block_size: nat, interval: nat) returns (file: Bytes, ghost t: Layout)
    requires SortedRows(rows) && KeysFit(rows) && interval >= 1 && (policy.Some? ==> NoFalseNegatives(policy.value))
    ensures |file| < WORD32 ==> IsTableFile(file, t, policy, rows)
    ensures |file| < WORD32 ==> exists layout :: IsTableFile(file, layout, policy, rows)
    ensures forall i :: 0 <= i < |t.blocks| - 1 ==> t.blocks[i].handle.size >= block_size
  {
    hide NoFalseNegatives, IsTableFile, SortedRows, TableBuilder.Valid;
    var builder := new TableBuilder(policy, block_size, interval);
    for i := 0 to |rows|
      invariant builder.Valid() && fresh(builder) && fresh(builder.data_block) && fresh(builder.index_block)
      invariant builder.filter_block != null ==> fresh(builder.filter_block)
      invariant builder.policy == policy && builder.rows == rows[..i] && builder.block_size == block_size
      invariant forall i :: 0 <= i < |builder.blocks| ==> builder.blocks[i].handle.size >= block_size
    {
      assert rows[..i + 1] == rows[..i] + [rows[i]];
      SortedPrefix(rows, i + 1);
      builder.Add(rows[i]);
    }
    assert rows[..|rows|] == rows;
    t := builder.Finish();
    file := builder.file;
  }

  lemma SortedPrefix(rows: seq<Row>, n: nat)
    requires SortedRows(rows) && n <= |rows|
    ensures SortedRows(rows[..n])
  {
    hide KeyLess;
  }

  ghost predicate Grows(a: Bytes, b: Bytes) {
    exists more :: b == a + more
  }

  lemma GrowsOn(a: Bytes, b: Bytes, c: Bytes)
    requires Grows(a, b) && Grows(b, c)
    ensures Grows(a, c)
  {
    var x :| b == a + x;
    var y :| c == b + y;
    assert c == a + (x + y);
  }

  lemma NothingYet(last_key: InternalKey)
    ensures RowsOk([], [], [], last_key) && HoldsBlocks([], []) && IndexOk([], [], [], false) && OffsetsBelow([], 0)
    ensures RowKVs([]) == [] && IndexKVs([]) == []
  {
  }

  lemma NoFilter(blocks: seq<DataBlock>, offset: nat)
    ensures FilterOk(null, blocks, [], offset)
  {
  }

  lemma BlockHeld(before: Bytes, file: Bytes, blocks: seq<DataBlock>, block: DataBlock)
    requires HoldsBlocks(before, blocks) && Grows(before, file)
    requires HoldsBlock(file, block.handle, RowKVs(block.rows))
    ensures HoldsBlocks(file, blocks + [block])
  {
    hide HoldsBlock;
    var more :| file == before + more;
    BlocksStay(before, more, blocks);
  }

  lemma RowAdded(rows: seq<Row>, blocks: seq<DataBlock>, open: seq<Row>, last_key: InternalKey, row: Row)
    requires RowsOk(rows, blocks, open, last_key) && SortedRows(rows + [row]) && row.key.pack < WORD64
    ensures RowsOk(rows + [row], blocks, open + [row], row.key)
  {
    hide AllRows, SortedRows;
    assert rows + [row] == AllRows(blocks) + (open + [row]);
  }

  lemma RowKVsGrow(open: seq<Row>, row: Row)
    ensures RowKVs(open + [row]) == RowKVs(open) + [KV(EncodeKey(row.key), row.value)]
  {
    hide EncodeKey;
  }

  lemma StoredLater(a: Bytes, b: Bytes, h: Handle, data: Bytes)
    requires Stored(a, h, data) && Grows(a, b)
    ensures Stored(b, h, data)
  {
    hide Stored;
    var more :| b == a + more;
    StoredStays(a, more, h, data);
  }

  lemma HeldLater(a: Bytes, b: Bytes, h: Handle, es: seq<KV>)
    requires HoldsBlock(a, h, es) && Grows(a, b)
    ensures HoldsBlock(b, h, es)
  {
    hide HoldsBlock;
    var more :| b == a + more;
    HoldsStays(a, more, h, es);
  }

  lemma AllHeldLater(a: Bytes, b: Bytes, blocks: seq<DataBlock>)
    requires HoldsBlocks(a, blocks) && Grows(a, b)
    ensures HoldsBlocks(b, blocks)
  {
    hide HoldsBlocks;
    var more :| b == a + more;
    BlocksStay(a, more, blocks);
  }

  lemma HeldFits(file: Bytes, h: Handle, es: seq<KV>)
    requires HoldsBlock(file, h, es) && |file| < WORD32
    ensures HandleFits(h)
  {
    hide Trailer, BlockOf;
  }

  /** What was written at the various stages is still there in the finished file. */
  lemma FileComplete(file0: Bytes, file1: Bytes, file2: Bytes, file3: Bytes, file: Bytes, t: Layout, policy: Option<Policy>,
                     rows: seq<Row>, last_key: InternalKey)
    requires RowsOk(rows, t.blocks, [], last_key) && HoldsBlocks(file0, t.blocks)
    requires BlocksOk(t.blocks) && Indexed(t.blocks, t.index, |t.blocks|)
    requires Grows(file0, file1) && Grows(file1, file2) && Grows(file2, file3) && file == file3 + EncodeFooter(t.footer)
    requires policy.Some? ==>
      Stored(file1, t.filter_handle, t.filter) && (|t.filter| < WORD32 ==> Filtered(policy.value, t.filter, t.blocks))
    requires HoldsBlock(file2, t.footer.metaindex, MetaKVs(policy, t.filter_handle))
    requires HoldsBlock(file3, t.footer.index, IndexKVs(t.index))
    ensures |file| < WORD32 ==> IsTableFile(file, t, policy, rows)
  {
    hide SortedRows, AllRows, HoldsBlocks, HoldsBlock, MetaKVs, IndexKVs, Filtered, Indexed, BlocksOk, EncodeFooter, DecodeFooter, KeysFit;
    assert Grows(file3, file);
    GrowsOn(file2, file3, file);
    GrowsOn(file1, file2, file);
    GrowsOn(file0, file1, file);
    AllHeldLater(file0, file, t.blocks);
    HeldLater(file2, file, t.footer.metaindex, MetaKVs(policy, t.filter_handle));
    HeldLater(file3, file, t.footer.index, IndexKVs(t.index));
    if policy.Some? {
      StoredLater(file1, file, t.filter_handle, t.filter);
    }
    if |file| < WORD32 {
      HeldFits(file, t.footer.metaindex, MetaKVs(policy, t.filter_handle));
      HeldFits(file, t.footer.index, IndexKVs(t.index));
      FooterRoundTrip(t.footer);
      assert file[|file| - FOOTER_LENGTH..] == EncodeFooter(t.footer);
      assert AllRows(t.blocks) + [] == AllRows(t.blocks);
    }
  }

  lemma LastIsLast(rows: seq<Row>, blocks: seq<DataBlock>, open: seq<Row>, last_key: InternalKey, index: seq<IndexEntry>)
    requires RowsOk(rows, blocks, open, last_key) && IndexOk(blocks, index, open, true)
    ensures blocks != [] && blocks[|blocks| - 1].rows != [] && last_key == LastKey(blocks[|blocks| - 1])
  {
    var b := blocks[|blocks| - 1].rows;
    assert rows[|rows| - 1] == b[|b| - 1];
  }

  lemma IndexGrows(blocks: seq<DataBlock>, index: seq<IndexEntry>, open: seq<Row>, sep: InternalKey, handle: Handle, row: Row)
    requires IndexOk(blocks, index, open, true) && handle == blocks[|blocks| - 1].handle
    requires Separates(sep, LastKey(blocks[|blocks| - 1]), row.key)
    ensures IndexOk(blocks, index + [IndexEntry(sep, handle)], open + [row], false)
  {
    var more, later := index + [IndexEntry(sep, handle)], open + [row];
    forall i | 0 <= i < |more|
      ensures EntryOk(blocks, more[i], later, i)
    {
      assert i < |index| ==> EntryOk(blocks, index[i], open, i);
    }
  }

  lemma IndexStays(blocks: seq<DataBlock>, index: seq<IndexEntry>, open: seq<Row>, row: Row)
    requires IndexOk(blocks, index, open, false)
    ensures IndexOk(blocks, index, open + [row], false)
  {
    forall i | 0 <= i < |index|
      ensures EntryOk(blocks, index[i], open + [row], i)
    {
      assert EntryOk(blocks, index[i], open, i);
    }
  }

  lemma NothingOpen(blocks: seq<DataBlock>, index: seq<IndexEntry>, open: seq<Row>, pending: bool)
    requires IndexOk(blocks, index, open, pending) && open == []
    ensures pending <==> blocks != []
  {
  }

  lemma PendingIsEmpty(blocks: seq<DataBlock>, index: seq<IndexEntry>, open: seq<Row>, pending: bool)
    requires IndexOk(blocks, index, open, pending)
    ensures pending ==> open == []
  {
  }

  lemma BlockClosed(blocks: seq<DataBlock>, index: seq<IndexEntry>, block: DataBlock, offset: nat)
    requires IndexOk(blocks, index, block.rows, false) && OffsetsBelow(blocks, block.handle.offset)
    requires block.rows != [] && block.handle.offset < offset
    ensures IndexOk(blocks + [block], index, [], true) && OffsetsBelow(blocks + [block], offset)
  {
    var more := blocks + [block];
    assert BlocksOk(more);
    forall i | 0 <= i < |index|
      ensures EntryOk(more, index[i], [], i)
    {
      assert EntryOk(blocks, index[i], block.rows, i);
    }
  }

  lemma RowsClosed(rows: seq<Row>, blocks: seq<DataBlock>, block: DataBlock)
    requires rows == AllRows(blocks) + block.rows
    ensures rows == AllRows(blocks + [block]) + []
  {
    assert (blocks + [block])[..|blocks|] == blocks;
  }

  lemma IndexComplete(blocks: seq<DataBlock>, index: seq<IndexEntry>, sep: InternalKey, handle: Handle)
    requires IndexOk(blocks, index, [], true) && handle == blocks[|blocks| - 1].handle
    requires Succeeds(sep, LastKey(blocks[|blocks| - 1]))
    ensures Indexed(blocks, index + [IndexEntry(sep, handle)], |blocks|)
  {
    var more := index + [IndexEntry(sep, handle)];
    forall i | 0 <= i < |more|
      ensures EntryOf(blocks, more[i], i)
    {
      assert i < |index| ==> EntryOk(blocks, index[i], [], i);
    }
  }
}
