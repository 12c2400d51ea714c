/** Reading a table file: opening it, looking up a key (table/table.cc). */
module TableReader {
  import opened DbFormat
  import opened Coding
  import opened Comparator
  import opened Format
  import opened Filter
  import opened Block
  import opened BlockIter
  import opened Table
  import opened TableBuilder

  // ---------------------------------------------------------------- keys and their bytes

  ghost predicate Encoded(es: seq<KV>, keys: seq<InternalKey>) {
    |es| == |keys| && forall i :: 0 <= i < |es| ==> es[i].key == EncodeKey(keys[i]) && keys[i].pack < WORD64
  }

  lemma EncodedOrder(a: InternalKey, b: InternalKey)
    requires a.pack < WORD64 && b.pack < WORD64
    ensures EncodedLess(EncodeKey(a), EncodeKey(b)) <==> KeyLess(a, b)
  {
    hide EncodeKey, ParseKey, KeyLess;
    KeyRoundTrip(a);
    KeyRoundTrip(b);
  }

  lemma EncodedTransitive()
    ensures Transitive(EncodedLess)
  {
    hide KeyLess, ParseKey;
    forall a, b, c | EncodedLess(a, b) && EncodedLess(b, c)
      ensures EncodedLess(a, c)
    {
      KeyTransitive(ParseKey(a), ParseKey(b), ParseKey(c));
    }
  }

  lemma EncodedIncreasing(es: seq<KV>, keys: seq<InternalKey>)
    requires Encoded(es, keys) && forall i, j :: 0 <= i < j < |keys| ==> KeyLess(keys[i], keys[j])
    ensures Increasing(EncodedLess, es)
  {
    hide EncodeKey, EncodedLess, KeyLess;
    forall i, j | 0 <= i < j < |es|
      ensures EncodedLess(es[i].key, es[j].key)
    {
      EncodedOrder(keys[i], keys[j]);
    }
  }

  /** Seeking among the bytes is seeking among the keys. */
  lemma EncodedSeek(es: seq<KV>, keys: seq<InternalKey>, k: InternalKey, at: nat)
    requires Encoded(es, keys) && k.pack < WORD64 && IsSeek(EncodedLess, es, EncodeKey(k), at)
    ensures at == SeekKey(keys, k)
  {
    hide EncodeKey, EncodedLess, KeyLess, SeekKey;
    forall j | 0 <= j < at
      ensures KeyLess(keys[j], k)
    {
      EncodedOrder(keys[j], k);
    }
    if at < |keys| {
      EncodedOrder(keys[at], k);
    }
    SeekIs(keys, k, at);
  }

  lemma {:induction false} BlockKeysFit(blocks: seq<DataBlock>, b: nat, j: nat)
    requires KeysFit(AllRows(blocks)) && b < |blocks| && j < |blocks[b].rows|
    ensures blocks[b].rows[j].key.pack < WORD64
  {
    RowInBlock(blocks, blocks[b].rows[j]);
    assert blocks[b].rows[j] in blocks[b].rows;
  }

  lemma RowsEncoded(t: Layout, rows: seq<Row>, b: nat)
    requires IsTable(t, rows) && KeysFit(rows) && b < |t.blocks|
    ensures Encoded(RowKVs(t.blocks[b].rows), RowKeys(t.blocks[b].rows))
    ensures Increasing(EncodedLess, RowKVs(t.blocks[b].rows))
  {
    hide EncodeKey, KeyLess, EncodedLess, AllRows, SortedRows, BlocksOk, Indexed;
    var block := t.blocks[b].rows;
    forall i | 0 <= i < |block|
      ensures block[i].key.pack < WORD64
    {
      BlockKeysFit(t.blocks, b, i);
    }
    forall i, j | 0 <= i < j < |block|
      ensures KeyLess(block[i].key, block[j].key)
    {
      BlockOrder(t.blocks, b, i, b, j);
    }
    EncodedIncreasing(RowKVs(block), RowKeys(block));
  }

  lemma IndexEncoded(t: Layout, rows: seq<Row>)
    requires IsTable(t, rows) && KeysFit(rows)
    ensures Encoded(IndexKVs(t.index), IndexKeys(t)) && Increasing(EncodedLess, IndexKVs(t.index))
  {
    hide EncodeKey, EncodeHandle, KeyLess, EncodedLess, AllRows, SortedRows, BytesLess;
    forall i | 0 <= i < |t.index|
      ensures t.index[i].key.pack < WORD64
    {
      assert EntryOf(t.blocks, t.index[i], i);
      BlockKeysFit(t.blocks, i, |t.blocks[i].rows| - 1);
    }
    forall i, j | 0 <= i < j < |t.index|
      ensures KeyLess(t.index[i].key, t.index[j].key)
    {
      SeparatorsIncrease(t, rows, i, j);
    }
    EncodedIncreasing(IndexKVs(t.index), IndexKeys(t));
  }

  // ---------------------------------------------------------------- the open table

  /** The contents of a block of a file that fits. */
  lemma HeldBlock(file: Bytes, h: Handle, es: seq<KV>) returns (data: Bytes, points: seq<nat>)
    requires HoldsBlock(file, h, es) && |file| < WORD32
    ensures Stored(file, h, data) && IsBlock(data, es, points) && HandleFits(h)
  {
    hide IsBlock, Trailer;
    data :| Stored(file, h, data) && BlockOf(data, es);
    points :| IsBlock(data, es, points);
  }

  /** BlockReader: an iterator over the block that an index value names. */
  method BlockReader(file: Bytes, index_value: Bytes, verify: bool, ghost block: DataBlock) returns (iter: Iter)
    requires |file| < WORD32 && HoldsBlock(file, block.handle, RowKVs(block.rows)) && index_value == EncodeHandle(block.handle)
    ensures fresh(iter) && iter.Valid() && iter.es == RowKVs(block.rows) && iter.less == EncodedLess
  {
    hide IsBlock, Stored, EncodeHandle, DecodeHandle, HoldsBlock, RowKVs, ReadBlock;
    ghost var contents, places := HeldBlock(file, block.handle, RowKVs(block.rows));
    HandleRoundTrip(block.handle, []);
    assert index_value + [] == index_value;
    StoredReads(file, block.handle, contents, verify);
    var handle := DecodeHandle(index_value);
    var data := ReadBlock(file, handle.value, verify);
    iter := new Iter(EncodedLess, data.value, RowKVs(block.rows), places);
  }

  /** A policy is known by its name. */
  ghost predicate NamesAgree(policy: Option<Policy>, built: Option<Policy>) {
    policy.Some? && built.Some? && policy.value.name == built.value.name ==> policy == built
  }

  predicate SameName(policy: Option<Policy>, built: Option<Policy>) {
    policy.Some? && built.Some? && policy.value.name == built.value.name
  }

  class TableReader {
    const file: Bytes
    const policy: Option<Policy>
    const index_block: Bytes
    /** The filters, if the reader's policy wrote them. */
    const filter: Option<Bytes>
    ghost const t: Layout
    ghost const built: Option<Policy>
    ghost const rows: seq<Row>
    ghost const points: seq<nat>

    ghost predicate Valid()
    {
      IsTableFile(file, t, built, rows) && NamesAgree(policy, built) &&
      IsBlock(index_block, IndexKVs(t.index), points) &&
      filter == if SameName(policy, built) then Some(t.filter) else None
    }

    constructor (file: Bytes, policy: Option<Policy>, index_block: Bytes, filter: Option<Bytes>,
                 ghost t: Layout, ghost built: Option<Policy>, ghost rows: seq<Row>, ghost points: seq<nat>)
      requires IsTableFile(file, t, built, rows) && NamesAgree(policy, built)
      requires IsBlock(index_block, IndexKVs(t.index), points)
      requires filter == if SameName(policy, built) then Some(t.filter) else None
      ensures Valid() && this.t == t && this.rows == rows && this.policy == policy && this.built == built
    {
      this.file, this.policy, this.index_block, this.filter := file, policy, index_block, filter;
      this.t, this.built, this.rows, this.points := t, built, rows, points;
    }

    /** Table::InternalGet: the row handed to the saver.  A data block is read only if the index leads
        to one and the filter, when there is one, does not rule the key out. */
    method InternalGet(k: InternalKey, verify: bool) returns (r: Option<Row>, read: bool)
      requires Valid() && k.pack < WORD64
      ensures |t.index| == |t.blocks|
      ensures r == Table.InternalGet(t, if filter.Some? then policy else None, k)
      ensures IsAnswer(rows, k, r)
      ensures var b := SeekKey(IndexKeys(t), k);
        read <==> (b < |t.blocks| &&
          (filter.Some? ==> KeyMayMatch(policy.value, filter.value, t.blocks[b].handle.offset, k.user)))
      ensures !read ==> r.None?
    {
      hide IsBlock, EncodeHandle, DecodeHandle, EncodedLess, KeyMayMatch, SeekKey, IsAnswer, HoldsBlock;
      assert IsTable(t, rows);
      if filter.Some? {
        FilterAdmits();
      }
      InternalGetIsNewest(t, if filter.Some? then policy else None, rows, k);
      IndexEncoded(t, rows);
      EncodedTransitive();
      var iiter := new Iter(EncodedLess, index_block, IndexKVs(t.index), points);
      iiter.Seek(EncodeKey(k));
      EncodedSeek(IndexKVs(t.index), IndexKeys(t), k, iiter.at);
      iiter.ValidMeans();
      r, read := None, false;
      if iiter.IsValid() {
        var handle_value := iiter.Value();
        ghost var b := iiter.at;
        IndexHandle(b);
        var skip := false;
        if filter.Some? {
          var handle := DecodeHandle(handle_value);
          skip := handle.Parsed? && !KeyMayMatch(policy.value, filter.value, handle.value.offset, k.user);
        }
        if !skip {
          read := true;
          r := SeekInBlock(handle_value, verify, k, b);
        }
      }
    }

    lemma FilterAdmits()
      requires Valid() && filter.Some?
      ensures Filtered(policy.value, t.filter, t.blocks)
    {
    }

    /** What the index says of block `b`. */
    lemma IndexHandle(b: nat)
      requires Valid() && b < |t.blocks|
      ensures |t.index| == |t.blocks| && IndexKVs(t.index)[b].value == EncodeHandle(t.blocks[b].handle)
      ensures DecodeHandle(EncodeHandle(t.blocks[b].handle)) == Parsed(t.blocks[b].handle, [])
    {
      hide IsBlock, EncodeHandle, DecodeHandle, HoldsBlock, SortedRows, AllRows, EncodeKey;
      assert EntryOf(t.blocks, t.index[b], b);
      ghost var contents, places := HeldBlock(file, t.blocks[b].handle, RowKVs(t.blocks[b].rows));
      HandleRoundTrip(t.blocks[b].handle, []);
      assert EncodeHandle(t.blocks[b].handle) + [] == EncodeHandle(t.blocks[b].handle);
    }

    method SeekInBlock(index_value: Bytes, verify: bool, k: InternalKey, ghost b: nat) returns (r: Option<Row>)
      requires Valid() && k.pack < WORD64 && b < |t.blocks| && index_value == EncodeHandle(t.blocks[b].handle)
      ensures var block := t.blocks[b].rows;
        var j := SeekKey(RowKeys(block), k);
        r == if j < |block| then Some(block[j]) else None
    {
      hide IsBlock, EncodeHandle, EncodedLess, SeekKey, HoldsBlock;
      RowsEncoded(t, rows, b);
      EncodedTransitive();
      var block_iter := BlockReader(file, index_value, verify, t.blocks[b]);
      block_iter.Seek(EncodeKey(k));
      EncodedSeek(RowKVs(t.blocks[b].rows), RowKeys(t.blocks[b].rows), k, block_iter.at);
      block_iter.ValidMeans();
      r := None;
      if block_iter.IsValid() {
        var value := block_iter.Value();
        KeyRoundTrip(RowKeys(t.blocks[b].rows)[block_iter.at]);
        r := Some(Row(ParseKey(block_iter.key), value));
      }
    }
  }

  // ---------------------------------------------------------------- opening

  lemma BytesTransitiveAll()
    ensures Transitive(BytesLess)
  {
    forall a, b, c | BytesLess(a, b) && BytesLess(b, c)
      ensures BytesLess(a, c)
    {
      BytesTransitive(a, b, c);
    }
  }

  /** ReadMeta and ReadFilter: look the policy up in the metaindex by name. */
  method ReadMeta(file: Bytes, policy: Option<Policy>, footer: Footer, paranoid: bool,
                  ghost t: Layout, ghost built: Option<Policy>, ghost rows: seq<Row>)
    returns (filter: Option<Bytes>)
    requires IsTableFile(file, t, built, rows) && footer == t.footer && NamesAgree(policy, built)
    ensures filter == if SameName(policy, built) then Some(t.filter) else None
  {
    hide IsTable, IsBlock, Stored, EncodeHandle, DecodeHandle, HoldsBlock, ReadBlock, Filtered, BytesLess;
    filter := None;
    if policy.None? {
      return;
    }
    ghost var es := MetaKVs(built, t.filter_handle);
    ghost var contents, places := HeldBlock(file, footer.metaindex, es);
    StoredReads(file, footer.metaindex, contents, paranoid);
    var meta := ReadBlock(file, footer.metaindex, paranoid);
    if meta.None? {
      return;
    }
    var iter := new Iter(BytesLess, meta.value, es, places);
    var key := FILTER_PREFIX + policy.value.name;
    BytesTransitiveAll();
    iter.Seek(key);
    iter.ValidMeans();
    BytesTotal(key, key);
    NameFound(policy, built, t.filter_handle, iter.at);
    if iter.IsValid() && iter.key == key {
      var value := iter.Value();
      filter := ReadFilter(file, value, paranoid, t);
    }
  }

  /** Seeking the name in a metaindex of at most one entry. */
  lemma NameFound(policy: Option<Policy>, built: Option<Policy>, h: Handle, at: nat)
    requires policy.Some? && IsSeek(BytesLess, MetaKVs(built, h), FILTER_PREFIX + policy.value.name, at)
    ensures SameName(policy, built) <==> at < |MetaKVs(built, h)| && MetaKVs(built, h)[at].key == FILTER_PREFIX + policy.value.name
  {
    hide BytesLess;
    var key := FILTER_PREFIX + policy.value.name;
    BytesTotal(key, key);
    if built.Some? {
      var other := FILTER_PREFIX + built.value.name;
      assert key[7..] == policy.value.name && other[7..] == built.value.name;
      assert MetaKVs(built, h)[0].key == other;
      assert at == 1 ==> BytesLess(other, key);
      assert at == 0 ==> !BytesLess(other, key);
      assert other == key <==> SameName(policy, built);
    }
  }

  method ReadFilter(file: Bytes, value: Bytes, paranoid: bool, ghost t: Layout) returns (filter: Option<Bytes>)
    requires Stored(file, t.filter_handle, t.filter) && |file| < WORD32 && value == EncodeHandle(t.filter_handle)
    ensures filter == Some(t.filter)
  {
    hide EncodeHandle, DecodeHandle, ReadBlock, Trailer;
    HandleRoundTrip(t.filter_handle, []);
    assert value + [] == value;
    StoredReads(file, t.filter_handle, t.filter, paranoid);
    var handle := DecodeHandle(value);
    if handle.Failed? {
      return None;
    }
    filter := ReadBlock(file, handle.value, paranoid);
  }

  /** Long enough, and with the magic number and two handles at the end. */
  predicate HasFooter(file: Bytes) {
    |file| >= FOOTER_LENGTH && DecodeFooter(file[|file| - FOOTER_LENGTH..]).Some?
  }

  /** Table::Open: footer, index block, filters. */
  method Open(file: Bytes, policy: Option<Policy>, paranoid: bool,
              ghost t: Layout, ghost built: Option<Policy>, ghost rows: seq<Row>)
    returns (table: TableReader?)
    requires HasFooter(file) ==> IsTableFile(file, t, built, rows) && NamesAgree(policy, built)
    ensures table != null <==> HasFooter(file)
    ensures table != null ==> fresh(table) && table.Valid() && table.rows == rows
  {
    hide IsTable, IsBlock, Stored, DecodeFooter, HoldsBlock, ReadBlock, Filtered;
    if |file| < FOOTER_LENGTH {
      return null;
    }
    var footer := DecodeFooter(file[|file| - FOOTER_LENGTH..]);
    if footer.None? {
      return null;
    }
    ghost var contents, places := HeldBlock(file, t.footer.index, IndexKVs(t.index));
    StoredReads(file, t.footer.index, contents, paranoid);
    var index_block := ReadBlock(file, footer.value.index, paranoid);
    if index_block.None? {
      return null;
    }
    var filter := ReadMeta(file, policy, footer.value, paranoid, t, built, rows);
    table := new TableReader(file, policy, index_block.value, filter, t, built, rows, places);
  }

  lemma FileHasFooter(file: Bytes, t: Layout, built: Option<Policy>, rows: seq<Row>)
    requires IsTableFile(file, t, built, rows)
    ensures HasFooter(file)
  {
    hide IsTable, HoldsBlock, DecodeFooter;
  }

  /** A table written for rows in order, for every block size and restart interval, with or without
      filters, and read back from its bytes, with or without filters and checksums: every lookup is
      answered with the newest row at or below the sought sequence number. */
  method BuildAndGet(rows: seq<Row>, built: Option<Policy>, block_size: nat, interval: nat, policy: Option<Policy>,
                     paranoid: bool, verify: bool, k: InternalKey)
    returns (file: Bytes, r: Option<Row>)
    requires SortedRows(rows) && KeysFit(rows) && interval >= 1 && k.pack < WORD64
    requires (built.Some? ==> NoFalseNegatives(built.value)) && NamesAgree(policy, built)
    ensures |file| < WORD32 ==> IsAnswer(rows, k, r)
  {
    hide NoFalseNegatives, IsTableFile, IsAnswer;
    ghost var t;
    file, t := BuildTable(rows, built, block_size, interval);
    r := None;
    if |file| < WORD32 {
      FileHasFooter(file, t, built, rows);
      var table := Open(file, policy, paranoid, t, built, rows);
      var read;
      r, read := table.InternalGet(k, verify);
    }
  }
}
