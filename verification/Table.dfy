/** What a table file holds: data blocks, an index of shortened separators, and filters
    (table/table_builder.cc, table/table.cc). */
module Table {
  import opened DbFormat
  import opened Coding
  import opened Comparator
  import opened Filter
  import opened Block
  import opened Format

  datatype Row = Row(key: InternalKey, value: Bytes)

  /** A data block and where it lies in the file. */
  datatype DataBlock = DataBlock(handle: Handle, rows: seq<Row>)

  datatype IndexEntry = IndexEntry(key: InternalKey, handle: Handle)

  /** What a table file is made of.  The index has an entry for every block. */
  datatype Layout = Layout(blocks: seq<DataBlock>, index: seq<IndexEntry>, filter: Bytes, filter_handle: Handle, footer: Footer)

  ghost predicate SortedRows(rows: seq<Row>) {
    forall i, j :: 0 <= i < j < |rows| ==> KeyLess(rows[i].key, rows[j].key)
  }

  function AllRows(blocks: seq<DataBlock>): seq<Row> {
    if blocks == [] then [] else AllRows(blocks[..|blocks| - 1]) + blocks[|blocks| - 1].rows
  }

  function FirstKey(b: DataBlock): InternalKey
    requires b.rows != []
  {
    b.rows[0].key
  }

  function LastKey(b: DataBlock): InternalKey
    requires b.rows != []
  {
    b.rows[|b.rows| - 1].key
  }

  ghost predicate BlocksOk(blocks: seq<DataBlock>) {
    (forall i :: 0 <= i < |blocks| ==> blocks[i].rows != []) &&
    (forall i, j :: 0 <= i < j < |blocks| ==> blocks[i].handle.offset < blocks[j].handle.offset)
  }

  /** The first `n` blocks have their index entries. */
  ghost predicate Indexed(blocks: seq<DataBlock>, index: seq<IndexEntry>, n: nat)
    requires BlocksOk(blocks)
  {
    |index| == n <= |blocks| && forall i :: 0 <= i < n ==> EntryOf(blocks, index[i], i)
  }

  /** The handle of the block, under a key that separates it from the next one. */
  ghost predicate EntryOf(blocks: seq<DataBlock>, entry: IndexEntry, i: nat)
    requires BlocksOk(blocks) && i < |blocks|
  {
    entry.handle == blocks[i].handle &&
    if i + 1 < |blocks| then
      Separates(entry.key, LastKey(blocks[i]), FirstKey(blocks[i + 1]))
    else
      Succeeds(entry.key, LastKey(blocks[i]))
  }

  /** The filter admits every key of every block, asked at the block's offset. */
  ghost predicate Filtered(policy: Policy, filter: Bytes, blocks: seq<DataBlock>) {
    forall i, j :: 0 <= i < |blocks| && 0 <= j < |blocks[i].rows| ==>
      KeyMayMatch(policy, filter, blocks[i].handle.offset, blocks[i].rows[j].key.user)
  }

  ghost predicate IsTable(t: Layout, rows: seq<Row>) {
    SortedRows(rows) && AllRows(t.blocks) == rows && BlocksOk(t.blocks) && Indexed(t.blocks, t.index, |t.blocks|)
  }

  // ---------------------------------------------------------------- looking up a key

  /** Iterator::Seek over sorted keys: the first that is not before `k`. */
  function SeekKey(keys: seq<InternalKey>, k: InternalKey): (i: nat)
    ensures i <= |keys| && (forall j :: 0 <= j < i ==> KeyLess(keys[j], k)) && (i < |keys| ==> !KeyLess(keys[i], k))
  {
    if keys == [] || !KeyLess(keys[0], k) then 0 else SeekKey(keys[1..], k) + 1
  }

  function IndexKeys(t: Layout): (r: seq<InternalKey>)
    ensures |r| == |t.index|
  {
    seq(|t.index|, i requires 0 <= i < |t.index| => t.index[i].key)
  }

  function RowKeys(rows: seq<Row>): (r: seq<InternalKey>)
    ensures |r| == |rows|
  {
    seq(|rows|, i requires 0 <= i < |rows| => rows[i].key)
  }

  /** Table::InternalGet on what the file holds: the row handed to the saver.  `policy` is none
      when the table is read without filters. */
  function InternalGet(t: Layout, policy: Option<Policy>, k: InternalKey): (r: Option<Row>)
    requires |t.index| == |t.blocks|
  {
    var i := SeekKey(IndexKeys(t), k);
    if i == |t.index| then
      None
    else if policy.Some? && !KeyMayMatch(policy.value, t.filter, t.blocks[i].handle.offset, k.user) then
      None
    else
      var rows := t.blocks[i].rows;
      var j := SeekKey(RowKeys(rows), k);
      if j < |rows| then Some(rows[j]) else None
  }

  /** A row of the sought user key, not newer than asked for. */
  ghost predicate Answers(row: Row, k: InternalKey) {
    row.key.user == k.user && row.key.pack <= k.pack
  }

  /** The newest such row. */
  ghost predicate Newest(rows: seq<Row>, k: InternalKey, row: Row) {
    row in rows && Answers(row, k) && forall x :: x in rows && Answers(x, k) ==> x.key.pack <= row.key.pack
  }

  // ---------------------------------------------------------------- where the answer is

  lemma {:induction false} RowInBlock(blocks: seq<DataBlock>, row: Row)
    ensures row in AllRows(blocks) <==> exists i :: 0 <= i < |blocks| && row in blocks[i].rows
  {
    if blocks != [] {
      var n := |blocks| - 1;
      RowInBlock(blocks[..n], row);
      if i :| 0 <= i < n && row in blocks[..n][i].rows {
        assert row in blocks[i].rows;
      }
      if i :| 0 <= i < |blocks| && row in blocks[i].rows {
        assert i < n ==> row in blocks[..n][i].rows;
      }
    }
  }

  /** Rows of earlier blocks come first. */
  lemma {:induction false} BlockOrder(blocks: seq<DataBlock>, i: nat, a: nat, j: nat, b: nat)
    requires SortedRows(AllRows(blocks)) && j < |blocks| && (i < j || (i == j && a < b))
    requires a < |blocks[i].rows| && b < |blocks[j].rows|
    ensures KeyLess(blocks[i].rows[a].key, blocks[j].rows[b].key)
    decreases |blocks|
  {
    var n := |blocks| - 1;
    var front, last := AllRows(blocks[..n]), blocks[n].rows;
    assert AllRows(blocks) == front + last;
    if j < n {
      assert SortedRows(front) by {
        forall x, y | 0 <= x < y < |front|
          ensures KeyLess(front[x].key, front[y].key)
        {
          assert (front + last)[x] == front[x] && (front + last)[y] == front[y];
        }
      }
      BlockOrder(blocks[..n], i, a, j, b);
    } else {
      assert (front + last)[|front| + b] == last[b];
      if i == n {
        assert (front + last)[|front| + a] == last[a];
      } else {
        RowInBlock(blocks[..n], blocks[i].rows[a]);
        assert blocks[..n][i] == blocks[i];
        assert blocks[i].rows[a] in front;
        var x :| 0 <= x < |front| && front[x] == blocks[i].rows[a];
        assert (front + last)[x] == front[x];
      }
    }
  }

  /** Seeking is determined by what it promises. */
  lemma SeekIs(keys: seq<InternalKey>, k: InternalKey, i: nat)
    requires i <= |keys| && (forall j :: 0 <= j < i ==> KeyLess(keys[j], k)) && (i < |keys| ==> !KeyLess(keys[i], k))
    ensures SeekKey(keys, k) == i
  {
  }

  /** Between a key and a row of the same user key there are only rows of that user key. */
  lemma SameUser(x: InternalKey, k: InternalKey, row: InternalKey)
    requires !KeyLess(x, k) && KeyAtMost(x, row) && row.user == k.user
    ensures x.user == k.user && x.pack <= k.pack
  {
    BytesTotal(x.user, k.user);
    BytesTotal(x.user, row.user);
    BytesTotal(k.user, k.user);
  }

  lemma AnswerNotBefore(row: Row, k: InternalKey)
    requires Answers(row, k)
    ensures !KeyLess(row.key, k)
  {
    BytesTotal(k.user, k.user);
  }

  /** `x` is the first row not before `k`, and it sits in block `b` at `j`. */
  ghost predicate Located(blocks: seq<DataBlock>, rows: seq<Row>, k: InternalKey, x: Row, b: nat, j: nat) {
    AllRows(blocks) == rows && SortedRows(rows) && b < |blocks| && j < |blocks[b].rows| && blocks[b].rows[j] == x &&
    Answers(x, k) && forall y :: y in rows && KeyLess(y.key, x.key) ==> KeyLess(y.key, k)
  }

  lemma Locate(blocks: seq<DataBlock>, rows: seq<Row>, k: InternalKey, row: Row) returns (x: Row, b: nat, j: nat)
    requires AllRows(blocks) == rows && SortedRows(rows) && row in rows && Answers(row, k)
    ensures Located(blocks, rows, k, x, b, j) && Newest(rows, k, x)
  {
    hide AllRows, BytesLess;
    var keys := RowKeys(rows);
    var i := SeekKey(keys, k);
    var m :| 0 <= m < |rows| && rows[m] == row;
    AnswerNotBefore(row, k);
    assert keys[m] == row.key;
    x := rows[i];
    assert !KeyLess(x.key, k);
    SameUser(x.key, k, row.key);
    forall y | y in rows && KeyLess(y.key, x.key)
      ensures KeyLess(y.key, k)
    {
      var n :| 0 <= n < |rows| && rows[n] == y;
      KeyTotal(y.key, x.key);
      assert n < i;
      assert keys[n] == y.key;
    }
    forall y | y in rows && Answers(y, k)
      ensures y.key.pack <= x.key.pack
    {
      var n :| 0 <= n < |rows| && rows[n] == y;
      AnswerNotBefore(y, k);
      assert keys[n] == y.key;
      BytesTotal(k.user, k.user);
    }
    RowInBlock(blocks, x);
    b :| 0 <= b < |blocks| && x in blocks[b].rows;
    j :| 0 <= j < |blocks[b].rows| && blocks[b].rows[j] == x;
  }

  /** Every row before the answer is before the sought key. */
  lemma RowsBefore(blocks: seq<DataBlock>, rows: seq<Row>, k: InternalKey, x: Row, b: nat, j: nat, i: nat, a: nat)
    requires Located(blocks, rows, k, x, b, j) && (i < b || (i == b && a < j)) && a < |blocks[i].rows|
    ensures KeyLess(blocks[i].rows[a].key, k)
  {
    hide AllRows, KeyLess;
    BlockOrder(blocks, i, a, b, j);
    RowInBlock(blocks, blocks[i].rows[a]);
    assert blocks[i].rows[a] in blocks[i].rows;
  }

  /** The separators of earlier blocks are before the sought key: a shortened one has a user key
      strictly between its neighbours'. */
  lemma SeparatorBefore(t: Layout, rows: seq<Row>, k: InternalKey, x: Row, b: nat, j: nat, i: nat)
    requires Located(t.blocks, rows, k, x, b, j) && BlocksOk(t.blocks) && Indexed(t.blocks, t.index, |t.blocks|) && i < b
    ensures KeyLess(t.index[i].key, k)
  {
    hide AllRows, BytesLess;
    var blocks, sep := t.blocks, t.index[i].key;
    RowsBefore(blocks, rows, k, x, b, j, i, |blocks[i].rows| - 1);
    assert blocks[i].rows[|blocks[i].rows| - 1].key == LastKey(blocks[i]);
    assert Separates(sep, LastKey(blocks[i]), FirstKey(blocks[i + 1]));
    if sep != LastKey(blocks[i]) {
      var first := FirstKey(blocks[i + 1]);
      if i + 1 < b || j > 0 {
        RowsBefore(blocks, rows, k, x, b, j, i + 1, 0);
        if BytesLess(first.user, k.user) {
          BytesTransitive(sep.user, first.user, k.user);
        }
      }
    }
  }

  lemma SeparatorAfter(t: Layout, rows: seq<Row>, k: InternalKey, x: Row, b: nat, j: nat)
    requires Located(t.blocks, rows, k, x, b, j) && BlocksOk(t.blocks) && Indexed(t.blocks, t.index, |t.blocks|)
    ensures !KeyLess(t.index[b].key, k)
  {
    hide AllRows, BytesLess;
    var blocks, sep := t.blocks, t.index[b].key;
    var last := LastKey(blocks[b]);
    var n := |blocks[b].rows| - 1;
    if j < n {
      BlockOrder(blocks, b, j, b, n);
    }
    assert KeyAtMost(x.key, last);
    assert EntryOf(blocks, t.index[b], b);
    NotBefore(k, x.key, last, sep);
  }

  lemma NotBefore(k: InternalKey, x: InternalKey, last: InternalKey, sep: InternalKey)
    requires x.user == k.user && x.pack <= k.pack && KeyAtMost(x, last) && (sep == last || BytesLess(last.user, sep.user))
    ensures !KeyLess(sep, k)
  {
    BytesTotal(k.user, k.user);
    BytesTotal(last.user, k.user);
    BytesTotal(sep.user, k.user);
    if BytesLess(last.user, sep.user) && BytesLess(k.user, last.user) {
      BytesTransitive(k.user, last.user, sep.user);
    }
  }

  lemma GetsLocated(t: Layout, policy: Option<Policy>, rows: seq<Row>, k: InternalKey, x: Row, b: nat, j: nat)
    requires IsTable(t, rows) && (policy.Some? ==> Filtered(policy.value, t.filter, t.blocks))
    requires Located(t.blocks, rows, k, x, b, j)
    ensures InternalGet(t, policy, k) == Some(x)
  {
    hide AllRows, BytesLess, KeyLess, Located, SeekKey, KeyMayMatch;
    LocatedMeans(t.blocks, rows, k, x, b, j);
    forall i | 0 <= i < b
      ensures KeyLess(IndexKeys(t)[i], k)
    {
      SeparatorBefore(t, rows, k, x, b, j, i);
    }
    SeparatorAfter(t, rows, k, x, b, j);
    SeekIs(IndexKeys(t), k, b);
    var keys := RowKeys(t.blocks[b].rows);
    forall a | 0 <= a < j
      ensures KeyLess(keys[a], k)
    {
      RowsBefore(t.blocks, rows, k, x, b, j, b, a);
    }
    SeekIs(keys, k, j);
    assert policy.Some? ==> KeyMayMatch(policy.value, t.filter, t.blocks[b].handle.offset, t.blocks[b].rows[j].key.user);
  }

  lemma LocatedMeans(blocks: seq<DataBlock>, rows: seq<Row>, k: InternalKey, x: Row, b: nat, j: nat)
    requires Located(blocks, rows, k, x, b, j)
    ensures b < |blocks| && j < |blocks[b].rows| && blocks[b].rows[j] == x && x.key.user == k.user && !KeyLess(x.key, k)
  {
    AnswerNotBefore(x, k);
  }

  /** A row that InternalGet reports is a row of the table, not before the sought key. */
  lemma GotIsRow(t: Layout, policy: Option<Policy>, rows: seq<Row>, k: InternalKey)
    requires IsTable(t, rows) && InternalGet(t, policy, k).Some?
    ensures var r := InternalGet(t, policy, k).value; r in rows && !KeyLess(r.key, k)
  {
    hide AllRows, BytesLess, KeyLess, KeyMayMatch;
    var i := SeekKey(IndexKeys(t), k);
    var r := InternalGet(t, policy, k).value;
    assert r in t.blocks[i].rows;
    RowInBlock(t.blocks, r);
  }

  /** The newest row of the user key at or below the sought sequence number if there is one, and
      otherwise no row of that user key. */
  ghost predicate IsAnswer(rows: seq<Row>, k: InternalKey, r: Option<Row>) {
    if exists row :: row in rows && Answers(row, k) then
      r.Some? && Newest(rows, k, r.value)
    else
      r.None? || (r.value in rows && r.value.key.user != k.user)
  }

  /** With or without filters, InternalGet answers right. */
  lemma InternalGetIsNewest(t: Layout, policy: Option<Policy>, rows: seq<Row>, k: InternalKey)
    requires IsTable(t, rows) && (policy.Some? ==> Filtered(policy.value, t.filter, t.blocks))
    ensures IsAnswer(rows, k, InternalGet(t, policy, k))
  {
    hide AllRows, BytesLess, InternalGet, Filtered, BlocksOk, SortedRows;
    var r := InternalGet(t, policy, k);
    if row :| row in rows && Answers(row, k) {
      var x, b, j := Locate(t.blocks, rows, k, row);
      GetsLocated(t, policy, rows, k, x, b, j);
    } else if r.Some? {
      GotIsRow(t, policy, rows, k);
    }
  }

  // ---------------------------------------------------------------- separators bound their blocks

  lemma AtMostSeparator(t: Layout, rows: seq<Row>, i: nat, j: nat)
    requires IsTable(t, rows) && i < |t.blocks| && j < |t.blocks[i].rows|
    ensures KeyAtMost(t.blocks[i].rows[j].key, t.index[i].key)
  {
    hide AllRows, BytesLess;
    var last := |t.blocks[i].rows| - 1;
    var x, y, sep := t.blocks[i].rows[j].key, t.blocks[i].rows[last].key, t.index[i].key;
    if j < last {
      BlockOrder(t.blocks, i, j, i, last);
    }
    assert EntryOf(t.blocks, t.index[i], i);
    assert y == LastKey(t.blocks[i]);
    if sep != y {
      assert KeyLess(y, sep);
      if x != y {
        KeyTransitive(x, y, sep);
      }
    }
  }

  lemma AfterSeparator(t: Layout, rows: seq<Row>, i: nat, m: nat, j: nat)
    requires IsTable(t, rows) && i < m < |t.blocks| && j < |t.blocks[m].rows|
    ensures KeyLess(t.index[i].key, t.blocks[m].rows[j].key)
  {
    hide AllRows, BytesLess, KeyLess;
    var blocks, sep := t.blocks, t.index[i].key;
    assert EntryOf(blocks, t.index[i], i);
    var last, first := LastKey(blocks[i]), FirstKey(blocks[i + 1]);
    BlockOrder(blocks, i, |blocks[i].rows| - 1, i + 1, 0);
    SeparatorBetween(sep, last, first);
    if i + 1 < m || j > 0 {
      BlockOrder(blocks, i + 1, 0, m, j);
      KeyTransitive(sep, first, blocks[m].rows[j].key);
    }
  }

  /** The keys of the index block increase, as its builder and its iterator demand. */
  lemma SeparatorsIncrease(t: Layout, rows: seq<Row>, i: nat, m: nat)
    requires IsTable(t, rows) && i < m < |t.blocks|
    ensures KeyLess(t.index[i].key, t.index[m].key)
  {
    hide AllRows, BytesLess, KeyLess;
    AfterSeparator(t, rows, i, m, 0);
    AtMostSeparator(t, rows, m, 0);
    var x := t.blocks[m].rows[0].key;
    if x != t.index[m].key {
      KeyTransitive(t.index[i].key, x, t.index[m].key);
    }
  }

  // ---------------------------------------------------------------- the bytes

  function RowKVs(rows: seq<Row>): (r: seq<KV>)
    ensures |r| == |rows|
  {
    seq(|rows|, i requires 0 <= i < |rows| => KV(EncodeKey(rows[i].key), rows[i].value))
  }

  function IndexKVs(index: seq<IndexEntry>): (r: seq<KV>)
    ensures |r| == |index|
  {
    seq(|index|, i requires 0 <= i < |index| => KV(EncodeKey(index[i].key), EncodeHandle(index[i].handle)))
  }

  /** "filter." */
  const FILTER_PREFIX: Bytes := [0x66, 0x69, 0x6c, 0x74, 0x65, 0x72, 0x2e]

  /** The metaindex: where the filters of the policy are. */
  function MetaKVs(policy: Option<Policy>, h: Handle): seq<KV> {
    if policy.None? then [] else [KV(FILTER_PREFIX + policy.value.name, EncodeHandle(h))]
  }

  /** The finished block of some entries, unless it is too long. */
  ghost predicate BlockOf(data: Bytes, es: seq<KV>) {
    |data| < WORD32 ==> exists points :: IsBlock(data, es, points)
  }

  ghost predicate HoldsBlock(file: Bytes, h: Handle, es: seq<KV>) {
    exists data :: Stored(file, h, data) && BlockOf(data, es)
  }

  /** Sequence numbers and types take eight bytes. */
  ghost predicate KeysFit(rows: seq<Row>) {
    forall i :: 0 <= i < |rows| ==> rows[i].key.pack < WORD64
  }

  ghost predicate HoldsBlocks(file: Bytes, blocks: seq<DataBlock>) {
    forall i :: 0 <= i < |blocks| ==> HoldsBlock(file, blocks[i].handle, RowKVs(blocks[i].rows))
  }

  /** The file is a table of these rows, with the filters of `policy` if there is one. */
  ghost predicate IsTableFile(file: Bytes, t: Layout, policy: Option<Policy>, rows: seq<Row>) {
    IsTable(t, rows) && KeysFit(rows) && FOOTER_LENGTH <= |file| < WORD32 &&
    DecodeFooter(file[|file| - FOOTER_LENGTH..]) == Some(t.footer) &&
    HoldsBlocks(file, t.blocks) && HoldsBlock(file, t.footer.index, IndexKVs(t.index)) &&
    HoldsBlock(file, t.footer.metaindex, MetaKVs(policy, t.filter_handle)) &&
    (policy.Some? ==> Stored(file, t.filter_handle, t.filter) && Filtered(policy.value, t.filter, t.blocks))
  }

  lemma HoldsStays(file: Bytes, more: Bytes, h: Handle, es: seq<KV>)
    requires HoldsBlock(file, h, es)
    ensures HoldsBlock(file + more, h, es)
  {
    hide Stored, BlockOf;
    var data :| Stored(file, h, data) && BlockOf(data, es);
    StoredStays(file, more, h, data);
  }

  lemma BlocksStay(file: Bytes, more: Bytes, blocks: seq<DataBlock>)
    requires HoldsBlocks(file, blocks)
    ensures HoldsBlocks(file + more, blocks)
  {
    hide HoldsBlock;
    forall i | 0 <= i < |blocks|
      ensures HoldsBlock(file + more, blocks[i].handle, RowKVs(blocks[i].rows))
    {
      HoldsStays(file, more, blocks[i].handle, RowKVs(blocks[i].rows));
    }
  }
}
