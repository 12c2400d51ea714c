/** Blocks of sorted entries with prefix compression and restart points
    (table/block_builder.cc, table/block.cc). */
module Block {
  import opened DbFormat
  import opened Coding

  datatype KV = KV(key: Bytes, value: Bytes)

  // ---------------------------------------------------------------- the written bytes

  /** The length of the common prefix. */
  function Common(a: Bytes, b: Bytes): (n: nat)
    ensures n <= |a| && n <= |b| && a[..n] == b[..n]
  {
    if a == [] || b == [] || a[0] != b[0] then
      0
    else
      var n := Common(a[1..], b[1..]);
      assert a[..n + 1] == [a[0]] + a[1..][..n] && b[..n + 1] == [b[0]] + b[1..][..n];
      n + 1
  }

  lemma {:induction false} CommonIsLongest(a: Bytes, b: Bytes)
    ensures var n := Common(a, b); n == |a| || n == |b| || a[n] != b[n]
  {
    if a != [] && b != [] && a[0] == b[0] {
      CommonIsLongest(a[1..], b[1..]);
    }
  }

  /** How much of its key entry `i` shares with the entry before; nothing at a restart point. */
  function SharedAt(es: seq<KV>, points: seq<nat>, i: nat): (n: nat)
    requires i < |es|
    ensures n <= |es[i].key| && (i > 0 ==> n <= |es[i - 1].key| && es[i - 1].key[..n] == es[i].key[..n])
    ensures i == 0 || i in points ==> n == 0
  {
    if i == 0 || i in points then 0 else Common(es[i - 1].key, es[i].key)
  }

  function Head(shared: nat, non_shared: nat, value_length: nat): (s: Bytes)
    ensures |s| >= 3
  {
    Varint(shared) + Varint(non_shared) + Varint(value_length)
  }

  /** The bytes of entry `i`. */
  function Piece(es: seq<KV>, points: seq<nat>, i: nat): (s: Bytes)
    requires i < |es|
    ensures |s| >= 3
  {
    var shared, e := SharedAt(es, points, i), es[i];
    Head(shared, |e.key| - shared, |e.value|) + e.key[shared..] + e.value
  }

  /** The bytes of the first `n` entries. */
  function Data(es: seq<KV>, points: seq<nat>, n: nat): Bytes
    requires n <= |es|
  {
    if n == 0 then [] else Data(es, points, n - 1) + Piece(es, points, n - 1)
  }

  function Offset(es: seq<KV>, points: seq<nat>, i: nat): nat
    requires i <= |es|
  {
    |Data(es, points, i)|
  }

  /** The entries at which compression restarts: the first, and some later ones. */
  ghost predicate GoodPoints(points: seq<nat>, n: nat) {
    |points| > 0 && points[0] == 0 &&
    (forall j, k :: 0 <= j < k < |points| ==> points[j] < points[k]) &&
    (forall j :: 0 < j < |points| ==> points[j] < n)
  }

  function RestartOffsets(es: seq<KV>, points: seq<nat>): (ws: seq<nat>)
    requires forall j :: 0 <= j < |points| ==> points[j] <= |es|
    ensures |ws| == |points|
  {
    seq(|points|, j requires 0 <= j < |points| => Offset(es, points, points[j]))
  }

  /** A finished block. */
  ghost predicate IsBlock(data: Bytes, es: seq<KV>, points: seq<nat>) {
    GoodPoints(points, |es|) && |data| < WORD32 &&
    WordsBetween(Data(es, points, |es|), RestartOffsets(es, points) + [|points|], [], data)
  }

  // ---------------------------------------------------------------- the builder

  /** Restart points every `interval` entries, the last one `counter` entries ago. */
  ghost predicate PointsOk(points: seq<nat>, n: nat, interval: nat, counter: nat) {
    interval >= 1 && GoodPoints(points, if n == 0 then 1 else n) &&
    counter == n - points[|points| - 1] <= interval &&
    forall j :: 0 < j < |points| ==> points[j] == points[j - 1] + interval
  }

  lemma PointsStay(points: seq<nat>, n: nat, interval: nat, counter: nat)
    requires PointsOk(points, n, interval, counter) && counter < interval
    ensures PointsOk(points, n + 1, interval, counter + 1)
  {
  }

  lemma PointsGrow(points: seq<nat>, n: nat, interval: nat)
    requires PointsOk(points, n, interval, interval)
    ensures PointsOk(points + [n], n + 1, interval, 1) && n > 0
  {
    var more := points + [n];
    assert forall j :: 0 <= j < |points| ==> points[j] <= points[|points| - 1];
    forall j | 0 < j < |more|
      ensures more[j] == more[j - 1] + interval
    {
      assert j < |points| ==> points[j] == points[j - 1] + interval;
    }
  }

  /** Restart point `j` is entry j * interval, and there is one for every `interval` entries. */
  lemma {:induction false} PointsAre(points: seq<nat>, n: nat, interval: nat, counter: nat, j: nat)
    requires PointsOk(points, n, interval, counter) && j < |points|
    ensures points[j] == j * interval
  {
    if j > 0 {
      PointsAre(points, n, interval, counter, j - 1);
    }
  }

  lemma CountPoints(points: seq<nat>, n: nat, interval: nat, counter: nat)
    requires PointsOk(points, n, interval, counter)
    ensures |points| == if n == 0 then 1 else (n - 1) / interval + 1
  {
    var last := |points| - 1;
    PointsAre(points, n, interval, counter, last);
    if n > 0 {
      DivideIs(n - 1, interval, last, counter - 1);
    }
  }

  lemma PointsAreMultiples(points: seq<nat>, n: nat, interval: nat, counter: nat, i: nat)
    requires PointsOk(points, n, interval, counter) && i < n && interval >= 1
    ensures i in points <==> i % interval == 0
  {
    hide PointsOk;
    if i in points {
      var j :| 0 <= j < |points| && points[j] == i;
      PointsAre(points, n, interval, counter, j);
      RemainderIs(i, interval, j, 0);
    }
    if i % interval == 0 {
      assert interval * (i / interval) == i;
      MultipleIsPoint(points, n, interval, counter, i / interval);
    }
  }

  lemma MultipleIsPoint(points: seq<nat>, n: nat, interval: nat, counter: nat, j: nat)
    requires PointsOk(points, n, interval, counter) && interval * j < n
    ensures j < |points| && interval * j in points
  {
    var last := |points| - 1;
    PointsAre(points, n, interval, counter, last);
    NoGreater(interval, j, 0, last, counter - 1);
    PointsAre(points, n, interval, counter, j);
  }

  lemma NoGreater(d: nat, q: nat, r: nat, q': nat, r': nat)
    requires r < d && r' < d && d * q + r <= d * q' + r'
    ensures q <= q'
  {
    AtLeastOnce(d, q - q');
    assert d * (q - q') == d * q - d * q';
  }

  lemma RemainderIs(n: nat, d: nat, q: nat, r: nat)
    requires r < d && n == d * q + r
    ensures n % d == r
  {
    DivideIs(n, d, q, r);
  }

  /** The bytes of an entry: three lengths, what the key does not share with the last one, and the
      value.  The shared part is the longest possible, except that a restart point shares nothing. */
  ghost predicate IsEntry(s: Bytes, restart: bool, last_key: Bytes, key: Bytes, value: Bytes, shared: nat) {
    shared <= |last_key| && shared <= |key| &&
    (if restart then shared == 0
     else
       last_key[..shared] == key[..shared] && (shared == |last_key| || shared == |key| || last_key[shared] != key[shared])) &&
    s == Varint(shared) + Varint(|key| - shared) + Varint(|value|) + key[shared..] + value
  }

  ghost predicate IsSomeEntry(s: Bytes, restart: bool, last_key: Bytes, e: KV) {
    exists shared: nat :: IsEntry(s, restart, last_key, e.key, e.value, shared)
  }

  /** Every `interval`-th entry is written with its whole key, and every other one without the
      longest prefix that it shares with the entry before. */
  lemma PiecesAreEntries(es: seq<KV>, points: seq<nat>, interval: nat, counter: nat, i: nat)
    requires PointsOk(points, |es|, interval, counter) && i < |es|
    ensures IsSomeEntry(Piece(es, points, i), i % interval == 0, if i == 0 then [] else es[i - 1].key, es[i])
  {
    PointsAreMultiples(points, |es|, interval, counter, i);
    var shared := SharedAt(es, points, i);
    var last_key := if i == 0 then [] else es[i - 1].key;
    CommonIsLongest(last_key, es[i].key);
    assert i == 0 ==> i % interval == 0 by { RemainderIs(0, interval, 0, 0); }
    hide PointsOk, Varint;
    assert IsEntry(Piece(es, points, i), i % interval == 0, last_key, es[i].key, es[i].value, shared);
  }

  /** What has been written for some entries. */
  ghost predicate Written(buffer: Bytes, restarts: seq<nat>, last_key: Bytes, es: seq<KV>, points: seq<nat>) {
    buffer == Data(es, points, |es|) &&
    (forall j :: 0 <= j < |points| ==> points[j] <= |es|) && restarts == RestartOffsets(es, points) &&
    last_key == if es == [] then [] else es[|es| - 1].key
  }

  /** One more entry, at a restart point when `restart` says so. */
  lemma WrittenMore(buffer: Bytes, restarts: seq<nat>, last_key: Bytes, es: seq<KV>, points: seq<nat>, e: KV,
                    restart: bool, shared: nat)
    requires Written(buffer, restarts, last_key, es, points)
    requires es != [] ==> |es| !in points
    requires if restart then es != [] && shared == 0 else shared == Common(last_key, e.key)
    ensures shared <= |last_key| && shared <= |e.key| && last_key[..shared] == e.key[..shared]
    ensures Written(buffer + (Head(shared, |e.key| - shared, |e.value|) + e.key[shared..] + e.value),
      if restart then restarts + [|buffer|] else restarts, e.key, es + [e], if restart then points + [|es|] else points)
  {
    hide Data, Common, Head, Piece, SharedAt, RestartOffsets;
    var later := es + [e];
    var more := if restart then points + [|es|] else points;
    EarlierSame(es, points, later, more, |es|);
    LastPiece(es, points, later, more, last_key, shared);
    LastData(later, more, shared);
    RestartsGrow(es, points, later, more, if restart then restarts + [|buffer|] else restarts);
  }

  class BlockBuilder {
    const interval: nat
    var buffer: Bytes
    var restarts: seq<nat>
    var counter: nat
    var last_key: Bytes
    ghost var es: seq<KV>
    ghost var points: seq<nat>

    ghost predicate Valid()
      reads this
    {
      PointsOk(points, |es|, interval, counter) && Written(buffer, restarts, last_key, es, points)
    }

    constructor (interval: nat)
      requires interval >= 1
      ensures Valid() && es == [] && this.interval == interval
    {
      this.interval := interval;
      buffer, restarts, counter, last_key := [], [0], 0, [];
      es, points := [], [0];
    }

    /** Start over with an empty block. */
    method Reset()
      requires interval >= 1
      modifies this
      ensures Valid() && es == []
    {
      buffer, restarts, counter, last_key := [], [0], 0, [];
      es, points := [], [0];
    }

    /** The size of the block if it were finished now. */
    function CurrentSizeEstimate(): nat
      reads this
    {
      |buffer| + |restarts| * 4 + 4
    }

    /** empty(): every entry takes some bytes. */
    method Empty() returns (empty: bool)
      requires Valid()
      ensures empty <==> es == []
    {
      hide PointsOk;
      if es != [] {
        DataPrefix(es, points, 0, |es|);
      }
      empty := buffer == [];
    }

    /** BlockBuilder::Add.  A restart point is set every `interval` entries. */
    method Add(key: Bytes, value: Bytes)
      requires Valid()
      modifies this
      ensures Valid() && es == old(es) + [KV(key, value)]
    {
      hide Common, PointsOk, Head, Written;
      CounterBound(points, |es|, interval, counter);
      var shared := 0;
      ghost var e := KV(key, value);
      ghost var more := points;
      var table := restarts;
      if counter < interval {
        PointsStay(points, |es|, interval, counter);
        shared := CommonLength(last_key, key);
        WrittenMore(buffer, restarts, last_key, es, points, e, false, shared);
      } else {
        PointsGrow(points, |es|, interval);
        WrittenMore(buffer, restarts, last_key, es, points, e, true, shared);
        table := restarts + [|buffer|];
        counter := 0;
        more := points + [|es|];
      }
      var non_shared := |key| - shared;
      buffer := buffer + (Head(shared, non_shared, |value|) + key[shared..] + value);
      restarts := table;
      assert key == key[..shared] + key[shared..];
      last_key := last_key[..shared] + key[shared..];
      counter := counter + 1;
      es, points := es + [e], more;
    }

    /** BlockBuilder::Finish: the restart array and its length after the entries. */
    method Finish() returns (data: Bytes)
      requires Valid()
      ensures |data| == CurrentSizeEstimate() && (|data| < WORD32 ==> IsBlock(data, es, points))
      ensures |points| == (if es == [] then 1 else (|es| - 1) / interval + 1)
      ensures forall j :: 0 <= j < |points| ==> points[j] == j * interval
    {
      CountPoints(points, |es|, interval, counter);
      forall j | 0 <= j < |points|
        ensures points[j] == j * interval
      {
        PointsAre(points, |es|, interval, counter, j);
      }
      hide Data;
      var words := WordBytes(restarts + [|restarts|]);
      data := buffer + words;
      assert data == buffer + words + [];
    }
  }

  lemma CounterBound(points: seq<nat>, n: nat, interval: nat, counter: nat)
    requires PointsOk(points, n, interval, counter)
    ensures counter <= interval && (n > 0 ==> n !in points)
  {
  }

  /** The loop that compares the new key with the last one. */
  method CommonLength(a: Bytes, b: Bytes) returns (n: nat)
    ensures n == Common(a, b)
  {
    n := 0;
    assert a[0..] == a && b[0..] == b;
    while n < |a| && n < |b| && a[n] == b[n]
      invariant n <= |a| && n <= |b| && Common(a, b) == n + Common(a[n..], b[n..])
    {
      assert a[n..][1..] == a[n + 1..] && b[n..][1..] == b[n + 1..];
      n := n + 1;
    }
  }

  lemma {:induction false} EarlierSame(es: seq<KV>, points: seq<nat>, later: seq<KV>, more: seq<nat>, n: nat)
    requires |es| < |later| && es == later[..|es|] && n <= |es|
    requires forall i :: 0 <= i < |es| ==> (i in points <==> i in more)
    ensures Data(later, more, n) == Data(es, points, n)
  {
    hide Head, Common;
    if n > 0 {
      EarlierSame(es, points, later, more, n - 1);
      SamePiece(es, points, later, more, n - 1);
      hide Piece;
    }
  }

  lemma SamePiece(es: seq<KV>, points: seq<nat>, later: seq<KV>, more: seq<nat>, i: nat)
    requires |es| < |later| && es == later[..|es|] && i < |es| && (i in points <==> i in more)
    ensures Piece(later, more, i) == Piece(es, points, i)
  {
    hide Head, Common;
  }

  lemma LastPiece(es: seq<KV>, points: seq<nat>, later: seq<KV>, more: seq<nat>, last_key: Bytes, shared: nat)
    requires |later| == |es| + 1 && es == later[..|es|]
    requires last_key == (if es == [] then [] else es[|es| - 1].key)
    requires shared == if |es| in more && es != [] then 0 else Common(last_key, later[|es|].key)
    ensures SharedAt(later, more, |es|) == shared && shared <= |last_key| && shared <= |later[|es|].key|
    ensures last_key[..shared] == later[|es|].key[..shared]
  {
    if es == [] {
      assert Common([], later[0].key) == 0;
    }
  }

  lemma LastData(es: seq<KV>, points: seq<nat>, shared: nat)
    requires es != [] && SharedAt(es, points, |es| - 1) == shared
    ensures var e := es[|es| - 1];
      Data(es, points, |es|) ==
      Data(es, points, |es| - 1) + (Head(shared, |e.key| - shared, |e.value|) + e.key[shared..] + e.value)
  {
  }

  lemma RestartsGrow(es: seq<KV>, points: seq<nat>, later: seq<KV>, more: seq<nat>, restarts: seq<nat>)
    requires |es| < |later| && es == later[..|es|] && (forall j :: 0 <= j < |points| ==> points[j] <= |es|)
    requires forall i :: 0 <= i < |es| ==> (i in points <==> i in more)
    requires if more == points then restarts == RestartOffsets(es, points)
      else more == points + [|es|] && restarts == RestartOffsets(es, points) + [Offset(es, points, |es|)]
    ensures (forall j :: 0 <= j < |more| ==> more[j] <= |later|) && restarts == RestartOffsets(later, more)
  {
    hide Data;
    forall j | 0 <= j < |more|
      ensures more[j] <= |es| && Offset(later, more, more[j]) == Offset(es, points, more[j])
    {
      EarlierSame(es, points, later, more, more[j]);
    }
  }

  // ---------------------------------------------------------------- reading an entry

  datatype Decoded = Decoded(shared: nat, non_shared: nat, value_length: nat, rest: Bytes) | BadEntry

  function Checked(shared: nat, non_shared: nat, value_length: nat, rest: Bytes): Decoded {
    if |rest| < (non_shared + value_length) % WORD32 then BadEntry else Decoded(shared, non_shared, value_length, rest)
  }

  /** DecodeEntry, with its fast path for three one-byte lengths. */
  function DecodeEntry(s: Bytes): Decoded {
    if |s| < 3 then
      BadEntry
    else if s[0] < 128 && s[1] < 128 && s[2] < 128 then
      Checked(s[0] as nat, s[1] as nat, s[2] as nat, s[3..])
    else
      match GetVarint32(s)
      case Failed => BadEntry
      case Parsed(shared, s1) =>
        match GetVarint32(s1)
        case Failed => BadEntry
        case Parsed(non_shared, s2) =>
          match GetVarint32(s2)
          case Failed => BadEntry
          case Parsed(value_length, rest) => Checked(shared, non_shared, value_length, rest)
  }

  lemma ShortVarint(n: nat, s: Bytes)
    requires (Varint(n) + s)[0] < 128
    ensures Varint(n) == [n as byte] && n < 128
  {
  }

  lemma DecodeHead(shared: nat, non_shared: nat, value_length: nat, tail: Bytes)
    requires shared < WORD32 && non_shared + value_length < WORD32 && non_shared + value_length <= |tail|
    ensures DecodeEntry(Head(shared, non_shared, value_length) + tail) == Decoded(shared, non_shared, value_length, tail)
  {
    hide Varint, GetVarint32;
    var s2 := Varint(value_length) + tail;
    var s1 := Varint(non_shared) + s2;
    var s := Head(shared, non_shared, value_length) + tail;
    HeadAndTail(shared, non_shared, value_length, tail);
    if s[0] < 128 && s[1] < 128 && s[2] < 128 {
      ShortVarint(shared, s1);
      assert s == [shared as byte] + s1;
      ShortVarint(non_shared, s2);
      ShortVarint(value_length, tail);
      assert s[3..] == tail;
    } else {
      VarintRoundTrip(shared, s1);
      VarintRoundTrip(non_shared, s2);
      VarintRoundTrip(value_length, tail);
    }
  }

  lemma HeadAndTail(shared: nat, non_shared: nat, value_length: nat, tail: Bytes)
    ensures Head(shared, non_shared, value_length) + tail ==
      Varint(shared) + (Varint(non_shared) + (Varint(value_length) + tail))
  {
    hide Varint;
    var a, b, c := Varint(shared), Varint(non_shared), Varint(value_length);
    Associate(a, b, c);
    Associate(a, b + c, tail);
    Associate(b, c, tail);
  }

  lemma {:induction false} DataPrefix(es: seq<KV>, points: seq<nat>, i: nat, n: nat)
    requires i <= n <= |es|
    ensures Data(es, points, i) <= Data(es, points, n)
    ensures i < n ==> Offset(es, points, i) + 3 <= Offset(es, points, n)
  {
    hide Piece;
    if i < n {
      DataPrefix(es, points, i, n - 1);
      PieceLength(es, points, n - 1);
    }
  }

  lemma PieceLength(es: seq<KV>, points: seq<nat>, i: nat)
    requires i < |es|
    ensures |Piece(es, points, i)| >= 3
  {
  }

  /** What follows the header of entry `i`. */
  ghost function Body(es: seq<KV>, points: seq<nat>, i: nat): (s: Bytes)
    requires i < |es|
  {
    es[i].key[SharedAt(es, points, i)..] + es[i].value
  }

  /** The rest of the data from entry `i` on. */
  lemma FromEntry(data: Bytes, es: seq<KV>, points: seq<nat>, i: nat)
    requires i < |es| && Data(es, points, |es|) <= data
    ensures var limit, shared := Offset(es, points, |es|), SharedAt(es, points, i);
      Offset(es, points, i) < Offset(es, points, i + 1) <= limit <= |data| &&
      Offset(es, points, i + 1) ==
        Offset(es, points, i) + |Head(shared, |es[i].key| - shared, |es[i].value|)| + |Body(es, points, i)| &&
      data[Offset(es, points, i)..limit] ==
        Head(shared, |es[i].key| - shared, |es[i].value|) + (Body(es, points, i) + data[Offset(es, points, i + 1)..limit])
  {
    hide Head, SharedAt, Data;
    var from, to, limit := Offset(es, points, i), Offset(es, points, i + 1), Offset(es, points, |es|);
    PieceAt(data, es, points, i);
    assert data[from..limit] == data[from..to] + data[to..limit];
    var shared := SharedAt(es, points, i);
    var head := Head(shared, |es[i].key| - shared, |es[i].value|);
    Associate(head, es[i].key[shared..], es[i].value);
    Associate(head, Body(es, points, i), data[to..limit]);
  }

  /** The bytes between two offsets are those of the entry. */
  lemma PieceAt(data: Bytes, es: seq<KV>, points: seq<nat>, i: nat)
    requires i < |es| && Data(es, points, |es|) <= data
    ensures var from, to := Offset(es, points, i), Offset(es, points, i + 1);
      from < to <= Offset(es, points, |es|) <= |data| && to == from + |Piece(es, points, i)| &&
      data[from..to] == Piece(es, points, i)
  {
    hide Piece;
    DataPrefix(es, points, i + 1, |es|);
    PieceLength(es, points, i);
    AfterPrefix(data, Data(es, points, i), Piece(es, points, i));
  }

  lemma AfterPrefix(data: Bytes, a: Bytes, b: Bytes)
    requires a + b <= data
    ensures data[|a|..|a| + |b|] == b
  {
    assert data[..|a + b|] == a + b;
    assert data[|a|..|a| + |b|] == data[..|a + b|][|a|..];
  }

  /** Where the value of entry `i` lies: at the end of its piece. */
  lemma ValueAt(data: Bytes, es: seq<KV>, points: seq<nat>, i: nat)
    requires i < |es| && Data(es, points, |es|) <= data
    ensures var to := Offset(es, points, i + 1);
      |es[i].value| <= to <= |data| && data[to - |es[i].value|..to] == es[i].value
  {
    hide Head, SharedAt, Data;
    var from, to, value := Offset(es, points, i), Offset(es, points, i + 1), es[i].value;
    PieceAt(data, es, points, i);
    var shared := SharedAt(es, points, i);
    var front := Head(shared, |es[i].key| - shared, |value|) + es[i].key[shared..];
    EndOf(data, from, to, front, value);
  }

  lemma EndOf(data: Bytes, from: nat, to: nat, a: Bytes, b: Bytes)
    requires from <= to <= |data| && data[from..to] == a + b
    ensures |b| <= to && data[to - |b|..to] == b
  {
    assert to - from == |a| + |b|;
    assert data[to - |b|..to] == data[from..to][|a|..];
  }

  lemma {:induction false} KeyLength(es: seq<KV>, points: seq<nat>, i: nat)
    requires i < |es|
    ensures |es[i].key| <= Offset(es, points, i + 1)
  {
    hide Head, Common;
    if i > 0 {
      KeyLength(es, points, i - 1);
    }
    assert Data(es, points, i + 1) == Data(es, points, i) + Piece(es, points, i);
  }

  /** DecodeEntry at the offset of an entry gives its lengths, and its key delta and value follow. */
  lemma DecodeAt(data: Bytes, es: seq<KV>, points: seq<nat>, i: nat)
    requires i < |es| && Data(es, points, |es|) <= data && |data| < WORD32
    ensures var limit, shared := Offset(es, points, |es|), SharedAt(es, points, i);
      Offset(es, points, i) < Offset(es, points, i + 1) <= limit <= |data| &&
      DecodeEntry(data[Offset(es, points, i)..limit]) ==
        Decoded(shared, |es[i].key| - shared, |es[i].value|, Body(es, points, i) + data[Offset(es, points, i + 1)..limit])
  {
    hide Head, SharedAt, DecodeEntry, Offset;
    FromEntry(data, es, points, i);
    KeyLength(es, points, i);
    var limit, to, shared := Offset(es, points, |es|), Offset(es, points, i + 1), SharedAt(es, points, i);
    var body := Body(es, points, i);
    assert |body| == |es[i].key| - shared + |es[i].value|;
    DecodeHead(shared, |es[i].key| - shared, |es[i].value|, body + data[to..limit]);
  }
}
