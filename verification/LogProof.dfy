/** What a crash leaves of a log: cut anywhere, it reads back as its whole records. */
module LogProof {
  import opened DbFormat
  import opened Coding
  import opened Crc
  import opened Log

  /** From `p` on, the file holds `s`, or as much of it as there is room for. */
  ghost predicate Matches(file: Bytes, p: nat, s: Bytes) {
    p <= |file| &&
    if p + |s| <= |file| then file[p..p + |s|] == s else file[p..] == s[..|file| - p]
  }

  lemma MatchesSplit(file: Bytes, p: nat, a: Bytes, b: Bytes)
    requires Matches(file, p, a + b)
    ensures Matches(file, p, a)
    ensures p + |a| <= |file| ==> Matches(file, p + |a|, b)
  {
    var s := a + b;
    if p + |s| <= |file| {
      assert file[p..p + |a|] == s[..|a|] == a;
      assert file[p + |a|..p + |s|] == s[|a|..] == b;
    } else if p + |a| <= |file| {
      assert file[p..p + |a|] == s[..|a|] == a;
      assert file[p + |a|..] == s[|a|..|file| - p] == b[..|file| - p - |a|];
    } else {
      assert s[..|file| - p] == a[..|file| - p];
    }
  }

  /** The header of a fragment says what the reader needs, and its checksum agrees. */
  lemma HeaderParts(t: nat, payload: Bytes)
    requires t < 256 && |payload| <= 0xffff
    ensures var h := Header(t, payload);
      FromFixed(h[4..6]) == |payload| && h[6] == t as byte &&
      StoredCrc(h[..4]) == Crc.Value([t as byte] + payload)
  {
    hide Fixed, FromFixed, Mask, Unmask, Extend, Crc.Value;
    var crc := Extend(Crc.Value([t as byte]), payload);
    var h := Header(t, payload);
    assert h[..4] == Fixed(4, Mask(crc) as nat);
    assert h[4..6] == Fixed(2, |payload|);
    WordSizes();
    FixedRoundTrip(4, Mask(crc) as nat);
    FixedRoundTrip(2, |payload|);
    UnmaskMask(crc);
    ExtendConcat([t as byte], payload);
  }

  lemma ParseFragment(buffer: Bytes, eof: bool, t: nat, payload: Bytes)
    requires FULL_TYPE <= t <= LAST_TYPE && |payload| <= 0xffff
    requires |buffer| >= HEADER_SIZE && Matches(buffer, 0, Header(t, payload) + payload)
    requires |buffer| < HEADER_SIZE + |payload| ==> eof
    ensures ParseBuffer(buffer, eof) ==
      if HEADER_SIZE + |payload| <= |buffer| then
        Physical(t, payload, [], HEADER_SIZE + |payload|)
      else
        Physical(EOF_TYPE, [], [], |buffer|)
  {
    hide Header, FromFixed, StoredCrc, Crc.Value;
    var h := Header(t, payload);
    HeaderParts(t, payload);
    MatchesSplit(buffer, 0, h, payload);
    assert buffer[..HEADER_SIZE] == h;
    assert buffer[..4] == h[..4] && buffer[4..6] == h[4..6] && buffer[6] == h[6];
    if HEADER_SIZE + |payload| <= |buffer| {
      assert buffer[HEADER_SIZE..HEADER_SIZE + |payload|] == payload;
      assert buffer[6..HEADER_SIZE + |payload|] == [t as byte] + payload;
    }
  }

  lemma BlockArithmetic(file: Bytes, p: nat, n: nat)
    requires p <= |file| && OffsetAt(p) + n <= BLOCK_SIZE && n > 0
    ensures p + n <= |file| ==> p + n <= BufferEnd(file, p)
    ensures p + n > |file| ==> AtEof(file, p) && BufferEnd(file, p) == |file|
  {
  }

  /** A fragment inside one block is read whole, or not at all and without complaint. */
  lemma PhysicalReads(file: Bytes, p: nat, t: nat, payload: Bytes)
    requires FULL_TYPE <= t <= LAST_TYPE
    requires OffsetAt(p) + HEADER_SIZE + |payload| <= BLOCK_SIZE
    requires Matches(file, p, Header(t, payload) + payload)
    ensures var f := PhysicalAt(file, p);
      if p + HEADER_SIZE + |payload| <= |file| then
        f == Physical(t, payload, [], p + HEADER_SIZE + |payload|)
      else
        f.t == EOF_TYPE && f.drops == []
  {
    hide ParseBuffer, Header;
    var n := HEADER_SIZE + |payload|;
    BlockArithmetic(file, p, HEADER_SIZE);
    BlockArithmetic(file, p, n);
    var end := BufferEnd(file, p);
    hide AtEof, BufferEnd;
    if p + HEADER_SIZE <= |file| {
      var buffer := file[p..end];
      assert Matches(buffer, 0, Header(t, payload) + payload);
      ParseFragment(buffer, AtEof(file, p), t, payload);
    }
  }

  /** The reader steps over a trailer, or stops inside it. */
  lemma TrailerSkipped(file: Bytes, p: nat)
    requires p <= |file|
    ensures var n := |Trailer(OffsetAt(p))|;
      if p + n <= |file| then
        PhysicalAt(file, p) == PhysicalAt(file, p + n) && OffsetAt(p + n) == Start(OffsetAt(p))
      else
        PhysicalAt(file, p) == Physical(EOF_TYPE, [], [], |file|)
  {
    hide ParseBuffer;
    var n := |Trailer(OffsetAt(p))|;
    if n > 0 {
      BlockArithmetic(file, p, n);
    }
  }

  lemma FragmentEnd(p: nat, data: Bytes, begin: bool)
    ensures var offset := OffsetAt(p);
      var after := Start(offset) + HEADER_SIZE + FragmentLength(offset, |data|);
      OffsetAt(p + |Fragment(offset, data, begin)|) == if after == BLOCK_SIZE then 0 else after
  {
    hide Header;
  }

  lemma FragmentReads(file: Bytes, p: nat, data: Bytes, begin: bool)
    requires Matches(file, p, Fragment(OffsetAt(p), data, begin))
    ensures var f := PhysicalAt(file, p);
      var offset := OffsetAt(p);
      var n := FragmentLength(offset, |data|);
      var next := p + |Fragment(offset, data, begin)|;
      if next <= |file| then
        f == Physical(FragmentType(begin, n == |data|), data[..n], [], next)
      else
        f.t == EOF_TYPE && f.drops == []
  {
    hide Header, PhysicalAt, FragmentLength, Start, Trailer, FragmentType, OffsetAt;
    var offset := OffsetAt(p);
    var n := FragmentLength(offset, |data|);
    var t := FragmentType(begin, n == |data|);
    var trailer, rest := Trailer(offset), Header(t, data[..n]) + data[..n];
    assert Fragment(offset, data, begin) == trailer + rest;
    MatchesSplit(file, p, trailer, rest);
    hide Matches;
    TrailerSkipped(file, p);
    if p + |trailer| <= |file| {
      PhysicalReads(file, p + |trailer|, t, data[..n]);
    }
  }

  lemma Rejoin(a: Bytes, data: Bytes, n: nat)
    requires n <= |data|
    ensures a + data[..n] + data[n..] == a + data
  {
    assert data == data[..n] + data[n..];
  }

  function Prior(scratch: Option<Bytes>): Bytes {
    if scratch.Some? then scratch.value else []
  }

  /** A record is read whole, or not at all; either way nothing is reported. */
  lemma {:induction false} RecordReads(file: Bytes, p: nat, data: Bytes, scratch: Option<Bytes>)
    requires Matches(file, p, Encoded(OffsetAt(p), data, scratch.None?))
    ensures var r := LogicalAt(file, p, scratch);
      var next := p + |Encoded(OffsetAt(p), data, scratch.None?)|;
      r.drops == [] &&
      if next <= |file| then r.record == Some(Prior(scratch) + data) && r.next == next else r.record == None
    decreases |data|, if FragmentLength(OffsetAt(p), 1) == 0 then 1 else 0
  {
    hide PhysicalAt, LogicalAt, Encoded, Fragment, OffsetAt;
    var offset := OffsetAt(p);
    var begin := scratch.None?;
    var n := FragmentLength(offset, |data|);
    EncodedStep(offset, data, begin);
    var fragment := Fragment(offset, data, begin);
    var after := Start(offset) + HEADER_SIZE + n;
    var rest := if n == |data| then [] else Encoded(after, data[n..], false);
    MatchesSplit(file, p, fragment, rest);
    FragmentReads(file, p, data, begin);
    LogicalStep(file, p, scratch);
    var next := p + |fragment|;
    var gathered := Prior(scratch) + data[..n];
    assert begin ==> gathered == data[..n];
    if next <= |file| && n < |data| {
      EncodedAtBlockEnd(data[n..], false);
      FragmentEnd(p, data, begin);
      RecordReads(file, next, data[n..], Some(gathered));
      Rejoin(Prior(scratch), data, n);
    } else if n == |data| {
      assert data[..n] == data;
    }
  }

  // ---------------------------------------------------------------- whole files

  lemma LogFileGrows(records: seq<Bytes>, i: nat)
    requires i < |records|
    ensures var before := LogFile(records[..i]);
      LogFile(records[..i + 1]) == before + Encoded(OffsetAt(|before|), records[i], true)
  {
    hide Encoded;
    assert records[..i + 1][..i] == records[..i];
  }

  lemma {:induction false} LogFilePrefix(records: seq<Bytes>, i: nat)
    requires i <= |records|
    ensures LogFile(records[..i]) <= LogFile(records)
    decreases |records| - i
  {
    hide LogFile;
    if i == |records| {
      assert records[..i] == records;
    } else {
      LogFileGrows(records, i);
      LogFilePrefix(records, i + 1);
    }
  }

  /** `k` is the number of records that lie wholly inside the first `cut` bytes. */
  ghost predicate WholeRecords(records: seq<Bytes>, cut: nat, k: nat) {
    k <= |records| && |LogFile(records[..k])| <= cut && (k < |records| ==> cut < |LogFile(records[..k + 1])|)
  }

  /** That number, counted up from records known to lie inside. */
  ghost function CountFrom(records: seq<Bytes>, cut: nat, from: nat): (k: nat)
    requires from <= |records| && |LogFile(records[..from])| <= cut
    ensures WholeRecords(records, cut, k) && from <= k
    decreases |records| - from
  {
    if from < |records| && |LogFile(records[..from + 1])| <= cut then CountFrom(records, cut, from + 1) else from
  }

  /** How many records survive a crash that keeps the first `cut` bytes. */
  ghost function WholeCount(records: seq<Bytes>, cut: nat): (k: nat)
    ensures WholeRecords(records, cut, k)
  {
    assert records[..0] == [];
    CountFrom(records, cut, 0)
  }

  lemma {:induction false} LogFileMonotone(records: seq<Bytes>, i: nat, j: nat)
    requires i <= j <= |records|
    ensures |LogFile(records[..i])| <= |LogFile(records[..j])|
  {
    assert records[..j][..i] == records[..i];
    LogFilePrefix(records[..j], i);
  }

  lemma {:induction false} ReadsFrom(records: seq<Bytes>, cut: nat, k: nat, i: nat)
    requires cut <= |LogFile(records)| && WholeRecords(records, cut, k) && i <= k
    requires |LogFile(records[..i])| <= cut
    ensures ReadAll(LogFile(records)[..cut], |LogFile(records[..i])|) == (records[i..k], [])
    decreases k - i
  {
    hide LogFile, LogicalAt, Encoded;
    var whole := LogFile(records);
    var file := whole[..cut];
    var p := |LogFile(records[..i])|;
    if i == |records| {
      AtTheEnd(file);
      assert records[..i] == records;
    } else {
      LogFileGrows(records, i);
      LogFilePrefix(records, i + 1);
      var s := Encoded(OffsetAt(p), records[i], true);
      assert whole[p..p + |s|] == s;
      assert Matches(file, p, s);
      RecordReads(file, p, records[i], None);
      assert Prior(None) + records[i] == records[i];
      if i < k {
        LogFileMonotone(records, i + 1, k);
        ReadsFrom(records, cut, k, i + 1);
        var one := LogicalAt(file, p, None);
        assert one.next == |LogFile(records[..i + 1])| && one.record == Some(records[i]);
        assert ReadAll(file, p).0 == [records[i]] + records[i + 1..k] == records[i..k];
        assert ReadAll(file, p).1 == [];
      } else {
        assert records[i..k] == [];
      }
    }
  }

  lemma AtTheEnd(file: Bytes)
    ensures LogicalAt(file, |file|, None).record == None && LogicalAt(file, |file|, None).drops == []
  {
    hide ParseBuffer;
  }

  /** Cut at any byte, a log reads back as exactly the records wholly before the cut, and
      nothing is reported as corrupt. */
  lemma CutLogReadsWholeRecords(records: seq<Bytes>, cut: nat, k: nat)
    requires cut <= |LogFile(records)| && WholeRecords(records, cut, k)
    ensures ReadAll(LogFile(records)[..cut], 0) == (records[..k], [])
  {
    assert records[..0] == [];
    assert records[0..k] == records[..k];
    ReadsFrom(records, cut, k, 0);
  }

  /** In particular an uncut log reads back whole. */
  lemma LogRoundTrip(records: seq<Bytes>)
    ensures ReadAll(LogFile(records), 0) == (records, [])
  {
    var file := LogFile(records);
    assert records[..|records|] == records;
    assert file[..|file|] == file;
    CutLogReadsWholeRecords(records, |file|, |records|);
  }

  /** A writer that adds the records one by one, a crash that keeps the first `cut` bytes, and
      a reader that reads to the end. */
  method WriteCrashRead(records: seq<Bytes>, cut: nat) returns (read: seq<Bytes>, drops: seq<nat>)
    ensures drops == []
    ensures |LogFile(records)| <= cut ==> read == records
    ensures cut < |LogFile(records)| ==> WholeRecords(records, cut, |read|) && read == records[..|read|]
  {
    hide LogFile, Encoded, LogicalAt;
    var writer := new Writer([]);
    assert LogFile([]) == [] by { EmptyLog(); }
    for i := 0 to |records|
      invariant writer.Valid() && writer.dest == LogFile(records[..i])
    {
      LogFileGrows(records, i);
      writer.AddRecord(records[i]);
    }
    assert records[..|records|] == records;
    var n := if cut < |writer.dest| then cut else |writer.dest|;
    read, drops := ReadToEnd(writer.dest[..n]);
    assert writer.dest[..|writer.dest|] == writer.dest;
    if cut < |writer.dest| {
      CutLogReadsWholeRecords(records, cut, WholeCount(records, cut));
    } else {
      LogRoundTrip(records);
    }
  }

  lemma EmptyLog()
    ensures LogFile([]) == []
  {
  }

  method ReadToEnd(file: Bytes) returns (read: seq<Bytes>, drops: seq<nat>)
    ensures (read, drops) == ReadAll(file, 0)
  {
    hide LogicalAt, WholeRecord, AllStand, InTurn, Joined;
    var reader := new Reader(file);
    read := [];
    assert [] + ReadAll(file, 0).0 == ReadAll(file, 0).0 && [] + ReadAll(file, 0).1 == ReadAll(file, 0).1;
    while true
      invariant reader.Valid() && reader.file == file
      invariant var rest := ReadAll(file, reader.Position());
        ReadAll(file, 0) == (read + rest.0, reader.drops + rest.1)
      decreases |file| - reader.Position()
    {
      ghost var p, before := reader.Position(), reader.drops;
      ghost var rest := ReadAll(file, p);
      var record := reader.ReadRecord();
      if record.None? {
        assert read + rest.0 == read && before + rest.1 == reader.drops;
        break;
      }
      ghost var deeper := ReadAll(file, reader.Position());
      assert read + rest.0 == read + [record.value] + deeper.0;
      assert before + rest.1 == reader.drops + deeper.1;
      read := read + [record.value];
    }
    drops := reader.drops;
  }
}
