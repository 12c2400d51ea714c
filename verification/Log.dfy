/** The fragmenting log (db/log_format.h, db/log_writer.cc, db/log_reader.cc). */
module Log {
  import opened DbFormat
  import opened Coding
  import opened Crc

  const BLOCK_SIZE := 32768
  const HEADER_SIZE := 7

  const ZERO_TYPE: nat := 0
  const FULL_TYPE: nat := 1
  const FIRST_TYPE: nat := 2
  const MIDDLE_TYPE: nat := 3
  const LAST_TYPE: nat := 4
  const EOF_TYPE: nat := 5
  const BAD_RECORD: nat := 6

  // ---------------------------------------------------------------- the written bytes

  function FragmentType(begin: bool, end: bool): (t: nat)
    ensures FULL_TYPE <= t <= LAST_TYPE
  {
    if begin && end then FULL_TYPE else if begin then FIRST_TYPE else if end then LAST_TYPE else MIDDLE_TYPE
  }

  function Header(t: nat, payload: Bytes): (h: Bytes)
    requires t < 256
    ensures |h| == HEADER_SIZE
  {
    Fixed(4, Mask(Extend(Crc.Value([t as byte]), payload)) as nat) + Fixed(2, |payload|) + [t as byte]
  }

  /** The zeros that fill a block too full for another header. */
  function Trailer(offset: nat): (s: Bytes)
    requires offset <= BLOCK_SIZE
    ensures |s| == if BLOCK_SIZE - offset < HEADER_SIZE then BLOCK_SIZE - offset else 0
  {
    if BLOCK_SIZE - offset < HEADER_SIZE then seq(BLOCK_SIZE - offset, i => 0) else []
  }

  function Start(offset: nat): (start: nat)
    requires offset <= BLOCK_SIZE
    ensures start + HEADER_SIZE <= BLOCK_SIZE
  {
    if BLOCK_SIZE - offset < HEADER_SIZE then 0 else offset
  }

  /** How much of the record fits into the block. */
  function FragmentLength(offset: nat, left: nat): (n: nat)
    requires offset <= BLOCK_SIZE
    ensures n <= left && Start(offset) + HEADER_SIZE + n <= BLOCK_SIZE
  {
    var avail := BLOCK_SIZE - Start(offset) - HEADER_SIZE;
    if left < avail then left else avail
  }

  /** One fragment with what comes before it. */
  function Fragment(offset: nat, data: Bytes, begin: bool): (s: Bytes)
    requires offset <= BLOCK_SIZE
    ensures |s| >= HEADER_SIZE
  {
    var n := FragmentLength(offset, |data|);
    Trailer(offset) + Header(FragmentType(begin, n == |data|), data[..n]) + data[..n]
  }

  /** The bytes that AddRecord appends when the block is filled up to `offset`. */
  function Encoded(offset: nat, data: Bytes, begin: bool): (s: Bytes)
    requires offset <= BLOCK_SIZE
    ensures |s| >= HEADER_SIZE
    decreases |data|, if FragmentLength(offset, 1) == 0 then 1 else 0
  {
    var n := FragmentLength(offset, |data|);
    var one := Fragment(offset, data, begin);
    if n == |data| then one else one + Encoded(Start(offset) + HEADER_SIZE + n, data[n..], false)
  }

  /** How far into its block a position lies. */
  function OffsetAt(p: nat): (offset: nat)
    ensures offset < BLOCK_SIZE
  {
    p % BLOCK_SIZE
  }

  /** The file after a list of records. */
  function LogFile(records: seq<Bytes>): (s: Bytes) {
    if records == [] then
      []
    else
      var before := LogFile(records[..|records| - 1]);
      before + Encoded(OffsetAt(|before|), records[|records| - 1], true)
  }

  // ---------------------------------------------------------------- reading by position

  /** Where the block of a position ends in a file that may stop earlier. */
  function BufferEnd(file: Bytes, p: nat): (e: nat)
    requires p <= |file|
    ensures p <= e <= |file|
  {
    var e := (p / BLOCK_SIZE + 1) * BLOCK_SIZE;
    if e <= |file| then e else |file|
  }

  /** One physical record: its type, payload, the drops reported on the way, and the position
      after it. */
  datatype Physical = Physical(t: nat, payload: Bytes, drops: seq<nat>, next: nat)

  /** The block of `p` was cut short by the end of the file. */
  predicate AtEof(file: Bytes, p: nat) {
    |file| < (p / BLOCK_SIZE + 1) * BLOCK_SIZE
  }

  /** What the bytes at the front of the buffer are; `next` counts the bytes consumed. */
  function ParseBuffer(buffer: Bytes, eof: bool): (r: Physical)
    requires |buffer| >= HEADER_SIZE
    ensures 0 < r.next <= |buffer|
  {
    var length := FromFixed(buffer[4..6]);
    var t := buffer[6] as nat;
    if HEADER_SIZE + length > |buffer| then
      if eof then Physical(EOF_TYPE, [], [], |buffer|) else Physical(BAD_RECORD, [], [|buffer|], |buffer|)
    else if t == ZERO_TYPE && length == 0 then
      Physical(BAD_RECORD, [], [], |buffer|)
    else if Crc.Value(buffer[6..HEADER_SIZE + length]) != StoredCrc(buffer[..4]) then
      Physical(BAD_RECORD, [], [|buffer|], |buffer|)
    else
      Physical(t, buffer[HEADER_SIZE..HEADER_SIZE + length], [], HEADER_SIZE + length)
  }

  function StoredCrc(s: Bytes): Word
    requires |s| == 4
  {
    WordSizes();
    Unmask(FromFixed(s) as Word)
  }

  /** The next physical record at or after position `p`, seen without a buffer. */
  function PhysicalAt(file: Bytes, p: nat): (r: Physical)
    requires p <= |file|
    ensures r.next <= |file| && (r.t == EOF_TYPE || p < r.next)
    decreases |file| - p
  {
    var end := BufferEnd(file, p);
    if p + HEADER_SIZE <= end then
      var r := ParseBuffer(file[p..end], AtEof(file, p));
      r.(next := p + r.next)
    else if AtEof(file, p) then
      Physical(EOF_TYPE, [], [], |file|)
    else
      PhysicalAt(file, end)
  }

  // ---------------------------------------------------------------- the same over the bytes

  /** A stored checksum is right exactly when it is the masked checksum of what it covers. */
  lemma ChecksumBytes(s: Bytes, v: Word)
    requires |s| == 4
    ensures StoredCrc(s) == v <==> s == Fixed(4, Mask(v) as nat)
  {
    hide Fixed, FromFixed, Mask, Unmask, Power;
    WordSizes();
    UnmaskMask(v);
    FixedRoundTrip(4, Mask(v) as nat);
    FixedOnto(s);
    MaskUnmask(FromFixed(s) as Word);
  }

  lemma LengthBytes(s: Bytes)
    requires |s| == 2
    ensures FromFixed(s) == s[0] as nat + 256 * (s[1] as nat)
  {
    assert s[1..] == [s[1]] && s[1..][1..] == [];
    assert FromFixed([]) == 0;
  }

  /** Where the next header lies: a rest of a block too short for one is skipped. */
  function NextHeader(p: nat): (at: nat) {
    if p % 32768 > 32761 then (p / 32768 + 1) * 32768 else p
  }

  function BlockEnd(at: nat): nat {
    (at / 32768 + 1) * 32768
  }

  lemma HeaderFits(p: nat)
    ensures var at := NextHeader(p);
      p <= at && at + 7 <= BlockEnd(at) && at % 32768 <= 32761 && BlockEnd(at) - at == 32768 - at % 32768
  {
  }

  lemma {:induction false} PhysicalHeader(file: Bytes, p: nat, at: nat, e: nat)
    requires p <= |file| && at == NextHeader(p) && e == if BlockEnd(at) <= |file| then BlockEnd(at) else |file|
    ensures if at + 7 > |file| then
        PhysicalAt(file, p) == Physical(5, [], [], |file|)
      else
        at + 7 <= e <= |file| &&
        PhysicalAt(file, p) == var r := ParseBuffer(file[at..e], |file| < BlockEnd(at)); r.(next := at + r.next)
    decreases |file| - p
  {
    hide ParseBuffer;
    if p % 32768 > 32761 && |file| >= at {
      PhysicalHeader(file, at, at, e);
    }
  }

  /** What the bytes from position `p` on give, block by block: a header whose record does not fit into
      its block, a preallocated area, a wrong checksum, or a record.  After anything wrong the rest of
      the block is dropped and, but for preallocated areas and a cut end of the file, reported. */
  ghost predicate Yields(file: Bytes, p: nat, r: Physical) {
    var at := NextHeader(p);
    var block := BlockEnd(at);
    var e := if block <= |file| then block else |file|;
    if at + 7 > |file| then
      r == Physical(5, [], [], |file|)
    else
      at + 7 <= e &&
      var n := file[at + 4] as nat + 256 * (file[at + 5] as nat);
      if at + 7 + n > e then
        r == if |file| < block then Physical(5, [], [], |file|) else Physical(6, [], [e - at], e)
      else if file[at + 6] == 0 && n == 0 then
        r == Physical(6, [], [], e)
      else if file[at..at + 4] != Fixed(4, Mask(Crc.Value(file[at + 6..at + 7 + n])) as nat) then
        r == Physical(6, [], [e - at], e)
      else
        r == Physical(file[at + 6] as nat, file[at + 7..at + 7 + n], [], at + 7 + n)
  }

  /** The front of a buffer, in terms of its bytes. */
  lemma FrontBytes(buffer: Bytes, eof: bool)
    requires |buffer| >= 7
    ensures var n := buffer[4] as nat + 256 * (buffer[5] as nat);
      ParseBuffer(buffer, eof) ==
      if 7 + n > |buffer| then
        if eof then Physical(5, [], [], |buffer|) else Physical(6, [], [|buffer|], |buffer|)
      else if buffer[6] == 0 && n == 0 then
        Physical(6, [], [], |buffer|)
      else if buffer[..4] != Fixed(4, Mask(Crc.Value(buffer[6..7 + n])) as nat) then
        Physical(6, [], [|buffer|], |buffer|)
      else
        Physical(buffer[6] as nat, buffer[7..7 + n], [], 7 + n)
  {
    hide Crc.Value, StoredCrc, FromFixed, Fixed, Mask;
    LengthBytes(buffer[4..6]);
    var n := buffer[4] as nat + 256 * (buffer[5] as nat);
    if 7 + n <= |buffer| {
      ChecksumBytes(buffer[..4], Crc.Value(buffer[6..7 + n]));
    }
  }

  lemma SliceOf(file: Bytes, at: nat, e: nat, i: nat, j: nat)
    requires at <= e <= |file| && i <= j <= e - at
    ensures file[at..e][i..j] == file[at + i..at + j]
  {
    var a, b := file[at..e][i..j], file[at + i..at + j];
    assert |a| == |b| == j - i;
    forall k | 0 <= k < j - i
      ensures a[k] == b[k]
    {
      assert a[k] == file[at..e][i + k] == file[at + i + k];
    }
  }

  lemma PhysicalBytes(file: Bytes, p: nat)
    requires p <= |file|
    ensures Yields(file, p, PhysicalAt(file, p))
  {
    hide Crc.Value, ParseBuffer, PhysicalAt, Fixed, Mask, NextHeader, BlockEnd;
    HeaderFits(p);
    var at := NextHeader(p);
    var e := if BlockEnd(at) <= |file| then BlockEnd(at) else |file|;
    PhysicalHeader(file, p, at, e);
    if at + 7 <= |file| {
      var buffer := file[at..e];
      FrontBytes(buffer, |file| < BlockEnd(at));
      assert buffer[4] == file[at + 4] && buffer[5] == file[at + 5] && buffer[6] == file[at + 6] && |buffer| == e - at;
      var n := file[at + 4] as nat + 256 * (file[at + 5] as nat);
      if at + 7 + n <= e {
        SliceOf(file, at, e, 0, 4);
        SliceOf(file, at, e, 6, 7 + n);
        SliceOf(file, at, e, 7, 7 + n);
      }
    }
  }

  /** What one call of ReadRecord gives: a record or the end of the file, the drops it
      reports, and the position after it. */
  datatype Logical = Logical(record: Option<Bytes>, drops: seq<nat>, next: nat)

  function Reporting(drops: seq<nat>, r: Logical): Logical {
    r.(drops := drops + r.drops)
  }

  /** Bytes thrown away when a fragmented record is abandoned: an empty one is not reported. */
  function Abandoned(scratch: Option<Bytes>): seq<nat> {
    if scratch.Some? && scratch.value != [] then [|scratch.value|] else []
  }

  /** What the reader does with a physical record: return a record or stop (`done`), or go on
      with what it has gathered. */
  datatype Reaction = Reaction(done: bool, gathered: Option<Bytes>, drops: seq<nat>)

  function React(f: Physical, scratch: Option<Bytes>): Reaction {
    if f.t == FULL_TYPE then
      Reaction(true, Some(f.payload), Abandoned(scratch))
    else if f.t == FIRST_TYPE then
      Reaction(false, Some(f.payload), Abandoned(scratch))
    else if f.t == MIDDLE_TYPE || f.t == LAST_TYPE then
      if scratch.None? then
        Reaction(false, None, [|f.payload|])
      else
        Reaction(f.t == LAST_TYPE, Some(scratch.value + f.payload), [])
    else if f.t == EOF_TYPE then
      Reaction(true, None, [])
    else if f.t == BAD_RECORD then
      Reaction(false, None, if scratch.Some? then [|scratch.value|] else [])
    else
      Reaction(false, None, [|f.payload| + if scratch.Some? then |scratch.value| else 0])
  }

  function LogicalAt(file: Bytes, p: nat, scratch: Option<Bytes>): (r: Logical)
    requires p <= |file|
    ensures r.record.Some? ==> p < r.next <= |file|
    decreases |file| - p
  {
    var f := PhysicalAt(file, p);
    var reaction := React(f, scratch);
    if reaction.done then
      Logical(reaction.gathered, f.drops + reaction.drops, f.next)
    else
      Reporting(f.drops + reaction.drops, LogicalAt(file, f.next, reaction.gathered))
  }

  lemma LogicalStep(file: Bytes, p: nat, scratch: Option<Bytes>)
    requires p <= |file|
    ensures var f := PhysicalAt(file, p);
      var reaction := React(f, scratch);
      LogicalAt(file, p, scratch) ==
        if reaction.done then
          Logical(reaction.gathered, f.drops + reaction.drops, f.next)
        else
          Reporting(f.drops + reaction.drops, LogicalAt(file, f.next, reaction.gathered))
  {
  }

  // ---------------------------------------------------------------- what a record is made of

  datatype Piece = Piece(at: nat, t: byte, payload: Bytes)

  /** A fragment stands in the file behind its header: the masked checksum of type and payload, the
      length and the type, within one block. */
  ghost predicate Stands(file: Bytes, x: Piece) {
    |x.payload| < 65536 && x.at + 7 + |x.payload| <= |file| && x.at % 32768 + 7 + |x.payload| <= 32768 &&
    file[x.at..x.at + 7 + |x.payload|] ==
      Fixed(4, Mask(Crc.Value([x.t] + x.payload)) as nat) + Fixed(2, |x.payload|) + [x.t] + x.payload
  }

  ghost predicate AllStand(file: Bytes, xs: seq<Piece>) {
    forall i :: 0 <= i < |xs| ==> Stands(file, xs[i])
  }

  /** One after the other between two positions. */
  ghost predicate InTurn(xs: seq<Piece>, from: nat, to: nat) {
    (forall i :: 0 <= i < |xs| ==> from <= xs[i].at && xs[i].at + 7 + |xs[i].payload| <= to) &&
    (forall i, j :: 0 <= i < j < |xs| ==> xs[i].at + 7 + |xs[i].payload| <= xs[j].at)
  }

  ghost function Joined(xs: seq<Piece>): Bytes {
    if xs == [] then [] else Joined(xs[..|xs| - 1]) + xs[|xs| - 1].payload
  }

  /** A first fragment and middle ones. */
  ghost predicate Begun(xs: seq<Piece>) {
    xs != [] && xs[0].t == 2 && forall i :: 0 < i < |xs| ==> xs[i].t == 3
  }

  /** One full fragment, or a first, any middle ones and a last. */
  ghost predicate WholeRecord(xs: seq<Piece>) {
    (|xs| == 1 && xs[0].t == 1) || (|xs| > 1 && xs[|xs| - 1].t == 4 && Begun(xs[..|xs| - 1]))
  }

  /** The fragments behind what has been gathered. */
  ghost predicate Gathered(file: Bytes, xs: seq<Piece>, from: nat, p: nat, scratch: Option<Bytes>) {
    scratch.Some? ==> Begun(xs) && AllStand(file, xs) && InTurn(xs, from, p) && Joined(xs) == scratch.value
  }

  lemma JoinedSnoc(xs: seq<Piece>, x: Piece)
    ensures Joined(xs + [x]) == Joined(xs) + x.payload && Joined([x]) == x.payload
  {
    assert (xs + [x])[..|xs|] == xs && [x][..0] == [];
    assert Joined([x]) == Joined([x][..0]) + x.payload;
  }

  lemma TwoBytes(s: Bytes)
    requires |s| == 2
    ensures Fixed(2, FromFixed(s)) == s && FromFixed(s) < 65536
  {
    FixedOnto(s);
    LengthBytes(s);
  }

  /** A physical record of one of the four types stands in the file. */
  lemma PhysicalStands(file: Bytes, p: nat) returns (x: Piece)
    requires p <= |file| && 1 <= PhysicalAt(file, p).t <= 4
    ensures var f := PhysicalAt(file, p);
      x.t as nat == f.t && x.payload == f.payload && p <= x.at && x.at + 7 + |x.payload| == f.next && Stands(file, x)
  {
    hide Crc.Value, FromFixed, PhysicalAt, Fixed, Mask, NextHeader, BlockEnd;
    HeaderFits(p);
    PhysicalBytes(file, p);
    var at := NextHeader(p);
    var n := file[at + 4] as nat + 256 * (file[at + 5] as nat);
    x := Piece(at, file[at + 6], file[at + 7..at + 7 + n]);
    assert file[at + 6..at + 7 + n] == [x.t] + x.payload;
    TwoBytes(file[at + 4..at + 6]);
    LengthBytes(file[at + 4..at + 6]);
    assert file[at..at + 7 + n] == file[at..at + 4] + file[at + 4..at + 6] + [x.t] + x.payload;
  }

  /** For every file, damaged or not: a record that is returned is made of fragments that stand in the
      file, each behind its correct checksum, in turn and of the right types. */
  lemma {:induction false} RecordStands(file: Bytes, p: nat, scratch: Option<Bytes>, xs: seq<Piece>, from: nat)
    returns (ys: seq<Piece>)
    requires from <= p <= |file| && Gathered(file, xs, from, p, scratch) && LogicalAt(file, p, scratch).record.Some?
    ensures var r := LogicalAt(file, p, scratch);
      WholeRecord(ys) && AllStand(file, ys) && InTurn(ys, from, r.next) && Joined(ys) == r.record.value
    decreases |file| - p
  {
    hide LogicalAt, PhysicalAt, Stands, Joined;
    LogicalStep(file, p, scratch);
    var f := PhysicalAt(file, p);
    if 1 <= f.t <= 4 {
      var x := PhysicalStands(file, p);
      JoinedSnoc(xs, x);
      if f.t == 1 {
        ys := [x];
      } else if f.t == 2 {
        ys := RecordStands(file, f.next, Some(f.payload), [x], from);
      } else if scratch.None? {
        ys := RecordStands(file, f.next, None, xs, from);
      } else if f.t == 3 {
        ys := RecordStands(file, f.next, Some(scratch.value + f.payload), xs + [x], from);
      } else {
        ys := xs + [x];
        assert ys[..|ys| - 1] == xs;
      }
    } else {
      ys := RecordStands(file, f.next, None, xs, from);
    }
  }

  /** All the records that a reader returns before it reports the end, and all its drops. */
  function ReadAll(file: Bytes, p: nat): (r: (seq<Bytes>, seq<nat>))
    requires p <= |file|
    decreases |file| - p
  {
    var one := LogicalAt(file, p, None);
    if one.record.None? then
      ([], one.drops)
    else
      var rest := ReadAll(file, one.next);
      ([one.record.value] + rest.0, one.drops + rest.1)
  }

  // ---------------------------------------------------------------- the writer

  class Writer {
    var dest: Bytes
    var block_offset: nat

    predicate Valid()
      reads this
    {
      block_offset <= BLOCK_SIZE && block_offset % BLOCK_SIZE == |dest| % BLOCK_SIZE
    }

    constructor (existing: Bytes)
      ensures Valid() && dest == existing
    {
      dest := existing;
      block_offset := |existing| % BLOCK_SIZE;
    }

    method EmitPhysicalRecord(t: nat, payload: Bytes)
      requires Valid() && FULL_TYPE <= t <= LAST_TYPE
      requires block_offset + HEADER_SIZE + |payload| <= BLOCK_SIZE
      modifies this
      ensures Valid()
      ensures dest == old(dest) + Header(t, payload) + payload
      ensures block_offset == old(block_offset) + HEADER_SIZE + |payload|
    {
      hide Mask, Extend, Crc.Value, Fixed;
      var crc := Mask(Extend(Crc.Value([t as byte]), payload));
      dest := dest + (Fixed(4, crc as nat) + Fixed(2, |payload|) + [t as byte]);
      dest := dest + payload;
      block_offset := block_offset + HEADER_SIZE + |payload|;
    }

    /** One round of the loop in AddRecord: fill up the block if no header fits, then emit as
        much as fits. */
    method EmitNext(left: Bytes, begin: bool) returns (n: nat)
      requires Valid()
      modifies this
      ensures Valid()
      ensures n == FragmentLength(old(block_offset), |left|)
      ensures dest == old(dest) + Fragment(old(block_offset), left, begin)
      ensures block_offset == Start(old(block_offset)) + HEADER_SIZE + n
    {
      hide Header, Mask, Extend, Crc.Value;
      var leftover := BLOCK_SIZE - block_offset;
      if leftover < HEADER_SIZE {
        dest := dest + seq(leftover, i => 0);
        block_offset := 0;
      }
      var avail := BLOCK_SIZE - block_offset - HEADER_SIZE;
      n := if |left| < avail then |left| else avail;
      var end := n == |left|;
      var t;
      if begin && end {
        t := FULL_TYPE;
      } else if begin {
        t := FIRST_TYPE;
      } else if end {
        t := LAST_TYPE;
      } else {
        t := MIDDLE_TYPE;
      }
      EmitPhysicalRecord(t, left[..n]);
    }

    method AddRecord(data: Bytes)
      requires Valid()
      modifies this
      ensures Valid()
      ensures dest == old(dest) + Encoded(OffsetAt(old(|dest|)), data, true)
    {
      hide Fragment, Encoded;
      var left, begin := data, true;
      ghost var whole := dest + Encoded(block_offset, data, true);
      EncodedAtBlockEnd(data, true);
      assert block_offset == BLOCK_SIZE || block_offset == |dest| % BLOCK_SIZE;
      while true
        invariant Valid() && whole == dest + Encoded(block_offset, left, begin)
        decreases |left|, if FragmentLength(block_offset, 1) == 0 then 1 else 0
      {
        EncodedStep(block_offset, left, begin);
        var n := EmitNext(left, begin);
        left := left[n..];
        begin := false;
        if left == [] {
          break;
        }
      }
    }
  }

  lemma EncodedStep(offset: nat, data: Bytes, begin: bool)
    requires offset <= BLOCK_SIZE
    ensures var n := FragmentLength(offset, |data|);
      Encoded(offset, data, begin) == Fragment(offset, data, begin) +
        if n == |data| then [] else Encoded(Start(offset) + HEADER_SIZE + n, data[n..], false)
  {
  }

  /** A full block and an empty one continue in the same way. */
  lemma EncodedAtBlockEnd(data: Bytes, begin: bool)
    ensures Encoded(BLOCK_SIZE, data, begin) == Encoded(0, data, begin)
  {
    hide Header;
    assert Trailer(BLOCK_SIZE) == [] == Trailer(0);
  }

  // ---------------------------------------------------------------- the reader

  /** Reader with checksums on and initial offset 0. */
  class Reader {
    const file: Bytes
    var pos: nat
    var buffer: Bytes
    var eof: bool
    /** The sizes passed to Reporter::Corruption. */
    var drops: seq<nat>

    function Position(): int
      reads this
    {
      pos - |buffer|
    }

    ghost predicate Valid()
      reads this
    {
      |buffer| <= pos <= |file| && |buffer| <= BLOCK_SIZE &&
      buffer == file[Position()..pos] &&
      (if eof then pos == |file| && AtEof(file, Position()) else OffsetAt(pos) == 0)
    }

    constructor (contents: Bytes)
      ensures Valid() && Position() == 0 && file == contents && drops == []
    {
      hide AtEof;
      file := contents;
      pos, buffer, eof, drops := 0, [], false, [];
    }

    /** The part of ReadPhysicalRecord that refills the buffer: false at the end of the file. */
    method Fill() returns (more: bool)
      requires Valid()
      modifies this`pos, this`buffer, this`eof
      ensures Valid()
      ensures PhysicalAt(file, old(Position())) ==
        if more then PhysicalAt(file, Position()) else Physical(EOF_TYPE, [], [], Position())
      ensures more ==> |buffer| >= HEADER_SIZE
    {
      hide PhysicalAt, AtEof;
      while |buffer| < HEADER_SIZE
        invariant Valid()
        invariant PhysicalAt(file, Position()) == PhysicalAt(file, old(Position()))
        decreases |file| - pos, if eof then 0 else 1
      {
        BufferFacts();
        if !eof {
          var n := if |file| - pos < BLOCK_SIZE then |file| - pos else BLOCK_SIZE;
          assert n < BLOCK_SIZE ==> AtEof(file, pos) by { ShortRead(file, pos); }
          buffer := file[pos..pos + n];
          pos := pos + n;
          if |buffer| < BLOCK_SIZE {
            eof := true;
          }
        } else {
          buffer := [];
          return false;
        }
      }
      return true;
    }

    /** The buffer is what is left of the current block. */
    lemma BufferFacts()
      requires Valid()
      ensures buffer != [] || eof ==> pos == BufferEnd(file, Position()) && (eof <==> AtEof(file, Position()))
      ensures !eof && |buffer| < HEADER_SIZE ==> PhysicalAt(file, Position()) == PhysicalAt(file, pos)
      ensures eof && |buffer| < HEADER_SIZE ==> PhysicalAt(file, Position()) == Physical(EOF_TYPE, [], [], |file|)
      ensures eof ==> AtEof(file, |file|)
    {
      hide ParseBuffer;
    }

    method ReadPhysicalRecord() returns (t: nat, payload: Bytes)
      requires Valid()
      modifies this
      ensures Valid()
      ensures var r := PhysicalAt(file, old(Position()));
        r.t == t && r.payload == payload && r.next == Position() && drops == old(drops) + r.drops
      ensures old(drops) <= drops
      ensures Yields(file, old(Position()), Physical(t, payload, drops[|old(drops)|..], Position()))
    {
      hide Crc.Value, Unmask, FromFixed, StoredCrc, PhysicalAt, Yields;
      PhysicalBytes(file, Position());
      var more := Fill();
      if !more {
        return EOF_TYPE, [];
      }
      FillFacts();
      hide AtEof, BufferEnd;
      var length := FromFixed(buffer[4..6]);
      t := buffer[6] as nat;
      if HEADER_SIZE + length > |buffer| {
        var drop_size := |buffer|;
        buffer := [];
        if !eof {
          drops := drops + [drop_size];
          return BAD_RECORD, [];
        }
        return EOF_TYPE, [];
      }
      if t == ZERO_TYPE && length == 0 {
        buffer := [];
        return BAD_RECORD, [];
      }
      var expected := StoredCrc(buffer[..4]);
      var actual := Crc.Value(buffer[6..HEADER_SIZE + length]);
      if actual != expected {
        drops := drops + [|buffer|];
        buffer := [];
        return BAD_RECORD, [];
      }
      payload := buffer[HEADER_SIZE..HEADER_SIZE + length];
      buffer := buffer[HEADER_SIZE + length..];
    }

    lemma FillFacts()
      requires Valid() && |buffer| >= HEADER_SIZE
      ensures PhysicalAt(file, Position()) == var r := ParseBuffer(buffer, eof); r.(next := Position() + r.next)
      ensures eof ==> forall p :: Position() <= p <= pos ==> AtEof(file, p)
    {
      hide ParseBuffer;
      BufferFacts();
    }

    /** The switch in ReadRecord. */
    method Handle(t: nat, fragment: Bytes, in_fragmented_record: bool, scratch: Bytes)
      returns (done: bool, still_in_record: bool, gathered: Bytes)
      modifies this`drops
      ensures var r := React(Physical(t, fragment, [], 0), Held(in_fragmented_record, scratch));
        r.done == done && r.gathered == Held(still_in_record, gathered) && drops == old(drops) + r.drops
    {
      done, still_in_record, gathered := false, in_fragmented_record, scratch;
      if t == FULL_TYPE {
        if in_fragmented_record && scratch != [] {
          drops := drops + [|scratch|];
        }
        return true, true, fragment;
      } else if t == FIRST_TYPE {
        if in_fragmented_record && scratch != [] {
          drops := drops + [|scratch|];
        }
        still_in_record, gathered := true, fragment;
      } else if t == MIDDLE_TYPE {
        if !in_fragmented_record {
          drops := drops + [|fragment|];
        } else {
          gathered := scratch + fragment;
        }
      } else if t == LAST_TYPE {
        if !in_fragmented_record {
          drops := drops + [|fragment|];
        } else {
          return true, true, scratch + fragment;
        }
      } else if t == EOF_TYPE {
        return true, false, [];
      } else if t == BAD_RECORD {
        if in_fragmented_record {
          drops := drops + [|scratch|];
          still_in_record, gathered := false, [];
        }
      } else {
        drops := drops + [|fragment| + if in_fragmented_record then |scratch| else 0];
        still_in_record, gathered := false, [];
      }
    }

    method ReadRecord() returns (record: Option<Bytes>)
      requires Valid()
      modifies this
      ensures Valid()
      ensures var r := LogicalAt(file, old(Position()), None);
        r.record == record && r.next == Position() && drops == old(drops) + r.drops
      ensures record.Some? ==> exists xs ::
        WholeRecord(xs) && AllStand(file, xs) && InTurn(xs, old(Position()), Position()) && Joined(xs) == record.value
    {
      hide PhysicalAt, LogicalAt, AtEof, BufferEnd, React, OffsetAt, WholeRecord, AllStand, InTurn, Joined;
      var scratch, in_fragmented_record := [], false;
      ghost var whole := LogicalAt(file, Position(), None);
      ghost var pieces: seq<Piece> := [];
      if whole.record.Some? {
        pieces := RecordStands(file, Position(), None, [], Position());
      }
      while true
        invariant Valid()
        invariant var r := LogicalAt(file, Position(), Held(in_fragmented_record, scratch));
          whole.record == r.record && whole.next == r.next && old(drops) + whole.drops == drops + r.drops
        decreases |file| - Position()
      {
        ghost var held := Held(in_fragmented_record, scratch);
        ghost var f := PhysicalAt(file, Position());
        ghost var reaction := React(f, held);
        LogicalStep(file, Position(), held);
        ReactLooksAt(f, held);
        if !reaction.done {
          Regroup(drops, f.drops, reaction.drops, LogicalAt(file, f.next, reaction.gathered).drops);
        } else {
          Regroup(drops, f.drops, reaction.drops, []);
        }
        var t, fragment := ReadPhysicalRecord();
        var done, still_in_record, gathered := Handle(t, fragment, in_fragmented_record, scratch);
        if done {
          return if still_in_record then Some(gathered) else None;
        }
        in_fragmented_record, scratch := still_in_record, gathered;
      }
    }
  }

  lemma Regroup(a: seq<nat>, b: seq<nat>, c: seq<nat>, d: seq<nat>)
    ensures a + (b + c + d) == a + b + c + d
    ensures a + (b + c) == a + b + c
  {
  }

  lemma ShortRead(file: Bytes, pos: nat)
    requires pos % BLOCK_SIZE == 0
    ensures |file| - pos < BLOCK_SIZE ==> AtEof(file, pos)
  {
  }

  function Held(in_fragmented_record: bool, scratch: Bytes): Option<Bytes> {
    if in_fragmented_record then Some(scratch) else None
  }

  lemma ReactLooksAt(f: Physical, scratch: Option<Bytes>)
    ensures React(f, scratch) == React(Physical(f.t, f.payload, [], 0), scratch)
    ensures f.t == EOF_TYPE ==> React(f, scratch).done
  {
  }
}
