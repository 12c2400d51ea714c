/** The log reader on any file, damaged or not: fragments that stand in a row are read as the record
    they make, and no byte of a payload is lost without a report before the end of the file
    (db/log_reader.cc). */
module LogSound {
  import opened DbFormat
  import opened Coding
  import opened Crc
  import opened Log

  lemma HeaderBytes(a: Bytes, n: nat, t: byte, payload: Bytes)
    requires |a| == 4 && n < 65536
    ensures var s := a + Fixed(2, n) + [t] + payload;
      |s| == 7 + |payload| && s[..4] == a && s[4] as nat + 256 * (s[5] as nat) == n && s[6] == t &&
      s[6..] == [t] + payload && s[7..] == payload
  {
    hide FromFixed, Fixed, Power;
    var s := a + Fixed(2, n) + [t] + payload;
    assert s[4..6] == Fixed(2, n);
    WordSizes();
    FixedRoundTrip(2, n);
    LengthBytes(s[4..6]);
  }

  /** The parts of a fragment that stands. */
  lemma PieceBytes(file: Bytes, x: Piece)
    requires Stands(file, x)
    ensures var at, n := x.at, |x.payload|;
      at + 7 + n <= |file| && at + 7 + n <= BlockEnd(at) &&
      file[at + 4] as nat + 256 * (file[at + 5] as nat) == n && file[at + 6] == x.t &&
      file[at..at + 4] == Fixed(4, Mask(Crc.Value(file[at + 6..at + 7 + n])) as nat) &&
      file[at + 7..at + 7 + n] == x.payload
  {
    hide Crc.Value, FromFixed, Fixed, Mask;
    var at, n := x.at, |x.payload|;
    var s := file[at..at + 7 + n];
    HeaderBytes(Fixed(4, Mask(Crc.Value([x.t] + x.payload)) as nat), n, x.t, x.payload);
    assert s[4] == file[at + 4] && s[5] == file[at + 5] && s[6] == file[at + 6];
    SliceOf(file, at, at + 7 + n, 0, 4);
    SliceOf(file, at, at + 7 + n, 6, 7 + n);
    SliceOf(file, at, at + 7 + n, 7, 7 + n);
    assert s[6..7 + n] == s[6..] && s[7..7 + n] == s[7..];
  }

  /** A fragment of a known type is read where it stands, whoever wrote it. */
  lemma StandsReads(file: Bytes, p: nat, x: Piece)
    requires p <= |file| && Stands(file, x) && x.at == NextHeader(p) && x.t != 0
    ensures PhysicalAt(file, p) == Physical(x.t as nat, x.payload, [], x.at + 7 + |x.payload|)
  {
    hide Crc.Value, PhysicalAt, Fixed, Mask, NextHeader, BlockEnd, Stands;
    PhysicalBytes(file, p);
    PieceBytes(file, x);
  }

  /** Each fragment where the reader looks after the one before. */
  ghost predicate InRow(xs: seq<Piece>, p: nat) {
    (xs != [] ==> xs[0].at == NextHeader(p)) &&
    forall i :: 0 < i < |xs| ==> xs[i].at == NextHeader(xs[i - 1].at + 7 + |xs[i - 1].payload|)
  }

  ghost function JoinedFrom(xs: seq<Piece>): Bytes {
    if xs == [] then [] else xs[0].payload + JoinedFrom(xs[1..])
  }

  lemma {:induction false} SameJoined(xs: seq<Piece>)
    ensures Joined(xs) == JoinedFrom(xs)
  {
    if |xs| == 1 {
      JoinedSnoc([], xs[0]);
      assert xs == [xs[0]] && [] + xs[0].payload == xs[0].payload;
    } else if |xs| > 1 {
      var n := |xs| - 1;
      var front := xs[..n];
      SameJoined(front);
      SameJoined(xs[1..]);
      SameJoined(front[1..]);
      assert xs[1..][..n - 1] == front[1..] && xs[1..][n - 1] == xs[n];
      assert xs[0].payload + JoinedFrom(front[1..]) + xs[n].payload == xs[0].payload + (JoinedFrom(front[1..]) + xs[n].payload);
    }
  }

  /** The types that may follow what has been gathered. */
  ghost predicate Follows(xs: seq<Piece>, scratch: Option<Bytes>) {
    if scratch.None? then
      WholeRecord(xs)
    else
      xs != [] && xs[|xs| - 1].t == 4 && forall i :: 0 <= i < |xs| - 1 ==> xs[i].t == 3
  }

  lemma {:induction false} RowIsRead(file: Bytes, p: nat, scratch: Option<Bytes>, xs: seq<Piece>)
    requires p <= |file| && AllStand(file, xs) && InRow(xs, p) && Follows(xs, scratch)
    ensures var last := xs[|xs| - 1];
      LogicalAt(file, p, scratch) ==
      Logical(Some((if scratch.Some? then scratch.value else []) + JoinedFrom(xs)), [], last.at + 7 + |last.payload|)
    decreases |xs|
  {
    hide LogicalAt, PhysicalAt, Stands, NextHeader;
    var x, rest := xs[0], xs[1..];
    assert x.t != 0;
    assert Stands(file, x);
    StandsReads(file, p, x);
    LogicalStep(file, p, scratch);
    var held := if scratch.Some? then scratch.value else [];
    if |xs| == 1 {
      assert JoinedFrom(rest) == [] && x.payload + [] == x.payload;
      assert JoinedFrom(xs) == x.payload && [] + x.payload == x.payload;
      if scratch.None? {
        assert x.t == 1;
      } else {
        assert xs[|xs| - 1] == x && x.t == 4;
      }
    } else {
      StandsInside(file, x);
      assert AllStand(file, rest);
      assert InRow(rest, x.at + 7 + |x.payload|);
      RowIsRead(file, x.at + 7 + |x.payload|, Some(held + x.payload), rest);
      assert held + x.payload + JoinedFrom(rest) == held + (x.payload + JoinedFrom(rest));
      assert [] + x.payload == x.payload;
    }
  }

  lemma StandsInside(file: Bytes, x: Piece)
    requires Stands(file, x)
    ensures x.at + 7 + |x.payload| <= |file|
  {
  }

  /** The other direction of RecordStands: whole records that stand in a row at a position are
      returned, with nothing reported. */
  lemma StandingRecordIsRead(file: Bytes, p: nat, xs: seq<Piece>)
    requires p <= |file| && WholeRecord(xs) && AllStand(file, xs) && InRow(xs, p)
    ensures var r := LogicalAt(file, p, None);
      r.record == Some(Joined(xs)) && r.drops == [] && r.next == xs[|xs| - 1].at + 7 + |xs[|xs| - 1].payload|
  {
    hide LogicalAt, Stands;
    RowIsRead(file, p, None, xs);
    SameJoined(xs);
    assert [] + JoinedFrom(xs) == JoinedFrom(xs);
  }

  // ---------------------------------------------------------------- accounting

  function Sum(ns: seq<nat>): nat {
    if ns == [] then 0 else ns[0] + Sum(ns[1..])
  }

  lemma {:induction false} SumConcat(a: seq<nat>, b: seq<nat>)
    ensures Sum(a + b) == Sum(a) + Sum(b)
  {
    if a == [] {
      assert a + b == b;
    } else {
      assert (a + b)[1..] == a[1..] + b;
      SumConcat(a[1..], b);
    }
  }

  /** The bytes between two positions that the reader sees as payloads or as damage: what the physical
      records there hold and what was dropped with them. */
  function Seen(file: Bytes, p: nat, next: nat): nat
    requires p <= |file|
    decreases |file| - p
  {
    var f := PhysicalAt(file, p);
    if p >= next || f.next <= p then 0 else |f.payload| + Sum(f.drops) + Seen(file, f.next, next)
  }

  function Length(b: Option<Bytes>): nat {
    if b.Some? then |b.value| else 0
  }

  lemma ReactCounts(f: Physical, scratch: Option<Bytes>)
    requires f.t != 5 && (f.t == 6 ==> f.payload == [])
    ensures var r := React(f, scratch); Length(r.gathered) + Sum(r.drops) == Length(scratch) + |f.payload|
  {
    assert forall n: nat :: Sum([n]) == n + Sum([n][1..]);
  }

  /** No byte is lost: what a call returns and reports is what it held before and what it saw, for every
      file; only at the end of the file is an unfinished record passed over in silence. */
  lemma {:induction false} NothingLost(file: Bytes, p: nat, scratch: Option<Bytes>)
    requires p <= |file|
    requires forall q :: p <= q <= |file| && PhysicalAt(file, q).t == 6 ==> PhysicalAt(file, q).payload == []
    ensures var r := LogicalAt(file, p, scratch);
      p <= r.next <= |file| &&
      (r.record.Some? ==> Sum(r.drops) + |r.record.value| == Length(scratch) + Seen(file, p, r.next)) &&
      (r.record.None? ==> Sum(r.drops) <= Length(scratch) + Seen(file, p, r.next))
    decreases |file| - p
  {
    hide LogicalAt, PhysicalAt, React;
    LogicalStep(file, p, scratch);
    var f := PhysicalAt(file, p);
    var reaction := React(f, scratch);
    ReactLooksAt(f, scratch);
    SumConcat(f.drops, reaction.drops);
    if f.t != 5 {
      ReactCounts(f, scratch);
      if !reaction.done {
        NothingLost(file, f.next, reaction.gathered);
        var rest := LogicalAt(file, f.next, reaction.gathered);
        SumConcat(f.drops + reaction.drops, rest.drops);
        SeenGrows(file, p, rest.next);
      } else {
        assert LogicalAt(file, p, scratch).record == reaction.gathered;
        SeenGrows(file, p, f.next);
      }
    } else {
      EndIsSilent(file, p, scratch);
    }
  }

  lemma EndIsSilent(file: Bytes, p: nat, scratch: Option<Bytes>)
    requires p <= |file| && PhysicalAt(file, p).t == 5
    ensures PhysicalAt(file, p).drops == [] && p <= PhysicalAt(file, p).next
    ensures React(PhysicalAt(file, p), scratch) == Reaction(true, None, [])
  {
    hide PhysicalAt, Fixed, Mask, Crc.Value, BlockEnd;
    PhysicalBytes(file, p);
  }

  lemma SeenGrows(file: Bytes, p: nat, next: nat)
    requires p <= |file| && PhysicalAt(file, p).t != 5 && PhysicalAt(file, p).next <= next <= |file|
    ensures var f := PhysicalAt(file, p);
      Seen(file, p, next) == |f.payload| + Sum(f.drops) + Seen(file, f.next, next) && Seen(file, next, next) == 0
  {
  }

  // ---------------------------------------------------------------- what the writer writes

  /** Fragments but the last fill their block, and what lies before the first is zeros. */
  ghost predicate Filled(file: Bytes, p: nat, xs: seq<Piece>) {
    (forall i :: 0 <= i < |xs| - 1 ==> (xs[i].at + 7 + |xs[i].payload|) % 32768 == 0) &&
    (xs != [] ==> forall q :: p <= q < xs[0].at && q < |file| ==> file[q] == 0)
  }

  lemma TypedByte(file: Bytes, at: nat, t: nat, payload: Bytes)
    requires t < 256 && |payload| < 65536 && at % 32768 + 7 + |payload| <= 32768
    requires at + 7 + |payload| <= |file| && file[at..at + 7 + |payload|] == Header(t, payload) + payload
    ensures Stands(file, Piece(at, t as byte, payload))
  {
    hide Crc.Value, Mask, Fixed;
    ExtendConcat([t as byte], payload);
  }

  /** The first fragment of a record stands where the reader will look for it. */
  lemma FirstFragment(file: Bytes, p: nat, data: Bytes, begin: bool)
    requires p <= |file| && Fragment(OffsetAt(p), data, begin) <= file[p..]
    ensures var n := FragmentLength(OffsetAt(p), |data|);
      var x := Piece(NextHeader(p), FragmentType(begin, n == |data|) as byte, data[..n]);
      var next := p + |Fragment(OffsetAt(p), data, begin)|;
      Stands(file, x) && next == x.at + 7 + n && Filled(file, p, [x]) &&
      (n < |data| ==> next % 32768 == 0)
  {
    hide Header, Stands, Fragment;
    var offset := OffsetAt(p);
    var n := FragmentLength(offset, |data|);
    var t := FragmentType(begin, n == |data|);
    var trailer, rest := Trailer(offset), Header(t, data[..n]) + data[..n];
    FragmentIs(offset, data, begin);
    HeaderAt(p);
    var at := p + |trailer|;
    var s := file[p..];
    assert (trailer + rest)[..|trailer|] == trailer && (trailer + rest)[|trailer|..] == rest;
    assert s[..|trailer + rest|] == trailer + rest;
    assert file[at..at + |rest|] == s[..|trailer + rest|][|trailer|..];
    TypedByte(file, at, t, data[..n]);
    forall q | p <= q < at && q < |file|
      ensures file[q] == 0
    {
      assert file[q] == s[..|trailer + rest|][q - p] == trailer[q - p];
    }
  }

  lemma FragmentIs(offset: nat, data: Bytes, begin: bool)
    requires offset <= BLOCK_SIZE
    ensures var n := FragmentLength(offset, |data|);
      Fragment(offset, data, begin) == Trailer(offset) + (Header(FragmentType(begin, n == |data|), data[..n]) + data[..n])
  {
    hide Header;
  }

  lemma HeaderAt(p: nat)
    ensures NextHeader(p) == p + |Trailer(OffsetAt(p))| && NextHeader(p) % 32768 == Start(OffsetAt(p))
  {
  }

  /** A record that goes on does so at the start of a block. */
  lemma NextBlock(p: nat, data: Bytes, begin: bool)
    requires FragmentLength(OffsetAt(p), |data|) < |data|
    ensures var n := FragmentLength(OffsetAt(p), |data|);
      var next := p + |Fragment(OffsetAt(p), data, begin)|;
      OffsetAt(next) == 0 && (n == 0 ==> FragmentLength(OffsetAt(p), 1) == 0) && FragmentLength(0, 1) == 1 &&
      Encoded(Start(OffsetAt(p)) + HEADER_SIZE + n, data[n..], false) == Encoded(OffsetAt(next), data[n..], false)
  {
    hide Header, Encoded;
    EncodedAtBlockEnd(data[FragmentLength(OffsetAt(p), |data|)..], false);
  }

  lemma JoinPieces(file: Bytes, p: nat, next: nat, x: Piece, rest: seq<Piece>, begin: bool, data: Bytes, n: nat)
    requires Stands(file, x) && x.at == NextHeader(p) && next == x.at + 7 + |x.payload| && next % 32768 == 0
    requires n < |data| && x.payload == data[..n] && x.t == (if begin then 2 else 3) && Filled(file, p, [x])
    requires AllStand(file, rest) && InRow(rest, next) && JoinedFrom(rest) == data[n..] && Filled(file, next, rest)
    requires rest != [] && Follows(rest, Some([]))
    ensures var xs := [x] + rest;
      AllStand(file, xs) && InRow(xs, p) && JoinedFrom(xs) == data && Filled(file, p, xs) &&
      Follows(xs, if begin then None else Some([]))
  {
    hide Stands, NextHeader;
    var xs := [x] + rest;
    assert xs[1..] == rest && xs[0] == x;
    assert data == data[..n] + data[n..];
    assert forall i :: 0 < i < |xs| ==> xs[i] == rest[i - 1];
    assert [x][0] == x;
    JoinTypes(x, rest, begin);
    hide Follows;
    assert AllStand(file, xs) && JoinedFrom(xs) == data;
    hide AllStand, JoinedFrom;
    assert InRow(xs, p);
    hide InRow;
  }

  lemma JoinTypes(x: Piece, rest: seq<Piece>, begin: bool)
    requires x.t == (if begin then 2 else 3) && rest != [] && Follows(rest, Some([]))
    ensures Follows([x] + rest, if begin then None else Some([]))
  {
    var xs := [x] + rest;
    assert forall i :: 0 < i < |xs| ==> xs[i] == rest[i - 1];
    if begin {
      var front := xs[..|xs| - 1];
      assert forall i :: 0 <= i < |front| ==> front[i] == xs[i];
    }
  }

  /** What AddRecord appends is the record in fragments, each as long as its block allows, and a
      block is left only when no header fits any more. */
  lemma {:induction false} WrittenInPieces(file: Bytes, p: nat, data: Bytes, begin: bool) returns (xs: seq<Piece>)
    requires p <= |file| && file[p..] == Encoded(OffsetAt(p), data, begin)
    ensures AllStand(file, xs) && InRow(xs, p) && JoinedFrom(xs) == data && Filled(file, p, xs)
    ensures Follows(xs, if begin then None else Some([]))
    ensures xs != [] && xs[|xs| - 1].at + 7 + |xs[|xs| - 1].payload| == |file|
    decreases |data|, if FragmentLength(OffsetAt(p), 1) == 0 then 1 else 0
  {
    hide Encoded, Fragment, Stands, NextHeader, OffsetAt;
    var offset := OffsetAt(p);
    var n := FragmentLength(offset, |data|);
    EncodedStep(offset, data, begin);
    FirstFragment(file, p, data, begin);
    var x := Piece(NextHeader(p), FragmentType(begin, n == |data|) as byte, data[..n]);
    var next := p + |Fragment(offset, data, begin)|;
    if n == |data| {
      xs := [x];
      assert JoinedFrom([x]) == data[..n] + JoinedFrom([x][1..]) && data[..n] == data;
    } else {
      NextBlock(p, data, begin);
      assert file[next..] == file[p..][|Fragment(offset, data, begin)|..];
      var rest := WrittenInPieces(file, next, data[n..], false);
      xs := [x] + rest;
      JoinPieces(file, p, next, x, rest, begin, data, n);
    }
  }
}
