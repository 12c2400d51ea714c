/** WriteBatch: a list of updates held in its log representation (db/write_batch.cc). */
module WriteBatch {
  import opened DbFormat
  import opened Coding

  const HEADER := 12
  const TAG_DELETION: byte := 0
  const TAG_VALUE: byte := 1
  /** Counts are read back as signed 32-bit integers. */
  const MAX_COUNT := 0x8000_0000

  datatype Update = Put(key: Bytes, value: Bytes) | Delete(key: Bytes)

  predicate Fits(u: Update) {
    |u.key| < WORD32 && (u.Put? ==> |u.value| < WORD32)
  }

  predicate AllFit(us: seq<Update>) {
    forall u :: u in us ==> Fits(u)
  }

  function Record(u: Update): (s: Bytes)
    ensures |s| > 0
  {
    match u
    case Put(key, value) => [TAG_VALUE] + Prefixed(key) + Prefixed(value)
    case Delete(key) => [TAG_DELETION] + Prefixed(key)
  }

  function Records(us: seq<Update>): Bytes {
    if us == [] then [] else Record(us[0]) + Records(us[1..])
  }

  lemma {:induction false} RecordsConcat(a: seq<Update>, b: seq<Update>)
    ensures Records(a + b) == Records(a) + Records(b)
  {
    if a == [] {
      assert a + b == b;
    } else {
      assert (a + b)[1..] == a[1..] + b;
      RecordsConcat(a[1..], b);
    }
  }

  lemma RecordsSnoc(us: seq<Update>, u: Update)
    ensures Records(us + [u]) == Records(us) + Record(u)
  {
    RecordsConcat(us, [u]);
    assert Records([u]) == Record(u) + Records([]);
  }

  /** The contents of a batch: sequence number, count, updates. */
  function Rep(sequence: nat, us: seq<Update>): (s: Bytes)
    ensures |s| >= HEADER
  {
    Fixed(8, sequence) + Fixed(4, |us|) + Records(us)
  }

  /** The next update of the input. */
  function TakeRecord(input: Bytes): (r: Parse<Update>)
    requires input != []
    ensures r.Parsed? ==> |r.rest| < |input|
  {
    if input[0] == TAG_VALUE then
      match GetLengthPrefixed(input[1..])
      case Failed => Failed
      case Parsed(key, rest) =>
        match GetLengthPrefixed(rest)
        case Failed => Failed
        case Parsed(value, rest) => Parsed(Put(key, value), rest)
    else if input[0] == TAG_DELETION then
      match GetLengthPrefixed(input[1..])
      case Failed => Failed
      case Parsed(key, rest) => Parsed(Delete(key), rest)
    else
      Failed
  }

  /** The updates handed to the handler, and whether the whole input was well formed. */
  function TakeRecords(input: Bytes): (r: (seq<Update>, bool))
    decreases |input|
  {
    if input == [] then
      ([], true)
    else
      match TakeRecord(input)
      case Failed => ([], false)
      case Parsed(u, rest) =>
        var tail := TakeRecords(rest);
        ([u] + tail.0, tail.1)
  }

  lemma TakeRecordRoundTrip(u: Update, rest: Bytes)
    requires Fits(u)
    ensures TakeRecord(Record(u) + rest) == Parsed(u, rest)
  {
    hide GetLengthPrefixed, Prefixed;
    var s := Record(u) + rest;
    match u {
      case Put(key, value) =>
        assert s[1..] == Prefixed(key) + (Prefixed(value) + rest);
        PrefixedRoundTrip(key, Prefixed(value) + rest);
        PrefixedRoundTrip(value, rest);
      case Delete(key) =>
        assert s[1..] == Prefixed(key) + rest;
        PrefixedRoundTrip(key, rest);
    }
  }

  lemma {:induction false} TakeRecordsRoundTrip(us: seq<Update>)
    requires AllFit(us)
    ensures TakeRecords(Records(us)) == (us, true)
  {
    hide Record, TakeRecord;
    if us != [] {
      TakeRecordRoundTrip(us[0], Records(us[1..]));
      TakeRecordsRoundTrip(us[1..]);
      assert us == [us[0]] + us[1..];
    }
  }

  function SequenceOf(rep: Bytes): nat
    requires |rep| >= HEADER
  {
    FromFixed(rep[..8])
  }

  /** WriteBatchInternal::Count: a signed int. */
  function CountOf(rep: Bytes): int
    requires |rep| >= HEADER
  {
    var n := FromFixed(rep[8..12]);
    if n < MAX_COUNT then n else n - WORD32
  }

  /** The updates of a batch and whether Iterate finds it well formed. */
  function Iterated(rep: Bytes): (r: (seq<Update>, bool)) {
    if |rep| < HEADER then
      ([], false)
    else
      var r := TakeRecords(rep[HEADER..]);
      (r.0, r.1 && |r.0| == CountOf(rep))
  }

  lemma RepParts(sequence: nat, us: seq<Update>)
    requires sequence < WORD64 && |us| < MAX_COUNT
    ensures var rep := Rep(sequence, us);
      SequenceOf(rep) == sequence && CountOf(rep) == |us| && rep[HEADER..] == Records(us)
  {
    hide Fixed, FromFixed, Records;
    var rep := Rep(sequence, us);
    assert rep[..8] == Fixed(8, sequence) && rep[8..12] == Fixed(4, |us|);
    WordSizes();
    FixedRoundTrip(8, sequence);
    FixedRoundTrip(4, |us|);
  }

  /** Iterating over a batch that holds some updates gives them back. */
  lemma IterateRoundTrip(sequence: nat, us: seq<Update>)
    requires sequence < WORD64 && |us| < MAX_COUNT && AllFit(us)
    ensures SequenceOf(Rep(sequence, us)) == sequence
    ensures Iterated(Rep(sequence, us)) == (us, true)
  {
    hide SequenceOf, CountOf, TakeRecords, Rep;
    RepParts(sequence, us);
    TakeRecordsRoundTrip(us);
  }

  // ---------------------------------------------------------------- every well-formed batch

  /** Bytes that stand for an update: its tag, the key, and the value of a put; lengths may be
      written in more bytes than needed. */
  ghost predicate IsRecord(s: Bytes, u: Update) {
    match u
    case Put(key, value) =>
      exists n: nat :: 0 < n <= |s| && s[0] == 1 && IsPrefixed(s[1..n], key) && IsPrefixed(s[n..], value)
    case Delete(key) => s != [] && s[0] == 0 && IsPrefixed(s[1..], key)
  }

  lemma RecordStands(s: Bytes, u: Update, rest: Bytes)
    requires IsRecord(s, u)
    ensures TakeRecord(s + rest) == Parsed(u, rest)
  {
    hide IsPrefixed, GetLengthPrefixed;
    match u {
      case Put(key, value) =>
        var n: nat :| 0 < n <= |s| && s[0] == 1 && IsPrefixed(s[1..n], key) && IsPrefixed(s[n..], value);
        assert (s + rest)[1..] == s[1..n] + (s[n..] + rest);
        PrefixedStands(s[1..n], key, s[n..] + rest);
        PrefixedStands(s[n..], value, rest);
      case Delete(key) =>
        assert (s + rest)[1..] == s[1..] + rest;
        PrefixedStands(s[1..], key, rest);
    }
  }

  lemma RecordFront(input: Bytes) returns (s: Bytes)
    requires input != [] && TakeRecord(input).Parsed?
    ensures IsRecord(s, TakeRecord(input).value) && input == s + TakeRecord(input).rest
  {
    hide IsPrefixed, GetLengthPrefixed;
    var a := PrefixedFront(input[1..]);
    s := [input[0]] + a;
    assert s[1..] == a;
    if input[0] == TAG_VALUE {
      var b := PrefixedFront(GetLengthPrefixed(input[1..]).rest);
      s := s + b;
      assert s[1..|a| + 1] == a && s[|a| + 1..] == b;
    }
  }

  /** The parts of the input stand for the updates, one by one. */
  ghost predicate AreRecords(parts: seq<Bytes>, us: seq<Update>) {
    |parts| == |us| && forall i :: 0 <= i < |us| ==> IsRecord(parts[i], us[i])
  }

  lemma {:induction false} RecordsStand(parts: seq<Bytes>, us: seq<Update>)
    requires AreRecords(parts, us)
    ensures TakeRecords(Concat(parts)) == (us, true)
  {
    hide IsRecord, TakeRecord;
    if us != [] {
      RecordNotEmpty(parts[0], us[0]);
      RecordStands(parts[0], us[0], Concat(parts[1..]));
      RecordsStand(parts[1..], us[1..]);
      assert us == [us[0]] + us[1..];
    }
  }

  lemma RecordNotEmpty(s: Bytes, u: Update)
    requires IsRecord(s, u)
    ensures s != []
  {
  }

  /** No record stands at the front of the bytes. */
  ghost predicate NoRecordIn(s: Bytes) {
    forall n: nat, u :: n <= |s| ==> !IsRecord(s[..n], u)
  }

  lemma BadRecord(s: Bytes)
    requires s != [] && TakeRecord(s).Failed?
    ensures NoRecordIn(s)
  {
    hide IsRecord, TakeRecord;
    forall n: nat, u | n <= |s|
      ensures !IsRecord(s[..n], u)
    {
      if IsRecord(s[..n], u) {
        FrontStands(s, n, u);
      }
    }
  }

  lemma FrontStands(s: Bytes, n: nat, u: Update)
    requires s != [] && n <= |s| && IsRecord(s[..n], u)
    ensures TakeRecord(s).Parsed?
  {
    hide IsRecord, TakeRecord;
    RecordStands(s[..n], u, s[n..]);
    assert s == s[..n] + s[n..];
  }

  lemma {:induction false} RecordsFront(input: Bytes) returns (parts: seq<Bytes>, junk: Bytes)
    ensures AreRecords(parts, TakeRecords(input).0) && input == Concat(parts) + junk
    ensures TakeRecords(input).1 <==> junk == []
    ensures junk == [] || NoRecordIn(junk)
    decreases |input|
  {
    hide IsRecord, TakeRecord;
    parts, junk := [], input;
    assert input == [] + input;
    if input != [] {
      if TakeRecord(input).Failed? {
        BadRecord(input);
      } else {
        var first := RecordFront(input);
        var rest, tail := RecordsFront(TakeRecord(input).rest);
        parts, junk := [first] + rest, tail;
        assert parts[1..] == rest;
        Associate(first, Concat(rest), tail);
      }
    }
  }

  /** Behind the header come the records of the updates, and then the end or no record. */
  ghost predicate IsFront(rep: Bytes, us: seq<Update>) {
    |rep| >= 12 && exists parts, junk :: Splits(rep[12..], us, parts, junk)
  }

  ghost predicate Splits(input: Bytes, us: seq<Update>, parts: seq<Bytes>, junk: Bytes) {
    AreRecords(parts, us) && input == Concat(parts) + junk && (junk == [] || NoRecordIn(junk))
  }

  /** The updates handed to the handler are those of all the records in front of the first bytes
      that are none. */
  lemma HandledMeans(rep: Bytes)
    requires |rep| >= 12
    ensures IsFront(rep, Iterated(rep).0)
  {
    hide AreRecords, TakeRecords, NoRecordIn, Concat;
    var parts, junk := RecordsFront(rep[12..]);
    assert Splits(rep[12..], Iterated(rep).0, parts, junk);
  }

  /** The records of the updates one after the other, behind twelve bytes that end with their
      number, as a signed one. */
  ghost predicate IsBatch(rep: Bytes, us: seq<Update>) {
    |rep| >= 12 && (exists parts :: AreRecords(parts, us) && rep[12..] == Concat(parts)) &&
    var n := rep[8] as int + 256 * rep[9] as int + 65536 * rep[10] as int + 16777216 * rep[11] as int;
    |us| == if n < 0x8000_0000 then n else n - 0x1_0000_0000
  }

  /** Whatever is accepted is a batch of the updates found, and every batch is accepted. */
  lemma IteratedMeans(rep: Bytes, us: seq<Update>)
    ensures Iterated(rep) == (us, true) <==> IsBatch(rep, us)
  {
    hide Iterated, IsBatch;
    if Iterated(rep).1 {
      AcceptedIsBatch(rep);
    }
    if IsBatch(rep, us) {
      BatchIsAccepted(rep, us);
    }
  }

  lemma AcceptedIsBatch(rep: Bytes)
    requires Iterated(rep).1
    ensures IsBatch(rep, Iterated(rep).0)
  {
    hide TakeRecords, FromFixed, AreRecords, NoRecordIn, Concat;
    FourBytes(rep[8..12]);
    var parts, junk := RecordsFront(rep[12..]);
    assert Concat(parts) + junk == Concat(parts);
  }

  lemma BatchIsAccepted(rep: Bytes, us: seq<Update>)
    requires IsBatch(rep, us)
    ensures Iterated(rep) == (us, true)
  {
    hide TakeRecords, FromFixed, AreRecords, Concat;
    FourBytes(rep[8..12]);
    var parts :| AreRecords(parts, us) && rep[12..] == Concat(parts);
    RecordsStand(parts, us);
  }

  lemma FourBytes(s: Bytes)
    requires |s| == 4
    ensures FromFixed(s) == s[0] as nat + 256 * s[1] as nat + 65536 * s[2] as nat + 16777216 * s[3] as nat
  {
    assert FromFixed(s[3..]) == s[3] as nat + 256 * FromFixed(s[4..]);
    assert s[2..][1..] == s[3..] && s[1..][1..] == s[2..];
    assert FromFixed(s[2..]) == s[2] as nat + 256 * FromFixed(s[3..]);
    assert FromFixed(s[1..]) == s[1] as nat + 256 * FromFixed(s[2..]);
  }

  class Batch {
    var rep: Bytes
    ghost var sequence: nat
    ghost var updates: seq<Update>

    ghost predicate Valid()
      reads this
    {
      rep == Rep(sequence, updates) && sequence < WORD64 && |updates| < MAX_COUNT && AllFit(updates)
    }

    constructor ()
      ensures Valid() && sequence == 0 && updates == []
    {
      rep := seq(HEADER, i => 0);
      sequence, updates := 0, [];
      new;
      ZeroHeader();
    }

    method SetCount(n: nat)
      requires Valid()
      modifies this`rep
      ensures rep == Fixed(8, sequence) + Fixed(4, n) + Records(updates)
    {
      RepParts(sequence, updates);
      assert rep[..8] == Fixed(8, sequence);
      rep := rep[..8] + Fixed(4, n) + rep[HEADER..];
    }

    method SetSequence(n: nat)
      requires Valid() && n < WORD64
      modifies this
      ensures Valid() && sequence == n && updates == old(updates)
    {
      hide Fixed, Records;
      rep := Fixed(8, n) + rep[8..];
      sequence := n;
    }

    method Put(key: Bytes, value: Bytes)
      requires Valid() && |key| < WORD32 && |value| < WORD32 && |updates| + 1 < MAX_COUNT
      modifies this
      ensures Valid() && sequence == old(sequence) && updates == old(updates) + [Update.Put(key, value)]
    {
      AddRecord(Update.Put(key, value), [TAG_VALUE] + Prefixed(key) + Prefixed(value));
    }

    method Delete(key: Bytes)
      requires Valid() && |key| < WORD32 && |updates| + 1 < MAX_COUNT
      modifies this
      ensures Valid() && sequence == old(sequence) && updates == old(updates) + [Update.Delete(key)]
    {
      AddRecord(Update.Delete(key), [TAG_DELETION] + Prefixed(key));
    }

    /** What Put and Delete share: count one more update and append its bytes. */
    method AddRecord(ghost u: Update, record: Bytes)
      requires Valid() && Fits(u) && record == Record(u) && |updates| + 1 < MAX_COUNT
      modifies this
      ensures Valid() && sequence == old(sequence) && updates == old(updates) + [u]
    {
      hide Fixed, FromFixed, Records, Record;
      RepParts(sequence, updates);
      SetCount(CountOf(rep) + 1);
      rep := rep + record;
      RecordsSnoc(updates, u);
      updates := updates + [u];
    }

    /** WriteBatchInternal::Append. */
    method Append(src: Batch)
      requires Valid() && src.Valid() && |updates| + |src.updates| < MAX_COUNT
      modifies this
      ensures Valid() && sequence == old(sequence) && updates == old(updates) + old(src.updates)
    {
      hide Fixed, FromFixed, Records;
      RepParts(sequence, updates);
      RepParts(src.sequence, src.updates);
      var tail := src.rep[HEADER..];
      RecordsConcat(updates, src.updates);
      ghost var added := src.updates;
      SetCount(CountOf(rep) + CountOf(src.rep));
      rep := rep + tail;
      updates := updates + added;
    }
  }

  lemma ZeroHeader()
    ensures Rep(0, []) == seq(HEADER, i => 0)
  {
    assert Fixed(4, 0) == [0, 0, 0, 0];
    assert Fixed(8, 0) == [0, 0, 0, 0] + Fixed(4, 0);
  }

  /** WriteBatch::Iterate: the updates passed to the handler, in order, and the status. */
  method Iterate(rep: Bytes) returns (handled: seq<Update>, ok: bool)
    ensures (handled, ok) == Iterated(rep)
    ensures ok <==> IsBatch(rep, handled)
    ensures forall us :: IsBatch(rep, us) ==> ok && handled == us
    ensures |rep| >= 12 ==> IsFront(rep, handled)
  {
    hide IsFront;
    if |rep| >= 12 {
      HandledMeans(rep);
    }
    hide IsBatch, TakeRecord;
    forall us
      ensures Iterated(rep) == (us, true) <==> IsBatch(rep, us)
    {
      IteratedMeans(rep, us);
    }
    handled := [];
    if |rep| < HEADER {
      return [], false;
    }
    var input := rep[HEADER..];
    var found := 0;
    ghost var whole := TakeRecords(input);
    assert [] + whole.0 == whole.0;
    while input != []
      invariant found == |handled|
      invariant var rest := TakeRecords(input); whole == (handled + rest.0, rest.1)
      decreases |input|
    {
      found := found + 1;
      ghost var rest := TakeRecords(input);
      match TakeRecord(input) {
        case Failed =>
          assert handled + rest.0 == handled;
          return handled, false;
        case Parsed(u, next) =>
          assert handled + rest.0 == handled + [u] + TakeRecords(next).0;
          handled := handled + [u];
          input := next;
      }
    }
    assert handled + [] == handled;
    ok := found == CountOf(rep);
  }
}
