/** The records of the manifest (db/version_edit.h, db/version_edit.cc). */
module VersionEdit {
  import opened DbFormat
  import opened Coding

  /** FileMetaData as it is stored: the keys are encoded internal keys. */
  datatype Meta = Meta(number: nat, size: nat, smallest: Bytes, largest: Bytes)

  /** `deleted` lists the set of deleted (level, file number) pairs in the order of std::set. */
  datatype VersionEdit = VersionEdit(
    comparator: Option<Bytes>,
    log_number: Option<nat>,
    prev_log_number: Option<nat>,
    next_file: Option<nat>,
    last_sequence: Option<nat>,
    pointers: seq<(nat, Bytes)>,
    deleted: seq<(nat, nat)>,
    added: seq<(nat, Meta)>)

  const NO_EDIT := VersionEdit(None, None, None, None, None, [], [], [])

  predicate PairLess(a: (nat, nat), b: (nat, nat)) {
    a.0 < b.0 || (a.0 == b.0 && a.1 < b.1)
  }

  predicate SortedPairs(s: seq<(nat, nat)>) {
    forall i, j :: 0 <= i < j < |s| ==> PairLess(s[i], s[j])
  }

  /** std::set::insert. */
  function InsertPair(s: seq<(nat, nat)>, d: (nat, nat)): (r: seq<(nat, nat)>)
    ensures forall x :: x in r <==> x in s || x == d
  {
    if s == [] then
      [d]
    else if PairLess(s[0], d) then
      var r := [s[0]] + InsertPair(s[1..], d);
      assert forall x :: x in s <==> x == s[0] || x in s[1..];
      r
    else if s[0] == d then
      s
    else
      [d] + s
  }

  lemma {:induction false} InsertLast(s: seq<(nat, nat)>, d: (nat, nat))
    requires forall x :: x in s ==> PairLess(x, d)
    ensures InsertPair(s, d) == s + [d]
  {
    if s != [] {
      assert s[0] in s;
      InsertLast(s[1..], d);
      assert s == [s[0]] + s[1..];
    }
  }

  // ---------------------------------------------------------------- fields

  /** One tagged field of a record. */
  datatype Field =
    | Comparator(name: Bytes)
    | LogNumber(n: nat)
    | NextFileNumber(n: nat)
    | LastSequence(n: nat)
    | CompactPointer(level: nat, key: Bytes)
    | DeletedFile(level: nat, n: nat)
    | NewFile(level: nat, meta: Meta)
    | PrevLogNumber(n: nat)

  function FieldBytes(f: Field): Bytes {
    match f
    case Comparator(name) => Varint(1) + Prefixed(name)
    case LogNumber(n) => Varint(2) + Varint(n)
    case NextFileNumber(n) => Varint(3) + Varint(n)
    case LastSequence(n) => Varint(4) + Varint(n)
    case CompactPointer(level, key) => Varint(5) + Varint(level) + Prefixed(key)
    case DeletedFile(level, n) => Varint(6) + Varint(level) + Varint(n)
    case NewFile(level, m) => Varint(7) + Varint(level) + Varint(m.number) + Varint(m.size) + Prefixed(m.smallest) + Prefixed(m.largest)
    case PrevLogNumber(n) => Varint(9) + Varint(n)
  }

  predicate GoodMeta(m: Meta) {
    m.number < WORD64 && m.size < WORD64 && |m.smallest| < WORD32 && |m.largest| < WORD32
  }

  predicate GoodField(f: Field) {
    match f
    case Comparator(name) => |name| < WORD32
    case LogNumber(n) => n < WORD64
    case NextFileNumber(n) => n < WORD64
    case LastSequence(n) => n < WORD64
    case CompactPointer(level, key) => level < NUM_LEVELS && |key| < WORD32
    case DeletedFile(level, n) => level < NUM_LEVELS && n < WORD64
    case NewFile(level, m) => level < NUM_LEVELS && GoodMeta(m)
    case PrevLogNumber(n) => n < WORD64
  }

  function GetLevel(s: Bytes): (r: Parse<nat>)
    ensures r.Parsed? ==> |r.rest| < |s| && r.value < NUM_LEVELS
  {
    var r := GetVarint32(s);
    if r.Parsed? && r.value < NUM_LEVELS then r else Failed
  }

  /** The payload of a new-file entry after its level. */
  function TakeMeta(s: Bytes): (r: Parse<Meta>)
    ensures r.Parsed? ==> |r.rest| < |s|
  {
    var number := GetVarint64(s);
    if number.Failed? then Failed else
    var size := GetVarint64(number.rest);
    if size.Failed? then Failed else
    var smallest := GetLengthPrefixed(size.rest);
    if smallest.Failed? then Failed else
    var largest := GetLengthPrefixed(smallest.rest);
    if largest.Failed? then Failed else
    Parsed(Meta(number.value, size.value, smallest.value, largest.value), largest.rest)
  }

  function TakeField(s: Bytes): (r: Parse<Field>)
    ensures r.Parsed? ==> |r.rest| < |s|
  {
    var tag := GetVarint32(s);
    if tag.Failed? then
      Failed
    else if tag.value == 1 then
      match GetLengthPrefixed(tag.rest)
      case Parsed(name, rest) => Parsed(Comparator(name), rest)
      case Failed => Failed
    else if tag.value == 2 then
      match GetVarint64(tag.rest)
      case Parsed(n, rest) => Parsed(LogNumber(n), rest)
      case Failed => Failed
    else if tag.value == 9 then
      match GetVarint64(tag.rest)
      case Parsed(n, rest) => Parsed(PrevLogNumber(n), rest)
      case Failed => Failed
    else if tag.value == 3 then
      match GetVarint64(tag.rest)
      case Parsed(n, rest) => Parsed(NextFileNumber(n), rest)
      case Failed => Failed
    else if tag.value == 4 then
      match GetVarint64(tag.rest)
      case Parsed(n, rest) => Parsed(LastSequence(n), rest)
      case Failed => Failed
    else if tag.value == 5 || tag.value == 6 || tag.value == 7 then
      var level := GetLevel(tag.rest);
      if level.Failed? then
        Failed
      else if tag.value == 5 then
        match GetLengthPrefixed(level.rest)
        case Parsed(key, rest) => Parsed(CompactPointer(level.value, key), rest)
        case Failed => Failed
      else if tag.value == 6 then
        match GetVarint64(level.rest)
        case Parsed(n, rest) => Parsed(DeletedFile(level.value, n), rest)
        case Failed => Failed
      else
        match TakeMeta(level.rest)
        case Parsed(meta, rest) => Parsed(NewFile(level.value, meta), rest)
        case Failed => Failed
    else
      Failed
  }

  lemma TakeMetaRoundTrip(m: Meta, rest: Bytes)
    requires GoodMeta(m)
    ensures TakeMeta(Varint(m.number) + Varint(m.size) + Prefixed(m.smallest) + Prefixed(m.largest) + rest) == Parsed(m, rest)
  {
    hide Varint, Prefixed, GetVarint64, GetLengthPrefixed;
    var s3 := Prefixed(m.largest) + rest;
    var s2 := Prefixed(m.smallest) + s3;
    var s1 := Varint(m.size) + s2;
    assert Varint(m.number) + Varint(m.size) + Prefixed(m.smallest) + Prefixed(m.largest) + rest == Varint(m.number) + s1;
    VarintRoundTrip(m.number, s1);
    VarintRoundTrip(m.size, s2);
    PrefixedRoundTrip(m.smallest, s3);
    PrefixedRoundTrip(m.largest, rest);
  }

  /** A tag in front of a payload. */
  lemma TagRead(tag: nat, payload: Bytes)
    requires tag < WORD32
    ensures GetVarint32(Varint(tag) + payload) == Parsed(tag, payload)
  {
    VarintRoundTrip(tag, payload);
  }

  lemma TakeNumberField(f: Field, rest: Bytes)
    requires GoodField(f) && (f.LogNumber? || f.NextFileNumber? || f.LastSequence? || f.PrevLogNumber?)
    ensures TakeField(FieldBytes(f) + rest) == Parsed(f, rest)
  {
    hide Varint, GetVarint32, GetVarint64;
    var tag := match f case LogNumber(_) => 2 case NextFileNumber(_) => 3 case LastSequence(_) => 4 case _ => 9;
    assert FieldBytes(f) + rest == Varint(tag) + (Varint(f.n) + rest);
    TagRead(tag, Varint(f.n) + rest);
    VarintRoundTrip(f.n, rest);
  }

  lemma TakeLevelField(f: Field, rest: Bytes)
    requires GoodField(f) && (f.CompactPointer? || f.DeletedFile? || f.NewFile?)
    ensures TakeField(FieldBytes(f) + rest) == Parsed(f, rest)
  {
    hide TakeField, FieldBytes, GoodField;
    match f {
      case CompactPointer(_, _) => TakePointer(f, rest);
      case DeletedFile(_, _) => TakeDeleted(f, rest);
      case NewFile(_, _) => TakeNew(f, rest);
    }
  }

  lemma TakePointer(f: Field, rest: Bytes)
    requires GoodField(f) && f.CompactPointer?
    ensures TakeField(FieldBytes(f) + rest) == Parsed(f, rest)
  {
    hide Varint, Prefixed, GetVarint32, GetVarint64, GetLengthPrefixed, TakeMeta;
    var tail := Prefixed(f.key) + rest;
    assert FieldBytes(f) + rest == Varint(5) + (Varint(f.level) + tail);
    TagRead(5, Varint(f.level) + tail);
    VarintRoundTrip(f.level, tail);
    PrefixedRoundTrip(f.key, rest);
  }

  lemma TakeDeleted(f: Field, rest: Bytes)
    requires GoodField(f) && f.DeletedFile?
    ensures TakeField(FieldBytes(f) + rest) == Parsed(f, rest)
  {
    hide Varint, Prefixed, GetVarint32, GetVarint64, GetLengthPrefixed, TakeMeta;
    var tail := Varint(f.n) + rest;
    assert FieldBytes(f) + rest == Varint(6) + (Varint(f.level) + tail);
    TagRead(6, Varint(f.level) + tail);
    VarintRoundTrip(f.level, tail);
    VarintRoundTrip(f.n, rest);
  }

  lemma TakeNew(f: Field, rest: Bytes)
    requires GoodField(f) && f.NewFile?
    ensures TakeField(FieldBytes(f) + rest) == Parsed(f, rest)
  {
    hide Varint, Prefixed, GetVarint32, GetVarint64, GetLengthPrefixed, TakeMeta;
    var m := f.meta;
    var tail := Varint(m.number) + Varint(m.size) + Prefixed(m.smallest) + Prefixed(m.largest) + rest;
    assert FieldBytes(f) + rest == Varint(7) + (Varint(f.level) + tail);
    TagRead(7, Varint(f.level) + tail);
    VarintRoundTrip(f.level, tail);
    TakeMetaRoundTrip(m, rest);
  }

  lemma TakeFieldRoundTrip(f: Field, rest: Bytes)
    requires GoodField(f)
    ensures TakeField(FieldBytes(f) + rest) == Parsed(f, rest)
  {
    hide Varint, Prefixed, GetVarint32, GetLengthPrefixed;
    match f {
      case Comparator(name) =>
        assert FieldBytes(f) + rest == Varint(1) + (Prefixed(name) + rest);
        TagRead(1, Prefixed(name) + rest);
        PrefixedRoundTrip(name, rest);
      case CompactPointer(_, _) => TakeLevelField(f, rest);
      case DeletedFile(_, _) => TakeLevelField(f, rest);
      case NewFile(_, _) => TakeLevelField(f, rest);
      case _ => TakeNumberField(f, rest);
    }
  }

  // ---------------------------------------------------------------- records

  function AllBytes(fs: seq<Field>): Bytes {
    if fs == [] then [] else FieldBytes(fs[0]) + AllBytes(fs[1..])
  }

  /** All the fields of a record, unless one is malformed. */
  function TakeFields(s: Bytes): (r: Option<seq<Field>>)
    decreases |s|
  {
    if s == [] then
      Some([])
    else
      match TakeField(s)
      case Failed => None
      case Parsed(f, rest) =>
        var tail := TakeFields(rest);
        if tail.Some? then Some([f] + tail.value) else None
  }

  predicate GoodFields(fs: seq<Field>) {
    forall f :: f in fs ==> GoodField(f)
  }

  lemma {:induction false} TakeFieldsRoundTrip(fs: seq<Field>)
    requires GoodFields(fs)
    ensures TakeFields(AllBytes(fs)) == Some(fs)
  {
    hide FieldBytes, TakeField, GoodField;
    if fs != [] {
      assert fs[0] in fs;
      FieldNotEmpty(fs[0]);
      TakeFieldRoundTrip(fs[0], AllBytes(fs[1..]));
      TakeFieldsRoundTrip(fs[1..]);
      assert fs == [fs[0]] + fs[1..];
    }
  }

  lemma FieldNotEmpty(f: Field)
    ensures |FieldBytes(f)| > 0
  {
    hide Varint;
  }

  lemma {:induction false} AllBytesConcat(a: seq<Field>, b: seq<Field>)
    ensures AllBytes(a + b) == AllBytes(a) + AllBytes(b)
  {
    hide FieldBytes;
    if a == [] {
      assert a + b == b;
    } else {
      assert (a + b)[1..] == a[1..] + b;
      AllBytesConcat(a[1..], b);
    }
  }

  /** What reading a field does to the edit: later scalars win, lists grow, the set of deleted
      files gains a member. */
  function SetField(e: VersionEdit, f: Field): VersionEdit {
    match f
    case Comparator(name) => e.(comparator := Some(name))
    case LogNumber(n) => e.(log_number := Some(n))
    case PrevLogNumber(n) => e.(prev_log_number := Some(n))
    case NextFileNumber(n) => e.(next_file := Some(n))
    case LastSequence(n) => e.(last_sequence := Some(n))
    case CompactPointer(level, key) => e.(pointers := e.pointers + [(level, key)])
    case DeletedFile(level, n) => e.(deleted := InsertPair(e.deleted, (level, n)))
    case NewFile(level, meta) => e.(added := e.added + [(level, meta)])
  }

  function SetFields(e: VersionEdit, fs: seq<Field>): VersionEdit
    decreases |fs|
  {
    if fs == [] then e else SetFields(SetField(e, fs[0]), fs[1..])
  }

  lemma {:induction false} SetFieldsConcat(e: VersionEdit, a: seq<Field>, b: seq<Field>)
    ensures SetFields(e, a + b) == SetFields(SetFields(e, a), b)
    decreases |a|
  {
    hide SetField;
    if a == [] {
      assert a + b == b;
    } else {
      assert (a + b)[1..] == a[1..] + b;
      SetFieldsConcat(SetField(e, a[0]), a[1..], b);
    }
  }

  /** Fields in the order in which EncodeTo writes them. */
  function Scalars(e: VersionEdit): seq<Field> {
    (if e.comparator.Some? then [Comparator(e.comparator.value)] else []) +
    (if e.log_number.Some? then [LogNumber(e.log_number.value)] else []) +
    (if e.prev_log_number.Some? then [PrevLogNumber(e.prev_log_number.value)] else []) +
    (if e.next_file.Some? then [NextFileNumber(e.next_file.value)] else []) +
    (if e.last_sequence.Some? then [LastSequence(e.last_sequence.value)] else [])
  }

  function Pointers(e: VersionEdit): seq<Field> {
    seq(|e.pointers|, i requires 0 <= i < |e.pointers| => CompactPointer(e.pointers[i].0, e.pointers[i].1))
  }

  function Deletions(e: VersionEdit): seq<Field> {
    seq(|e.deleted|, i requires 0 <= i < |e.deleted| => DeletedFile(e.deleted[i].0, e.deleted[i].1))
  }

  function Additions(e: VersionEdit): seq<Field> {
    seq(|e.added|, i requires 0 <= i < |e.added| => NewFile(e.added[i].0, e.added[i].1))
  }

  function FieldsOf(e: VersionEdit): seq<Field> {
    Scalars(e) + (Pointers(e) + (Deletions(e) + Additions(e)))
  }

  predicate GoodEdit(e: VersionEdit) {
    GoodFields(FieldsOf(e)) && SortedPairs(e.deleted)
  }

  function Encode(e: VersionEdit): Bytes {
    AllBytes(FieldsOf(e))
  }

  function Decode(s: Bytes): Option<VersionEdit> {
    var fs := TakeFields(s);
    if fs.Some? then Some(SetFields(NO_EDIT, fs.value)) else None
  }

  lemma {:induction false} SetPointers(e: VersionEdit, from: VersionEdit, n: nat)
    requires n <= |from.pointers|
    ensures SetFields(e, Pointers(from)[..n]) == e.(pointers := e.pointers + from.pointers[..n])
  {
    var fs := Pointers(from);
    if n == 0 {
      assert e.pointers + [] == e.pointers;
    } else {
      SetPointers(e, from, n - 1);
      assert fs[..n] == fs[..n - 1] + [fs[n - 1]];
      SetFieldsConcat(e, fs[..n - 1], [fs[n - 1]]);
      LastField(SetFields(e, fs[..n - 1]), fs[n - 1]);
    }
  }

  lemma {:induction false} SetAdditions(e: VersionEdit, from: VersionEdit, n: nat)
    requires n <= |from.added|
    ensures SetFields(e, Additions(from)[..n]) == e.(added := e.added + from.added[..n])
  {
    var fs := Additions(from);
    if n == 0 {
      assert e.added + [] == e.added;
    } else {
      SetAdditions(e, from, n - 1);
      assert fs[..n] == fs[..n - 1] + [fs[n - 1]];
      SetFieldsConcat(e, fs[..n - 1], [fs[n - 1]]);
      LastField(SetFields(e, fs[..n - 1]), fs[n - 1]);
    }
  }

  lemma {:induction false} SetDeletions(e: VersionEdit, from: VersionEdit, n: nat)
    requires n <= |from.deleted| && SortedPairs(from.deleted) && e.deleted == []
    ensures SetFields(e, Deletions(from)[..n]) == e.(deleted := from.deleted[..n])
  {
    var fs := Deletions(from);
    if n > 0 {
      SetDeletions(e, from, n - 1);
      assert fs[..n] == fs[..n - 1] + [fs[n - 1]];
      SetFieldsConcat(e, fs[..n - 1], [fs[n - 1]]);
      LastField(SetFields(e, fs[..n - 1]), fs[n - 1]);
      InsertLast(from.deleted[..n - 1], from.deleted[n - 1]);
    }
  }

  lemma LastField(e: VersionEdit, f: Field)
    ensures SetFields(e, [f]) == SetField(e, f)
  {
    assert SetFields(SetField(e, f), [f][1..]) == SetField(e, f);
  }

  lemma SetScalars(e: VersionEdit)
    ensures SetFields(NO_EDIT, Scalars(e)) == e.(pointers := [], deleted := [], added := [])
  {
    var a := if e.comparator.Some? then [Comparator(e.comparator.value)] else [];
    var b := if e.log_number.Some? then [LogNumber(e.log_number.value)] else [];
    var c := if e.prev_log_number.Some? then [PrevLogNumber(e.prev_log_number.value)] else [];
    var d := if e.next_file.Some? then [NextFileNumber(e.next_file.value)] else [];
    var l := if e.last_sequence.Some? then [LastSequence(e.last_sequence.value)] else [];
    var e1, e2 := SetFields(NO_EDIT, a), SetFields(NO_EDIT, a + b);
    var e3, e4 := SetFields(NO_EDIT, a + b + c), SetFields(NO_EDIT, a + b + c + d);
    SetFieldsConcat(NO_EDIT, a, b);
    SetFieldsConcat(NO_EDIT, a + b, c);
    SetFieldsConcat(NO_EDIT, a + b + c, d);
    SetFieldsConcat(NO_EDIT, a + b + c + d, l);
    OptionalField(NO_EDIT, a);
    OptionalField(e1, b);
    OptionalField(e2, c);
    OptionalField(e3, d);
    OptionalField(e4, l);
  }

  lemma OptionalField(e: VersionEdit, fs: seq<Field>)
    requires |fs| <= 1
    ensures SetFields(e, fs) == if fs == [] then e else SetField(e, fs[0])
  {
    if fs != [] {
      assert fs == [fs[0]];
      LastField(e, fs[0]);
    }
  }

  /** Decoding into a fresh edit undoes encoding. */
  lemma EditRoundTrip(e: VersionEdit)
    requires GoodEdit(e)
    ensures Decode(Encode(e)) == Some(e)
  {
    hide TakeFields, AllBytes, GoodField, SetFields, SetField;
    TakeFieldsRoundTrip(FieldsOf(e));
    var e0 := e.(pointers := [], deleted := [], added := []);
    var e1 := e0.(pointers := e.pointers);
    var e2 := e1.(deleted := e.deleted);
    SetScalars(e);
    SetPointers(e0, e, |e.pointers|);
    SetDeletions(e1, e, |e.deleted|);
    SetAdditions(e2, e, |e.added|);
    assert Pointers(e)[..|e.pointers|] == Pointers(e) && [] + e.pointers[..|e.pointers|] == e.pointers;
    assert Deletions(e)[..|e.deleted|] == Deletions(e) && e.deleted[..|e.deleted|] == e.deleted;
    assert Additions(e)[..|e.added|] == Additions(e) && [] + e.added[..|e.added|] == e.added;
    SetFieldsConcat(NO_EDIT, Scalars(e), Pointers(e) + (Deletions(e) + Additions(e)));
    SetFieldsConcat(e0, Pointers(e), Deletions(e) + Additions(e));
    SetFieldsConcat(e1, Deletions(e), Additions(e));
  }

  /** VersionEdit::EncodeTo. */
  method EncodeTo(e: VersionEdit) returns (dst: Bytes)
    ensures dst == Encode(e)
  {
    hide FieldBytes;
    dst := ScalarBytes(e);
    assert Scalars(e) + Pointers(e)[..0] == Scalars(e);
    for i := 0 to |e.pointers|
      invariant dst == AllBytes(Scalars(e) + Pointers(e)[..i])
    {
      dst := dst + FieldBytes(CompactPointer(e.pointers[i].0, e.pointers[i].1));
      Append(Scalars(e), Pointers(e), i);
    }
    assert Pointers(e)[..|e.pointers|] == Pointers(e);
    ghost var front := Scalars(e) + Pointers(e);
    assert front + Deletions(e)[..0] == front;
    for i := 0 to |e.deleted|
      invariant dst == AllBytes(front + Deletions(e)[..i])
    {
      dst := dst + FieldBytes(DeletedFile(e.deleted[i].0, e.deleted[i].1));
      Append(front, Deletions(e), i);
    }
    assert Deletions(e)[..|e.deleted|] == Deletions(e);
    ghost var most := front + Deletions(e);
    assert most + Additions(e)[..0] == most;
    for i := 0 to |e.added|
      invariant dst == AllBytes(most + Additions(e)[..i])
    {
      dst := dst + FieldBytes(NewFile(e.added[i].0, e.added[i].1));
      Append(most, Additions(e), i);
    }
    assert most + Additions(e)[..|e.added|] == FieldsOf(e);
  }

  method ScalarBytes(e: VersionEdit) returns (dst: Bytes)
    ensures dst == AllBytes(Scalars(e))
  {
    hide FieldBytes, AllBytes;
    dst := [];
    ghost var fs: seq<Field> := [];
    NoFields();
    if e.comparator.Some? {
      dst := dst + FieldBytes(Comparator(e.comparator.value));
      AppendOne(fs, Comparator(e.comparator.value));
      fs := fs + [Comparator(e.comparator.value)];
    }
    if e.log_number.Some? {
      dst := dst + FieldBytes(LogNumber(e.log_number.value));
      AppendOne(fs, LogNumber(e.log_number.value));
      fs := fs + [LogNumber(e.log_number.value)];
    }
    if e.prev_log_number.Some? {
      dst := dst + FieldBytes(PrevLogNumber(e.prev_log_number.value));
      AppendOne(fs, PrevLogNumber(e.prev_log_number.value));
      fs := fs + [PrevLogNumber(e.prev_log_number.value)];
    }
    if e.next_file.Some? {
      dst := dst + FieldBytes(NextFileNumber(e.next_file.value));
      AppendOne(fs, NextFileNumber(e.next_file.value));
      fs := fs + [NextFileNumber(e.next_file.value)];
    }
    if e.last_sequence.Some? {
      dst := dst + FieldBytes(LastSequence(e.last_sequence.value));
      AppendOne(fs, LastSequence(e.last_sequence.value));
      fs := fs + [LastSequence(e.last_sequence.value)];
    }
    assert fs == Scalars(e);
  }

  lemma NoFields()
    ensures AllBytes([]) == []
  {
  }

  lemma AppendOne(fs: seq<Field>, f: Field)
    ensures AllBytes(fs + [f]) == AllBytes(fs) + FieldBytes(f)
  {
    hide FieldBytes;
    AllBytesConcat(fs, [f]);
    assert AllBytes([f]) == FieldBytes(f) + AllBytes([]);
  }

  lemma Append(a: seq<Field>, b: seq<Field>, i: nat)
    requires i < |b|
    ensures AllBytes(a + b[..i + 1]) == AllBytes(a + b[..i]) + FieldBytes(b[i])
  {
    assert a + b[..i + 1] == a + b[..i] + [b[i]];
    AppendOne(a + b[..i], b[i]);
  }

  /** VersionEdit::DecodeFrom, into a fresh edit. */
  method DecodeFrom(src: Bytes) returns (e: Option<VersionEdit>)
    ensures e == Decode(src)
  {
    hide TakeField, SetField;
    var input, edit := src, NO_EDIT;
    ghost var all := TakeFields(src);
    while input != []
      invariant all.Some? <==> TakeFields(input).Some?
      invariant all.Some? ==> SetFields(NO_EDIT, all.value) == SetFields(edit, TakeFields(input).value)
      decreases |input|
    {
      match TakeField(input) {
        case Failed =>
          return None;
        case Parsed(f, rest) =>
          edit := SetField(edit, f);
          input := rest;
      }
    }
    return Some(edit);
  }
}
