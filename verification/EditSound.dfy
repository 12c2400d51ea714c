/** What DecodeFrom takes for a record of the manifest: exactly the strings that consist of
    well-formed fields (db/version_edit.cc). */
module EditSound {
  import opened DbFormat
  import opened Coding
  import opened VersionEdit

  /** kComparator and the other tags; eight was used once for large values. */
  function TagOf(f: Field): nat {
    match f
    case Comparator(_) => 1
    case LogNumber(_) => 2
    case NextFileNumber(_) => 3
    case LastSequence(_) => 4
    case CompactPointer(_, _) => 5
    case DeletedFile(_, _) => 6
    case NewFile(_, _) => 7
    case PrevLogNumber(_) => 9
  }

  /** Numbers and lengths may be written in more bytes than needed; there are seven levels. */
  ghost predicate IsPayload(p: Bytes, f: Field) {
    match f
    case Comparator(name) => IsPrefixed(p, name)
    case LogNumber(n) => IsVarint(p, 10, WORD64, n)
    case NextFileNumber(n) => IsVarint(p, 10, WORD64, n)
    case LastSequence(n) => IsVarint(p, 10, WORD64, n)
    case PrevLogNumber(n) => IsVarint(p, 10, WORD64, n)
    case CompactPointer(level, key) =>
      exists m: nat :: m <= |p| && IsLevel(p[..m], level) && IsPrefixed(p[m..], key)
    case DeletedFile(level, n) =>
      exists m: nat :: m <= |p| && IsLevel(p[..m], level) && IsVarint(p[m..], 10, WORD64, n)
    case NewFile(level, meta) =>
      exists m: nat :: m <= |p| && IsLevel(p[..m], level) && IsMeta(p[m..], meta)
  }

  ghost predicate IsLevel(s: Bytes, level: nat) {
    level < 7 && IsVarint(s, 5, WORD32, level)
  }

  ghost predicate IsMeta(p: Bytes, m: Meta) {
    exists a: nat, b: nat, c: nat :: a <= b <= c <= |p| &&
      IsVarint(p[..a], 10, WORD64, m.number) && IsVarint(p[a..b], 10, WORD64, m.size) &&
      IsPrefixed(p[b..c], m.smallest) && IsPrefixed(p[c..], m.largest)
  }

  ghost predicate IsField(s: Bytes, f: Field) {
    exists n: nat :: 0 < n <= |s| && IsVarint(s[..n], 5, WORD32, TagOf(f)) && IsPayload(s[n..], f)
  }

  // ---------------------------------------------------------------- fields are read as themselves

  lemma LevelStands(s: Bytes, level: nat, rest: Bytes)
    requires IsLevel(s, level)
    ensures GetLevel(s + rest) == Parsed(level, rest)
  {
    hide IsVarint, GetVarint32;
    VarintStands(s, level, rest);
  }

  lemma MetaStands(p: Bytes, m: Meta, rest: Bytes)
    requires IsMeta(p, m)
    ensures TakeMeta(p + rest) == Parsed(m, rest)
  {
    hide IsVarint, IsPrefixed, GetVarint64, GetLengthPrefixed;
    var a: nat, b: nat, c: nat :| a <= b <= c <= |p| &&
      IsVarint(p[..a], 10, WORD64, m.number) && IsVarint(p[a..b], 10, WORD64, m.size) &&
      IsPrefixed(p[b..c], m.smallest) && IsPrefixed(p[c..], m.largest);
    var s3 := p[c..] + rest;
    var s2 := p[b..c] + s3;
    var s1 := p[a..b] + s2;
    assert p + rest == p[..a] + s1;
    VarintStands(p[..a], m.number, s1);
    VarintStands(p[a..b], m.size, s2);
    PrefixedStands(p[b..c], m.smallest, s3);
    PrefixedStands(p[c..], m.largest, rest);
  }

  /** What follows the level of a field that has one. */
  lemma LevelFieldStands(s: Bytes, p: Bytes, f: Field, rest: Bytes)
    requires f.CompactPointer? || f.DeletedFile? || f.NewFile?
    requires GetVarint32(s) == Parsed(TagOf(f), p + rest) && IsPayload(p, f)
    ensures TakeField(s) == Parsed(f, rest)
  {
    hide IsVarint, IsPrefixed, IsMeta, IsLevel, GetVarint32, GetVarint64, GetLengthPrefixed, GetLevel, TakeMeta;
    match f {
      case CompactPointer(level, key) =>
        var m: nat :| m <= |p| && IsLevel(p[..m], level) && IsPrefixed(p[m..], key);
        assert p + rest == p[..m] + (p[m..] + rest);
        LevelStands(p[..m], level, p[m..] + rest);
        PrefixedStands(p[m..], key, rest);
      case DeletedFile(level, n) =>
        var m: nat :| m <= |p| && IsLevel(p[..m], level) && IsVarint(p[m..], 10, WORD64, n);
        assert p + rest == p[..m] + (p[m..] + rest);
        LevelStands(p[..m], level, p[m..] + rest);
        VarintStands(p[m..], n, rest);
      case NewFile(level, meta) =>
        var m: nat :| m <= |p| && IsLevel(p[..m], level) && IsMeta(p[m..], meta);
        assert p + rest == p[..m] + (p[m..] + rest);
        LevelStands(p[..m], level, p[m..] + rest);
        MetaStands(p[m..], meta, rest);
    }
  }

  lemma FieldStands(s: Bytes, f: Field, rest: Bytes)
    requires IsField(s, f)
    ensures TakeField(s + rest) == Parsed(f, rest)
  {
    hide IsVarint, IsPrefixed, GetVarint32, GetVarint64, GetLengthPrefixed;
    var n: nat :| 0 < n <= |s| && IsVarint(s[..n], 5, WORD32, TagOf(f)) && IsPayload(s[n..], f);
    assert s + rest == s[..n] + (s[n..] + rest);
    VarintStands(s[..n], TagOf(f), s[n..] + rest);
    match f {
      case Comparator(name) => PrefixedStands(s[n..], name, rest);
      case CompactPointer(_, _) => LevelFieldStands(s + rest, s[n..], f, rest);
      case DeletedFile(_, _) => LevelFieldStands(s + rest, s[n..], f, rest);
      case NewFile(_, _) => LevelFieldStands(s + rest, s[n..], f, rest);
      case _ => VarintStands(s[n..], f.n, rest);
    }
  }

  // ---------------------------------------------------------------- what is read is a field

  lemma LevelFront(s: Bytes) returns (a: Bytes)
    requires GetLevel(s).Parsed?
    ensures IsLevel(a, GetLevel(s).value) && s == a + GetLevel(s).rest
  {
    hide IsVarint, GetVarint32;
    a := VarintFront(s);
  }

  lemma MetaFront(s: Bytes) returns (p: Bytes)
    requires TakeMeta(s).Parsed?
    ensures IsMeta(p, TakeMeta(s).value) && s == p + TakeMeta(s).rest
  {
    hide IsVarint, IsPrefixed, GetVarint64, GetLengthPrefixed;
    var x := LongVarintFront(s);
    var s1 := GetVarint64(s).rest;
    var y := LongVarintFront(s1);
    var s2 := GetVarint64(s1).rest;
    var z := PrefixedFront(s2);
    var s3 := GetLengthPrefixed(s2).rest;
    var w := PrefixedFront(s3);
    p := x + y + z + w;
    var a, b, c := |x|, |x + y|, |x + y + z|;
    assert p[..a] == x && p[a..b] == y && p[b..c] == z && p[c..] == w;
  }

  /** The payload of a field. */
  lemma PayloadFront(s: Bytes) returns (p: Bytes)
    requires TakeField(s).Parsed?
    ensures GetVarint32(s).Parsed? && GetVarint32(s).value == TagOf(TakeField(s).value)
    ensures IsPayload(p, TakeField(s).value) && GetVarint32(s).rest == p + TakeField(s).rest
  {
    hide IsVarint, IsPrefixed, IsMeta, IsLevel, GetVarint32, GetVarint64, GetLengthPrefixed, GetLevel, TakeMeta;
    var tag, rest := GetVarint32(s).value, GetVarint32(s).rest;
    if tag == 1 {
      p := PrefixedFront(rest);
    } else if tag == 2 || tag == 9 || tag == 3 || tag == 4 {
      p := LongVarintFront(rest);
    } else {
      var a := LevelFront(rest);
      var after := GetLevel(rest).rest;
      var b;
      if tag == 5 {
        b := PrefixedFront(after);
      } else if tag == 6 {
        b := LongVarintFront(after);
      } else {
        b := MetaFront(after);
      }
      p := a + b;
      FrontOf(a, b);
    }
  }

  lemma FieldFront(s: Bytes) returns (a: Bytes)
    requires TakeField(s).Parsed?
    ensures IsField(a, TakeField(s).value) && s == a + TakeField(s).rest
  {
    hide IsVarint, IsPayload, GetVarint32, TakeField;
    var p := PayloadFront(s);
    var t := VarintFront(s);
    a := t + p;
    FrontOf(t, p);
    VarintNotEmpty(t, TagOf(TakeField(s).value));
  }

  lemma VarintNotEmpty(s: Bytes, n: nat)
    requires IsVarint(s, 5, WORD32, n)
    ensures |s| > 0
  {
  }

  // ---------------------------------------------------------------- records

  ghost predicate AreFields(parts: seq<Bytes>, fs: seq<Field>) {
    |parts| == |fs| && forall i :: 0 <= i < |fs| ==> IsField(parts[i], fs[i])
  }

  lemma {:induction false} FieldsStand(parts: seq<Bytes>, fs: seq<Field>)
    requires AreFields(parts, fs)
    ensures TakeFields(Concat(parts)) == Some(fs)
  {
    hide IsField, TakeField;
    if fs != [] {
      FieldIsSome(parts[0], fs[0]);
      FieldStands(parts[0], fs[0], Concat(parts[1..]));
      FieldsStand(parts[1..], fs[1..]);
      assert fs == [fs[0]] + fs[1..];
    }
  }

  lemma FieldIsSome(s: Bytes, f: Field)
    requires IsField(s, f)
    ensures s != []
  {
  }

  lemma {:induction false} FieldsFront(s: Bytes) returns (parts: seq<Bytes>)
    requires TakeFields(s).Some?
    ensures AreFields(parts, TakeFields(s).value) && s == Concat(parts)
    decreases |s|
  {
    hide IsField, TakeField;
    if s == [] {
      parts := [];
    } else {
      var first := FieldFront(s);
      var rest := FieldsFront(TakeField(s).rest);
      parts := [first] + rest;
      assert parts[1..] == rest;
    }
  }

  /** A record is accepted exactly when it is a row of well-formed fields. */
  lemma FieldsMeans(s: Bytes, fs: seq<Field>)
    ensures TakeFields(s) == Some(fs) <==> exists parts :: AreFields(parts, fs) && s == Concat(parts)
  {
    hide TakeFields, AreFields;
    if TakeFields(s).Some? {
      var parts := FieldsFront(s);
    }
    if parts :| AreFields(parts, fs) && s == Concat(parts) {
      FieldsStand(parts, fs);
    }
  }

  /** Files and pointers of an edit are those that some field names. */
  lemma {:induction false} EditHolds(e: VersionEdit, fs: seq<Field>)
    ensures var r := SetFields(e, fs);
      (forall level: nat, meta :: (level, meta) in r.added <==> (level, meta) in e.added || NewFile(level, meta) in fs) &&
      (forall level: nat, n: nat :: (level, n) in r.deleted <==> (level, n) in e.deleted || DeletedFile(level, n) in fs) &&
      (forall level: nat, key :: (level, key) in r.pointers <==> (level, key) in e.pointers || CompactPointer(level, key) in fs)
    decreases |fs|
  {
    if fs != [] {
      EditHolds(SetField(e, fs[0]), fs[1..]);
      assert forall f :: f in fs <==> f == fs[0] || f in fs[1..];
    }
  }

  /** DecodeFrom accepts exactly the rows of well-formed fields, and sets them one after the other. */
  lemma DecodeMeans(s: Bytes, e: VersionEdit)
    ensures Decode(s) == Some(e) <==>
      exists parts, fs :: AreFields(parts, fs) && s == Concat(parts) && SetFields(NO_EDIT, fs) == e
  {
    hide TakeFields, AreFields, SetFields;
    if TakeFields(s).Some? {
      var parts := FieldsFront(s);
    }
    if parts, fs :| AreFields(parts, fs) && s == Concat(parts) && SetFields(NO_EDIT, fs) == e {
      FieldsStand(parts, fs);
    }
  }
}
