/** Decoding undoes encoding, also when the decoder's descriptor lacks some of the fields. */
module NanopbProof {
  import opened DbFormat
  import opened Coding
  import opened Nanopb

  // ---------------------------------------------------------------- types and messages

  /** Descriptors: known widths, sizes that fit pb_size_t, distinct non-zero tags. */
  ghost predicate GoodType(t: LType) {
    match t
    case Int(bytes) => GoodWidth(bytes)
    case UInt(bytes) => GoodWidth(bytes)
    case SInt(bytes) => GoodWidth(bytes)
    case BytesType(max) => max <= SIZE_MAX
    case FixedBytes(size) => size <= SIZE_MAX
    case Message(fields) =>
      DistinctTags(fields) &&
      forall i :: 0 <= i < |fields| ==> 0 < fields[i].tag < 0x2000_0000 && GoodType(fields[i].ltype)
    case _ => true
  }

  ghost predicate DistinctTags(fields: seq<Field>) {
    forall i, j :: 0 <= i < j < |fields| ==> fields[i].tag != fields[j].tag
  }

  ghost predicate Valid(t: LType, v: Value) {
    match t
    case Int(bytes) => v.Number? && InRange(v.n, bytes)
    case UInt(bytes) => v.Number? && 0 <= v.n < Power(256, bytes)
    case SInt(bytes) => v.Number? && InRange(v.n, bytes)
    case Fixed32 => v.Number? && 0 <= v.n < WORD32
    case Fixed64 => v.Number? && 0 <= v.n < WORD64
    case BytesType(max) => v.Raw? && |v.bytes| <= max
    case StringType(size) => v.Raw? && |v.bytes| < size && 0 !in v.bytes
    case FixedBytes(size) => v.Raw? && |v.bytes| == size
    case Message(fields) =>
      v.Msg? && |v.slots| == |fields| && OneOfEach(fields, v.slots) &&
      forall i :: 0 <= i < |fields| ==> ValidSlot(fields[i], v.slots[i])
  }

  ghost predicate ValidSlot(f: Field, slot: Slot) {
    match f.htype
    case Required => slot.Single? && Valid(f.ltype, slot.v)
    case Repeated(max) =>
      slot.Many? && |slot.items| <= max && forall k :: 0 <= k < |slot.items| ==> Valid(f.ltype, slot.items[k])
    case _ => slot.Maybe? && (slot.opt.Some? ==> Valid(f.ltype, slot.opt.value))
  }

  /** At most one member of a union is set. */
  ghost predicate OneOfEach(fields: seq<Field>, slots: seq<Slot>)
    requires |fields| == |slots|
  {
    forall i, j :: 0 <= i < j < |fields| && fields[i].htype == fields[j].htype && fields[i].htype.OneOf? ==>
      slots[i] == Maybe(None) || slots[j] == Maybe(None)
  }

  // ---------------------------------------------------------------- descriptors with fewer fields

  /** `b` is `a` with some fields left out, at any depth. */
  ghost predicate SubType(a: LType, b: LType)
    decreases a, 1
  {
    if a.Message? then
      b.Message? && forall j :: 0 <= j < |b.fields| ==> SubField(a, b.fields[j])
    else
      a == b
  }

  ghost predicate SubField(a: LType, g: Field)
    requires a.Message?
    decreases a, 0
  {
    var k := FindTag(a.fields, g.tag);
    k.Some? && a.fields[k.value].htype == g.htype && SubType(a.fields[k.value].ltype, g.ltype)
  }

  lemma {:induction false} SubTypeRefl(t: LType)
    requires GoodType(t)
    ensures SubType(t, t)
  {
    if t.Message? {
      forall j | 0 <= j < |t.fields|
        ensures SubField(t, t.fields[j])
      {
        FindsItself(t.fields, j);
        SubTypeRefl(t.fields[j].ltype);
      }
    }
  }

  lemma FindsItself(fields: seq<Field>, j: nat)
    requires DistinctTags(fields) && j < |fields|
    ensures FindTag(fields, fields[j].tag) == Some(j)
  {
  }

  /** What the smaller descriptor shows of a message of the larger one. */
  ghost function Project(a: LType, b: LType, v: Value): Value
    decreases a, 1
  {
    if a.Message? && b.Message? then
      Msg(seq(|b.fields|, j requires 0 <= j < |b.fields| => ProjectAt(a, b.fields[j], v)))
    else
      v
  }

  ghost function ProjectAt(a: LType, g: Field, v: Value): Slot
    requires a.Message?
    decreases a, 0
  {
    var k := FindTag(a.fields, g.tag);
    if k.Some? then ProjectSlot(a.fields[k.value].ltype, g.ltype, SlotAt(v, k.value)) else DefaultSlot(g)
  }

  ghost function ProjectSlot(a: LType, b: LType, slot: Slot): Slot
    decreases a, 2
  {
    match slot
    case Single(v) => Single(Project(a, b, v))
    case Maybe(None) => Maybe(None)
    case Maybe(Some(v)) => Maybe(Some(Project(a, b, v)))
    case Many(items) => Many(ProjectItems(a, b, items))
  }

  ghost function ProjectItems(a: LType, b: LType, items: seq<Value>): (r: seq<Value>)
    ensures |r| == |items|
    decreases a, 2, 0
  {
    seq(|items|, i requires 0 <= i < |items| => Project(a, b, items[i]))
  }

  /** With the same descriptor nothing is lost. */
  lemma {:induction false} ProjectSame(t: LType, v: Value)
    requires GoodType(t) && Valid(t, v)
    ensures Project(t, t, v) == v
    decreases v
  {
    if t.Message? {
      forall j | 0 <= j < |t.fields|
        ensures ProjectAt(t, t.fields[j], v) == v.slots[j]
      {
        FindsItself(t.fields, j);
        assert ValidSlot(t.fields[j], v.slots[j]);
        ProjectSameSlot(t.fields[j], v.slots[j]);
      }
      assert Project(t, t, v).slots == v.slots;
    }
  }

  lemma {:induction false} ProjectSameSlot(f: Field, slot: Slot)
    requires GoodType(f.ltype) && ValidSlot(f, slot)
    ensures ProjectSlot(f.ltype, f.ltype, slot) == slot
    decreases slot
  {
    match slot {
      case Single(v) => ProjectSame(f.ltype, v);
      case Maybe(None) =>
      case Maybe(Some(v)) => ProjectSame(f.ltype, v);
      case Many(items) =>
        forall i | 0 <= i < |items|
          ensures Project(f.ltype, f.ltype, items[i]) == items[i]
        {
          ProjectSame(f.ltype, items[i]);
        }
        assert ProjectItems(f.ltype, f.ltype, items) == items;
    }
  }

  // ---------------------------------------------------------------- numbers

  lemma Widths(bytes: nat)
    requires GoodWidth(bytes)
    ensures Power(256, bytes) == (if bytes == 1 then 0x100 else if bytes == 2 then 0x1_0000 else if bytes == 4 then WORD32 else WORD64)
    ensures Power(256, 4) == WORD32 && Power(256, 8) == WORD64
  {
    WordSizes();
    assert Power(256, 1) == 256 * Power(256, 0);
  }

  lemma SignedBack(n: int, bytes: nat)
    requires GoodWidth(bytes) && InRange(n, bytes)
    ensures 0 <= ToWord(n) < WORD64 && FromWord(Int(bytes), ToWord(n)) == Some(n)
  {
    Widths(bytes);
    hide Power;
    var word := ToWord(n);
    if bytes < 8 {
      assert word % WORD32 == if n < 0 then n + WORD32 else n;
    }
  }

  lemma ZigZagBack(n: int, bytes: nat)
    requires GoodWidth(bytes) && InRange(n, bytes)
    ensures 0 <= ZigZag(n) < WORD64 && UnZigZag(ZigZag(n)) == n
  {
    Widths(bytes);
  }

  lemma NumberRoundTrip(t: LType, v: Value, dest: Value, rest: Bytes)
    requires GoodType(t) && Valid(t, v) && Packable(t)
    ensures DecValue(t, dest, EncValue(t, v) + rest) == Parsed(v, rest)
  {
    hide Varint, GetVarint64, Fixed, FromFixed;
    var s := EncValue(t, v) + rest;
    WordSizes();
    match t {
      case Int(bytes) =>
        SignedBack(v.n, bytes);
        VarintRoundTrip(ToWord(v.n), rest);
      case UInt(bytes) =>
        Widths(bytes);
        VarintRoundTrip(v.n, rest);
      case SInt(bytes) =>
        ZigZagBack(v.n, bytes);
        VarintRoundTrip(ZigZag(v.n), rest);
      case Fixed32 =>
        FixedRoundTrip(4, v.n);
        assert s[..4] == Fixed(4, v.n) && s[4..] == rest;
      case Fixed64 =>
        FixedRoundTrip(8, v.n);
        assert s[..8] == Fixed(8, v.n) && s[8..] == rest;
    }
  }

  lemma RawRoundTrip(t: LType, v: Value, dest: Value, rest: Bytes)
    requires GoodType(t) && Valid(t, v) && (t.BytesType? || t.StringType? || t.FixedBytes?)
    requires |EncValue(t, v)| < WORD32
    ensures DecValue(t, dest, EncValue(t, v) + rest) == Parsed(v, rest)
  {
    hide GetLengthPrefixed;
    PrefixedRoundTrip(v.bytes, rest);
    if t.FixedBytes? && v.bytes == [] {
      assert seq(t.size, i => 0) == v.bytes;
    }
  }

  // ---------------------------------------------------------------- skipping

  lemma {:induction false} SkipVarintSkips(n: nat, rest: Bytes)
    ensures SkipVarint(Varint(n) + rest) == Parsed((), rest)
  {
    var s := Varint(n) + rest;
    if n < 128 {
      assert s[1..] == rest;
    } else {
      assert s[1..] == Varint(n / 128) + rest;
      SkipVarintSkips(n / 128, rest);
    }
  }

  /** Skipping a field takes exactly the payload that its encoder wrote. */
  lemma SkipValue(t: LType, v: Value, rest: Bytes)
    requires |EncValue(t, v)| < WORD32
    ensures SkipField(WireType(t), EncValue(t, v) + rest) == Parsed((), rest)
  {
    hide Varint, SkipVarint, GetLengthPrefixed, Fixed, EncFields;
    var s := EncValue(t, v) + rest;
    match t {
      case Int(_) => SkipVarintSkips(Natural(ToWord(NumberOf(v))), rest);
      case UInt(_) => SkipVarintSkips(Natural(NumberOf(v)), rest);
      case SInt(_) => SkipVarintSkips(ZigZag(NumberOf(v)), rest);
      case Fixed32 => assert s[4..] == rest;
      case Fixed64 => assert s[8..] == rest;
      case Message(fields) => PrefixedRoundTrip(EncFields(t, v, |fields|), rest);
      case _ => PrefixedRoundTrip(RawOf(v), rest);
    }
  }

  // ---------------------------------------------------------------- one field

  /** What the decoding loop does after a tag. */
  function AfterTag(t: LType, slots: seq<Slot>, seen: set<nat>, tag: nat, wt: nat, s: Bytes): Option<(seq<Slot>, set<nat>)>
    requires t.Message? && |slots| == |t.fields|
  {
    match FindTag(t.fields, tag)
    case None =>
      if t.fields == [] && tag == 0 then
        None
      else
        (match SkipField(wt, s)
         case Parsed(_, after) => DecLoop(t, slots, seen, after)
         case Failed => None)
    case Some(j) =>
      match DecField(t, slots, j, wt, s)
      case Parsed(more, after) => DecLoop(t, more, if t.fields[j].htype.Required? then seen + {j} else seen, after)
      case Failed => None
  }

  lemma TagStep(t: LType, slots: seq<Slot>, seen: set<nat>, tag: nat, wt: nat, s: Bytes)
    requires t.Message? && |slots| == |t.fields| && 0 < tag < 0x2000_0000 && wt < 8
    ensures DecLoop(t, slots, seen, TagBytes(tag, wt) + s) == AfterTag(t, slots, seen, tag, wt, s)
  {
    hide Varint, GetVarint32, DecField, SkipField;
    var word := tag * 8 + wt;
    assert word / 8 == tag && word % 8 == wt;
    VarintRoundTrip(word, s);
  }

  /** A field that the decoder does not know is passed over whole. */
  lemma {:induction false} SkipItems(t: LType, slots: seq<Slot>, seen: set<nat>, f: Field, items: seq<Value>, n: nat, tail: Bytes)
    requires t.Message? && |slots| == |t.fields| && 0 < f.tag < 0x2000_0000 && FindTag(t.fields, f.tag).None?
    requires n <= |items| && |EncItems(f, items, n)| < WORD32
    ensures DecLoop(t, slots, seen, EncItems(f, items, n) + tail) == DecLoop(t, slots, seen, tail)
    decreases n
  {
    hide DecLoop, TagBytes, EncValue, SkipField;
    if n == 0 {
      assert [] + tail == tail;
    } else {
      var v := items[n - 1];
      var wt := WireType(f.ltype);
      var last := TagBytes(f.tag, wt) + (EncValue(f.ltype, v) + tail);
      assert EncItems(f, items, n) + tail == EncItems(f, items, n - 1) + last;
      SkipItems(t, slots, seen, f, items, n - 1, last);
      TagStep(t, slots, seen, f.tag, wt, EncValue(f.ltype, v) + tail);
      SkipValue(f.ltype, v, tail);
    }
  }

  lemma SkipUnknown(t: LType, slots: seq<Slot>, seen: set<nat>, f: Field, slot: Slot, tail: Bytes)
    requires t.Message? && |slots| == |t.fields| && 0 < f.tag < 0x2000_0000 && FindTag(t.fields, f.tag).None?
    requires |EncField(f, slot)| < WORD32
    ensures DecLoop(t, slots, seen, EncField(f, slot) + tail) == DecLoop(t, slots, seen, tail)
  {
    hide DecLoop, TagBytes, EncValue, SkipField, EncItems, EncPacked, Prefixed;
    match slot {
      case Maybe(None) =>
        assert [] + tail == tail;
      case Many(items) =>
        if items == [] {
          assert [] + tail == tail;
        } else if Packable(f.ltype) {
          var packed := EncPacked(f.ltype, items, |items|);
          assert EncField(f, slot) + tail == TagBytes(f.tag, WT_STRING) + (Prefixed(packed) + tail);
          TagStep(t, slots, seen, f.tag, WT_STRING, Prefixed(packed) + tail);
          SkipPrefixed(packed, tail);
        } else {
          SkipItems(t, slots, seen, f, items, |items|, tail);
        }
      case Maybe(Some(v)) => SkipOne(t, slots, seen, f, v, tail);
      case Single(v) => SkipOne(t, slots, seen, f, v, tail);
    }
  }

  lemma SkipOne(t: LType, slots: seq<Slot>, seen: set<nat>, f: Field, v: Value, tail: Bytes)
    requires t.Message? && |slots| == |t.fields| && 0 < f.tag < 0x2000_0000 && FindTag(t.fields, f.tag).None?
    requires |EncValue(f.ltype, v)| < WORD32
    ensures DecLoop(t, slots, seen, TagBytes(f.tag, WireType(f.ltype)) + EncValue(f.ltype, v) + tail) == DecLoop(t, slots, seen, tail)
  {
    hide DecLoop, TagBytes, EncValue, SkipField;
    var wt := WireType(f.ltype);
    assert TagBytes(f.tag, wt) + EncValue(f.ltype, v) + tail == TagBytes(f.tag, wt) + (EncValue(f.ltype, v) + tail);
    TagStep(t, slots, seen, f.tag, wt, EncValue(f.ltype, v) + tail);
    SkipValue(f.ltype, v, tail);
  }

  lemma SkipPrefixed(s: Bytes, tail: Bytes)
    requires |s| < WORD32
    ensures SkipField(WT_STRING, Prefixed(s) + tail) == Parsed((), tail)
  {
    hide GetLengthPrefixed;
    PrefixedRoundTrip(s, tail);
  }

  /** A packed array fills up the items. */
  lemma {:induction false} PackedRoundTrip(t: LType, had: seq<Value>, items: seq<Value>, n: nat, max: nat, tail: Bytes)
    requires GoodType(t) && Packable(t) && n <= |items| && |had| + n <= max
    requires forall k :: 0 <= k < |items| ==> Valid(t, items[k])
    ensures DecPacked(t, had, max, EncPacked(t, items, n) + tail) == DecPacked(t, had + items[..n], max, tail)
    decreases n
  {
    hide EncValue, DecValue, GoodType, Valid;
    if n == 0 {
      assert [] + tail == tail && had + [] == had;
    } else {
      var v := items[n - 1];
      var last := EncValue(t, v) + tail;
      assert EncPacked(t, items, n) + tail == EncPacked(t, items, n - 1) + last;
      PackedRoundTrip(t, had, items, n - 1, max, last);
      NumberRoundTrip(t, v, Default(t), tail);
      NotEmpty(t, v);
      assert had + items[..n - 1] + [v] == had + items[..n];
    }
  }

  lemma NotEmpty(t: LType, v: Value)
    requires Packable(t)
    ensures EncValue(t, v) != []
  {
  }

  // ---------------------------------------------------------------- what has been decoded so far

  /** Where the larger descriptor has the field. */
  ghost function IndexIn(a: LType, g: Field): nat
    requires a.Message?
  {
    var k := FindTag(a.fields, g.tag);
    if k.Some? then k.value else |a.fields|
  }

  /** The destination when the first `i` fields of the sender have been read. */
  ghost function Partial(a: LType, b: LType, v: Value, i: nat): (r: seq<Slot>)
    requires a.Message? && b.Message?
    ensures |r| == |b.fields|
  {
    seq(|b.fields|, j requires 0 <= j < |b.fields| =>
      if IndexIn(a, b.fields[j]) < i then ProjectAt(a, b.fields[j], v) else DefaultSlot(b.fields[j]))
  }

  ghost function Seen(a: LType, b: LType, i: nat): set<nat>
    requires a.Message? && b.Message?
  {
    set j | 0 <= j < |b.fields| && b.fields[j].htype.Required? && IndexIn(a, b.fields[j]) < i
  }

  /** A pair of descriptors, the second with fewer fields, and a message of the first. */
  ghost predicate Pair(a: LType, b: LType, v: Value) {
    a.Message? && GoodType(a) && GoodType(b) && SubType(a, b) && Valid(a, v)
  }

  lemma PartialKnown(a: LType, b: LType, v: Value, i: nat, j: nat)
    requires Pair(a, b, v) && i < |a.fields| && FindTag(b.fields, a.fields[i].tag) == Some(j)
    ensures b.Message? && j < |b.fields| && b.fields[j].htype == a.fields[i].htype
    ensures SubType(a.fields[i].ltype, b.fields[j].ltype)
    ensures Partial(a, b, v, i)[j] == DefaultSlot(b.fields[j])
    ensures Partial(a, b, v, i + 1) ==
      Partial(a, b, v, i)[j := ProjectSlot(a.fields[i].ltype, b.fields[j].ltype, v.slots[i])]
    ensures Seen(a, b, i + 1) == Seen(a, b, i) + if b.fields[j].htype.Required? then {j} else {}
  {
    hide GoodType, Valid, ProjectSlot, DefaultSlot;
    var g := b.fields[j];
    assert SubField(a, g);
    TagsDistinct(a);
    TagsDistinct(b);
    MsgSlots(a, v);
    FindsItself(a.fields, i);
    assert IndexIn(a, g) == i;
    forall m | 0 <= m < |b.fields| && m != j
      ensures IndexIn(a, b.fields[m]) != i
    {
      assert SubField(a, b.fields[m]);
    }
  }

  lemma TagsDistinct(t: LType)
    requires GoodType(t) && t.Message?
    ensures DistinctTags(t.fields)
    ensures forall i :: 0 <= i < |t.fields| ==> 0 < t.fields[i].tag < 0x2000_0000 && GoodType(t.fields[i].ltype)
  {
  }

  lemma MsgSlots(t: LType, v: Value)
    requires t.Message? && Valid(t, v)
    ensures v.Msg? && |v.slots| == |t.fields|
    ensures forall i :: 0 <= i < |t.fields| ==> ValidSlot(t.fields[i], v.slots[i])
    ensures OneOfEach(t.fields, v.slots)
  {
  }

  lemma PartialUnknown(a: LType, b: LType, v: Value, i: nat)
    requires Pair(a, b, v) && i < |a.fields| && FindTag(b.fields, a.fields[i].tag).None?
    ensures Partial(a, b, v, i + 1) == Partial(a, b, v, i) && Seen(a, b, i + 1) == Seen(a, b, i)
  {
    hide GoodType, Valid, ProjectAt, DefaultSlot;
    forall m | 0 <= m < |b.fields|
      ensures IndexIn(a, b.fields[m]) != i
    {
      assert SubField(a, b.fields[m]);
    }
  }

  /** Nothing is taken from the other members of a union, because none of them is set. */
  lemma ChooseOne(a: LType, b: LType, v: Value, i: nat, j: nat, x: Value)
    requires Pair(a, b, v) && i < |a.fields| && FindTag(b.fields, a.fields[i].tag) == Some(j)
    requires a.fields[i].htype.OneOf? && SlotAt(v, i) != Maybe(None)
    ensures Choose(b.fields, Partial(a, b, v, i), j, x) == Partial(a, b, v, i)[j := Maybe(Some(x))]
  {
    PartialKnown(a, b, v, i, j);
    TagsDistinct(a);
    TagsDistinct(b);
    MsgSlots(a, v);
    hide GoodType, Valid;
    var part := Partial(a, b, v, i);
    forall m | 0 <= m < |b.fields| && m != j && b.fields[m].htype == b.fields[j].htype
      ensures part[m] == Maybe(None)
    {
      assert SubField(a, b.fields[m]);
      var k := IndexIn(a, b.fields[m]);
      if k < i {
        assert v.slots[k] == Maybe(None);
        assert part[m] == ProjectAt(a, b.fields[m], v);
        assert ProjectAt(a, b.fields[m], v) == ProjectSlot(a.fields[k].ltype, b.fields[m].ltype, Maybe(None));
      } else {
        assert part[m] == DefaultSlot(b.fields[m]);
      }
    }
  }

  // ---------------------------------------------------------------- round trips

  /** The decoder of a field type reads back what the encoder of the larger type wrote, as far
      as the smaller type shows it. */
  lemma {:induction false} ValueRoundTrip(a: LType, b: LType, v: Value, rest: Bytes)
    requires GoodType(a) && GoodType(b) && SubType(a, b) && Valid(a, v) && |EncValue(a, v)| < WORD32
    ensures DecValue(b, Default(b), EncValue(a, v) + rest) == Parsed(Project(a, b, v), rest)
    decreases v, 3, 0
  {
    if a.Message? {
      MessageRoundTrip(a, b, v);
      PrefixedMessage(a, b, v, rest);
    } else if Packable(a) {
      NumberRoundTrip(a, v, Default(b), rest);
    } else {
      RawRoundTrip(a, v, Default(b), rest);
    }
  }

  lemma PrefixedMessage(a: LType, b: LType, v: Value, rest: Bytes)
    requires a.Message? && b.Message? && |EncValue(a, v)| < WORD32
    requires DecMessage(b, Default(b), Encode(a, v)) == Some(Project(a, b, v))
    ensures DecValue(b, Default(b), EncValue(a, v) + rest) == Parsed(Project(a, b, v), rest)
  {
    hide DecMessage, Project, EncFields, GetLengthPrefixed, Default;
    PrefixedRoundTrip(Encode(a, v), rest);
  }

  /** Decoding an encoded message with a descriptor that lacks some of its fields gives the
      values of the fields that are left. */
  lemma {:induction false} MessageRoundTrip(a: LType, b: LType, v: Value)
    requires Pair(a, b, v) && |Encode(a, v)| < WORD32
    ensures b.Message? && DecMessage(b, Default(b), Encode(a, v)) == Some(Project(a, b, v))
    decreases v, 2, 0
  {
    var n := |a.fields|;
    FieldsRoundTrip(a, b, v, n, []);
    assert Encode(a, v) + [] == Encode(a, v);
    hide GoodType, Valid, EncFields, DecLoop, ProjectAt, DefaultSlot;
    assert Partial(a, b, v, 0) == Default(b).slots;
    assert Seen(a, b, 0) == {};
    forall j | 0 <= j < |b.fields|
      ensures IndexIn(a, b.fields[j]) < n
    {
      assert SubField(a, b.fields[j]);
    }
    assert Partial(a, b, v, n) == Project(a, b, v).slots;
    NothingLeft(b, Partial(a, b, v, n), Seen(a, b, n));
  }

  lemma NothingLeft(t: LType, slots: seq<Slot>, seen: set<nat>)
    requires t.Message? && |slots| == |t.fields|
    ensures DecLoop(t, slots, seen, []) == Some((slots, seen))
  {
  }

  lemma {:induction false} FieldsRoundTrip(a: LType, b: LType, v: Value, n: nat, tail: Bytes)
    requires Pair(a, b, v) && n <= |a.fields| && |EncFields(a, v, n)| < WORD32
    ensures DecLoop(b, Partial(a, b, v, 0), Seen(a, b, 0), EncFields(a, v, n) + tail) ==
      DecLoop(b, Partial(a, b, v, n), Seen(a, b, n), tail)
    decreases v, 1, n
  {
    hide GoodType, Valid, SubType, EncField, DecLoop, Partial, Seen;
    if n == 0 {
      assert [] + tail == tail;
    } else {
      var last := EncField(a.fields[n - 1], SlotAt(v, n - 1));
      assert EncFields(a, v, n) + tail == EncFields(a, v, n - 1) + (last + tail);
      FieldsRoundTrip(a, b, v, n - 1, last + tail);
      FieldRoundTrip(a, b, v, n - 1, tail);
    }
  }

  lemma {:induction false} FieldRoundTrip(a: LType, b: LType, v: Value, i: nat, tail: Bytes)
    requires Pair(a, b, v) && i < |a.fields| && |EncField(a.fields[i], SlotAt(v, i))| < WORD32
    ensures DecLoop(b, Partial(a, b, v, i), Seen(a, b, i), EncField(a.fields[i], SlotAt(v, i)) + tail) ==
      DecLoop(b, Partial(a, b, v, i + 1), Seen(a, b, i + 1), tail)
    decreases v, 0, if SlotAt(v, i).Many? then |SlotAt(v, i).items| + 2 else 1
  {
    hide GoodType, Valid, DecLoop, Partial, Seen, EncField, ProjectAt;
    var f := a.fields[i];
    TagsDistinct(a);
    MsgSlots(a, v);
    var slot := v.slots[i];
    assert ValidSlot(f, slot);
    match FindTag(b.fields, f.tag) {
      case None =>
        PartialUnknown(a, b, v, i);
        SkipUnknown(b, Partial(a, b, v, i), Seen(a, b, i), f, slot, tail);
      case Some(j) =>
        match slot {
          case Single(x) =>
            ValueField(a, b, v, i, j, x, tail);
          case Maybe(None) =>
            PartialKnown(a, b, v, i, j);
            AbsentField(f, tail);
            assert Partial(a, b, v, i + 1) == Partial(a, b, v, i);
            assert Seen(a, b, i + 1) == Seen(a, b, i);
          case Maybe(Some(x)) =>
            ValueField(a, b, v, i, j, x, tail);
          case Many(items) =>
            ManyField(a, b, v, i, j, tail);
        }
    }
  }

  lemma AbsentField(f: Field, tail: Bytes)
    ensures EncField(f, Maybe(None)) + tail == tail && EncField(f, Many([])) + tail == tail
  {
    assert [] + tail == tail;
  }

  /** A single value read into a fresh slot. */
  ghost function Stored(t: LType, slots: seq<Slot>, j: nat, x: Value): (r: seq<Slot>)
    requires t.Message? && |slots| == |t.fields| && j < |slots|
    ensures |r| == |slots|
  {
    match t.fields[j].htype
    case Required => slots[j := Single(x)]
    case OneOf(_) => Choose(t.fields, slots, j, x)
    case _ => slots[j := Maybe(Some(x))]
  }

  lemma StoreOne(t: LType, slots: seq<Slot>, j: nat, wt: nat, x: Value, s: Bytes, rest: Bytes)
    requires t.Message? && |slots| == |t.fields| && j < |slots| && slots[j] == DefaultSlot(t.fields[j])
    requires !t.fields[j].htype.Repeated?
    requires DecValue(t.fields[j].ltype, Default(t.fields[j].ltype), s) == Parsed(x, rest)
    ensures DecField(t, slots, j, wt, s) == Parsed(Stored(t, slots, j, x), rest)
  {
    hide DecValue, Default, Choose;
  }

  lemma {:induction false} ValueField(a: LType, b: LType, v: Value, i: nat, j: nat, x: Value, tail: Bytes)
    requires Pair(a, b, v) && i < |a.fields| && FindTag(b.fields, a.fields[i].tag) == Some(j)
    requires SlotAt(v, i) == Single(x) || SlotAt(v, i) == Maybe(Some(x))
    requires |EncField(a.fields[i], SlotAt(v, i))| < WORD32
    ensures DecLoop(b, Partial(a, b, v, i), Seen(a, b, i), EncField(a.fields[i], SlotAt(v, i)) + tail) ==
      DecLoop(b, Partial(a, b, v, i + 1), Seen(a, b, i + 1), tail)
    decreases v, 0, 0
  {
    hide GoodType, Valid, EncValue, DecValue, Project, DecLoop, Partial, Seen, TagBytes, ProjectAt, SubType, Default, Choose;
    var f, slot := a.fields[i], v.slots[i];
    TagsDistinct(a);
    MsgSlots(a, v);
    assert ValidSlot(f, slot);
    PartialKnown(a, b, v, i, j);
    TagsDistinct(b);
    SubTypeKind(f.ltype, b.fields[j].ltype);
    var g := b.fields[j];
    var part := Partial(a, b, v, i);
    var wt, y := WireType(f.ltype), Project(f.ltype, g.ltype, x);
    if f.htype.OneOf? {
      ChooseOne(a, b, v, i, j, y);
    }
    var s := EncValue(f.ltype, x) + tail;
    assert EncField(f, slot) + tail == TagBytes(f.tag, wt) + s;
    ValueRoundTrip(f.ltype, g.ltype, x, tail);
    TagStep(b, part, Seen(a, b, i), f.tag, wt, s);
    StoreOne(b, part, j, wt, y, s, tail);
    assert Seen(a, b, i) + {} == Seen(a, b, i);
    assert Stored(b, part, j, y) == Partial(a, b, v, i + 1);
  }

  lemma SubTypeKind(a: LType, b: LType)
    requires SubType(a, b)
    ensures a.Message? == b.Message? && Packable(a) == Packable(b) && WireType(a) == WireType(b)
  {
  }

  lemma {:induction false} ManyField(a: LType, b: LType, v: Value, i: nat, j: nat, tail: Bytes)
    requires Pair(a, b, v) && i < |a.fields| && FindTag(b.fields, a.fields[i].tag) == Some(j)
    requires SlotAt(v, i).Many? && |EncField(a.fields[i], SlotAt(v, i))| < WORD32
    ensures DecLoop(b, Partial(a, b, v, i), Seen(a, b, i), EncField(a.fields[i], SlotAt(v, i)) + tail) ==
      DecLoop(b, Partial(a, b, v, i + 1), Seen(a, b, i + 1), tail)
    decreases v, 0, |SlotAt(v, i).items| + 1
  {
    hide GoodType, Valid, DecLoop, Partial, Seen, ProjectAt, Project, EncPacked, EncValue, TagBytes, Prefixed;
    var f, slot := a.fields[i], v.slots[i];
    TagsDistinct(a);
    TagsDistinct(b);
    MsgSlots(a, v);
    assert ValidSlot(f, slot);
    PartialKnown(a, b, v, i, j);
    var g := b.fields[j];
    var part, items := Partial(a, b, v, i), slot.items;
    assert Seen(a, b, i + 1) == Seen(a, b, i);
    if items == [] {
      AbsentField(f, tail);
      assert ProjectItems(f.ltype, g.ltype, items) == [];
      assert Partial(a, b, v, i + 1) == part;
    } else if Packable(f.ltype) {
      PackedField(b, part, Seen(a, b, i), f, j, items, tail);
      PackedAsIs(f.ltype, items);
    } else {
      ItemsRoundTrip(a, b, v, i, j, |items|, tail);
      var all := ProjectItems(f.ltype, g.ltype, items);
      assert all[..|items|] == all;
    }
  }

  lemma PackedAsIs(t: LType, items: seq<Value>)
    requires Packable(t)
    ensures ProjectItems(t, t, items) == items
  {
  }

  lemma PackedField(t: LType, slots: seq<Slot>, seen: set<nat>, f: Field, j: nat, items: seq<Value>, tail: Bytes)
    requires t.Message? && |slots| == |t.fields| && FindTag(t.fields, f.tag) == Some(j) && t.fields[j] == f
    requires f.htype.Repeated? && slots[j] == Many([]) && 0 < f.tag < 0x2000_0000
    requires GoodType(f.ltype) && Packable(f.ltype) && 0 < |items| <= f.htype.max
    requires |EncField(f, Many(items))| < WORD32 && forall k :: 0 <= k < |items| ==> Valid(f.ltype, items[k])
    ensures DecLoop(t, slots, seen, EncField(f, Many(items)) + tail) == DecLoop(t, slots[j := Many(items)], seen, tail)
  {
    hide GoodType, Valid, EncValue, DecValue, DecLoop, TagBytes, Prefixed, EncPacked, GetLengthPrefixed;
    var packed := EncPacked(f.ltype, items, |items|);
    var s := Prefixed(packed) + tail;
    assert EncField(f, Many(items)) + tail == TagBytes(f.tag, WT_STRING) + s;
    TagStep(t, slots, seen, f.tag, WT_STRING, s);
    PrefixedRoundTrip(packed, tail);
    PackedRoundTrip(f.ltype, [], items, |items|, f.htype.max, []);
    assert packed + [] == packed && [] + items[..|items|] == items;
  }

  lemma {:induction false} ItemsRoundTrip(a: LType, b: LType, v: Value, i: nat, j: nat, n: nat, tail: Bytes)
    requires Pair(a, b, v) && i < |a.fields| && FindTag(b.fields, a.fields[i].tag) == Some(j)
    requires SlotAt(v, i).Many? && n <= |SlotAt(v, i).items| && !Packable(a.fields[i].ltype)
    requires |EncItems(a.fields[i], SlotAt(v, i).items, n)| < WORD32
    ensures b.Message? && j < |b.fields|
    ensures var items := SlotAt(v, i).items;
      var seen := ProjectItems(a.fields[i].ltype, b.fields[j].ltype, items);
      DecLoop(b, Partial(a, b, v, i), Seen(a, b, i), EncItems(a.fields[i], items, n) + tail) ==
      DecLoop(b, Partial(a, b, v, i)[j := Many(seen[..n])], Seen(a, b, i), tail)
    decreases v, 0, n
  {
    hide GoodType, Valid, EncValue, DecValue, Project, DecLoop, Partial, Seen, TagBytes, ProjectAt, SubType, Default;
    var f, slot := a.fields[i], v.slots[i];
    TagsDistinct(a);
    MsgSlots(a, v);
    assert ValidSlot(f, slot);
    PartialKnown(a, b, v, i, j);
    TagsDistinct(b);
    SubTypeKind(f.ltype, b.fields[j].ltype);
    var g := b.fields[j];
    var part, items := Partial(a, b, v, i), slot.items;
    var all := ProjectItems(f.ltype, g.ltype, items);
    if n == 0 {
      assert [] + tail == tail && part[j := Many([])] == part;
    } else {
      var x, wt := items[n - 1], WireType(f.ltype);
      var s := EncValue(f.ltype, x) + tail;
      var last := TagBytes(f.tag, wt) + s;
      assert EncItems(f, items, n) + tail == EncItems(f, items, n - 1) + last;
      ItemsRoundTrip(a, b, v, i, j, n - 1, last);
      ValueRoundTrip(f.ltype, g.ltype, x, tail);
      TagStep(b, part[j := Many(all[..n - 1])], Seen(a, b, i), f.tag, wt, s);
      OneMore(b, part, j, wt, all, n, s, tail);
    }
  }

  lemma OneMore(t: LType, slots: seq<Slot>, j: nat, wt: nat, all: seq<Value>, n: nat, s: Bytes, rest: Bytes)
    requires t.Message? && |slots| == |t.fields| && j < |slots| && 0 < n <= |all|
    requires t.fields[j].htype.Repeated? && n <= t.fields[j].htype.max && !Packable(t.fields[j].ltype)
    requires DecValue(t.fields[j].ltype, Default(t.fields[j].ltype), s) == Parsed(all[n - 1], rest)
    ensures DecField(t, slots[j := Many(all[..n - 1])], j, wt, s) == Parsed(slots[j := Many(all[..n])], rest)
  {
    hide DecValue, Default;
    assert all[..n - 1] + [all[n - 1]] == all[..n];
    assert slots[j := Many(all[..n - 1])][j := Many(all[..n])] == slots[j := Many(all[..n])];
  }

  /** pb_decode undoes pb_encode. */
  lemma EncodeDecode(t: LType, v: Value)
    requires t.Message? && GoodType(t) && Valid(t, v) && |Encode(t, v)| < WORD32
    ensures Decode(t, Encode(t, v)) == Some(v)
  {
    SubTypeRefl(t);
    MessageRoundTrip(t, t, v);
    ProjectSame(t, v);
  }
}
