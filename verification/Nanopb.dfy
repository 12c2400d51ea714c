/** Protocol Buffers messages driven by field descriptors (nanopb: pb.h, pb_encode.c,
    pb_decode.c): statically allocated fields without callbacks or extensions.

    A message type is a finite tree, as static allocation requires.  A message is a list of
    slots, one per field: a value, an optional value (has_ flag, or the which_ tag of a union),
    or the used part of an array. */
module Nanopb {
  import opened DbFormat
  import opened Coding

  const SIZE_MAX := 0xffff
  const MAX_REQUIRED_FIELDS := 64
  const WT_VARINT := 0
  const WT_64BIT := 1
  const WT_STRING := 2
  const WT_32BIT := 5

  /** PB_LTYPE with data_size: `bytes` is the width of an integer, `max` the room for bytes and
      `size` the room for a string with its terminator or the length of fixed bytes. */
  datatype LType =
    | Int(bytes: nat)
    | UInt(bytes: nat)
    | SInt(bytes: nat)
    | Fixed32
    | Fixed64
    | BytesType(max: nat)
    | StringType(size: nat)
    | Message(fields: seq<Field>)
    | FixedBytes(size: nat)

  /** PB_HTYPE: a repeated field has room for `max` items; members of one union share `union`. */
  datatype HType = Required | Optional | Repeated(max: nat) | OneOf(union: nat)

  datatype Field = Field(tag: nat, htype: HType, ltype: LType)

  datatype Value = Number(n: int) | Raw(bytes: Bytes) | Msg(slots: seq<Slot>)

  datatype Slot = Single(v: Value) | Maybe(opt: Option<Value>) | Many(items: seq<Value>)

  predicate Packable(t: LType) {
    t.Int? || t.UInt? || t.SInt? || t.Fixed32? || t.Fixed64?
  }

  function WireType(t: LType): (wt: nat)
    ensures wt < 8
  {
    if t.Int? || t.UInt? || t.SInt? then WT_VARINT
    else if t.Fixed32? then WT_32BIT
    else if t.Fixed64? then WT_64BIT
    else WT_STRING
  }

  // ---------------------------------------------------------------- encoding

  function TagBytes(tag: nat, wt: nat): (s: Bytes)
    ensures |s| > 0
  {
    Varint(tag * 8 + wt)
  }

  /** A signed number as a 64-bit word. */
  function ToWord(n: int): int {
    if n < 0 then n + WORD64 else n
  }

  function ZigZag(n: int): int {
    if n < 0 then -2 * n - 1 else 2 * n
  }

  function NumberOf(v: Value): int {
    if v.Number? then v.n else 0
  }

  function RawOf(v: Value): Bytes {
    if v.Raw? then v.bytes else []
  }

  function SlotAt(v: Value, i: nat): Slot {
    if v.Msg? && i < |v.slots| then v.slots[i] else Maybe(None)
  }

  function Natural(n: int): nat {
    if n < 0 then 0 else n
  }

  /** The field encoders: the bytes after the tag. */
  function EncValue(t: LType, v: Value): (s: Bytes)
    decreases t, if t.Message? then |t.fields| + 1 else 0
  {
    match t
    case Int(_) => Varint(Natural(ToWord(NumberOf(v))))
    case UInt(_) => Varint(Natural(NumberOf(v)))
    case SInt(_) => Varint(ZigZag(NumberOf(v)))
    case Fixed32 => Fixed(4, Natural(NumberOf(v)))
    case Fixed64 => Fixed(8, Natural(NumberOf(v)))
    case BytesType(_) => Prefixed(RawOf(v))
    case StringType(_) => Prefixed(RawOf(v))
    case FixedBytes(_) => Prefixed(RawOf(v))
    case Message(fields) => Prefixed(EncFields(t, v, |fields|))
  }

  /** pb_encode on the first `n` fields. */
  function EncFields(t: LType, v: Value, n: nat): Bytes
    requires t.Message? && n <= |t.fields|
    decreases t, n
  {
    if n == 0 then [] else EncFields(t, v, n - 1) + EncField(t.fields[n - 1], SlotAt(v, n - 1))
  }

  function EncField(f: Field, slot: Slot): Bytes
    decreases f, if slot.Many? then |slot.items| + 1 else 0
  {
    match slot
    case Single(v) => TagBytes(f.tag, WireType(f.ltype)) + EncValue(f.ltype, v)
    case Maybe(None) => []
    case Maybe(Some(v)) => TagBytes(f.tag, WireType(f.ltype)) + EncValue(f.ltype, v)
    case Many(items) =>
      if items == [] then
        []
      else if Packable(f.ltype) then
        TagBytes(f.tag, WT_STRING) + Prefixed(EncPacked(f.ltype, items, |items|))
      else
        EncItems(f, items, |items|)
  }

  function EncPacked(t: LType, items: seq<Value>, n: nat): Bytes
    requires Packable(t) && n <= |items|
    decreases t, n + 1
  {
    if n == 0 then [] else EncPacked(t, items, n - 1) + EncValue(t, items[n - 1])
  }

  function EncItems(f: Field, items: seq<Value>, n: nat): Bytes
    requires n <= |items|
    decreases f, n
  {
    if n == 0 then
      []
    else
      EncItems(f, items, n - 1) + TagBytes(f.tag, WireType(f.ltype)) + EncValue(f.ltype, items[n - 1])
  }

  function Encode(t: LType, v: Value): Bytes
    requires t.Message?
  {
    EncFields(t, v, |t.fields|)
  }

  // ---------------------------------------------------------------- decoding

  /** pb_message_set_to_defaults: with has_ flags, counts and which_ tags cleared, stored
      defaults cannot be told from zeros. */
  function Default(t: LType): Value {
    match t
    case Message(fields) => Msg(seq(|fields|, i requires 0 <= i < |fields| => DefaultSlot(fields[i])))
    case BytesType(_) => Raw([])
    case StringType(_) => Raw([])
    case FixedBytes(_) => Raw([])
    case _ => Number(0)
  }

  function DefaultSlot(f: Field): Slot {
    match f.htype
    case Required => Single(Default(f.ltype))
    case Repeated(_) => Many([])
    case _ => Maybe(None)
  }

  /** A 64-bit word as a signed number of `bytes` bytes. */
  function Signed(word: nat, bytes: nat): int {
    var m := Power(256, bytes);
    var low := word % m;
    if 2 * low >= m then low - m else low
  }

  function UnZigZag(word: nat): int {
    if word % 2 == 1 then -(word / 2) - 1 else word / 2
  }

  predicate InRange(n: int, bytes: nat) {
    0 - Power(256, bytes) <= 2 * n < Power(256, bytes)
  }

  /** The widths of C integers. */
  predicate GoodWidth(bytes: nat) {
    bytes == 1 || bytes == 2 || bytes == 4 || bytes == 8
  }

  /** The number decoders: the value read is rejected when it does not fit the field. */
  function FromWord(t: LType, word: nat): Option<int> {
    match t
    case Int(bytes) =>
      var n := Signed(word, if bytes == 8 then 8 else 4);
      if GoodWidth(bytes) && InRange(n, bytes) then Some(n) else None
    case UInt(bytes) => if GoodWidth(bytes) && word < Power(256, bytes) then Some(word) else None
    case SInt(bytes) =>
      var n := UnZigZag(word);
      if GoodWidth(bytes) && InRange(n, bytes) then Some(n) else None
    case _ => None
  }

  function TakeFixed(s: Bytes, n: nat): Parse<nat> {
    if n <= |s| then Parsed(FromFixed(s[..n]), s[n..]) else Failed
  }

  /** pb_skip_varint: any number of bytes. */
  function SkipVarint(s: Bytes): (r: Parse<()>)
    ensures r.Parsed? ==> |r.rest| < |s|
  {
    if s == [] then Failed else if s[0] < 128 then Parsed((), s[1..]) else SkipVarint(s[1..])
  }

  /** pb_skip_field. */
  function SkipField(wt: nat, s: Bytes): (r: Parse<()>)
    ensures r.Parsed? ==> |r.rest| < |s|
  {
    if wt == WT_VARINT then
      SkipVarint(s)
    else if wt == WT_64BIT then
      if |s| >= 8 then Parsed((), s[8..]) else Failed
    else if wt == WT_32BIT then
      if |s| >= 4 then Parsed((), s[4..]) else Failed
    else if wt == WT_STRING then
      match GetLengthPrefixed(s)
      case Parsed(_, rest) => Parsed((), rest)
      case Failed => Failed
    else
      Failed
  }

  function FindTag(fields: seq<Field>, tag: nat): (r: Option<nat>)
    ensures r.Some? ==> r.value < |fields| && fields[r.value].tag == tag
    ensures r.None? ==> forall i :: 0 <= i < |fields| ==> fields[i].tag != tag
  {
    if fields == [] then
      None
    else
      var last := |fields| - 1;
      if fields[last].tag == tag then Some(last) else FindTag(fields[..last], tag)
  }

  function CurrentValue(slot: Slot, t: LType): Value {
    match slot
    case Single(v) => v
    case Maybe(Some(v)) => v
    case _ => Default(t)
  }

  function ItemsOf(slot: Slot): seq<Value> {
    if slot.Many? then slot.items else []
  }

  /** The field decoders.  Only a submessage looks at what the destination holds already. */
  function DecValue(t: LType, dest: Value, s: Bytes): (r: Parse<Value>)
    ensures r.Parsed? ==> |r.rest| < |s|
    decreases |s|, 0
  {
    match t
    case Fixed32 =>
      (match TakeFixed(s, 4)
       case Parsed(n, rest) => Parsed(Number(n), rest)
       case Failed => Failed)
    case Fixed64 =>
      (match TakeFixed(s, 8)
       case Parsed(n, rest) => Parsed(Number(n), rest)
       case Failed => Failed)
    case BytesType(max) =>
      (match GetLengthPrefixed(s)
       case Parsed(b, rest) => if |b| <= SIZE_MAX && |b| <= max then Parsed(Raw(b), rest) else Failed
       case Failed => Failed)
    case StringType(size) =>
      (match GetLengthPrefixed(s)
       case Parsed(b, rest) => if |b| + 1 <= size then Parsed(Raw(b), rest) else Failed
       case Failed => Failed)
    case FixedBytes(size) =>
      (match GetLengthPrefixed(s)
       case Parsed(b, rest) =>
         if b == [] then Parsed(Raw(seq(size, i => 0)), rest)
         else if |b| == size && size <= SIZE_MAX then Parsed(Raw(b), rest)
         else Failed
       case Failed => Failed)
    case Message(_) =>
      (match GetLengthPrefixed(s)
       case Parsed(sub, rest) =>
         var m := DecMessage(t, dest, sub);
         if m.Some? then Parsed(m.value, rest) else Failed
       case Failed => Failed)
    case _ =>
      (match GetVarint64(s)
       case Parsed(word, rest) =>
         var n := FromWord(t, word);
         if n.Some? then Parsed(Number(n.value), rest) else Failed
       case Failed => Failed)
  }

  /** The items of a packed array, as long as there is room. */
  function DecPacked(t: LType, items: seq<Value>, max: nat, s: Bytes): Option<seq<Value>>
    decreases |s|, 1
  {
    if s == [] then
      Some(items)
    else if |items| >= max then
      None
    else
      match DecValue(t, Default(t), s)
      case Failed => None
      case Parsed(v, rest) => DecPacked(t, items + [v], max, rest)
  }

  /** Storing into a member of a union takes the storage from the others. */
  function Choose(fields: seq<Field>, slots: seq<Slot>, j: nat, v: Value): (r: seq<Slot>)
    requires |slots| == |fields| && j < |fields|
    ensures |r| == |slots|
  {
    seq(|slots|, i requires 0 <= i < |slots| =>
      if i == j then Maybe(Some(v))
      else if fields[i].htype == fields[j].htype then Maybe(None)
      else slots[i])
  }

  /** decode_static_field. */
  function DecField(t: LType, slots: seq<Slot>, j: nat, wt: nat, s: Bytes): (r: Parse<seq<Slot>>)
    requires t.Message? && |slots| == |t.fields| && j < |t.fields|
    ensures r.Parsed? ==> |r.value| == |slots| && |r.rest| < |s|
    decreases |s|, 2
  {
    var f := t.fields[j];
    match f.htype
    case Required =>
      (match DecValue(f.ltype, CurrentValue(slots[j], f.ltype), s)
       case Parsed(v, rest) => Parsed(slots[j := Single(v)], rest)
       case Failed => Failed)
    case Optional =>
      (match DecValue(f.ltype, CurrentValue(slots[j], f.ltype), s)
       case Parsed(v, rest) => Parsed(slots[j := Maybe(Some(v))], rest)
       case Failed => Failed)
    case OneOf(_) =>
      (match DecValue(f.ltype, Default(f.ltype), s)
       case Parsed(v, rest) => Parsed(Choose(t.fields, slots, j, v), rest)
       case Failed => Failed)
    case Repeated(max) =>
      var items := ItemsOf(slots[j]);
      if wt == WT_STRING && Packable(f.ltype) then
        match GetLengthPrefixed(s)
        case Failed => Failed
        case Parsed(sub, rest) =>
          var more := DecPacked(f.ltype, items, max, sub);
          if more.Some? then Parsed(slots[j := Many(more.value)], rest) else Failed
      else if |items| >= max then
        Failed
      else
        match DecValue(f.ltype, Default(f.ltype), s)
        case Parsed(v, rest) => Parsed(slots[j := Many(items + [v])], rest)
        case Failed => Failed
  }

  /** The loop of pb_decode_noinit.  A tag cut short by the end of the stream, and a zero tag, end
      the message; a tag that is not in the descriptor is skipped.  In an empty descriptor field
      number zero matches the terminator, which no decoder accepts. */
  function DecLoop(t: LType, slots: seq<Slot>, seen: set<nat>, s: Bytes): (r: Option<(seq<Slot>, set<nat>)>)
    requires t.Message? && |slots| == |t.fields|
    ensures r.Some? ==> |r.value.0| == |slots|
    decreases |s|, 0
  {
    if s == [] then
      Some((slots, seen))
    else
      match GetVarint32(s)
      case Failed => if |s| <= 5 then Some((slots, seen)) else None
      case Parsed(word, rest) =>
        if word == 0 then
          Some((slots, seen))
        else
          match FindTag(t.fields, word / 8)
          case None =>
            if t.fields == [] && word / 8 == 0 then
              None
            else
              (match SkipField(word % 8, rest)
               case Parsed(_, after) => DecLoop(t, slots, seen, after)
               case Failed => None)
          case Some(j) =>
            match DecField(t, slots, j, word % 8, rest)
            case Parsed(more, after) =>
              DecLoop(t, more, if t.fields[j].htype.Required? then seen + {j} else seen, after)
            case Failed => None
  }

  function SlotsOf(t: LType, v: Value): (r: seq<Slot>)
    requires t.Message?
    ensures |r| == |t.fields|
  {
    if v.Msg? && |v.slots| == |t.fields| then v.slots else Default(t).slots
  }

  /** pb_decode_noinit: every required field must have been seen. */
  function DecMessage(t: LType, dest: Value, s: Bytes): Option<Value>
    requires t.Message?
    decreases |s|, 1
  {
    match DecLoop(t, SlotsOf(t, dest), {}, s)
    case None => None
    case Some((slots, seen)) =>
      if forall j :: 0 <= j < |t.fields| && t.fields[j].htype.Required? ==> j in seen then Some(Msg(slots)) else None
  }

  /** pb_decode. */
  function Decode(t: LType, s: Bytes): Option<Value>
    requires t.Message?
  {
    DecMessage(t, Default(t), s)
  }
}
