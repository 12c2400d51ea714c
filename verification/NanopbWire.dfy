/** The bytes that the Protocol Buffers encoding (sections "Base 128 Varints", "Signed Integers",
    "Message Structure", "Packed Fields") prescribes, written out as concatenations, and what the
    encoder and the number decoders make of them (nanopb: pb_encode.c, pb_decode.c). */
module NanopbWire {
  import opened DbFormat
  import opened Coding
  import opened Nanopb
  import opened NanopbProof
  import opened NanopbFits
  import opened NanopbEncoder

  lemma {:induction false} ConcatSnoc(parts: seq<Bytes>, part: Bytes)
    ensures Concat(parts + [part]) == Concat(parts) + part
  {
    if parts == [] {
      assert [part][1..] == [];
    } else {
      assert (parts + [part])[1..] == parts[1..] + [part];
      ConcatSnoc(parts[1..], part);
    }
  }

  /** Varints hold numbers as 64-bit words, zig-zag numbers alternate between the signs, fixed
      numbers are little-endian, and everything else follows its length. */
  ghost function WireValue(t: LType, v: Value): Bytes
    requires Typed(t, v)
  {
    match t
    case Int(_) => Varint(if v.n < 0 then v.n + 0x1_0000_0000_0000_0000 else v.n)
    case UInt(_) => Varint(v.n)
    case SInt(_) => Varint(if v.n < 0 then 2 * -v.n - 1 else 2 * v.n)
    case Fixed32 => LittleEndian(4, v.n)
    case Fixed64 => LittleEndian(8, v.n)
    case Message(fields) =>
      var body := Concat(seq(|fields|, i requires 0 <= i < |fields| => WireField(fields[i], v.slots[i])));
      Varint(|body|) + body
    case _ => Varint(|v.bytes|) + v.bytes
  }

  ghost function LittleEndian(n: nat, v: nat): Bytes {
    seq(n, i requires 0 <= i < n => (v / Power(256, i) % 256) as byte)
  }

  /** Wire type 0 for varints, 5 and 1 for four and eight bytes, 2 for what has a length. */
  ghost function WireTag(f: Field): Bytes {
    Varint(8 * f.tag + match f.ltype
      case Int(_) => 0
      case UInt(_) => 0
      case SInt(_) => 0
      case Fixed32 => 5
      case Fixed64 => 1
      case _ => 2)
  }

  /** Absent fields take no bytes; numbers of an array are packed, other items have a tag each. */
  ghost function WireField(f: Field, slot: Slot): Bytes
    requires TypedSlot(f, slot)
  {
    match slot
    case Single(v) => WireTag(f) + WireValue(f.ltype, v)
    case Maybe(None) => []
    case Maybe(Some(v)) => WireTag(f) + WireValue(f.ltype, v)
    case Many(items) =>
      if items == [] then
        []
      else if f.ltype.Int? || f.ltype.UInt? || f.ltype.SInt? || f.ltype.Fixed32? || f.ltype.Fixed64? then
        var body := Concat(seq(|items|, k requires 0 <= k < |items| => WireValue(f.ltype, items[k])));
        Varint(8 * f.tag + 2) + Varint(|body|) + body
      else
        Concat(seq(|items|, k requires 0 <= k < |items| => WireTag(f) + WireValue(f.ltype, items[k])))
  }

  lemma FixedIs(n: nat, v: nat)
    ensures Fixed(n, v) == LittleEndian(n, v)
  {
    forall i | 0 <= i < n
      ensures Fixed(n, v)[i] == LittleEndian(n, v)[i]
    {
      FixedDigits(n, v, i);
    }
  }

  lemma {:induction false} ValueOnWire(t: LType, v: Value)
    requires Typed(t, v)
    ensures EncValue(t, v) == WireValue(t, v)
    decreases t, if t.Message? then |t.fields| + 1 else 0
  {
    hide Varint, Fixed;
    match t {
      case Fixed32 => FixedIs(4, v.n);
      case Fixed64 => FixedIs(8, v.n);
      case Message(fields) => FieldsOnWire(t, v, |fields|);
      case _ =>
    }
  }

  lemma {:induction false} FieldsOnWire(t: LType, v: Value, n: nat)
    requires t.Message? && Typed(t, v) && n <= |t.fields|
    ensures EncFields(t, v, n) == Concat(seq(n, i requires 0 <= i < n => WireField(t.fields[i], v.slots[i])))
    decreases t, n
  {
    hide EncField, WireField;
    if n > 0 {
      var last := n - 1;
      FieldsOnWire(t, v, last);
      FieldOnWire(t.fields[last], v.slots[last]);
      var before := seq(last, i requires 0 <= i < last => WireField(t.fields[i], v.slots[i]));
      ConcatSnoc(before, WireField(t.fields[last], v.slots[last]));
      assert seq(n, i requires 0 <= i < n => WireField(t.fields[i], v.slots[i])) ==
        before + [WireField(t.fields[last], v.slots[last])];
    }
  }

  lemma {:induction false} PackedOnWire(t: LType, items: seq<Value>, n: nat)
    requires Packable(t) && n <= |items| && forall k :: 0 <= k < |items| ==> Typed(t, items[k])
    ensures EncPacked(t, items, n) == Concat(seq(n, k requires 0 <= k < n => WireValue(t, items[k])))
    decreases t, n + 1
  {
    hide EncValue, WireValue;
    if n > 0 {
      var last := n - 1;
      PackedOnWire(t, items, last);
      ValueOnWire(t, items[last]);
      var before := seq(last, k requires 0 <= k < last => WireValue(t, items[k]));
      ConcatSnoc(before, WireValue(t, items[last]));
      assert seq(n, k requires 0 <= k < n => WireValue(t, items[k])) == before + [WireValue(t, items[last])];
    }
  }

  lemma {:induction false} ItemsOnWire(f: Field, items: seq<Value>, n: nat)
    requires n <= |items| && forall k :: 0 <= k < |items| ==> Typed(f.ltype, items[k])
    ensures EncItems(f, items, n) == Concat(seq(n, k requires 0 <= k < n => WireTag(f) + WireValue(f.ltype, items[k])))
    decreases f, n
  {
    hide EncValue, WireValue, WireTag, TagBytes;
    if n > 0 {
      var last := n - 1;
      ItemsOnWire(f, items, last);
      ValueOnWire(f.ltype, items[last]);
      TagOnWire(f);
      var item := WireTag(f) + WireValue(f.ltype, items[last]);
      var before := seq(last, k requires 0 <= k < last => WireTag(f) + WireValue(f.ltype, items[k]));
      ConcatSnoc(before, item);
      Associate(EncItems(f, items, last), WireTag(f), WireValue(f.ltype, items[last]));
      assert seq(n, k requires 0 <= k < n => WireTag(f) + WireValue(f.ltype, items[k])) == before + [item];
    }
  }

  lemma TagOnWire(f: Field)
    ensures TagBytes(f.tag, WireType(f.ltype)) == WireTag(f)
  {
    hide Varint;
  }

  lemma {:induction false} FieldOnWire(f: Field, slot: Slot)
    requires TypedSlot(f, slot)
    ensures EncField(f, slot) == WireField(f, slot)
    decreases f, if slot.Many? then |slot.items| + 2 else 0
  {
    hide EncValue, WireValue, Varint, WireTag, Concat, EncPacked, EncItems;
    TagOnWire(f);
    match slot {
      case Single(v) => ValueOnWire(f.ltype, v);
      case Maybe(None) =>
      case Maybe(Some(v)) => ValueOnWire(f.ltype, v);
      case Many(items) =>
        if items != [] && Packable(f.ltype) {
          PackedArrayOnWire(f, items);
        } else {
          ItemsOnWire(f, items, |items|);
        }
    }
  }

  lemma {:induction false} PackedArrayOnWire(f: Field, items: seq<Value>)
    requires TypedSlot(f, Many(items)) && items != [] && Packable(f.ltype)
    ensures EncField(f, Many(items)) == WireField(f, Many(items))
    decreases f, |items| + 1
  {
    hide EncValue, WireValue, Varint, WireTag, Concat, EncPacked, EncItems;
    PackedOnWire(f.ltype, items, |items|);
    var body := EncPacked(f.ltype, items, |items|);
    Associate(Varint(8 * f.tag + 2), Varint(|body|), body);
  }

  /** What the encoder writes is what the encoding prescribes. */
  lemma EncodeOnWire(t: LType, v: Value)
    requires t.Message? && Typed(t, v)
    ensures var fields := t.fields;
      Encode(t, v) == Concat(seq(|fields|, i requires 0 <= i < |fields| => WireField(fields[i], v.slots[i])))
  {
    FieldsOnWire(t, v, |t.fields|);
  }

  /** The number that a varint stands for: signed fields of up to four bytes look at the low 32
      bits only. */
  ghost predicate Stands(t: LType, word: nat, n: int) {
    match t
    case Int(bytes) =>
      if bytes == 8 then
        n == (if word < 0x8000_0000_0000_0000 then word else word - 0x1_0000_0000_0000_0000)
      else
        var low := word % 0x1_0000_0000;
        n == if low < 0x8000_0000 then low else low - 0x1_0000_0000
    case UInt(_) => n == word
    case SInt(_) => n == if word % 2 == 0 then word / 2 else -((word + 1) / 2)
    case _ => false
  }

  ghost predicate InField(t: LType, n: int) {
    match t
    case Int(bytes) => -Half(bytes) <= n < Half(bytes)
    case SInt(bytes) => -Half(bytes) <= n < Half(bytes)
    case UInt(bytes) => 0 <= n < 2 * Half(bytes)
    case _ => false
  }

  /** A number is read exactly when the varint stands for one that fits the field. */
  lemma NumberRead(t: LType, dest: Value, s: Bytes, word: nat, rest: Bytes, n: int)
    requires GoodType(t) && (t.Int? || t.UInt? || t.SInt?) && GetVarint64(s) == Parsed(word, rest) && Stands(t, word, n)
    ensures DecValue(t, dest, s) == if InField(t, n) then Parsed(Number(n), rest) else Failed
  {
    hide GetVarint64, Power, Signed;
    Widths(t.bytes);
    SignedIs(word);
  }

  lemma SignedIs(word: nat)
    requires word < WORD64
    ensures Signed(word, 8) == if word < 0x8000_0000_0000_0000 then word else word - 0x1_0000_0000_0000_0000
    ensures var low := word % 0x1_0000_0000; Signed(word, 4) == if low < 0x8000_0000 then low else low - 0x1_0000_0000
  {
    hide Power;
    WordSizes();
  }

  /** Fixed numbers are read from four or eight bytes, least significant first. */
  lemma FixedRead(t: LType, dest: Value, s: Bytes, n: nat)
    requires t.Fixed32? || t.Fixed64?
    requires n < if t.Fixed32? then 0x1_0000_0000 else 0x1_0000_0000_0000_0000
    ensures var size := if t.Fixed32? then 4 else 8;
      if |s| < size then
        DecValue(t, dest, s) == Failed
      else
        DecValue(t, dest, s) == Parsed(Number(n), s[size..]) <==> s[..size] == LittleEndian(size, n)
  {
    hide Fixed, FromFixed, LittleEndian, Power;
    var size := if t.Fixed32? then 4 else 8;
    WordSizes();
    FixedIs(size, n);
    FixedRoundTrip(size, n);
    if |s| >= size {
      FixedOnto(s[..size]);
    }
  }
}
