/** pb_encode as code over a stream: every submessage and packed array is sized by a first pass
    over a stream that only counts, and then written (nanopb: pb_encode.c). */
module NanopbEncoder {
  import opened DbFormat
  import opened Coding
  import opened Nanopb

  /** What the C types guarantee about a message: the right kinds of slots, numbers in the range
      of their field, terminated strings, fixed bytes of their length.  Array counts and sizes of
      byte arrays are not guaranteed: the encoder checks them. */
  ghost predicate Typed(t: LType, v: Value) {
    match t
    case Int(bytes) => v.Number? && 0 <= ToWord(v.n)
    case UInt(bytes) => v.Number? && 0 <= v.n
    case SInt(bytes) => v.Number?
    case Fixed32 => v.Number? && 0 <= v.n
    case Fixed64 => v.Number? && 0 <= v.n
    case BytesType(_) => v.Raw?
    case StringType(size) => v.Raw? && |v.bytes| < size && 0 !in v.bytes
    case FixedBytes(size) => v.Raw? && |v.bytes| == size
    case Message(fields) =>
      v.Msg? && |v.slots| == |fields| && forall i :: 0 <= i < |fields| ==> TypedSlot(fields[i], v.slots[i])
  }

  ghost predicate TypedSlot(f: Field, slot: Slot) {
    match f.htype
    case Required => slot.Single? && Typed(f.ltype, slot.v)
    case Repeated(_) => slot.Many? && forall k :: 0 <= k < |slot.items| ==> Typed(f.ltype, slot.items[k])
    case _ => slot.Maybe? && (slot.opt.Some? ==> Typed(f.ltype, slot.opt.value))
  }

  /** What the encoder checks. */
  ghost predicate Fitting(t: LType, v: Value) {
    match t
    case BytesType(max) => v.Raw? ==> |v.bytes| <= max
    case Message(fields) =>
      forall i :: 0 <= i < |fields| ==> FittingSlot(fields[i], SlotAt(v, i))
    case _ => true
  }

  ghost predicate FittingSlot(f: Field, slot: Slot) {
    match slot
    case Single(v) => Fitting(f.ltype, v)
    case Maybe(None) => true
    case Maybe(Some(v)) => Fitting(f.ltype, v)
    case Many(items) =>
      (f.htype.Repeated? ==> |items| <= f.htype.max) && forall k :: 0 <= k < |items| ==> Fitting(f.ltype, items[k])
  }

  /** A stream that held `before` and now holds `after` has taken `s`. */
  ghost predicate Took(sizing: bool, written: nat, before: Bytes, now: nat, after: Bytes, s: Bytes) {
    now == written + |s| && after == if sizing then before else before + s
  }

  /** Two pieces, one after the other. */
  lemma TookBoth(sizing: bool, w0: nat, o0: Bytes, w1: nat, o1: Bytes, w2: nat, o2: Bytes, a: Bytes, b: Bytes)
    requires Took(sizing, w0, o0, w1, o1, a) && Took(sizing, w1, o1, w2, o2, b)
    ensures Took(sizing, w0, o0, w2, o2, a + b)
  {
    Associate(o0, a, b);
  }

  lemma TookLength(sizing: bool, w0: nat, o0: Bytes, w1: nat, o1: Bytes, a: Bytes)
    requires Took(sizing, w0, o0, w1, o1, a)
    ensures w1 == w0 + |a|
  {
  }

  lemma TookNothing(sizing: bool, w: nat, o: Bytes)
    ensures Took(sizing, w, o, w, o, [])
  {
  }

  /** pb_ostream_t.  A sizing stream has no callback: it counts and stores nothing. */
  class OStream {
    const sizing: bool
    const max_size: nat
    var bytes_written: nat
    var out: Bytes

    constructor (sizing: bool, max_size: nat)
      ensures this.sizing == sizing && this.max_size == max_size && bytes_written == 0 && out == [] && Sound()
    {
      this.sizing, this.max_size := sizing, max_size;
      bytes_written, out := 0, [];
    }

    /** What every write keeps. */
    predicate Sound()
      reads this
    {
      sizing || bytes_written <= max_size
    }

    /** There is room for `n` more bytes. */
    predicate Room(n: nat)
      reads this
    {
      sizing || bytes_written + n <= max_size
    }

    /** pb_write. */
    method Write(buf: Bytes) returns (ok: bool)
      requires Sound()
      modifies this
      ensures Sound()
      ensures ok == old(Room(|buf|))
      ensures ok ==> Emitted(old(bytes_written), old(out), buf)
    {
      if !sizing {
        if bytes_written + |buf| > max_size {
          return false;
        }
        out := out + buf;
      }
      bytes_written := bytes_written + |buf|;
      ok := true;
    }

    /** pb_write with no data, on a sizing stream. */
    method Count(n: nat)
      requires sizing
      requires Sound()
      modifies this
      ensures Sound()
      ensures bytes_written == old(bytes_written) + n && out == old(out)
    {
      bytes_written := bytes_written + n;
    }

    /** The stream has taken `s` since it held `before`. */
    ghost predicate Emitted(written: nat, before: Bytes, s: Bytes)
      reads this
    {
      Took(sizing, written, before, bytes_written, out, s)
    }

    /** pb_encode_varint. */
    method EncodeVarint(value: nat) returns (ok: bool)
      requires Sound()
      modifies this
      ensures Sound()
      ensures ok == old(Room(|Varint(value)|))
      ensures ok ==> Emitted(old(bytes_written), old(out), Varint(value))
    {
      hide Varint;
      var buffer := VarintBuffer(value);
      ok := Write(buffer);
    }

    /** pb_encode_string. */
    method EncodeString(s: Bytes) returns (ok: bool)
      requires Sound()
      modifies this
      ensures Sound()
      ensures ok == old(Room(|Prefixed(s)|))
      ensures ok ==> Emitted(old(bytes_written), old(out), Prefixed(s))
    {
      hide Varint, Took;
      ghost var w0, o0 := bytes_written, out;
      ok := EncodeVarint(|s|);
      if ok {
        ghost var w, o := bytes_written, out;
        TookLength(sizing, w0, o0, w, o, Varint(|s|));
        ok := Write(s);
        if ok {
          TookBoth(sizing, w0, o0, w, o, bytes_written, out, Varint(|s|), s);
        }
      }
    }

    method EncodeTag(wt: nat, tag: nat) returns (ok: bool)
      requires Sound()
      modifies this
      ensures Sound()
      ensures ok == old(Room(|TagBytes(tag, wt)|))
      ensures ok ==> Emitted(old(bytes_written), old(out), TagBytes(tag, wt))
    {
      ok := EncodeVarint(tag * 8 + wt);
    }
  }

  /** The buffer of pb_encode_varint: groups of seven bits, the top bit of the last byte cleared
      at the end. */
  method VarintBuffer(value: nat) returns (buffer: Bytes)
    ensures buffer == Varint(value)
  {
    hide Varint, IsFinal;
    if value <= 0x7f {
      LastGroup(value);
      return [value as byte];
    }
    var rest: nat := value;
    buffer := [];
    assert [] + Varint(value) == Varint(value);
    while rest > 0
      invariant rest > 0 ==> Varint(value) == buffer + Varint(rest)
      invariant rest == 0 ==> IsFinal(value, buffer)
    {
      var b := (rest % 128 + 128) as byte;
      if rest < 128 {
        LastGroup(rest);
        FinalByte(value, buffer, b);
      } else {
        NextGroup(rest);
        Associate(buffer, [b], Varint(rest / 128));
      }
      buffer := buffer + [b];
      rest := rest / 128;
    }
    FinalIs(value, buffer);
    var last := |buffer| - 1;
    buffer := buffer[..last] + [buffer[last] - 128];
  }

  lemma LastGroup(n: nat)
    requires n < 128
    ensures Varint(n) == [n as byte]
  {
  }

  lemma NextGroup(n: nat)
    requires n >= 128
    ensures Varint(n) == [(n % 128 + 128) as byte] + Varint(n / 128)
  {
  }

  lemma FinalByte(value: nat, buffer: Bytes, b: byte)
    requires b >= 128 && Varint(value) == buffer + [b - 128]
    ensures IsFinal(value, buffer + [b])
  {
    hide Varint;
    assert (buffer + [b])[..|buffer|] == buffer;
  }

  lemma FinalIs(value: nat, buffer: Bytes)
    requires IsFinal(value, buffer)
    ensures |buffer| > 0 && buffer[|buffer| - 1] >= 128
    ensures Varint(value) == buffer[..|buffer| - 1] + [buffer[|buffer| - 1] - 128]
  {
  }

  /** `buffer` is the varint, but for the top bit of its last byte. */
  ghost predicate IsFinal(value: nat, buffer: Bytes) {
    |buffer| > 0 && buffer[|buffer| - 1] >= 128 &&
    Varint(value) == buffer[..|buffer| - 1] + [buffer[|buffer| - 1] - 128]
  }

  /** The encoders of numbers. */
  method EncodeNumber(stream: OStream, t: LType, v: Value) returns (ok: bool)
    requires Packable(t) && Typed(t, v)
    requires stream.Sound()
    modifies stream
    ensures stream.Sound()
    ensures ok == old(stream.Room(|EncValue(t, v)|))
    ensures ok ==> stream.Emitted(old(stream.bytes_written), old(stream.out), EncValue(t, v))
  {
    hide Varint, Fixed;
    match t {
      case Int(_) => ok := stream.EncodeVarint(ToWord(v.n));
      case UInt(_) => ok := stream.EncodeVarint(v.n);
      case SInt(_) => ok := stream.EncodeVarint(ZigZag(v.n));
      case Fixed32 => ok := stream.Write(Fixed(4, v.n));
      case Fixed64 => ok := stream.Write(Fixed(8, v.n));
    }
  }

  /** The field encoders. */
  method EncodeValue(stream: OStream, t: LType, v: Value) returns (ok: bool)
    requires Typed(t, v)
    requires stream.Sound()
    modifies stream
    ensures stream.Sound()
    ensures ok == (Fitting(t, v) && old(stream.Room(|EncValue(t, v)|)))
    ensures ok ==> stream.Emitted(old(stream.bytes_written), old(stream.out), EncValue(t, v))
    decreases t, 3, 0
  {
    hide Varint, Prefixed, Fixed;
    if t.Message? {
      ok := EncodeSubmessage(stream, t, v);
    } else if Packable(t) {
      ok := EncodeNumber(stream, t, v);
    } else if t.BytesType? {
      if |v.bytes| > t.max {
        return false;
      }
      ok := stream.EncodeString(v.bytes);
    } else {
      ok := stream.EncodeString(v.bytes);
    }
  }

  /** pb_encode_submessage: the size found by the counting pass is the size written, so the final
      check never fails. */
  method EncodeSubmessage(stream: OStream, t: LType, v: Value) returns (ok: bool)
    requires t.Message? && Typed(t, v)
    requires stream.Sound()
    modifies stream
    ensures stream.Sound()
    ensures ok == (Fitting(t, v) && old(stream.Room(|EncValue(t, v)|)))
    ensures ok ==> stream.Emitted(old(stream.bytes_written), old(stream.out), EncValue(t, v))
    decreases t, 2, 0
  {
    hide Varint, EncFields, Typed, Fitting;
    var counter := new OStream(true, 0);
    ok := EncodeMessage(counter, t, v);
    if !ok {
      return;
    }
    var size := counter.bytes_written;
    assert size == |Encode(t, v)|;
    ok := stream.EncodeVarint(size);
    if !ok {
      return;
    }
    if stream.sizing {
      stream.Count(size);
      return;
    }
    if stream.bytes_written + size > stream.max_size {
      return false;
    }
    var sub := new OStream(false, size);
    ok := EncodeMessage(sub, t, v);
    stream.bytes_written := stream.bytes_written + sub.bytes_written;
    stream.out := stream.out + sub.out;
    assert sub.bytes_written == size;
    if sub.bytes_written != size {
      return false;
    }
  }

  /** pb_encode. */
  method EncodeMessage(stream: OStream, t: LType, v: Value) returns (ok: bool)
    requires t.Message? && Typed(t, v)
    requires stream.Sound()
    modifies stream
    ensures stream.Sound()
    ensures ok == (Fitting(t, v) && old(stream.Room(|Encode(t, v)|)))
    ensures ok ==> stream.Emitted(old(stream.bytes_written), old(stream.out), Encode(t, v))
    decreases t, 1, 0
  {
    hide EncField, EncFields, FittingSlot, Fitting, Typed, TypedSlot, Took;
    MonotoneLength(t, v, 0);
    ghost var w0, o0 := stream.bytes_written, stream.out;
    TookNothing(stream.sizing, w0, o0);
    for i := 0 to |t.fields|
      invariant forall k :: 0 <= k < i ==> FittingSlot(t.fields[k], SlotAt(v, k))
      invariant stream.Sound() && old(stream.Room(|EncFields(t, v, i)|)) && stream.Emitted(w0, o0, EncFields(t, v, i))
    {
      MonotoneLength(t, v, i + 1);
      FieldsStep(t, v, i);
      TypedAt(t, v, i);
      ghost var w, o := stream.bytes_written, stream.out;
      TookLength(stream.sizing, w0, o0, w, o, EncFields(t, v, i));
      ok := EncodeBasicField(stream, t.fields[i], v.slots[i]);
      if !ok {
        FittingAt(t, v, i);
        return;
      }
      TookBoth(stream.sizing, w0, o0, w, o, stream.bytes_written, stream.out, EncFields(t, v, i), EncField(t.fields[i], v.slots[i]));
    }
    FittingAll(t, v);
    ok := true;
  }

  lemma TypedAt(t: LType, v: Value, i: nat)
    requires t.Message? && Typed(t, v) && i < |t.fields|
    ensures v.Msg? && |v.slots| == |t.fields| && TypedSlot(t.fields[i], v.slots[i]) && SlotAt(v, i) == v.slots[i]
  {
  }

  lemma FittingAt(t: LType, v: Value, i: nat)
    requires t.Message? && i < |t.fields|
    ensures Fitting(t, v) ==> FittingSlot(t.fields[i], SlotAt(v, i))
  {
  }

  lemma FittingAll(t: LType, v: Value)
    requires t.Message? && forall k :: 0 <= k < |t.fields| ==> FittingSlot(t.fields[k], SlotAt(v, k))
    ensures Fitting(t, v)
  {
  }

  lemma FieldsStep(t: LType, v: Value, i: nat)
    requires t.Message? && i < |t.fields|
    ensures EncFields(t, v, i + 1) == EncFields(t, v, i) + EncField(t.fields[i], SlotAt(v, i))
  {
  }

  lemma {:induction false} MonotoneLength(t: LType, v: Value, n: nat)
    requires t.Message? && n <= |t.fields|
    ensures |EncFields(t, v, n)| <= |Encode(t, v)| && (n == 0 ==> EncFields(t, v, n) == [])
    decreases |t.fields| - n
  {
    hide EncField;
    if n < |t.fields| {
      MonotoneLength(t, v, n + 1);
    }
  }

  /** encode_basic_field. */
  method EncodeBasicField(stream: OStream, f: Field, slot: Slot) returns (ok: bool)
    requires TypedSlot(f, slot)
    requires stream.Sound()
    modifies stream
    ensures stream.Sound()
    ensures ok == (FittingSlot(f, slot) && old(stream.Room(|EncField(f, slot)|)))
    ensures ok ==> stream.Emitted(old(stream.bytes_written), old(stream.out), EncField(f, slot))
    decreases f, 3, 0
  {
    match f.htype {
      case Required => ok := EncodeTagged(stream, f, slot.v);
      case Repeated(_) => ok := EncodeArray(stream, f, slot.items);
      case _ =>
        if slot.opt.Some? {
          ok := EncodeTagged(stream, f, slot.opt.value);
        } else {
          ok := true;
        }
    }
  }

  /** pb_encode_tag_for_field and the field's encoder. */
  method EncodeTagged(stream: OStream, f: Field, v: Value) returns (ok: bool)
    requires Typed(f.ltype, v)
    requires stream.Sound()
    modifies stream
    ensures stream.Sound()
    ensures ok == (Fitting(f.ltype, v) && old(stream.Room(|EncTagged(f, v)|)))
    ensures ok ==> stream.Emitted(old(stream.bytes_written), old(stream.out), EncTagged(f, v))
    decreases f, 0, 0
  {
    hide TagBytes, EncValue, Fitting, Typed, Took;
    ghost var w0, o0 := stream.bytes_written, stream.out;
    ghost var tag := TagBytes(f.tag, WireType(f.ltype));
    ok := stream.EncodeTag(WireType(f.ltype), f.tag);
    if ok {
      ghost var w, o := stream.bytes_written, stream.out;
      TookLength(stream.sizing, w0, o0, w, o, tag);
      ok := EncodeValue(stream, f.ltype, v);
      if ok {
        TookBoth(stream.sizing, w0, o0, w, o, stream.bytes_written, stream.out, tag, EncValue(f.ltype, v));
      }
    }
  }

  /** The size of a packed array: computed for fixed widths, counted otherwise. */
  method PackedSize(t: LType, items: seq<Value>) returns (size: nat)
    requires Packable(t) && forall k :: 0 <= k < |items| ==> Typed(t, items[k])
    ensures size == |EncPacked(t, items, |items|)|
  {
    hide EncValue, Typed;
    if t.Fixed32? || t.Fixed64? {
      size := if t.Fixed32? then 4 * |items| else 8 * |items|;
      FixedSize(t, items, |items|);
    } else {
      var counter := new OStream(true, 0);
      for i := 0 to |items|
        invariant counter.Sound() && counter.sizing && counter.bytes_written == |EncPacked(t, items, i)|
        invariant fresh(counter)
      {
        var ok := EncodeNumber(counter, t, items[i]);
      }
      size := counter.bytes_written;
    }
  }

  lemma {:induction false} FixedSize(t: LType, items: seq<Value>, n: nat)
    requires (t.Fixed32? || t.Fixed64?) && n <= |items|
    ensures |EncPacked(t, items, n)| == if t.Fixed32? then 4 * n else 8 * n
  {
    if n > 0 {
      FixedSize(t, items, n - 1);
    }
  }

  method WriteItems(stream: OStream, t: LType, items: seq<Value>) returns (ok: bool)
    requires Packable(t) && forall k :: 0 <= k < |items| ==> Typed(t, items[k])
    requires stream.Sound()
    modifies stream
    ensures stream.Sound()
    ensures ok == old(stream.Room(|EncPacked(t, items, |items|)|))
    ensures ok ==> stream.Emitted(old(stream.bytes_written), old(stream.out), EncPacked(t, items, |items|))
  {
    hide EncValue, Typed, EncPacked, Took;
    PackedGrows(t, items, 0);
    ghost var w0, o0 := stream.bytes_written, stream.out;
    TookNothing(stream.sizing, w0, o0);
    for i := 0 to |items|
      invariant stream.Sound() && old(stream.Room(|EncPacked(t, items, i)|)) && stream.Emitted(w0, o0, EncPacked(t, items, i))
    {
      PackedGrows(t, items, i + 1);
      PackedStep(t, items, i);
      ghost var w, o := stream.bytes_written, stream.out;
      TookLength(stream.sizing, w0, o0, w, o, EncPacked(t, items, i));
      ok := EncodeNumber(stream, t, items[i]);
      if !ok {
        return;
      }
      TookBoth(stream.sizing, w0, o0, w, o, stream.bytes_written, stream.out, EncPacked(t, items, i), EncValue(t, items[i]));
    }
    ok := true;
  }

  lemma PackedStep(t: LType, items: seq<Value>, i: nat)
    requires Packable(t) && i < |items|
    ensures EncPacked(t, items, i + 1) == EncPacked(t, items, i) + EncValue(t, items[i])
  {
  }

  lemma {:induction false} PackedGrows(t: LType, items: seq<Value>, n: nat)
    requires Packable(t) && n <= |items|
    ensures |EncPacked(t, items, n)| <= |EncPacked(t, items, |items|)| && (n == 0 ==> EncPacked(t, items, n) == [])
    decreases |items| - n
  {
    hide EncValue;
    if n < |items| {
      PackedGrows(t, items, n + 1);
    }
  }

  lemma {:induction false} ItemsGrow(f: Field, items: seq<Value>, n: nat)
    requires n <= |items|
    ensures |EncItems(f, items, n)| <= |EncItems(f, items, |items|)|
    ensures n == 0 ==> EncItems(f, items, n) == [] && AllFitting(f.ltype, items, n)
    decreases |items| - n
  {
    hide EncValue;
    if n < |items| {
      ItemsGrow(f, items, n + 1);
    }
  }

  /** A packed array after its checks. */
  method EncodePacked(stream: OStream, f: Field, items: seq<Value>) returns (ok: bool)
    requires Packable(f.ltype) && items != [] && forall k :: 0 <= k < |items| ==> Typed(f.ltype, items[k])
    requires stream.Sound()
    modifies stream
    ensures stream.Sound()
    ensures ok == old(stream.Room(|EncField(f, Many(items))|))
    ensures ok ==> stream.Emitted(old(stream.bytes_written), old(stream.out), EncField(f, Many(items)))
  {
    hide TagBytes, Varint, Typed, EncPacked;
    ok := stream.EncodeTag(WT_STRING, f.tag);
    if !ok {
      return;
    }
    var size := PackedSize(f.ltype, items);
    ok := stream.EncodeVarint(size);
    if !ok {
      return;
    }
    if stream.sizing {
      stream.Count(size);
      return;
    }
    ok := WriteItems(stream, f.ltype, items);
  }

  /** encode_array. */
  method EncodeArray(stream: OStream, f: Field, items: seq<Value>) returns (ok: bool)
    requires f.htype.Repeated? && forall k :: 0 <= k < |items| ==> Typed(f.ltype, items[k])
    requires stream.Sound()
    modifies stream
    ensures stream.Sound()
    ensures ok == (FittingSlot(f, Many(items)) && old(stream.Room(|EncField(f, Many(items))|)))
    ensures ok ==> stream.Emitted(old(stream.bytes_written), old(stream.out), EncField(f, Many(items)))
    decreases f, 2, 0
  {
    hide TagBytes, Varint, Typed, EncPacked, EncValue, EncItems, Fitting;
    if items == [] {
      return true;
    }
    if |items| > f.htype.max {
      return false;
    }
    if Packable(f.ltype) {
      NumbersFit(f.ltype, items);
      ok := EncodePacked(stream, f, items);
      return;
    }
    ok := EncodeEach(stream, f, items);
  }

  lemma NumbersFit(t: LType, items: seq<Value>)
    requires Packable(t)
    ensures forall k :: 0 <= k < |items| ==> Fitting(t, items[k])
  {
  }

  /** An array that cannot be packed: every item with its own tag. */
  method EncodeEach(stream: OStream, f: Field, items: seq<Value>) returns (ok: bool)
    requires forall k :: 0 <= k < |items| ==> Typed(f.ltype, items[k])
    requires stream.Sound()
    modifies stream
    ensures stream.Sound()
    ensures ok == (AllFitting(f.ltype, items, |items|) && old(stream.Room(|EncItems(f, items, |items|)|)))
    ensures ok ==> stream.Emitted(old(stream.bytes_written), old(stream.out), EncItems(f, items, |items|))
    decreases f, 1, 0
  {
    hide TagBytes, Typed, EncValue, Fitting, AllFitting, EncItems, EncTagged, Took;
    ItemsGrow(f, items, 0);
    ghost var w0, o0 := stream.bytes_written, stream.out;
    TookNothing(stream.sizing, w0, o0);
    for i := 0 to |items|
      invariant AllFitting(f.ltype, items, i)
      invariant stream.Sound() && old(stream.Room(|EncItems(f, items, i)|)) && stream.Emitted(w0, o0, EncItems(f, items, i))
    {
      ItemsGrow(f, items, i + 1);
      FittingItems(f.ltype, items, i);
      ItemsStep(f, items, i);
      ghost var w, o := stream.bytes_written, stream.out;
      TookLength(stream.sizing, w0, o0, w, o, EncItems(f, items, i));
      ok := EncodeTagged(stream, f, items[i]);
      if !ok {
        return;
      }
      TookBoth(stream.sizing, w0, o0, w, o, stream.bytes_written, stream.out, EncItems(f, items, i), EncTagged(f, items[i]));
    }
    ok := true;
  }

  /** The first `n` items fit. */
  ghost predicate AllFitting(t: LType, items: seq<Value>, n: nat) {
    forall k :: 0 <= k < n && k < |items| ==> Fitting(t, items[k])
  }

  lemma FittingItems(t: LType, items: seq<Value>, i: nat)
    requires i < |items|
    ensures AllFitting(t, items, i + 1) == (AllFitting(t, items, i) && Fitting(t, items[i]))
    ensures AllFitting(t, items, |items|) ==> AllFitting(t, items, i + 1)
    ensures AllFitting(t, items, 0)
  {
    hide Fitting;
  }

  function EncTagged(f: Field, v: Value): Bytes {
    TagBytes(f.tag, WireType(f.ltype)) + EncValue(f.ltype, v)
  }

  lemma ItemsStep(f: Field, items: seq<Value>, i: nat)
    requires i < |items|
    ensures EncItems(f, items, i + 1) == EncItems(f, items, i) + EncTagged(f, items[i])
  {
    hide TagBytes, EncValue;
    Associate(EncItems(f, items, i), TagBytes(f.tag, WireType(f.ltype)), EncValue(f.ltype, items[i]));
  }
}
