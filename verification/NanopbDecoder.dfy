/** The cyclic field iterator (nanopb: pb_common.c) and the decoders as code over a stream: the loop
    over tags with its bitmap of required fields, substreams, packed arrays and numbers
    (pb_decode.c). */
module NanopbDecoder {
  import opened DbFormat
  import opened Coding
  import opened Nanopb
  import opened NanopbProof
  import opened NanopbStream
  import opened NanopbFits

  /** How a field lies in the C struct: padding after the previous field, total size, and whether
      it shares its storage with the previous member of a union. */
  datatype Layout = Layout(padding: nat, size: nat, shares: bool)

  /** Where a field starts, counted from the start of the struct. */
  function Offset(fields: seq<Field>, layout: Field -> Layout, i: nat): nat
    requires i < |fields|
  {
    if i == 0 then
      layout(fields[0]).padding
    else if Shares(fields, layout, i) then
      Offset(fields, layout, i - 1)
    else
      Offset(fields, layout, i - 1) + layout(fields[i - 1]).size + layout(fields[i]).padding
  }

  /** Two neighbouring members of one union. */
  predicate Shares(fields: seq<Field>, layout: Field -> Layout, i: nat)
    requires 0 < i < |fields|
  {
    fields[i - 1].htype.OneOf? && fields[i].htype.OneOf? && layout(fields[i]).shares
  }

  /** How many of the first `i` fields are required. */
  function RequiredBefore(fields: seq<Field>, i: nat): (n: nat)
    requires i <= |fields|
    ensures n <= i
  {
    if i == 0 then 0 else RequiredBefore(fields, i - 1) + if fields[i - 1].htype.Required? then 1 else 0
  }

  /** pb_field_iter_t.  For an empty message the position is the terminator. */
  class FieldIter {
    const fields: seq<Field>
    const layout: Field -> Layout
    var pos: nat
    var data: nat
    var required_index: nat

    /** Offset and index are always the canonical ones of the position. */
    ghost predicate Valid()
      reads this
    {
      if fields == [] then
        pos == 0
      else
        pos < |fields| && data == Offset(fields, layout, pos) && required_index == RequiredBefore(fields, pos)
    }

    /** pb_field_iter_begin. */
    constructor (fields: seq<Field>, layout: Field -> Layout)
      ensures Valid() && this.fields == fields && this.layout == layout
    {
      this.fields, this.layout := fields, layout;
      pos, required_index := 0, 0;
      data := if fields == [] then 0 else layout(fields[0]).padding;
    }

    /** pb_field_iter_next: false when it wraps around. */
    method Next() returns (more: bool)
      requires Valid()
      modifies this
      ensures Valid()
      ensures more == (old(pos) + 1 < |fields|)
      ensures pos == if more then old(pos) + 1 else 0
    {
      if fields == [] {
        return false;
      }
      var previous := fields[pos];
      pos := pos + 1;
      if pos == |fields| {
        pos, required_index := 0, 0;
        data := layout(fields[0]).padding;
        return false;
      }
      if previous.htype.OneOf? && fields[pos].htype.OneOf? && layout(fields[pos]).shares {
        return true;
      }
      if previous.htype.Required? {
        required_index := required_index + 1;
      }
      data := data + layout(previous).size + layout(fields[pos]).padding;
      return true;
    }

    /** pb_field_iter_find: from any position, a tag is found exactly when it exists; zero is the tag
        of the terminator, at which the iterator stands in an empty message. */
    method Find(tag: nat) returns (found: bool)
      requires Valid()
      modifies this
      ensures Valid()
      ensures found <==> (fields == [] && tag == 0) || exists i :: 0 <= i < |fields| && fields[i].tag == tag
      ensures found && fields != [] ==> fields[pos].tag == tag
    {
      hide Offset, RequiredBefore;
      if fields == [] {
        return tag == 0;
      }
      var start := pos;
      var wrapped := false;
      while true
        invariant Valid() && fields != []
        invariant if wrapped then pos < start else start <= pos
        invariant forall i :: start <= i < |fields| && (wrapped || i < pos) ==> fields[i].tag != tag
        invariant forall i :: 0 <= i < pos && wrapped ==> fields[i].tag != tag
        decreases if wrapped then start - pos else start + |fields| - pos
      {
        if fields[pos].tag == tag {
          return true;
        }
        var more := Next();
        if !more {
          wrapped := true;
        }
        if pos == start {
          return false;
        }
      }
    }
  }

  // ---------------------------------------------------------------- the bitmap of required fields

  /** Two 32-bit words, each as the set of its bits. */
  type Bitmap = seq<set<nat>>

  /** Field `j` has its bit in the bitmap exactly when it has been seen. */
  ghost predicate Marks(fields: seq<Field>, bits: Bitmap, seen: set<nat>) {
    |bits| == 2 &&
    (forall j :: j in seen ==> j < |fields| && fields[j].htype.Required?) &&
    (forall j :: 0 <= j < |fields| && fields[j].htype.Required? && RequiredBefore(fields, j) < MAX_REQUIRED_FIELDS ==>
      (j in seen <==> HasBit(bits, RequiredBefore(fields, j)))) &&
    (forall w, b :: 0 <= w < 2 && b in bits[w] ==> b < 32 && w * 32 + b < RequiredBefore(fields, |fields|))
  }

  predicate HasBit(bits: Bitmap, r: nat) {
    |bits| == 2 && r < MAX_REQUIRED_FIELDS && r % 32 in bits[r / 32]
  }

  function SetBit(bits: Bitmap, r: nat): Bitmap
    requires |bits| == 2 && r < MAX_REQUIRED_FIELDS
  {
    bits[r / 32 := bits[r / 32] + {r % 32}]
  }

  lemma {:induction false} RequiredGrows(fields: seq<Field>, i: nat, j: nat)
    requires i < j <= |fields|
    ensures RequiredBefore(fields, i) <= RequiredBefore(fields, j)
    ensures fields[i].htype.Required? ==> RequiredBefore(fields, i) < RequiredBefore(fields, j)
    decreases j
  {
    if i < j - 1 {
      RequiredGrows(fields, i, j - 1);
    }
  }

  lemma SetBitMarks(fields: seq<Field>, bits: Bitmap, seen: set<nat>, j: nat)
    requires Marks(fields, bits, seen) && j < |fields| && fields[j].htype.Required?
    requires RequiredBefore(fields, j) < MAX_REQUIRED_FIELDS
    ensures Marks(fields, SetBit(bits, RequiredBefore(fields, j)), seen + {j})
  {
    var r := RequiredBefore(fields, j);
    var later := SetBit(bits, r);
    RequiredGrows(fields, j, |fields|);
    forall k | 0 <= k < |fields| && fields[k].htype.Required? && RequiredBefore(fields, k) < MAX_REQUIRED_FIELDS
      ensures k in seen + {j} <==> HasBit(later, RequiredBefore(fields, k))
    {
      if k < j {
        RequiredGrows(fields, k, j);
      } else if k > j {
        RequiredGrows(fields, j, k);
      }
      SameBit(r, RequiredBefore(fields, k));
    }
  }

  lemma SameBit(r: nat, q: nat)
    requires r < MAX_REQUIRED_FIELDS && q < MAX_REQUIRED_FIELDS
    ensures r == q <==> r / 32 == q / 32 && r % 32 == q % 32
  {
  }

  /** The number of required fields is one that the check handles: with a positive multiple of 32
      it would shift a word by its whole width, and with 64 or more read past the bitmap. */
  predicate Checkable(count: nat) {
    count == 0 || (count < MAX_REQUIRED_FIELDS && count % 32 != 0)
  }

  /** What the code demands of a descriptor, at every depth. */
  ghost predicate CheckableType(t: LType) {
    t.Message? ==>
      DistinctTags(t.fields) && Checkable(RequiredBefore(t.fields, |t.fields|)) &&
      forall i :: 0 <= i < |t.fields| ==> t.fields[i].tag > 0 && CheckableType(t.fields[i].ltype)
  }

  /** The lowest `n` bits. */
  function Low(n: nat): (r: set<nat>)
    ensures forall b :: b in r <==> 0 <= b < n
  {
    if n == 0 then {} else Low(n - 1) + {n - 1}
  }

  /** The check for missing required fields. */
  method AllSeen(bits: Bitmap, count: nat) returns (ok: bool)
    requires |bits| == 2 && Checkable(count)
    ensures ok == (count == 0 || ((count >= 32 ==> bits[0] == Low(32)) && bits[count / 32] == Low(count % 32)))
  {
    if count > 0 {
      for i := 0 to count / 32
        invariant i > 0 ==> bits[0] == Low(32)
      {
        if bits[i] != Low(32) {
          return false;
        }
      }
      if bits[count / 32] != Low(count % 32) {
        return false;
      }
    }
    ok := true;
  }

  /** Which field has the r-th bit. */
  lemma {:induction false} FieldOfBit(fields: seq<Field>, n: nat, r: nat) returns (j: nat)
    requires n <= |fields| && r < RequiredBefore(fields, n)
    ensures j < n && fields[j].htype.Required? && RequiredBefore(fields, j) == r
  {
    if fields[n - 1].htype.Required? && RequiredBefore(fields, n - 1) == r {
      j := n - 1;
    } else {
      j := FieldOfBit(fields, n - 1, r);
    }
  }

  /** The check answers what it is meant to answer. */
  lemma CheckMeans(fields: seq<Field>, bits: Bitmap, seen: set<nat>)
    requires Marks(fields, bits, seen) && Checkable(RequiredBefore(fields, |fields|))
    ensures var count := RequiredBefore(fields, |fields|);
      (count == 0 || ((count >= 32 ==> bits[0] == Low(32)) && bits[count / 32] == Low(count % 32))) <==>
      (forall j :: 0 <= j < |fields| && fields[j].htype.Required? ==> j in seen)
  {
    var count := RequiredBefore(fields, |fields|);
    forall j | 0 <= j < |fields| && fields[j].htype.Required?
      ensures RequiredBefore(fields, j) < count
    {
      RequiredGrows(fields, j, |fields|);
    }
    if forall j :: 0 <= j < |fields| && fields[j].htype.Required? ==> j in seen {
      forall r | 0 <= r < count
        ensures HasBit(bits, r)
      {
        var j := FieldOfBit(fields, |fields|, r);
      }
      AllBitsSet(bits, count);
    } else if count > 0 {
      var j :| 0 <= j < |fields| && fields[j].htype.Required? && j !in seen;
      assert !HasBit(bits, RequiredBefore(fields, j));
      BitMissing(bits, count, RequiredBefore(fields, j));
    }
  }

  lemma AllBitsSet(bits: Bitmap, count: nat)
    requires |bits| == 2 && Checkable(count) && forall r :: 0 <= r < count ==> HasBit(bits, r)
    requires forall w, b :: 0 <= w < 2 && b in bits[w] ==> b < 32 && w * 32 + b < count
    ensures count == 0 || ((count >= 32 ==> bits[0] == Low(32)) && bits[count / 32] == Low(count % 32))
  {
    if count >= 32 {
      forall b | 0 <= b < 32
        ensures b in bits[0]
      {
        assert HasBit(bits, b);
      }
    }
    if count > 0 {
      var w := count / 32;
      forall b | 0 <= b < count % 32
        ensures b in bits[w]
      {
        assert HasBit(bits, w * 32 + b);
        assert (w * 32 + b) / 32 == w && (w * 32 + b) % 32 == b;
      }
    }
  }

  lemma BitMissing(bits: Bitmap, count: nat, r: nat)
    requires |bits| == 2 && Checkable(count) && r < count && !HasBit(bits, r)
    ensures !((count >= 32 ==> bits[0] == Low(32)) && bits[count / 32] == Low(count % 32))
  {
    if r / 32 == count / 32 {
      assert r % 32 in Low(count % 32);
    } else {
      assert r / 32 == 0 && r % 32 in Low(32);
    }
  }

  // ---------------------------------------------------------------- the decoding loop

  /** The number of required fields: the iterator runs to the end of the descriptor. */
  method CountRequired(iter: FieldIter) returns (count: nat)
    requires iter.Valid()
    modifies iter
    ensures count == RequiredBefore(iter.fields, |iter.fields|)
  {
    if iter.fields == [] {
      return 0;
    }
    var last;
    while true
      invariant iter.Valid() && iter.fields != []
      decreases |iter.fields| - iter.pos
    {
      count := iter.required_index;
      last := iter.fields[iter.pos].htype;
      ghost var at := iter.pos;
      var more := iter.Next();
      if !more {
        assert at == |iter.fields| - 1;
        break;
      }
    }
    if last.Required? {
      count := count + 1;
    }
  }

  /** What was decoded, and what is left, are as specified. */
  ghost predicate Agrees<T>(spec: Parse<T>, ok: bool, v: T, rest: Bytes) {
    ok == spec.Parsed? && (ok ==> spec == Parsed(v, rest))
  }

  /** A C cast to a signed integer of so many bytes. */
  function Cast(n: int, bytes: nat): int {
    Wrap(n, Power(256, bytes))
  }

  /** The number congruent to `n` modulo `m` that lies around zero. */
  function Wrap(n: int, m: nat): int
    requires m > 0
  {
    if 2 * (n % m) >= m then n % m - m else n % m
  }

  /** Clamping changes a number exactly when it does not fit. */
  lemma CastKeeps(n: int, bytes: nat)
    ensures Cast(n, bytes) == n <==> InRange(n, bytes)
  {
    hide Power;
    Wrapped(n, Power(256, bytes));
  }

  lemma Wrapped(n: int, m: nat)
    requires m > 0
    ensures Wrap(n, m) == n <==> 0 - m <= 2 * n < m
  {
    Quotient(n, m, n / m, n % m);
  }

  lemma Quotient(n: int, m: nat, q: int, r: int)
    requires n == m * q + r && 0 <= r < m
    ensures q == 0 ==> n == r
    ensures q == -1 ==> n == r - m
    ensures q > 0 ==> n >= m
    ensures q < -1 ==> n < 0 - m
  {
    if q > 0 {
      assert m * q >= m;
    } else if q < -1 {
      assert m * q <= m * -2;
    }
  }

  /** pb_dec_varint, pb_dec_uvarint and pb_dec_svarint. */
  method DecodeNumber(stream: IStream, t: LType) returns (ok: bool, v: Value)
    requires stream.Valid() && (t.Int? || t.UInt? || t.SInt?)
    modifies stream
    ensures stream.Valid() && stream.state + stream.bytes_left == old(stream.state + stream.bytes_left)
    ensures Agrees(DecValue(t, Number(0), old(stream.Rest())), ok, v, stream.Rest())
    ensures ok && GoodType(t) ==> Fits(t, v)
  {
    hide GetVarint64, InRange, Power;
    hide Fits, GoodType;
    DecodedFits(t, Number(0), stream.Rest());
    var word;
    v := Number(0);
    ok, word := stream.DecodeVarint();
    if !ok {
      return;
    }
    if !GoodWidth(t.bytes) {
      return false, v;
    }
    var value: int;
    var clamped: int;
    if t.Int? {
      value := if t.bytes == 8 then Signed(word, 8) else Signed(word, 4);
      clamped := Cast(value, t.bytes);
      CastKeeps(value, t.bytes);
    } else if t.UInt? {
      value, clamped := word, word % Power(256, t.bytes);
      RemainderKeeps(word, Power(256, t.bytes));
    } else {
      value := UnZigZag(word);
      clamped := Cast(value, t.bytes);
      CastKeeps(value, t.bytes);
    }
    ok := clamped == value;
    v := Number(value);
  }

  lemma RemainderKeeps(n: nat, m: nat)
    requires m > 0
    ensures n % m == n <==> n < m
  {
  }

  /** pb_dec_bytes, pb_dec_string and pb_dec_fixed_length_bytes. */
  method DecodeRaw(stream: IStream, t: LType) returns (ok: bool, v: Value)
    requires stream.Valid() && (t.BytesType? || t.StringType? || t.FixedBytes?)
    modifies stream
    ensures stream.Valid() && stream.state + stream.bytes_left == old(stream.state + stream.bytes_left)
    ensures Agrees(DecValue(t, Number(0), old(stream.Rest())), ok, v, stream.Rest())
    ensures ok ==> v.Raw? && |v.bytes| <= |old(stream.Rest())| + if t.FixedBytes? then t.size else 0
    ensures ok && t.BytesType? ==> |v.bytes| <= 0xffff && |v.bytes| <= t.max
    ensures ok && t.StringType? ==> |v.bytes| + 1 <= t.size
    ensures ok && t.FixedBytes? ==> |v.bytes| == t.size
  {
    hide GetVarint32;
    var size, bytes;
    v := Raw([]);
    ok, size := stream.DecodeVarint32();
    if !ok {
      return;
    }
    if t.BytesType? {
      if size > SIZE_MAX || size > t.max {
        return false, v;
      }
    } else if t.StringType? {
      if size + 1 > t.size {
        return false, v;
      }
    } else {
      if size > SIZE_MAX {
        return false, v;
      }
      if size == 0 {
        return true, Raw(seq(t.size, i => 0));
      }
      if size != t.size {
        return false, v;
      }
    }
    ok, bytes := stream.Read(size);
    v := Raw(bytes);
  }

  /** The field decoders. */
  method DecodeValue(stream: IStream, t: LType, dest: Value, layout: Field -> Layout) returns (ok: bool, v: Value)
    requires stream.Valid() && CheckableType(t)
    modifies stream
    ensures stream.Valid() && stream.state + stream.bytes_left == old(stream.state + stream.bytes_left)
    ensures Agrees(DecValue(t, dest, old(stream.Rest())), ok, v, stream.Rest())
    ensures ok && GoodType(t) && PartFits(t, dest) ==> Fits(t, v)
    decreases stream.bytes_left, 2
  {
    hide Fits, GoodType, PartFits;
    DecodedFits(t, dest, stream.Rest());
    if t.Message? {
      ok, v := DecodeSubmessage(stream, t, dest, layout);
    } else if t.Int? || t.UInt? || t.SInt? {
      ok, v := DecodeNumber(stream, t);
    } else if t.Fixed32? || t.Fixed64? {
      hide FromFixed;
      var bytes;
      ok, bytes := stream.Read(if t.Fixed32? then 4 else 8);
      v := Number(FromFixed(bytes));
    } else {
      ok, v := DecodeRaw(stream, t);
    }
  }

  /** pb_dec_submessage. */
  method DecodeSubmessage(stream: IStream, t: LType, dest: Value, layout: Field -> Layout) returns (ok: bool, v: Value)
    requires stream.Valid() && t.Message? && CheckableType(t)
    modifies stream
    ensures stream.Valid() && stream.state + stream.bytes_left == old(stream.state + stream.bytes_left)
    ensures Agrees(DecValue(t, dest, old(stream.Rest())), ok, v, stream.Rest())
    decreases stream.bytes_left, 1
  {
    hide GetLengthPrefixed, DecMessage, CheckableType;
    ghost var prefixed := GetLengthPrefixed(stream.Rest());
    var sub;
    v := Number(0);
    ok, sub := stream.MakeSubstream();
    if !ok {
      return;
    }
    ok, v := DecodeNoinit(sub, t, dest, layout);
    stream.CloseSubstream(sub, prefixed.rest);
  }

  /** The items of a packed array. */
  method DecodePacked(sub: IStream, t: LType, items: seq<Value>, max: nat, layout: Field -> Layout)
    returns (status: bool, items': seq<Value>)
    requires sub.Valid() && CheckableType(t)
    modifies sub
    ensures sub.Valid() && sub.state + sub.bytes_left == old(sub.state + sub.bytes_left)
    ensures status && sub.bytes_left == 0 <==> DecPacked(t, items, max, old(sub.Rest())).Some?
    ensures status && sub.bytes_left == 0 ==> DecPacked(t, items, max, old(sub.Rest())) == Some(items')
    decreases sub.bytes_left, 3
  {
    hide DecValue, CheckableType;
    status, items' := true, items;
    while sub.bytes_left > 0 && |items'| < max
      invariant sub.Valid() && sub.state + sub.bytes_left == old(sub.state + sub.bytes_left) && sub.bytes_left <= old(sub.bytes_left)
      invariant DecPacked(t, items, max, old(sub.Rest())) == DecPacked(t, items', max, sub.Rest())
      decreases sub.bytes_left
    {
      var v;
      status, v := DecodeValue(sub, t, Default(t), layout);
      if !status {
        return;
      }
      items' := items' + [v];
    }
  }

  /** decode_static_field on a repeated field. */
  method DecodeArray(stream: IStream, f: Field, items: seq<Value>, wt: nat, layout: Field -> Layout)
    returns (ok: bool, items': seq<Value>)
    requires stream.Valid() && f.htype.Repeated? && CheckableType(f.ltype)
    modifies stream
    ensures stream.Valid() && stream.state + stream.bytes_left == old(stream.state + stream.bytes_left)
    ensures Agrees(ItemsSpec(f, items, wt, old(stream.Rest())), ok, items', stream.Rest())
    decreases stream.bytes_left, 3
  {
    hide GetLengthPrefixed, DecPacked, DecValue, CheckableType;
    ghost var prefixed := GetLengthPrefixed(stream.Rest());
    items' := items;
    if wt == WT_STRING && Packable(f.ltype) {
      var sub, status;
      ok, sub := stream.MakeSubstream();
      if !ok {
        return;
      }
      status, items' := DecodePacked(sub, f.ltype, items, f.htype.max, layout);
      var overflow := sub.bytes_left != 0;
      stream.CloseSubstream(sub, prefixed.rest);
      ok := status && !overflow;
    } else {
      if |items| >= f.htype.max {
        return false, items;
      }
      var v;
      ok, v := DecodeValue(stream, f.ltype, Default(f.ltype), layout);
      items' := items + [v];
    }
  }

  ghost function ItemsSpec(f: Field, items: seq<Value>, wt: nat, s: Bytes): Parse<seq<Value>>
    requires f.htype.Repeated?
  {
    if wt == WT_STRING && Packable(f.ltype) then
      match GetLengthPrefixed(s)
      case Failed => Failed
      case Parsed(sub, rest) =>
        var more := DecPacked(f.ltype, items, f.htype.max, sub);
        if more.Some? then Parsed(more.value, rest) else Failed
    else if |items| >= f.htype.max then
      Failed
    else
      match DecValue(f.ltype, Default(f.ltype), s)
      case Parsed(v, rest) => Parsed(items + [v], rest)
      case Failed => Failed
  }

  /** decode_static_field. */
  method DecodeField(stream: IStream, t: LType, slots: seq<Slot>, j: nat, wt: nat, layout: Field -> Layout)
    returns (ok: bool, slots': seq<Slot>)
    requires stream.Valid() && t.Message? && |slots| == |t.fields| && j < |t.fields| && CheckableType(t.fields[j].ltype)
    modifies stream
    ensures stream.Valid() && stream.state + stream.bytes_left == old(stream.state + stream.bytes_left)
    ensures Agrees(DecField(t, slots, j, wt, old(stream.Rest())), ok, slots', stream.Rest())
    ensures |slots'| == |slots|
    decreases stream.bytes_left, 4
  {
    hide GetLengthPrefixed, DecPacked, DecValue, CheckableType, Choose;
    var f := t.fields[j];
    var v;
    slots' := slots;
    match f.htype {
      case Required =>
        ok, v := DecodeValue(stream, f.ltype, CurrentValue(slots[j], f.ltype), layout);
        slots' := slots[j := Single(v)];
      case Optional =>
        ok, v := DecodeValue(stream, f.ltype, CurrentValue(slots[j], f.ltype), layout);
        slots' := slots[j := Maybe(Some(v))];
      case OneOf(_) =>
        ok, v := DecodeValue(stream, f.ltype, Default(f.ltype), layout);
        slots' := Choose(t.fields, slots, j, v);
      case Repeated(_) =>
        var items;
        ok, items := DecodeArray(stream, f, ItemsOf(slots[j]), wt, layout);
        slots' := slots[j := Many(items)];
    }
  }

  /** pb_decode_noinit: the loop over tags with the cyclic iterator and the bitmap is the plain
      decoder that looks tags up and keeps a set. */
  method DecodeNoinit(stream: IStream, t: LType, dest: Value, layout: Field -> Layout) returns (ok: bool, v: Value)
    requires stream.Valid() && t.Message? && CheckableType(t)
    modifies stream
    ensures stream.Valid() && stream.state + stream.bytes_left == old(stream.state + stream.bytes_left)
    ensures ok == DecMessage(t, dest, old(stream.Rest())).Some?
    ensures ok ==> DecMessage(t, dest, old(stream.Rest())) == Some(v)
    ensures ok && GoodType(t) && PartFits(t, dest) ==> Fits(t, v)
    ensures ok ==> forall j :: 0 <= j < |t.fields| && t.fields[j].htype.Required? ==>
      t.fields[j].tag in Keys(t, SlotsOf(t, dest), old(stream.Rest()))
    decreases stream.bytes_left, 6
  {
    hide Keys, DistinctTags, Fits, GoodType, PartFits, DecLoop, DecMessage, Marks, RequiredBefore, CheckableType, FieldIter.Valid;
    DecodedFits(t, dest, stream.Rest());
    MessageIs(t, dest, stream.Rest());
    DescriptorMeans(t);
    RequiredOccur(t, dest, stream.Rest());
    var iter := new FieldIter(t.fields, layout);
    var slots, bits;
    ghost var seen;
    ok, slots, bits, seen := DecodeFields(stream, t, iter, dest, layout);
    v := Msg(slots);
    if ok {
      ok := CheckRequired(iter, bits, seen);
    }
  }

  /** The loop of pb_decode_noinit. */
  method DecodeFields(stream: IStream, t: LType, iter: FieldIter, dest: Value, layout: Field -> Layout)
    returns (ok: bool, slots: seq<Slot>, bits: Bitmap, ghost seen: set<nat>)
    requires stream.Valid() && t.Message? && CheckableType(t) && iter.Valid() && iter.fields == t.fields
    modifies stream, iter
    ensures stream.Valid() && stream.state + stream.bytes_left == old(stream.state + stream.bytes_left)
    ensures iter.Valid() && Marks(t.fields, bits, seen) && |bits| == 2
    ensures DecLoop(t, SlotsOf(t, dest), {}, old(stream.Rest())) == if ok then Some((slots, seen)) else None
    decreases stream.bytes_left, 5
  {
    hide DecLoop, Marks, CheckableType, FieldIter.Valid;
    ok, slots, bits, seen := true, SlotsOf(t, dest), [{}, {}], {};
    NothingMarked(t.fields);
    while stream.bytes_left > 0
      invariant stream.Valid() && stream.state + stream.bytes_left == old(stream.state + stream.bytes_left)
      invariant stream.bytes_left <= old(stream.bytes_left) && ok
      invariant iter.Valid() && |slots| == |t.fields| && Marks(t.fields, bits, seen) && |bits| == 2
      invariant DecLoop(t, SlotsOf(t, dest), {}, old(stream.Rest())) == DecLoop(t, slots, seen, stream.Rest())
      decreases stream.bytes_left
    {
      var done;
      ok, done, slots, bits, seen := DecodeOne(stream, t, iter, slots, bits, seen, layout);
      if !ok || done {
        return;
      }
    }
    LoopStep(t, slots, seen, stream.Rest());
  }

  lemma MessageIs(t: LType, dest: Value, s: Bytes)
    requires t.Message?
    ensures DecMessage(t, dest, s) ==
      match DecLoop(t, SlotsOf(t, dest), {}, s)
      case None => None
      case Some((slots, seen)) =>
        if forall j :: 0 <= j < |t.fields| && t.fields[j].htype.Required? ==> j in seen then Some(Msg(slots)) else None
  {
    hide DecLoop;
  }

  /** The end of pb_decode_noinit: has every required field been seen? */
  method CheckRequired(iter: FieldIter, bits: Bitmap, ghost seen: set<nat>) returns (ok: bool)
    requires iter.Valid() && Marks(iter.fields, bits, seen) && |bits| == 2
    requires Checkable(RequiredBefore(iter.fields, |iter.fields|))
    modifies iter
    ensures ok <==> forall j :: 0 <= j < |iter.fields| && iter.fields[j].htype.Required? ==> j in seen
  {
    hide Marks, RequiredBefore, FieldIter.Valid;
    var count := CountRequired(iter);
    ok := AllSeen(bits, count);
    CheckMeans(iter.fields, bits, seen);
  }

  /** One round of the loop of pb_decode_noinit; `done` when the message ends here. */
  method DecodeOne(stream: IStream, t: LType, iter: FieldIter, slots: seq<Slot>, bits: Bitmap, ghost seen: set<nat>,
                   layout: Field -> Layout)
    returns (ok: bool, done: bool, slots': seq<Slot>, bits': Bitmap, ghost seen': set<nat>)
    requires stream.Valid() && stream.bytes_left > 0 && t.Message? && CheckableType(t) && |slots| == |t.fields|
    requires iter.Valid() && iter.fields == t.fields && Marks(t.fields, bits, seen) && |bits| == 2
    modifies stream, iter
    ensures stream.Valid() && stream.state + stream.bytes_left == old(stream.state + stream.bytes_left)
    ensures iter.Valid() && Marks(t.fields, bits', seen') && |bits'| == 2 && |slots'| == |t.fields|
    ensures ok && !done ==> stream.bytes_left < old(stream.bytes_left)
    ensures DecLoop(t, slots, seen, old(stream.Rest())) ==
      if !ok then None else if done then Some((slots', seen')) else DecLoop(t, slots', seen', stream.Rest())
    decreases stream.bytes_left, 4
  {
    hide DecLoop, DecField, SkipField, GetVarint32, Marks, HasBit, Offset, RequiredBefore, CheckableType;
    LoopStep(t, slots, seen, stream.Rest());
    DescriptorMeans(t);
    done, slots', bits', seen' := false, slots, bits, seen;
    var word;
    ok, word := stream.DecodeVarint32();
    if !ok {
      ok, done := stream.bytes_left == 0, true;
      return;
    }
    if word == 0 {
      done := true;
      return;
    }
    var found := iter.Find(word / 8);
    if !found {
      ok := stream.SkipField(word % 8);
    } else if t.fields == [] {
      ok := DecodeTerminator(stream);
    } else {
      var j := iter.pos;
      assert FindTag(t.fields, word / 8) == Some(j);
      if t.fields[j].htype.Required? {
        RequiredGrows(t.fields, j, |t.fields|);
        SetBitMarks(t.fields, bits, seen, j);
        bits' := SetBit(bits, iter.required_index);
        seen' := seen + {j};
      }
      ok, slots' := DecodeField(stream, t, slots, j, word % 8, layout);
    }
  }

  /** The terminator of a descriptor, taken for a field: a required number of no width. */
  method DecodeTerminator(stream: IStream) returns (ok: bool)
    requires stream.Valid()
    modifies stream
    ensures stream.Valid() && stream.state + stream.bytes_left == old(stream.state + stream.bytes_left) && !ok
  {
    var v;
    ok, v := DecodeNumber(stream, Int(0));
  }

  lemma DescriptorMeans(t: LType)
    requires t.Message? && CheckableType(t)
    ensures DistinctTags(t.fields) && Checkable(RequiredBefore(t.fields, |t.fields|))
    ensures forall i :: 0 <= i < |t.fields| ==> t.fields[i].tag > 0 && CheckableType(t.fields[i].ltype)
  {
  }

  /** One round of the decoding loop. */
  lemma LoopStep(t: LType, slots: seq<Slot>, seen: set<nat>, s: Bytes)
    requires t.Message? && |slots| == |t.fields|
    ensures s == [] ==> DecLoop(t, slots, seen, s) == Some((slots, seen))
    ensures s != [] ==>
      DecLoop(t, slots, seen, s) ==
      match GetVarint32(s)
      case Failed => if |s| <= 5 then Some((slots, seen)) else None
      case Parsed(word, rest) =>
        if word == 0 then Some((slots, seen)) else AfterTag(t, slots, seen, word / 8, word % 8, rest)
  {
  }

  lemma NothingMarked(fields: seq<Field>)
    ensures Marks(fields, [{}, {}], {})
  {
  }

  // ---------------------------------------------------------------- what the code decodes

  /** pb_decode. */
  method Decode(s: Bytes, t: LType, layout: Field -> Layout) returns (ok: bool, v: Value)
    requires t.Message? && CheckableType(t)
    ensures ok == Nanopb.Decode(t, s).Some?
    ensures ok ==> Nanopb.Decode(t, s) == Some(v)
    ensures ok && GoodType(t) ==> Fits(t, v)
  {
    hide Fits, GoodType, PartFits;
    DefaultPart(t);
    var stream := new IStream(s);
    ok, v := DecodeNoinit(stream, t, Default(t), layout);
  }

  /** pb_decode of what pb_encode wrote, with a descriptor that may lack fields at any depth. */
  method DecodeEncoded(a: LType, b: LType, v: Value, layout: Field -> Layout) returns (ok: bool, r: Value)
    requires a.Message? && GoodType(a) && GoodType(b) && SubType(a, b) && CheckableType(b) && Valid(a, v)
    requires |Encode(a, v)| < WORD32
    ensures ok && r == Project(a, b, v) && (a == b ==> r == v)
  {
    MessageRoundTrip(a, b, v);
    if a == b {
      ProjectSame(a, v);
    }
    ok, r := Decode(Encode(a, v), b, layout);
  }

  // ---------------------------------------------------------------- the empty descriptor

  /** The input starts with a field that is not in the descriptor and can be passed over. */
  ghost predicate UnknownFirst(t: LType, s: Bytes, after: Bytes)
    requires t.Message?
  {
    exists word, rest :: GetVarint32(s) == Parsed(word, rest) && word != 0 && FindTag(t.fields, word / 8).None? &&
      SkipField(word % 8, rest) == Parsed((), after)
  }

  /** Unknown fields make no difference. */
  ghost predicate SkipsUnknown(t: LType)
    requires t.Message?
  {
    forall s, after, slots: seq<Slot>, seen: set<nat> :: UnknownFirst(t, s, after) && |slots| == |t.fields| ==>
      DecLoop(t, slots, seen, s) == DecLoop(t, slots, seen, after)
  }

  /** Field number zero with an empty payload. */
  const ZERO_FIELD: Bytes := [2, 0]

  /** The code rejects the field number zero only where there are no fields to compare it with. */
  lemma EmptyRejectsZero()
    ensures UnknownFirst(Message([]), ZERO_FIELD, []) && Nanopb.Decode(Message([]), ZERO_FIELD) == None
    ensures Nanopb.Decode(Message([]), []) == Some(Msg([]))
  {
    var t, s := Message([]), ZERO_FIELD;
    assert GetVarint32(s) == Parsed(2, [0]);
    assert GetVarint32([0]) == Parsed(0, []);
    assert SkipField(WT_STRING, [0]) == Parsed((), []);
    assert FindTag([], 0) == None;
    assert SlotsOf(t, Default(t)) == [];
  }

  /** Unknown fields are skipped by every descriptor but the empty one. */
  lemma SkipsUnknownIff(t: LType)
    requires t.Message?
    ensures SkipsUnknown(t) <==> t.fields != []
  {
    if t.fields == [] {
      EmptyRejectsZero();
    } else {
      forall s, after, slots: seq<Slot>, seen: set<nat> | UnknownFirst(t, s, after) && |slots| == |t.fields|
        ensures DecLoop(t, slots, seen, s) == DecLoop(t, slots, seen, after)
      {
        LoopStep(t, slots, seen, s);
      }
    }
  }
}
