/** Whatever bytes arrive, what is decoded fits the statically allocated struct (nanopb: pb_decode.c). */
module NanopbFits {
  import opened DbFormat
  import opened Coding
  import opened Nanopb
  import opened NanopbProof

  /** Half the range of an integer of so many bytes. */
  function Half(bytes: nat): int {
    if bytes == 1 then 0x80 else if bytes == 2 then 0x8000 else if bytes == 4 then 0x8000_0000 else 0x8000_0000_0000_0000
  }

  /** The value fits the storage of its type: numbers lie in the range of their width, bytes and strings
      (with their terminator) in their room, fixed bytes fill theirs, and so on at every depth. */
  ghost predicate Fits(t: LType, v: Value) {
    match t
    case Int(bytes) => v.Number? && -Half(bytes) <= v.n < Half(bytes)
    case UInt(bytes) => v.Number? && 0 <= v.n < 2 * Half(bytes)
    case SInt(bytes) => v.Number? && -Half(bytes) <= v.n < Half(bytes)
    case Fixed32 => v.Number? && 0 <= v.n < 0x1_0000_0000
    case Fixed64 => v.Number? && 0 <= v.n < 0x1_0000_0000_0000_0000
    case BytesType(max) => v.Raw? && |v.bytes| <= max
    case StringType(size) => v.Raw? && |v.bytes| + 1 <= size
    case FixedBytes(size) => v.Raw? && |v.bytes| == size
    case Message(fields) =>
      v.Msg? && |v.slots| == |fields| && OneSet(fields, v.slots) &&
      forall i :: 0 <= i < |fields| ==> FitsSlot(fields[i], v.slots[i])
  }

  ghost predicate FitsSlot(f: Field, slot: Slot) {
    match f.htype
    case Required => slot.Single? && Fits(f.ltype, slot.v)
    case Repeated(max) =>
      slot.Many? && |slot.items| <= max && forall k :: 0 <= k < |slot.items| ==> Fits(f.ltype, slot.items[k])
    case _ => slot.Maybe? && (slot.opt.Some? ==> Fits(f.ltype, slot.opt.value))
  }

  /** At most one member of a union is set. */
  ghost predicate OneSet(fields: seq<Field>, slots: seq<Slot>)
    requires |fields| == |slots|
  {
    forall i, j :: 0 <= i < j < |fields| && fields[i].htype.OneOf? && fields[i].htype == fields[j].htype ==>
      slots[i] == Maybe(None) || slots[j] == Maybe(None)
  }

  /** A destination whose required fields may not have been decoded yet. */
  ghost predicate PartFits(t: LType, v: Value) {
    t.Message? && v.Msg? && |v.slots| == |t.fields| ==>
      OneSet(t.fields, v.slots) && forall i :: 0 <= i < |t.fields| ==> PartSlot(t.fields[i], v.slots[i])
  }

  ghost predicate PartSlot(f: Field, slot: Slot) {
    if f.htype.Required? then slot.Single? && PartFits(f.ltype, slot.v) else FitsSlot(f, slot)
  }

  lemma {:induction false} FitsPart(t: LType, v: Value)
    requires Fits(t, v)
    ensures PartFits(t, v)
  {
    if t.Message? && v.Msg? {
      forall i | 0 <= i < |t.fields|
        ensures PartSlot(t.fields[i], v.slots[i])
      {
        assert FitsSlot(t.fields[i], v.slots[i]);
        if t.fields[i].htype.Required? {
          FitsPart(t.fields[i].ltype, v.slots[i].v);
        }
      }
    }
  }

  lemma {:induction false} DefaultPart(t: LType)
    ensures PartFits(t, Default(t))
  {
    if t.Message? {
      var slots := Default(t).slots;
      forall i | 0 <= i < |t.fields|
        ensures slots[i] == DefaultSlot(t.fields[i]) && PartSlot(t.fields[i], slots[i])
      {
        if t.fields[i].htype.Required? {
          DefaultPart(t.fields[i].ltype);
        }
      }
    }
  }

  lemma NumberFits(t: LType, word: nat)
    requires GoodType(t) && FromWord(t, word).Some?
    ensures Fits(t, Number(FromWord(t, word).value))
  {
    hide Power;
    match t {
      case Int(bytes) => Widths(bytes);
      case UInt(bytes) => Widths(bytes);
      case SInt(bytes) => Widths(bytes);
    }
  }

  lemma FixedFits(s: Bytes)
    ensures |s| == 4 ==> FromFixed(s) < 0x1_0000_0000
    ensures |s| == 8 ==> FromFixed(s) < 0x1_0000_0000_0000_0000
  {
    WordSizes();
  }

  lemma {:induction false} ValueFits(t: LType, dest: Value, s: Bytes)
    requires GoodType(t) && PartFits(t, dest) && DecValue(t, dest, s).Parsed?
    ensures Fits(t, DecValue(t, dest, s).value)
    decreases |s|, 0
  {
    hide GetVarint64, GetLengthPrefixed, FromFixed, FromWord;
    match t {
      case Fixed32 => FixedFits(s[..4]);
      case Fixed64 => FixedFits(s[..8]);
      case Message(_) =>
        PrefixedShorter(s);
        MessageFits(t, dest, GetLengthPrefixed(s).value);
      case BytesType(_) =>
      case StringType(_) =>
      case FixedBytes(_) =>
      case _ => NumberFits(t, GetVarint64(s).value);
    }
  }

  lemma PrefixedShorter(s: Bytes)
    ensures GetLengthPrefixed(s).Parsed? ==> |GetLengthPrefixed(s).value| < |s|
  {
    hide GetVarint32;
  }

  ghost predicate AllFit(t: LType, items: seq<Value>) {
    forall k :: 0 <= k < |items| ==> Fits(t, items[k])
  }

  lemma {:induction false} PackedFits(t: LType, items: seq<Value>, max: nat, s: Bytes)
    requires GoodType(t) && AllFit(t, items) && |items| <= max && DecPacked(t, items, max, s).Some?
    ensures AllFit(t, DecPacked(t, items, max, s).value) && |DecPacked(t, items, max, s).value| <= max
    decreases |s|, 1
  {
    hide DecValue, Fits;
    if s != [] {
      DefaultPart(t);
      ValueFits(t, Default(t), s);
      var r := DecValue(t, Default(t), s);
      PackedFits(t, items + [r.value], max, r.rest);
    }
  }

  /** The destination between two fields: required fields that have been seen fit. */
  ghost predicate Partly(fields: seq<Field>, slots: seq<Slot>, seen: set<nat>) {
    |slots| == |fields| && OneSet(fields, slots) &&
    (forall i :: 0 <= i < |fields| ==> PartSlot(fields[i], slots[i])) &&
    forall i :: 0 <= i < |fields| && i in seen ==> FitsSlot(fields[i], slots[i])
  }

  lemma CurrentPart(f: Field, slot: Slot)
    requires PartSlot(f, slot)
    ensures PartFits(f.ltype, CurrentValue(slot, f.ltype))
  {
    DefaultPart(f.ltype);
    if slot.Maybe? && slot.opt.Some? {
      FitsPart(f.ltype, slot.opt.value);
    }
  }

  /** A slot that is not a member of a union changes alone. */
  lemma StoredFits(fields: seq<Field>, slots: seq<Slot>, seen: set<nat>, j: nat, slot: Slot)
    requires Partly(fields, slots, seen) && j < |fields| && !fields[j].htype.OneOf?
    requires FitsSlot(fields[j], slot) && PartSlot(fields[j], slot)
    ensures Partly(fields, slots[j := slot], seen + {j})
  {
    hide FitsSlot, PartSlot;
  }

  /** Storing a member of a union clears the others. */
  lemma ChosenFits(fields: seq<Field>, slots: seq<Slot>, seen: set<nat>, j: nat, v: Value)
    requires Partly(fields, slots, seen) && j < |fields| && fields[j].htype.OneOf? && Fits(fields[j].ltype, v)
    ensures Partly(fields, Choose(fields, slots, j, v), seen + {j})
  {
    hide Fits;
    var later := Choose(fields, slots, j, v);
    forall i | 0 <= i < |fields|
      ensures PartSlot(fields[i], later[i]) && (i in seen + {j} ==> FitsSlot(fields[i], later[i]))
    {
      assert PartSlot(fields[i], slots[i]);
    }
  }

  lemma {:induction false} FieldFits(t: LType, slots: seq<Slot>, j: nat, wt: nat, s: Bytes, seen: set<nat>)
    requires t.Message? && GoodType(t) && Partly(t.fields, slots, seen) && j < |t.fields|
    requires DecField(t, slots, j, wt, s).Parsed?
    ensures Partly(t.fields, DecField(t, slots, j, wt, s).value, seen + {j})
    decreases |s|, 2
  {
    hide DecValue, DecPacked, GetLengthPrefixed, Fits, PartFits, Partly, Choose;
    var f := t.fields[j];
    assert GoodType(f.ltype);
    SlotOf(t.fields, slots, seen, j);
    CurrentPart(f, slots[j]);
    DefaultPart(f.ltype);
    match f.htype {
      case Required =>
        ValueFits(f.ltype, CurrentValue(slots[j], f.ltype), s);
        var v := DecValue(f.ltype, CurrentValue(slots[j], f.ltype), s).value;
        FitsPart(f.ltype, v);
        StoredFits(t.fields, slots, seen, j, Single(v));
      case Optional =>
        ValueFits(f.ltype, CurrentValue(slots[j], f.ltype), s);
        StoredFits(t.fields, slots, seen, j, Maybe(Some(DecValue(f.ltype, CurrentValue(slots[j], f.ltype), s).value)));
      case OneOf(_) =>
        ValueFits(f.ltype, Default(f.ltype), s);
        ChosenFits(t.fields, slots, seen, j, DecValue(f.ltype, Default(f.ltype), s).value);
      case Repeated(max) =>
        if wt == WT_STRING && Packable(f.ltype) {
          PrefixedShorter(s);
          PackedFits(f.ltype, slots[j].items, max, GetLengthPrefixed(s).value);
          StoredFits(t.fields, slots, seen, j, Many(DecPacked(f.ltype, slots[j].items, max, GetLengthPrefixed(s).value).value));
        } else {
          ValueFits(f.ltype, Default(f.ltype), s);
          StoredFits(t.fields, slots, seen, j, Many(slots[j].items + [DecValue(f.ltype, Default(f.ltype), s).value]));
        }
    }
  }

  lemma SlotOf(fields: seq<Field>, slots: seq<Slot>, seen: set<nat>, j: nat)
    requires Partly(fields, slots, seen) && j < |fields|
    ensures |slots| == |fields| && PartSlot(fields[j], slots[j])
  {
  }

  lemma {:induction false} LoopFits(t: LType, slots: seq<Slot>, seen: set<nat>, s: Bytes)
    requires t.Message? && GoodType(t) && Partly(t.fields, slots, seen) && DecLoop(t, slots, seen, s).Some?
    ensures var (later, done) := DecLoop(t, slots, seen, s).value; Partly(t.fields, later, done)
    decreases |s|, 0
  {
    hide DecField, SkipField, GetVarint32, GoodType, PartSlot, OneSet, FitsSlot;
    if s != [] && GetVarint32(s).Parsed? && GetVarint32(s).value != 0 {
      var (word, rest) := (GetVarint32(s).value, GetVarint32(s).rest);
      var found := FindTag(t.fields, word / 8);
      if found.Some? {
        var j := found.value;
        FieldFits(t, slots, j, word % 8, rest, seen);
        var r := DecField(t, slots, j, word % 8, rest);
        LoopFits(t, r.value, if t.fields[j].htype.Required? then seen + {j} else seen, r.rest);
      } else {
        LoopFits(t, slots, seen, SkipField(word % 8, rest).rest);
      }
    }
  }

  /** For every descriptor, every byte string and every destination: a message that is decoded fits. */
  lemma {:induction false} MessageFits(t: LType, dest: Value, s: Bytes)
    requires t.Message? && GoodType(t) && PartFits(t, dest) && DecMessage(t, dest, s).Some?
    ensures Fits(t, DecMessage(t, dest, s).value)
    decreases |s|, 1
  {
    hide DecLoop, GoodType;
    DefaultPart(t);
    LoopFits(t, SlotsOf(t, dest), {}, s);
    var (slots, seen) := DecLoop(t, SlotsOf(t, dest), {}, s).value;
    forall i | 0 <= i < |t.fields|
      ensures FitsSlot(t.fields[i], slots[i])
    {
      assert PartSlot(t.fields[i], slots[i]);
    }
  }

  /** The same, as what a decoder may promise. */
  lemma DecodedFits(t: LType, dest: Value, s: Bytes)
    ensures GoodType(t) && PartFits(t, dest) && DecValue(t, dest, s).Parsed? ==> Fits(t, DecValue(t, dest, s).value)
    ensures t.Message? && GoodType(t) && PartFits(t, dest) && DecMessage(t, dest, s).Some? ==>
      Fits(t, DecMessage(t, dest, s).value)
  {
    hide Fits, GoodType, PartFits, DecValue, DecMessage;
    if GoodType(t) && PartFits(t, dest) && DecValue(t, dest, s).Parsed? {
      ValueFits(t, dest, s);
    }
    if t.Message? && GoodType(t) && PartFits(t, dest) && DecMessage(t, dest, s).Some? {
      MessageFits(t, dest, s);
    }
  }

  // ---------------------------------------------------------------- required fields

  /** The field numbers of the keys that the decoder meets. */
  function Keys(t: LType, slots: seq<Slot>, s: Bytes): set<nat>
    requires t.Message? && |slots| == |t.fields|
    decreases |s|
  {
    match GetVarint32(s)
    case Failed => {}
    case Parsed(word, rest) =>
      if word == 0 then
        {}
      else
        match FindTag(t.fields, word / 8)
        case None =>
          (match SkipField(word % 8, rest)
           case Parsed(_, after) => {word / 8} + Keys(t, slots, after)
           case Failed => {word / 8})
        case Some(j) =>
          match DecField(t, slots, j, word % 8, rest)
          case Parsed(more, after) => {word / 8} + Keys(t, more, after)
          case Failed => {word / 8}
  }

  ghost predicate Met(t: LType, keys: set<nat>, j: nat)
    requires t.Message?
  {
    j < |t.fields| && t.fields[j].htype.Required? && t.fields[j].tag in keys
  }

  lemma NoKeyAtEnd()
    ensures GetVarint32([]) == Failed
  {
  }

  /** A required field is marked exactly when its key has been met. */
  lemma {:induction false} MarkedAreMet(t: LType, slots: seq<Slot>, seen: set<nat>, s: Bytes, j: nat)
    requires t.Message? && DistinctTags(t.fields) && |slots| == |t.fields| && DecLoop(t, slots, seen, s).Some?
    ensures j in DecLoop(t, slots, seen, s).value.1 <==> j in seen || Met(t, Keys(t, slots, s), j)
    decreases |s|
  {
    hide DecField, SkipField, GetVarint32;
    NoKeyAtEnd();
    if s != [] && GetVarint32(s).Parsed? && GetVarint32(s).value != 0 {
      var word, rest := GetVarint32(s).value, GetVarint32(s).rest;
      var found := FindTag(t.fields, word / 8);
      if found.Some? {
        var i := found.value;
        var r := DecField(t, slots, i, word % 8, rest);
        MarkedAreMet(t, r.value, if t.fields[i].htype.Required? then seen + {i} else seen, r.rest, j);
      } else {
        MarkedAreMet(t, slots, seen, SkipField(word % 8, rest).rest, j);
      }
    }
  }

  /** A message is decoded exactly when its fields are and every required one occurs. */
  lemma RequiredOccur(t: LType, dest: Value, s: Bytes)
    requires t.Message? && DistinctTags(t.fields)
    ensures DecMessage(t, dest, s).Some? <==>
      DecLoop(t, SlotsOf(t, dest), {}, s).Some? &&
      forall j :: 0 <= j < |t.fields| && t.fields[j].htype.Required? ==> t.fields[j].tag in Keys(t, SlotsOf(t, dest), s)
  {
    hide DecLoop, Keys, DistinctTags;
    if DecLoop(t, SlotsOf(t, dest), {}, s).Some? {
      forall j | 0 <= j < |t.fields|
        ensures j in DecLoop(t, SlotsOf(t, dest), {}, s).value.1 <==> Met(t, Keys(t, SlotsOf(t, dest), s), j)
      {
        MarkedAreMet(t, SlotsOf(t, dest), {}, s, j);
      }
    }
  }
}
