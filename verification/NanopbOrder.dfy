/** Decoding does not depend on who wrote the message: fields may come in any order and more than once,
    arrays packed or item by item, and of what cannot be added up the last one wins
    (nanopb: pb_decode.c; Protocol Buffers Encoding, sections "Field Order" and "Packed Fields"). */
module NanopbOrder {
  import opened DbFormat
  import opened Coding
  import opened Nanopb
  import opened NanopbProof

  /** One value on the wire, or several packed together. */
  datatype Wire = One(j: nat, v: Value) | Packed(j: nat, vs: seq<Value>)

  function WireBytes(fields: seq<Field>, w: Wire): Bytes
    requires w.j < |fields| && (w.Packed? ==> Packable(fields[w.j].ltype))
  {
    var f := fields[w.j];
    match w
    case One(_, v) => TagBytes(f.tag, WireType(f.ltype)) + EncValue(f.ltype, v)
    case Packed(_, vs) => TagBytes(f.tag, WT_STRING) + Prefixed(EncPacked(f.ltype, vs, |vs|))
  }

  /** What the destination holds after it. */
  function Stored(fields: seq<Field>, slots: seq<Slot>, w: Wire): (r: seq<Slot>)
    requires |slots| == |fields| && w.j < |fields|
    ensures |r| == |slots|
  {
    var f, old_ := fields[w.j], ItemsOf(slots[w.j]);
    match w
    case Packed(j, vs) => slots[j := Many(old_ + vs)]
    case One(j, v) =>
      match f.htype
      case Required => slots[j := Single(v)]
      case Optional => slots[j := Maybe(Some(v))]
      case Repeated(_) => slots[j := Many(old_ + [v])]
      case OneOf(_) =>
        seq(|slots|, i requires 0 <= i < |slots| =>
          if i == j then Maybe(Some(v)) else if fields[i].htype == f.htype then Maybe(None) else slots[i])
  }

  /** Values are valid, arrays have room, and submessages are not merged into older ones. */
  ghost predicate Acceptable(fields: seq<Field>, slots: seq<Slot>, w: Wire) {
    |slots| == |fields| && w.j < |fields| &&
    var f, old_ := fields[w.j], ItemsOf(slots[w.j]);
    match w
    case Packed(_, vs) =>
      f.htype.Repeated? && Packable(f.ltype) && |old_| + |vs| <= f.htype.max &&
      (forall k :: 0 <= k < |vs| ==> Valid(f.ltype, vs[k])) && |EncPacked(f.ltype, vs, |vs|)| < WORD32
    case One(_, v) =>
      Valid(f.ltype, v) && |EncValue(f.ltype, v)| < WORD32 &&
      (f.htype.Repeated? ==> |old_| < f.htype.max) &&
      (f.ltype.Message? ==> f.htype.Repeated? || f.htype.OneOf?)
  }

  lemma OneValue(t: LType, v: Value, dest: Value, rest: Bytes)
    requires GoodType(t) && Valid(t, v) && |EncValue(t, v)| < WORD32 && (t.Message? ==> dest == Default(t))
    ensures DecValue(t, dest, EncValue(t, v) + rest) == Parsed(v, rest)
  {
    if t.Message? {
      SubTypeRefl(t);
      ProjectSame(t, v);
      ValueRoundTrip(t, t, v, rest);
    } else if Packable(t) {
      NumberRoundTrip(t, v, dest, rest);
    } else {
      RawRoundTrip(t, v, dest, rest);
    }
  }

  lemma OneStored(t: LType, slots: seq<Slot>, w: Wire, rest: Bytes)
    requires t.Message? && GoodType(t) && Acceptable(t.fields, slots, w) && w.One?
    ensures var f := t.fields[w.j];
      DecField(t, slots, w.j, WireType(f.ltype), EncValue(f.ltype, w.v) + rest) == Parsed(Stored(t.fields, slots, w), rest)
  {
    hide DecValue, EncValue, Valid, DecPacked;
    var f := t.fields[w.j];
    assert GoodType(f.ltype);
    OneValue(f.ltype, w.v, if f.ltype.Message? then Default(f.ltype) else CurrentValue(slots[w.j], f.ltype), rest);
    OneValue(f.ltype, w.v, Default(f.ltype), rest);
  }

  /** Packed numbers go behind the items already there. */
  lemma PackedStored(t: LType, items: seq<Value>, vs: seq<Value>, max: nat)
    requires GoodType(t) && Packable(t) && |items| + |vs| <= max
    requires forall k :: 0 <= k < |vs| ==> Valid(t, vs[k])
    ensures DecPacked(t, items, max, EncPacked(t, vs, |vs|)) == Some(items + vs)
  {
    hide DecPacked, EncPacked, Valid;
    PackedFrom(t, items, vs, max, 0);
    PackedNone(t, vs);
    assert items + vs[..0] == items;
  }

  lemma PackedNone(t: LType, vs: seq<Value>)
    requires Packable(t)
    ensures PackedTail(t, vs, 0) == EncPacked(t, vs, |vs|)
  {
    hide EncValue;
    TailIs(t, vs, 0);
    assert EncPacked(t, vs, 0) == [];
  }

  function PackedTail(t: LType, vs: seq<Value>, i: nat): Bytes
    requires i <= |vs|
    decreases |vs| - i
  {
    if i == |vs| then [] else EncValue(t, vs[i]) + PackedTail(t, vs, i + 1)
  }

  lemma {:induction false} TailIs(t: LType, vs: seq<Value>, i: nat)
    requires Packable(t) && i <= |vs|
    ensures EncPacked(t, vs, i) + PackedTail(t, vs, i) == EncPacked(t, vs, |vs|)
    decreases |vs| - i
  {
    hide EncValue;
    if i < |vs| {
      TailIs(t, vs, i + 1);
      assert EncPacked(t, vs, i) + (EncValue(t, vs[i]) + PackedTail(t, vs, i + 1)) ==
        EncPacked(t, vs, i) + EncValue(t, vs[i]) + PackedTail(t, vs, i + 1);
    }
  }

  lemma {:induction false} PackedFrom(t: LType, items: seq<Value>, vs: seq<Value>, max: nat, i: nat)
    requires GoodType(t) && Packable(t) && i <= |vs| && |items| + |vs| <= max
    requires forall k :: 0 <= k < |vs| ==> Valid(t, vs[k])
    ensures DecPacked(t, items + vs[..i], max, PackedTail(t, vs, i)) == Some(items + vs)
    decreases |vs| - i
  {
    hide EncValue, DecValue, Valid;
    if i == |vs| {
      assert vs[..i] == vs;
    } else {
      var tail := PackedTail(t, vs, i + 1);
      NumberRoundTrip(t, vs[i], Default(t), tail);
      NumberTakes(t, vs[i], tail);
      PackedFrom(t, items, vs, max, i + 1);
      assert items + vs[..i] + [vs[i]] == items + vs[..i + 1];
    }
  }

  lemma NumberTakes(t: LType, v: Value, tail: Bytes)
    requires Packable(t)
    ensures EncValue(t, v) + tail != []
  {
  }

  lemma PackedIsStored(t: LType, slots: seq<Slot>, w: Wire, rest: Bytes)
    requires t.Message? && GoodType(t) && Acceptable(t.fields, slots, w) && w.Packed?
    ensures var f := t.fields[w.j];
      DecField(t, slots, w.j, WT_STRING, Prefixed(EncPacked(f.ltype, w.vs, |w.vs|)) + rest) ==
      Parsed(Stored(t.fields, slots, w), rest)
  {
    hide DecValue, EncValue, Valid, DecPacked, EncPacked, GetLengthPrefixed, Prefixed;
    var f := t.fields[w.j];
    assert GoodType(f.ltype);
    PackedStored(f.ltype, ItemsOf(slots[w.j]), w.vs, f.htype.max);
    PrefixedRoundTrip(EncPacked(f.ltype, w.vs, |w.vs|), rest);
  }

  // ---------------------------------------------------------------- any list of them

  ghost predicate AllAcceptable(fields: seq<Field>, slots: seq<Slot>, ws: seq<Wire>)
    decreases |ws|
  {
    ws != [] ==>
      Acceptable(fields, slots, ws[0]) && AllAcceptable(fields, Stored(fields, slots, ws[0]), ws[1..])
  }

  ghost function AllBytes(fields: seq<Field>, slots: seq<Slot>, ws: seq<Wire>): Bytes
    requires AllAcceptable(fields, slots, ws)
    decreases |ws|
  {
    if ws == [] then [] else WireBytes(fields, ws[0]) + AllBytes(fields, Stored(fields, slots, ws[0]), ws[1..])
  }

  ghost function AllStored(fields: seq<Field>, slots: seq<Slot>, ws: seq<Wire>): (r: seq<Slot>)
    requires AllAcceptable(fields, slots, ws)
    decreases |ws|
  {
    if ws == [] then slots else AllStored(fields, Stored(fields, slots, ws[0]), ws[1..])
  }

  ghost function AllSeen(fields: seq<Field>, seen: set<nat>, ws: seq<Wire>): set<nat>
    decreases |ws|
  {
    if ws == [] then seen
    else
      AllSeen(fields, if ws[0].j < |fields| && fields[ws[0].j].htype.Required? then seen + {ws[0].j} else seen, ws[1..])
  }

  lemma OneRound(t: LType, slots: seq<Slot>, seen: set<nat>, w: Wire, rest: Bytes)
    requires t.Message? && GoodType(t) && Acceptable(t.fields, slots, w)
    ensures DecLoop(t, slots, seen, WireBytes(t.fields, w) + rest) ==
      DecLoop(t, Stored(t.fields, slots, w), if t.fields[w.j].htype.Required? then seen + {w.j} else seen, rest)
  {
    hide DecLoop, DecField, TagBytes, EncValue, EncPacked, Prefixed, Stored, Valid, FindTag;
    var f := t.fields[w.j];
    TagsDistinct(t);
    FindsItself(t.fields, w.j);
    var wt := if w.One? then WireType(f.ltype) else WT_STRING;
    var payload := if w.One? then EncValue(f.ltype, w.v) else Prefixed(EncPacked(f.ltype, w.vs, |w.vs|));
    assert WireBytes(t.fields, w) + rest == TagBytes(f.tag, wt) + (payload + rest);
    TagStep(t, slots, seen, f.tag, wt, payload + rest);
    if w.One? {
      OneStored(t, slots, w, rest);
    } else {
      PackedIsStored(t, slots, w, rest);
    }
  }

  /** Whatever the order and however often fields come, packed or not: the destination ends up with the
      last value of each single field, the last member of each union and all items of each array. */
  lemma {:induction false} AnyOrder(t: LType, slots: seq<Slot>, seen: set<nat>, ws: seq<Wire>, tail: Bytes)
    requires t.Message? && GoodType(t) && |slots| == |t.fields| && AllAcceptable(t.fields, slots, ws)
    ensures |AllStored(t.fields, slots, ws)| == |t.fields|
    ensures DecLoop(t, slots, seen, AllBytes(t.fields, slots, ws) + tail) ==
      DecLoop(t, AllStored(t.fields, slots, ws), AllSeen(t.fields, seen, ws), tail)
    decreases |ws|
  {
    hide DecLoop, WireBytes, Stored, Acceptable;
    if ws == [] {
      assert [] + tail == tail;
    } else {
      AcceptableIn(t.fields, slots, ws[0]);
      var w := ws[0];
      var later := Stored(t.fields, slots, w);
      var more := if t.fields[w.j].htype.Required? then seen + {w.j} else seen;
      AnyOrder(t, later, more, ws[1..], tail);
      var rest := AllBytes(t.fields, later, ws[1..]) + tail;
      assert WireBytes(t.fields, w) + AllBytes(t.fields, later, ws[1..]) + tail == WireBytes(t.fields, w) + rest;
      OneRound(t, slots, seen, w, rest);
    }
  }

  lemma AcceptableIn(fields: seq<Field>, slots: seq<Slot>, w: Wire)
    requires Acceptable(fields, slots, w)
    ensures w.j < |fields| && |slots| == |fields| && (w.Packed? ==> Packable(fields[w.j].ltype))
  {
  }
}
