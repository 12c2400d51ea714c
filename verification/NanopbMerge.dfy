/** Decoding the concatenation of two messages merges them, and a submessage that comes twice is
    decoded like the concatenation of its two bodies (nanopb: pb_decode.c; Protocol Buffers
    Encoding, section "Last One Wins"). */
module NanopbMerge {
  import opened DbFormat
  import opened Coding
  import opened Nanopb

  // ---------------------------------------------------------------- more input changes nothing before it

  /** The same parse, with more left. */
  ghost predicate Same<T>(a: Parse<T>, b: Parse<T>, more: Bytes) {
    a.Parsed? ==> b == Parsed(a.value, a.rest + more)
  }

  lemma {:induction false} TakeVarintMore(s: Bytes, max: nat, more: Bytes)
    ensures Same(TakeVarint(s, max), TakeVarint(s + more, max), more)
  {
    if max > 0 && s != [] {
      assert (s + more)[1..] == s[1..] + more;
      TakeVarintMore(s[1..], max - 1, more);
    }
  }

  lemma {:induction false} SkipVarintMore(s: Bytes, more: Bytes)
    ensures Same(SkipVarint(s), SkipVarint(s + more), more)
  {
    if s != [] {
      assert (s + more)[1..] == s[1..] + more;
      SkipVarintMore(s[1..], more);
    }
  }

  lemma SliceMore(s: Bytes, n: nat, more: Bytes)
    requires n <= |s|
    ensures (s + more)[..n] == s[..n] && (s + more)[n..] == s[n..] + more
  {
  }

  lemma VarintMore(s: Bytes, more: Bytes)
    ensures Same(GetVarint32(s), GetVarint32(s + more), more)
    ensures Same(GetVarint64(s), GetVarint64(s + more), more)
  {
    TakeVarintMore(s, 5, more);
    TakeVarintMore(s, 10, more);
  }

  lemma PrefixedMore(s: Bytes, more: Bytes)
    ensures Same(GetLengthPrefixed(s), GetLengthPrefixed(s + more), more)
  {
    VarintMore(s, more);
    hide GetVarint32;
    var size := GetVarint32(s);
    if size.Parsed? && size.value <= |size.rest| {
      SliceMore(size.rest, size.value, more);
    }
  }

  lemma SkipMore(wt: nat, s: Bytes, more: Bytes)
    ensures Same(SkipField(wt, s), SkipField(wt, s + more), more)
  {
    hide SkipVarint, GetLengthPrefixed;
    SkipVarintMore(s, more);
    PrefixedMore(s, more);
    if |s| >= 4 {
      SliceMore(s, 4, more);
    }
    if |s| >= 8 {
      SliceMore(s, 8, more);
    }
  }

  lemma ValueMore(t: LType, dest: Value, s: Bytes, more: Bytes)
    ensures Same(DecValue(t, dest, s), DecValue(t, dest, s + more), more)
  {
    hide GetVarint64, GetLengthPrefixed, DecMessage;
    VarintMore(s, more);
    PrefixedMore(s, more);
    if |s| >= 4 {
      SliceMore(s, 4, more);
    }
    if |s| >= 8 {
      SliceMore(s, 8, more);
    }
  }

  lemma FieldMore(t: LType, slots: seq<Slot>, j: nat, wt: nat, s: Bytes, more: Bytes)
    requires t.Message? && |slots| == |t.fields| && j < |t.fields|
    ensures Same(DecField(t, slots, j, wt, s), DecField(t, slots, j, wt, s + more), more)
  {
    hide DecValue, GetLengthPrefixed, DecPacked;
    var f := t.fields[j];
    ValueMore(f.ltype, CurrentValue(slots[j], f.ltype), s, more);
    ValueMore(f.ltype, Default(f.ltype), s, more);
    PrefixedMore(s, more);
  }

  // ---------------------------------------------------------------- concatenation

  /** The loop takes the bytes field by field to their end: nothing in them ends the message early. */
  ghost predicate Whole(t: LType, slots: seq<Slot>, seen: set<nat>, s: Bytes)
    requires t.Message? && |slots| == |t.fields|
    decreases |s|
  {
    s == [] ||
    match GetVarint32(s)
    case Failed => false
    case Parsed(word, rest) =>
      word != 0 &&
      match FindTag(t.fields, word / 8)
      case None =>
        !(t.fields == [] && word / 8 == 0) && SkipField(word % 8, rest).Parsed? &&
        Whole(t, slots, seen, SkipField(word % 8, rest).rest)
      case Some(j) =>
        var r := DecField(t, slots, j, word % 8, rest);
        r.Parsed? && Whole(t, r.value, if t.fields[j].htype.Required? then seen + {j} else seen, r.rest)
  }

  /** The loop goes on in `b` from what it has made of `a`. */
  lemma {:induction false} LoopConcat(t: LType, slots: seq<Slot>, seen: set<nat>, a: Bytes, b: Bytes)
    requires t.Message? && |slots| == |t.fields| && Whole(t, slots, seen, a)
    ensures DecLoop(t, slots, seen, a).Some?
    ensures var (more, met) := DecLoop(t, slots, seen, a).value; DecLoop(t, slots, seen, a + b) == DecLoop(t, more, met, b)
    decreases |a|
  {
    hide GetVarint32, SkipField, DecField, FindTag;
    if a == [] {
      assert a + b == b;
    } else {
      VarintMore(a, b);
      var Parsed(word, rest) := GetVarint32(a);
      var found := FindTag(t.fields, word / 8);
      if found.None? {
        SkipMore(word % 8, rest, b);
        LoopConcat(t, slots, seen, SkipField(word % 8, rest).rest, b);
      } else {
        var j := found.value;
        FieldMore(t, slots, j, word % 8, rest, b);
        var r := DecField(t, slots, j, word % 8, rest);
        LoopConcat(t, r.value, if t.fields[j].htype.Required? then seen + {j} else seen, r.rest, b);
      }
    }
  }

  /** Fields met before do not change what the loop stores. */
  lemma {:induction false} LoopSeen(t: LType, slots: seq<Slot>, seen: set<nat>, more: set<nat>, s: Bytes)
    requires t.Message? && |slots| == |t.fields|
    ensures var r := DecLoop(t, slots, seen, s);
      DecLoop(t, slots, seen + more, s) == if r.Some? then Some((r.value.0, r.value.1 + more)) else None
    decreases |s|
  {
    hide GetVarint32, SkipField, DecField, FindTag;
    if s != [] {
      var first := GetVarint32(s);
      if first.Parsed? && first.value != 0 {
        var word, rest := first.value, first.rest;
        var found := FindTag(t.fields, word / 8);
        if found.None? {
          if SkipField(word % 8, rest).Parsed? {
            LoopSeen(t, slots, seen, more, SkipField(word % 8, rest).rest);
          }
        } else {
          var j := found.value;
          var r := DecField(t, slots, j, word % 8, rest);
          if r.Parsed? {
            var met := if t.fields[j].htype.Required? then seen + {j} else seen;
            LoopSeen(t, r.value, met, more, r.rest);
            assert seen + more + {j} == seen + {j} + more;
          }
        }
      }
    }
  }

  /** Decoding `b` on top of what `a` was decoded to is decoding `a` and `b` as one message. */
  lemma MergeIsConcat(t: LType, dest: Value, a: Bytes, b: Bytes)
    requires t.Message? && Whole(t, SlotsOf(t, dest), {}, a)
    requires DecMessage(t, dest, a).Some?
    ensures DecMessage(t, DecMessage(t, dest, a).value, b).Some? ==>
      DecMessage(t, dest, a + b) == DecMessage(t, DecMessage(t, dest, a).value, b)
  {
    hide DecLoop, Whole, Default;
    var slots := SlotsOf(t, dest);
    LoopConcat(t, slots, {}, a, b);
    var (more, met) := DecLoop(t, slots, {}, a).value;
    assert SlotsOf(t, Msg(more)) == more;
    LoopSeen(t, more, {}, met, b);
    assert {} + met == met;
  }

  /** A submessage that comes twice ends up as if its bodies had come in one piece. */
  lemma SubmessageMerges(t: LType, slots: seq<Slot>, j: nat, a: Bytes, b: Bytes, rest: Bytes)
    requires t.Message? && |slots| == |t.fields| && j < |t.fields|
    requires t.fields[j].ltype.Message? && (t.fields[j].htype.Required? || t.fields[j].htype.Optional?)
    requires |a| + |b| < WORD32
    requires var sub := t.fields[j].ltype; Whole(sub, SlotsOf(sub, CurrentValue(slots[j], sub)), {}, a)
    requires DecField(t, slots, j, WT_STRING, Prefixed(a) + rest).Parsed?
    ensures var once := DecField(t, slots, j, WT_STRING, Prefixed(a) + rest).value;
      var twice := DecField(t, once, j, WT_STRING, Prefixed(b) + rest);
      twice.Parsed? ==> DecField(t, slots, j, WT_STRING, Prefixed(a + b) + rest) == twice
  {
    hide GetLengthPrefixed, Prefixed, DecMessage, Whole, Default;
    var sub := t.fields[j].ltype;
    PrefixedRoundTrip(a, rest);
    PrefixedRoundTrip(b, rest);
    PrefixedRoundTrip(a + b, rest);
    MergeIsConcat(sub, CurrentValue(slots[j], sub), a, b);
    var once := DecField(t, slots, j, WT_STRING, Prefixed(a) + rest).value;
    var twice := DecField(t, once, j, WT_STRING, Prefixed(b) + rest);
    if twice.Parsed? {
      assert twice.value == slots[j := twice.value[j]];
    }
  }
}
