/** pb_istream_t and the readers of its primitive parts (nanopb: pb_decode.c). */
module NanopbStream {
  import opened DbFormat
  import opened Coding
  import opened Nanopb

  /** The varint at the front of `s`, of at most `max` groups: the groups read so far make `result`,
      the next one counts `scale`, and `left` more may come from `rest`. */
  ghost predicate Reading(s: Bytes, max: nat, result: nat, scale: nat, rest: Bytes, left: nat) {
    TakeVarint(s, max) == Shifted(result, scale, TakeVarint(rest, left))
  }

  lemma ReadingStarts(s: Bytes, max: nat)
    ensures Reading(s, max, 0, 1, s, max)
  {
  }

  lemma ReadingGoesOn(s: Bytes, max: nat, result: nat, scale: nat, rest: Bytes, left: nat)
    requires Reading(s, max, result, scale, rest, left) && rest != [] && left > 0 && rest[0] >= 128
    ensures Reading(s, max, result + Group(rest[0] as nat - 128, scale), scale * 128, rest[1..], left - 1)
  {
    var deeper := TakeVarint(rest[1..], left - 1);
    if deeper.Parsed? {
      Accumulate(result, scale, rest[0] as nat - 128, deeper.value);
    }
  }

  lemma ReadingEnds(s: Bytes, max: nat, result: nat, scale: nat, rest: Bytes, left: nat)
    requires Reading(s, max, result, scale, rest, left) && rest != [] && left > 0 && rest[0] < 128
    ensures TakeVarint(s, max) == Parsed(result + Group(rest[0] as nat, scale), rest[1..])
  {
    assert scale * (rest[0] as nat) == rest[0] as nat * scale;
  }

  lemma ReadingFails(s: Bytes, max: nat, result: nat, scale: nat, rest: Bytes, left: nat)
    requires Reading(s, max, result, scale, rest, left) && (rest == [] || left == 0)
    ensures TakeVarint(s, max) == Failed
  {
  }

  /** byte << bitpos, before it is cut to the width of the word. */
  function Group(low: nat, scale: nat): nat {
    low * scale
  }

  /** A stream over a buffer: where it stands and how much it may still read. */
  class IStream {
    const buffer: Bytes
    var state: nat
    var bytes_left: nat

    ghost predicate Valid()
      reads this
    {
      state + bytes_left <= |buffer|
    }

    /** What is left to read. */
    ghost function Rest(): (s: Bytes)
      requires Valid()
      reads this
      ensures |s| == bytes_left
    {
      buffer[state..state + bytes_left]
    }

    /** pb_istream_from_buffer. */
    constructor (buffer: Bytes)
      ensures Valid() && Rest() == buffer
    {
      this.buffer, state, bytes_left := buffer, 0, |buffer|;
    }

    /** A part of another stream. */
    constructor Part(buffer: Bytes, state: nat, bytes_left: nat)
      requires state + bytes_left <= |buffer|
      ensures Valid() && this.buffer == buffer && this.state == state && this.bytes_left == bytes_left
    {
      this.buffer, this.state, this.bytes_left := buffer, state, bytes_left;
    }

    /** pb_readbyte. */
    method ReadByte() returns (ok: bool, b: byte)
      requires Valid()
      modifies this
      ensures Valid() && state + bytes_left == old(state + bytes_left)
      ensures ok == (old(Rest()) != [])
      ensures if ok then b == old(Rest())[0] && Rest() == old(Rest())[1..] else Rest() == old(Rest())
    {
      if bytes_left == 0 {
        return false, 0;
      }
      b := buffer[state];
      state, bytes_left := state + 1, bytes_left - 1;
      ok := true;
    }

    /** pb_read. */
    method Read(count: nat) returns (ok: bool, bytes: Bytes)
      requires Valid()
      modifies this
      ensures Valid() && state + bytes_left == old(state + bytes_left)
      ensures ok == (count <= |old(Rest())|)
      ensures if ok then bytes == old(Rest())[..count] && Rest() == old(Rest())[count..] else Rest() == old(Rest())
    {
      if bytes_left < count {
        return false, [];
      }
      bytes := buffer[state..state + count];
      state, bytes_left := state + count, bytes_left - count;
      ok := true;
    }

    /** pb_decode_varint32, with its quick case.  When it fails, the stream is at its end exactly if
        no more than five bytes were left. */
    method DecodeVarint32() returns (ok: bool, value: nat)
      requires Valid()
      modifies this
      ensures Valid() && state + bytes_left == old(state + bytes_left)
      ensures ok == GetVarint32(old(Rest())).Parsed?
      ensures ok ==> GetVarint32(old(Rest())) == Parsed(value, Rest())
      ensures !ok ==> (bytes_left == 0 <==> |old(Rest())| <= 5)
    {
      hide TakeVarint, Reading, Group;
      ghost var s := Rest();
      value := 0;
      ReadingStarts(s, 5);
      var b;
      ok, b := ReadByte();
      if !ok {
        ReadingFails(s, 5, 0, 1, s, 5);
        return;
      }
      var result: nat;
      if b < 128 {
        ReadingEnds(s, 5, 0, 1, s, 5);
        result := Group(b as nat, 1);
      } else {
        ReadingGoesOn(s, 5, 0, 1, s, 5);
        var groups: nat, scale: nat := 1, 128;
        result := Group(b as nat - 128, 1);
        while true
          invariant Valid() && state + bytes_left == old(state + bytes_left) && 1 <= groups <= 5 && |Rest()| == |s| - groups
          invariant Reading(s, 5, result, scale, Rest(), 5 - groups)
          decreases 5 - groups
        {
          ghost var before := Rest();
          if groups * 7 >= 32 {
            ReadingFails(s, 5, result, scale, before, 5 - groups);
            return false, 0;
          }
          ok, b := ReadByte();
          if !ok {
            ReadingFails(s, 5, result, scale, before, 5 - groups);
            return;
          }
          if b < 128 {
            ReadingEnds(s, 5, result, scale, before, 5 - groups);
            result := result + Group(b as nat, scale);
            break;
          }
          ReadingGoesOn(s, 5, result, scale, before, 5 - groups);
          result := result + Group(b as nat - 128, scale);
          scale := scale * 128;
          groups := groups + 1;
        }
      }
      value := result % WORD32;
    }

    /** pb_decode_varint. */
    method DecodeVarint() returns (ok: bool, value: nat)
      requires Valid()
      modifies this
      ensures Valid() && state + bytes_left == old(state + bytes_left)
      ensures ok == GetVarint64(old(Rest())).Parsed?
      ensures ok ==> GetVarint64(old(Rest())) == Parsed(value, Rest())
    {
      hide TakeVarint, Reading, Group;
      ghost var s := Rest();
      value := 0;
      ReadingStarts(s, 10);
      var groups: nat, scale: nat, result: nat := 0, 1, 0;
      while true
        invariant Valid() && state + bytes_left == old(state + bytes_left) && groups <= 10
        invariant Reading(s, 10, result, scale, Rest(), 10 - groups)
        decreases 10 - groups
      {
        ghost var before := Rest();
        if groups * 7 >= 64 {
          ReadingFails(s, 10, result, scale, before, 10 - groups);
          return false, 0;
        }
        var b;
        ok, b := ReadByte();
        if !ok {
          ReadingFails(s, 10, result, scale, before, 10 - groups);
          return;
        }
        if b < 128 {
          ReadingEnds(s, 10, result, scale, before, 10 - groups);
          result := result + Group(b as nat, scale);
          break;
        }
        ReadingGoesOn(s, 10, result, scale, before, 10 - groups);
        result := result + Group(b as nat - 128, scale);
        scale := scale * 128;
        groups := groups + 1;
      }
      value := result % WORD64;
    }

    /** pb_skip_varint. */
    method SkipVarint() returns (ok: bool)
      requires Valid()
      modifies this
      ensures Valid() && state + bytes_left == old(state + bytes_left)
      ensures ok == Nanopb.SkipVarint(old(Rest())).Parsed?
      ensures ok ==> Nanopb.SkipVarint(old(Rest())) == Parsed((), Rest())
    {
      ghost var s := Rest();
      while true
        invariant Valid() && state + bytes_left == old(state + bytes_left)
        invariant Nanopb.SkipVarint(s) == Nanopb.SkipVarint(Rest())
        decreases bytes_left
      {
        ghost var before := Rest();
        var bytes;
        ok, bytes := Read(1);
        if !ok {
          return;
        }
        if bytes[0] < 128 {
          return true;
        }
      }
    }

    /** pb_skip_string. */
    method SkipString() returns (ok: bool)
      requires Valid()
      modifies this
      ensures Valid() && state + bytes_left == old(state + bytes_left)
      ensures ok == GetLengthPrefixed(old(Rest())).Parsed?
      ensures ok ==> GetLengthPrefixed(old(Rest())).rest == Rest()
    {
      hide GetVarint32;
      var length, skipped;
      ok, length := DecodeVarint32();
      if ok {
        ok, skipped := Read(length);
      }
    }

    /** pb_skip_field. */
    method SkipField(wt: nat) returns (ok: bool)
      requires Valid()
      modifies this
      ensures Valid() && state + bytes_left == old(state + bytes_left)
      ensures ok == Nanopb.SkipField(wt, old(Rest())).Parsed?
      ensures ok ==> Nanopb.SkipField(wt, old(Rest())) == Parsed((), Rest())
    {
      hide GetLengthPrefixed, Nanopb.SkipVarint;
      var skipped;
      if wt == WT_VARINT {
        ok := SkipVarint();
      } else if wt == WT_64BIT {
        ok, skipped := Read(8);
      } else if wt == WT_STRING {
        ok := SkipString();
      } else if wt == WT_32BIT {
        ok, skipped := Read(4);
      } else {
        ok := false;
      }
    }

    /** While `sub` reads a length-prefixed part, the stream waits at its beginning, with `rest` still
        to come after it. */
    ghost predicate Waiting(sub: IStream, rest: Bytes)
      reads this, sub
    {
      sub != this && sub.buffer == buffer && sub.Valid() && sub.state + sub.bytes_left + bytes_left <= |buffer| &&
      buffer[sub.state + sub.bytes_left..sub.state + sub.bytes_left + bytes_left] == rest
    }

    /** pb_make_string_substream. */
    method MakeSubstream() returns (ok: bool, sub: IStream)
      requires Valid()
      modifies this
      ensures fresh(sub) && ok == GetLengthPrefixed(old(Rest())).Parsed?
      ensures !ok ==> Valid() && state + bytes_left == old(state + bytes_left)
      ensures ok ==>
        Waiting(sub, GetLengthPrefixed(old(Rest())).rest) && sub.Rest() == GetLengthPrefixed(old(Rest())).value &&
        sub.state + sub.bytes_left + bytes_left == old(state + bytes_left) && sub.bytes_left < old(bytes_left)
    {
      hide GetVarint32;
      var size;
      ok, size := DecodeVarint32();
      sub := new IStream.Part(buffer, state, bytes_left);
      if !ok {
        return;
      }
      if sub.bytes_left < size {
        return false, sub;
      }
      sub.bytes_left := size;
      bytes_left := bytes_left - size;
    }

    /** pb_close_string_substream: whatever the part has left is passed over. */
    method CloseSubstream(sub: IStream, ghost rest: Bytes)
      requires Waiting(sub, rest)
      modifies this, sub
      ensures Valid() && Rest() == rest && state + bytes_left == old(sub.state + sub.bytes_left + bytes_left)
    {
      if sub.bytes_left > 0 {
        var _, _ := sub.Read(sub.bytes_left);
      }
      state := sub.state;
    }
  }
}
