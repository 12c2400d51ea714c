/** Fixed-width, varint and length-prefixed encodings (util/coding.h, util/coding.cc).

    The shifts and masks of the source are written as divisions and remainders by
    powers of two; `|` of bit-disjoint operands is `+`. */
module Coding {
  import opened DbFormat

  const WORD32 := 0x1_0000_0000
  const WORD64 := 0x1_0000_0000_0000_0000

  /** A value taken off the front of the input, and what is left. */
  datatype Parse<+T> = Parsed(value: T, rest: Bytes) | Failed

  function Power(base: nat, n: nat): (p: nat)
    ensures base > 0 ==> p > 0
  {
    if n == 0 then 1 else base * Power(base, n - 1)
  }

  function Concat(parts: seq<Bytes>): Bytes {
    if parts == [] then [] else parts[0] + Concat(parts[1..])
  }

  /** EncodeFixed32 and EncodeFixed64: `n` bytes, least significant first. */
  function Fixed(n: nat, v: nat): (s: Bytes)
    ensures |s| == n
  {
    if n == 0 then [] else [(v % 256) as byte] + Fixed(n - 1, v / 256)
  }

  function FromFixed(s: Bytes): (v: nat)
    ensures v < Power(256, |s|)
  {
    if s == [] then 0 else s[0] as nat + 256 * FromFixed(s[1..])
  }

  lemma {:induction false} FixedRoundTrip(n: nat, v: nat)
    requires v < Power(256, n)
    ensures FromFixed(Fixed(n, v)) == v
  {
    if n > 0 {
      assert v / 256 < Power(256, n - 1);
      FixedRoundTrip(n - 1, v / 256);
      assert Fixed(n, v)[1..] == Fixed(n - 1, v / 256);
    }
  }

  /** The other way round: every byte string is the encoding of the number it decodes to. */
  lemma {:induction false} FixedOnto(s: Bytes)
    ensures Fixed(|s|, FromFixed(s)) == s
  {
    if s != [] {
      FixedOnto(s[1..]);
      LowestByte(s[0], FromFixed(s[1..]));
      hide FromFixed;
      assert s == [s[0]] + s[1..];
    }
  }

  lemma DivideTwice(v: nat, p: nat)
    requires p > 0
    ensures v / (256 * p) == v / 256 / p && v / (128 * p) == v / 128 / p
  {
    ScaledDivide(v, 256, p);
    ScaledDivide(v, 128, p);
  }

  lemma ScaledDivide(v: nat, c: nat, p: nat)
    requires p > 0 && (c == 128 || c == 256)
    ensures v / (c * p) == v / c / p
  {
    var q, r := v / c / p, v / c % p;
    assert v / c == p * q + r;
    assert c * (p * q) == (c * p) * q;
    DivideIs(v, c * p, q, c * r + v % c);
  }

  lemma DivideIs(v: nat, d: nat, q: nat, r: nat)
    requires r < d && v == d * q + r
    ensures v / d == q
  {
    var k := v / d - q;
    assert v == d * (v / d) + v % d;
    assert d * k == d * (v / d) - d * q;
    AtLeastOnce(d, k);
  }

  lemma AtLeastOnce(d: nat, k: int)
    ensures (k >= 1 ==> d * k >= d) && (k <= -1 ==> d * k + d <= 0)
  {
  }

  /** The i-th byte is the i-th digit to base 256, the least significant first. */
  lemma {:induction false} FixedDigits(n: nat, v: nat, i: nat)
    requires i < n
    ensures Fixed(n, v)[i] as nat == v / Power(256, i) % 256
  {
    if i > 0 {
      FixedDigits(n - 1, v / 256, i - 1);
      DivideTwice(v, Power(256, i - 1));
    }
  }

  lemma WordSizes()
    ensures Power(256, 2) == 0x1_0000 && Power(256, 4) == WORD32 && Power(256, 8) == WORD64
    ensures Power(128, 5) > WORD32 && Power(128, 10) > WORD64
  {
    assert Power(256, 2) == 0x1_0000;
    assert Power(256, 4) == 0x1_0000 * Power(256, 2);
    assert Power(256, 6) == 0x1_0000 * Power(256, 4);
    assert Power(256, 8) == 0x1_0000 * Power(256, 6);
    assert Power(128, 3) == 0x20_0000;
    assert Power(128, 5) == 0x4000 * Power(128, 3);
    assert Power(128, 7) == 0x4000 * Power(128, 5);
    assert Power(128, 10) == 0x20_0000 * Power(128, 7);
  }

  /** Seven bits a byte, least significant first; the top bit says that more follow. */
  function Varint(v: nat): (s: Bytes)
    ensures |s| > 0
  {
    if v < 128 then [v as byte] else [(v % 128 + 128) as byte] + Varint(v / 128)
  }

  /** The i-th byte holds the i-th digit to base 128, the least significant first; all bytes but
      the last have the top bit set, and there are no more of them than the number needs. */
  lemma {:induction false} VarintDigits(v: nat, i: nat)
    requires i < |Varint(v)|
    ensures Varint(v)[i] as nat == v / Power(128, i) % 128 + (if i < |Varint(v)| - 1 then 128 else 0)
    ensures v < Power(128, |Varint(v)|) && (|Varint(v)| > 1 ==> v >= Power(128, |Varint(v)| - 1))
  {
    if v < 128 {
      assert Power(128, 1) == 128 * Power(128, 0);
    } else {
      VarintDigits(v / 128, if i == 0 then 0 else i - 1);
      var n := |Varint(v / 128)|;
      assert Power(128, n + 1) == 128 * Power(128, n);
      assert n > 1 ==> Power(128, n) == 128 * Power(128, n - 1);
      assert n == 1 ==> Power(128, n) == 128 by { assert Power(128, 1) == 128 * Power(128, 0); }
      if i > 0 {
        DivideTwice(v, Power(128, i - 1));
      }
    }
  }

  method EncodeVarint(value: nat) returns (s: Bytes)
    ensures s == Varint(value)
  {
    var v := value;
    s := [];
    while v >= 128
      invariant s + Varint(v) == Varint(value)
    {
      s := s + [(v % 128 + 128) as byte];
      v := v / 128;
    }
    s := s + [v as byte];
  }

  /** The number at the front of `s`, in at most `max` bytes. */
  function TakeVarint(s: Bytes, max: nat): Parse<nat> {
    if max == 0 || s == [] then
      Failed
    else if s[0] < 128 then
      Parsed(s[0] as nat, s[1..])
    else
      match TakeVarint(s[1..], max - 1)
      case Parsed(v, rest) => Parsed((s[0] - 128) as nat + 128 * v, rest)
      case Failed => Failed
  }

  /** The number whose digits to base 128 are the low seven bits of the bytes. */
  ghost function FromDigits(s: Bytes): nat {
    if s == [] then 0 else FromDigits(s[..|s| - 1]) + s[|s| - 1] as nat % 128 * Power(128, |s| - 1)
  }

  lemma {:induction false} FirstDigit(s: Bytes)
    requires s != []
    ensures FromDigits(s) == s[0] as nat % 128 + 128 * FromDigits(s[1..])
  {
    var n := |s| - 1;
    if n == 0 {
      assert s[..0] == [];
    } else {
      FirstDigit(s[..n]);
      assert s[..n][1..] == s[1..][..n - 1];
      assert FromDigits(s[1..]) == FromDigits(s[1..][..n - 1]) + s[n] as nat % 128 * Power(128, n - 1);
      ScaleDigit(s[n] as nat % 128, Power(128, n - 1));
    }
  }

  lemma ScaleDigit(d: nat, p: nat)
    ensures 128 * (d * p) == d * (128 * p)
  {
  }

  /** A varint ends at the first of `max` bytes without the top bit, and is the number of the
      digits up to there; without such a byte there is none. */
  lemma {:induction false} TakeVarintIs(s: Bytes, max: nat, n: nat)
    requires forall i :: 0 <= i < n && i < |s| ==> s[i] >= 128
    ensures n < |s| && n < max && s[n] < 128 ==> TakeVarint(s, max) == Parsed(FromDigits(s[..n + 1]), s[n + 1..])
    ensures n >= max || n >= |s| ==> TakeVarint(s, max) == Failed
  {
    hide FromDigits;
    if max > 0 && s != [] {
      if n == 0 {
        OneDigit(s[..1]);
      } else {
        TakeVarintIs(s[1..], max - 1, n - 1);
        if n < |s| {
          FirstDigit(s[..n + 1]);
          assert s[..n + 1][1..] == s[1..][..n];
          assert s[1..][n..] == s[n + 1..];
        }
      }
    }
  }

  lemma OneDigit(s: Bytes)
    requires |s| == 1
    ensures FromDigits(s) == s[0] as nat % 128
  {
    FirstDigit(s);
  }

  /** GetVarint32: five bytes, truncated to the width of the result. */
  function GetVarint32(s: Bytes): (r: Parse<nat>)
    ensures r.Parsed? ==> |r.rest| < |s| && r.value < WORD32
  {
    TakeVarintRest(s, 5);
    match TakeVarint(s, 5)
    case Parsed(v, rest) => Parsed(v % WORD32, rest)
    case Failed => Failed
  }

  function GetVarint64(s: Bytes): (r: Parse<nat>)
    ensures r.Parsed? ==> |r.rest| < |s| && r.value < WORD64
  {
    TakeVarintRest(s, 10);
    match TakeVarint(s, 10)
    case Parsed(v, rest) => Parsed(v % WORD64, rest)
    case Failed => Failed
  }

  /** Some bytes, at most `max`, that stand for a number in words of so many values: the top bit
      says that more follow, the rest are digits, and what does not fit the word is lost. */
  ghost predicate IsVarint(a: Bytes, max: nat, word: nat, n: nat)
    requires word > 0
  {
    0 < |a| <= max && (forall i :: 0 <= i < |a| - 1 ==> a[i] >= 128) && a[|a| - 1] < 128 && n == FromDigits(a) % word
  }

  lemma LowestByte(b: byte, v: nat)
    ensures (b as nat + 256 * v) % 256 == b as nat && (b as nat + 256 * v) / 256 == v
  {
  }

  lemma FrontOf(a: Bytes, rest: Bytes)
    ensures (a + rest)[..|a|] == a && (a + rest)[|a|..] == rest
  {
  }

  /** Such bytes are read as their number. */
  lemma VarintStands(a: Bytes, n: nat, rest: Bytes)
    ensures IsVarint(a, 5, WORD32, n) ==> GetVarint32(a + rest) == Parsed(n, rest)
    ensures IsVarint(a, 10, WORD64, n) ==> GetVarint64(a + rest) == Parsed(n, rest)
  {
    hide TakeVarint, FromDigits;
    FrontOf(a, rest);
    if IsVarint(a, 5, WORD32, n) {
      TakeVarintIs(a + rest, 5, |a| - 1);
    }
    if IsVarint(a, 10, WORD64, n) {
      TakeVarintIs(a + rest, 10, |a| - 1);
    }
  }

  lemma {:induction false} VarintEnd(s: Bytes, max: nat) returns (n: nat)
    requires TakeVarint(s, max).Parsed?
    ensures n < |s| && n < max && s[n] < 128 && forall i :: 0 <= i < n ==> s[i] >= 128
  {
    if s[0] < 128 {
      n := 0;
    } else {
      n := VarintEnd(s[1..], max - 1);
      n := n + 1;
    }
  }

  /** Whatever is read as a number stands in front of what is left. */
  lemma VarintFront(s: Bytes) returns (a: Bytes)
    requires GetVarint32(s).Parsed?
    ensures IsVarint(a, 5, WORD32, GetVarint32(s).value) && s == a + GetVarint32(s).rest
  {
    var n := VarintEnd(s, 5);
    a := s[..n + 1];
    hide TakeVarint, FromDigits;
    TakeVarintIs(s, 5, n);
  }

  lemma LongVarintFront(s: Bytes) returns (a: Bytes)
    requires GetVarint64(s).Parsed?
    ensures IsVarint(a, 10, WORD64, GetVarint64(s).value) && s == a + GetVarint64(s).rest
  {
    var n := VarintEnd(s, 10);
    a := s[..n + 1];
    hide TakeVarint, FromDigits;
    TakeVarintIs(s, 10, n);
  }

  lemma {:induction false} TakeVarintRest(s: Bytes, max: nat)
    ensures var r := TakeVarint(s, max); r.Parsed? ==> |r.rest| < |s| && r.rest == s[|s| - |r.rest|..]
  {
    if max > 0 && s != [] && s[0] >= 128 {
      TakeVarintRest(s[1..], max - 1);
    }
  }

  lemma {:induction false} VarintLength(v: nat, max: nat)
    requires max > 0 && v < Power(128, max)
    ensures |Varint(v)| <= max
  {
    if v >= 128 {
      assert Power(128, 1) == 128 * Power(128, 0);
      assert v / 128 < Power(128, max - 1);
      VarintLength(v / 128, max - 1);
    }
  }

  lemma {:induction false} TakeVarintRoundTrip(v: nat, rest: Bytes, max: nat)
    requires |Varint(v)| <= max
    ensures TakeVarint(Varint(v) + rest, max) == Parsed(v, rest)
  {
    var s := Varint(v) + rest;
    if v < 128 {
      assert s[1..] == rest;
    } else {
      assert s[1..] == Varint(v / 128) + rest;
      TakeVarintRoundTrip(v / 128, rest, max - 1);
    }
  }

  lemma VarintRoundTrip(v: nat, rest: Bytes)
    ensures v < WORD32 ==> GetVarint32(Varint(v) + rest) == Parsed(v, rest)
    ensures v < WORD64 ==> GetVarint64(Varint(v) + rest) == Parsed(v, rest)
  {
    hide TakeVarint, Varint, Power;
    WordSizes();
    if v < WORD32 {
      VarintLength(v, 5);
      TakeVarintRoundTrip(v, rest, 5);
    }
    if v < WORD64 {
      VarintLength(v, 10);
      TakeVarintRoundTrip(v, rest, 10);
    }
  }

  /** GetVarint32PtrFallback (`max` 5, 32-bit words) and GetVarint64Ptr (`max` 10, 64-bit
      words).  Bits shifted out of the word never come back, so they are dropped once, on
      the way out. */
  method ReadVarint(s: Bytes, max: nat, word: nat) returns (r: Parse<nat>)
    requires word > 0
    ensures r == match TakeVarint(s, max) case Parsed(v, rest) => Parsed(v % word, rest) case Failed => Failed
  {
    var result: nat, scale: nat, i: nat := 0, 1, 0;
    while i < max && i < |s|
      invariant i <= max && i <= |s|
      invariant TakeVarint(s, max) == Shifted(result, scale, TakeVarint(s[i..], max - i))
    {
      var b := s[i];
      i := i + 1;
      assert s[i - 1..][1..] == s[i..];
      if b >= 128 {
        ghost var deeper := TakeVarint(s[i..], max - i);
        if deeper.Parsed? {
          Accumulate(result, scale, b as nat - 128, deeper.value);
        }
        result := result + (b as nat - 128) * scale;
        scale := scale * 128;
      } else {
        assert result + scale * (b as nat) == result + b as nat * scale;
        return Parsed((result + b as nat * scale) % word, s[i..]);
      }
    }
    return Failed;
  }

  ghost function Shifted(result: nat, scale: nat, tail: Parse<nat>): Parse<nat> {
    match tail
    case Parsed(v, rest) => Parsed(result + scale * v, rest)
    case Failed => Failed
  }

  lemma Accumulate(result: nat, scale: nat, low: nat, high: nat)
    ensures result + scale * (low + 128 * high) == (result + low * scale) + scale * 128 * high
  {
  }

  /** PutLengthPrefixedSlice. */
  function Prefixed(s: Bytes): (r: Bytes)
    ensures |r| > |s|
  {
    Varint(|s|) + s
  }

  function GetLengthPrefixed(s: Bytes): (r: Parse<Bytes>)
    ensures r.Parsed? ==> |r.rest| < |s|
  {
    match GetVarint32(s)
    case Failed => Failed
    case Parsed(n, rest) => if n <= |rest| then Parsed(rest[..n], rest[n..]) else Failed
  }

  lemma PrefixedRoundTrip(s: Bytes, rest: Bytes)
    requires |s| < WORD32
    ensures GetLengthPrefixed(Prefixed(s) + rest) == Parsed(s, rest)
  {
    assert Prefixed(s) + rest == Varint(|s|) + (s + rest);
    VarintRoundTrip(|s|, s + rest);
    assert (s + rest)[..|s|] == s && (s + rest)[|s|..] == rest;
  }

  /** A length that may be written in more bytes than needed, and so many bytes. */
  ghost predicate IsPrefixed(s: Bytes, b: Bytes) {
    |b| <= |s| && IsVarint(s[..|s| - |b|], 5, WORD32, |b|) && s[|s| - |b|..] == b
  }

  lemma PrefixedStands(s: Bytes, b: Bytes, rest: Bytes)
    requires IsPrefixed(s, b)
    ensures GetLengthPrefixed(s + rest) == Parsed(b, rest)
  {
    hide IsVarint;
    var a := s[..|s| - |b|];
    VarintStands(a, |b|, b + rest);
    assert s + rest == a + (b + rest);
    FrontOf(b, rest);
  }

  lemma PrefixedFront(s: Bytes) returns (a: Bytes)
    requires GetLengthPrefixed(s).Parsed?
    ensures IsPrefixed(a, GetLengthPrefixed(s).value) && s == a + GetLengthPrefixed(s).rest
  {
    hide IsVarint;
    var size := VarintFront(s);
    var b := GetLengthPrefixed(s).value;
    a := size + b;
    FrontOf(size, b);
    assert s == size + (b + GetLengthPrefixed(s).rest);
  }

  // ---------------------------------------------------------------- arrays of 32-bit words

  /** An array of 32-bit words. */
  function Words(ws: seq<nat>): (s: Bytes)
    ensures |s| == 4 * |ws|
  {
    if ws == [] then [] else Fixed(4, ws[0]) + Words(ws[1..])
  }

  lemma {:induction false} WordAt(ws: seq<nat>, i: nat)
    requires i < |ws| && ws[i] < WORD32
    ensures FromFixed(Words(ws)[4 * i..4 * i + 4]) == ws[i]
  {
    hide FromFixed, Fixed;
    var s := Words(ws);
    if i == 0 {
      assert s[..4] == Fixed(4, ws[0]);
      WordSizes();
      FixedRoundTrip(4, ws[0]);
    } else {
      WordAt(ws[1..], i - 1);
      assert s[4..] == Words(ws[1..]);
      assert s[4 * i..4 * i + 4] == s[4..][4 * (i - 1)..4 * (i - 1) + 4];
    }
  }

  lemma {:induction false} WordsConcat(a: seq<nat>, b: seq<nat>)
    ensures Words(a + b) == Words(a) + Words(b)
  {
    if a == [] {
      assert a + b == b;
    } else {
      assert (a + b)[1..] == a[1..] + b;
      WordsConcat(a[1..], b);
    }
  }

  function Word(s: Bytes, at: nat): nat
    requires at + 4 <= |s|
  {
    FromFixed(s[at..at + 4])
  }

  /** PutFixed32 of each word. */
  method WordBytes(ws: seq<nat>) returns (s: Bytes)
    ensures s == Words(ws)
  {
    hide Words, Fixed;
    s := [];
    assert s == Words(ws[..0]) by { NoWords(ws); }
    for i := 0 to |ws|
      invariant s == Words(ws[..i])
    {
      AppendWord(ws[..i], ws[i]);
      assert ws[..i + 1] == ws[..i] + [ws[i]];
      s := s + Fixed(4, ws[i]);
    }
    assert ws[..|ws|] == ws;
  }

  lemma NoWords(ws: seq<nat>)
    ensures Words(ws[..0]) == []
  {
  }

  lemma AppendWord(ws: seq<nat>, w: nat)
    ensures Words(ws + [w]) == Words(ws) + Fixed(4, w)
  {
    WordsConcat(ws, [w]);
    assert Words([w]) == Fixed(4, w) + Words([]);
  }

  lemma WordIs(s: Bytes, at: nat, t: Bytes)
    requires at + 4 <= |s| && s[at..at + 4] == t
    ensures Word(s, at) == FromFixed(t)
  {
  }

  lemma MiddleSlice(a: Bytes, b: Bytes, c: Bytes, i: nat, j: nat, s: Bytes, from: nat, to: nat)
    requires i <= j <= |b| && s == a + b + c && from == |a| + i && to == |a| + j
    ensures s[from..to] == b[i..j]
  {
    var middle := s[|a|..|a| + |b|];
    assert middle == b;
    assert s[from..to] == middle[i..j];
  }

  lemma WordsLength(ws: seq<nat>)
    ensures |Words(ws)| == 4 * |ws|
  {
  }

  lemma Associate(a: Bytes, b: Bytes, c: Bytes)
    ensures a + b + c == a + (b + c)
  {
  }

  /** `s` is an array of words between two strings. */
  ghost predicate WordsBetween(a: Bytes, ws: seq<nat>, c: Bytes, s: Bytes) {
    s == a + Words(ws) + c
  }

  lemma WordInside(a: Bytes, ws: seq<nat>, c: Bytes, s: Bytes, i: nat)
    requires WordsBetween(a, ws, c, s) && i < |ws| && ws[i] < WORD32
    ensures |a| + 4 * i + 4 <= |s| && Word(s, |a| + 4 * i) == ws[i]
  {
    hide FromFixed, Words, Word, WordsBetween;
    WordSlice(a, ws, c, s, i);
    WordAt(ws, i);
    WordIs(s, |a| + 4 * i, Words(ws)[4 * i..4 * i + 4]);
  }

  lemma WordSlice(a: Bytes, ws: seq<nat>, c: Bytes, s: Bytes, i: nat)
    requires WordsBetween(a, ws, c, s) && i < |ws|
    ensures |Words(ws)| == 4 * |ws| && |s| == |a| + 4 * |ws| + |c|
    ensures s[|a| + 4 * i..|a| + 4 * i + 4] == Words(ws)[4 * i..4 * i + 4]
  {
    hide Words;
    WordsLength(ws);
    var at := |a| + 4 * i;
    MiddleSlice(a, Words(ws), c, 4 * i, 4 * i + 4, s, at, at + 4);
  }

  lemma BetweenPrefix(a: Bytes, ws: seq<nat>, c: Bytes, s: Bytes)
    requires WordsBetween(a, ws, c, s)
    ensures a <= s && |s| == |a| + 4 * |ws| + |c|
  {
    hide Words;
    WordsLength(ws);
    assert s[..|a|] == a;
  }
}
