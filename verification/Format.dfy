/** Where blocks lie in a table file: handles, trailers and the footer (table/format.h,
    table/format.cc), and internal keys as bytes (db/dbformat.h). */
module Format {
  import opened DbFormat
  import opened Coding
  import opened Crc
  import opened Comparator

  // ---------------------------------------------------------------- internal keys as bytes

  /** AppendInternalKey: the user key and the packed sequence number and type. */
  function EncodeKey(k: InternalKey): (s: Bytes)
    ensures |s| == |k.user| + 8
  {
    k.user + Fixed(8, k.pack)
  }

  /** ExtractUserKey and DecodeFixed64 of the last eight bytes, which every internal key has. */
  function ParseKey(s: Bytes): InternalKey {
    if |s| < 8 then InternalKey([], 0) else InternalKey(s[..|s| - 8], FromFixed(s[|s| - 8..]))
  }

  lemma KeyRoundTrip(k: InternalKey)
    requires k.pack < WORD64
    ensures ParseKey(EncodeKey(k)) == k
  {
    hide Fixed, FromFixed, Power;
    var s := EncodeKey(k);
    assert s[..|s| - 8] == k.user && s[|s| - 8..] == Fixed(8, k.pack);
    WordSizes();
    FixedRoundTrip(8, k.pack);
  }

  /** InternalKeyComparator::Compare(a, b) < 0. */
  predicate EncodedLess(a: Bytes, b: Bytes) {
    KeyLess(ParseKey(a), ParseKey(b))
  }

  // ---------------------------------------------------------------- handles and the footer

  datatype Handle = Handle(offset: nat, size: nat)

  function EncodeHandle(h: Handle): Bytes {
    Varint(h.offset) + Varint(h.size)
  }

  /** BlockHandle::DecodeFrom; what follows the handle is left. */
  function DecodeHandle(s: Bytes): Parse<Handle> {
    match GetVarint64(s)
    case Failed => Failed
    case Parsed(offset, rest) =>
      match GetVarint64(rest)
      case Failed => Failed
      case Parsed(size, rest') => Parsed(Handle(offset, size), rest')
  }

  ghost predicate HandleFits(h: Handle) {
    h.offset < WORD64 && h.size < WORD64
  }

  lemma HandleRoundTrip(h: Handle, rest: Bytes)
    requires HandleFits(h)
    ensures DecodeHandle(EncodeHandle(h) + rest) == Parsed(h, rest)
  {
    hide Varint, GetVarint64;
    Associate(Varint(h.offset), Varint(h.size), rest);
    VarintRoundTrip(h.offset, Varint(h.size) + rest);
    VarintRoundTrip(h.size, rest);
  }

  lemma HandleLength(h: Handle)
    requires HandleFits(h)
    ensures |EncodeHandle(h)| <= MAX_HANDLE
  {
    hide Varint, Power;
    WordSizes();
    VarintLength(h.offset, 10);
    VarintLength(h.size, 10);
  }

  /** BlockHandle::kMaxEncodedLength and Footer::kEncodedLength. */
  const MAX_HANDLE: nat := 20
  const FOOTER_LENGTH: nat := 48
  /** kTableMagicNumber, lower and upper half. */
  const MAGIC_LOW: nat := 0x8b80fb57
  const MAGIC_HIGH: nat := 0xdb477524

  datatype Footer = Footer(metaindex: Handle, index: Handle)

  function Zeros(n: nat): (s: Bytes)
    ensures |s| == n
  {
    seq(n, i => 0)
  }

  function Magic(): (s: Bytes)
    ensures |s| == 8
  {
    Fixed(4, MAGIC_LOW) + Fixed(4, MAGIC_HIGH)
  }

  /** Both handles, padded to their greatest length, and the magic number. */
  function EncodeFooter(f: Footer): Bytes {
    var handles := EncodeHandle(f.metaindex) + EncodeHandle(f.index);
    handles + Zeros(if |handles| < 2 * MAX_HANDLE then 2 * MAX_HANDLE - |handles| else 0) + Magic()
  }

  function DecodeFooter(s: Bytes): Option<Footer>
    requires |s| == FOOTER_LENGTH
  {
    if FromFixed(s[40..44]) != MAGIC_LOW || FromFixed(s[44..48]) != MAGIC_HIGH then
      None
    else
      match DecodeHandle(s)
      case Failed => None
      case Parsed(metaindex, rest) =>
        match DecodeHandle(rest)
        case Failed => None
        case Parsed(index, _) => Some(Footer(metaindex, index))
  }

  lemma MagicReads(s: Bytes)
    requires |s| == FOOTER_LENGTH && s[40..] == Magic()
    ensures FromFixed(s[40..44]) == MAGIC_LOW && FromFixed(s[44..48]) == MAGIC_HIGH
  {
    hide Fixed, FromFixed, Power;
    WordSizes();
    FixedRoundTrip(4, MAGIC_LOW);
    FixedRoundTrip(4, MAGIC_HIGH);
    assert s[40..44] == s[40..][..4] == Fixed(4, MAGIC_LOW);
    assert s[44..48] == s[40..][4..] == Fixed(4, MAGIC_HIGH);
  }

  /** A footer is recognised by its last eight bytes and nothing else. */
  lemma FooterMeans(s: Bytes)
    requires |s| == 48
    ensures DecodeFooter(s).Some? <==>
      s[40..] == [0x57, 0xfb, 0x80, 0x8b, 0x24, 0x75, 0x47, 0xdb] &&
      DecodeHandle(s).Parsed? && DecodeHandle(DecodeHandle(s).rest).Parsed?
    ensures DecodeFooter(s).Some? ==>
      DecodeFooter(s).value == Footer(DecodeHandle(s).value, DecodeHandle(DecodeHandle(s).rest).value)
  {
    hide DecodeHandle, FromFixed, Fixed;
    MagicBytes();
    if s[40..] == Magic() {
      MagicReads(s);
    }
    FixedOnto(s[40..44]);
    FixedOnto(s[44..48]);
    assert s[40..] == s[40..44] + s[44..48];
  }

  lemma MagicBytes()
    ensures Magic() == [0x57, 0xfb, 0x80, 0x8b, 0x24, 0x75, 0x47, 0xdb]
  {
    FixedFour(MAGIC_LOW);
    FixedFour(MAGIC_HIGH);
    hide Fixed;
  }

  lemma FixedFour(v: nat)
    ensures Fixed(4, v) ==
      [(v % 256) as byte, (v / 256 % 256) as byte, (v / 256 / 256 % 256) as byte, (v / 256 / 256 / 256 % 256) as byte]
  {
    var a, b, c := v / 256, v / 256 / 256, v / 256 / 256 / 256;
    assert Fixed(1, c) == [(c % 256) as byte] by { assert Fixed(0, c / 256) == []; }
    assert Fixed(2, b) == [(b % 256) as byte] + Fixed(1, c);
    assert Fixed(3, a) == [(a % 256) as byte] + Fixed(2, b);
  }

  lemma FooterRoundTrip(f: Footer)
    requires HandleFits(f.metaindex) && HandleFits(f.index)
    ensures |EncodeFooter(f)| == FOOTER_LENGTH && DecodeFooter(EncodeFooter(f)) == Some(f)
  {
    hide EncodeHandle, DecodeHandle, Magic, FromFixed, Zeros, HandleFits;
    HandleLength(f.metaindex);
    HandleLength(f.index);
    var a, b, s := EncodeHandle(f.metaindex), EncodeHandle(f.index), EncodeFooter(f);
    var zeros := Zeros(40 - |a + b|);
    MagicReads(s);
    HandleRoundTrip(f.metaindex, b + zeros + Magic());
    HandleRoundTrip(f.index, zeros + Magic());
    assert s == a + (b + zeros + Magic());
    assert b + zeros + Magic() == b + (zeros + Magic());
  }

  // ---------------------------------------------------------------- blocks in the file

  /** kBlockTrailerSize: the compression type and a checksum of contents and type. */
  const TRAILER_SIZE: nat := 5
  const NO_COMPRESSION: byte := 0

  function Trailer(data: Bytes): (s: Bytes)
    ensures |s| == TRAILER_SIZE
  {
    [NO_COMPRESSION] + Fixed(4, Mask(Extend(Crc.Value(data), [NO_COMPRESSION])) as nat)
  }

  function StoredCrc(s: Bytes): Crc.Word
    requires |s| == 4
  {
    WordSizes();
    Unmask(FromFixed(s) as Crc.Word)
  }

  /** ReadBlock: the contents of an uncompressed block, or nothing when the file is too short, the
      checksum does not match (if asked for) or the type is another one. */
  function ReadBlock(file: Bytes, h: Handle, verify: bool): Option<Bytes> {
    if |file| < h.offset + h.size + TRAILER_SIZE then
      None
    else
      var s := file[h.offset..h.offset + h.size + TRAILER_SIZE];
      var n := h.size;
      if verify && StoredCrc(s[n + 1..]) != Crc.Value(s[..n + 1]) then
        None
      else if s[n] != NO_COMPRESSION then
        None
      else
        Some(s[..n])
  }

  /** The file holds these contents, with their trailer, where the handle says. */
  ghost predicate Stored(file: Bytes, h: Handle, data: Bytes) {
    h.size == |data| && h.offset + h.size + TRAILER_SIZE <= |file| &&
    file[h.offset..h.offset + h.size + TRAILER_SIZE] == data + Trailer(data)
  }

  lemma CrcReads(data: Bytes)
    ensures var t := Trailer(data); StoredCrc(t[1..]) == Crc.Value(data + t[..1]) && t[0] == NO_COMPRESSION
  {
    hide Fixed, FromFixed, Mask, Unmask, Extend, Crc.Value, Power;
    var crc := Extend(Crc.Value(data), [NO_COMPRESSION]);
    ExtendConcat(data, [NO_COMPRESSION]);
    UnmaskMask(crc);
    WordSizes();
    FixedRoundTrip(4, Mask(crc) as nat);
    var t := Trailer(data);
    assert t[1..] == Fixed(4, Mask(crc) as nat) && t[..1] == [NO_COMPRESSION];
  }

  /** What was stored is read back, with or without checking. */
  lemma StoredReads(file: Bytes, h: Handle, data: Bytes, verify: bool)
    requires Stored(file, h, data)
    ensures ReadBlock(file, h, verify) == Some(data)
  {
    hide Trailer, StoredCrc, Crc.Value;
    CrcReads(data);
    var s, t, n := data + Trailer(data), Trailer(data), |data|;
    assert s[..n] == data && s[n] == t[0] && s[n + 1..] == t[1..] && s[..n + 1] == data + t[..1];
  }

  /** With checking, exactly the blocks that stand in the file are read: the contents, the type
      byte zero and the masked checksum of both. */
  lemma CheckedReadMeans(file: Bytes, h: Handle, data: Bytes)
    ensures ReadBlock(file, h, true) == Some(data) <==>
      h.size == |data| && h.offset + |data| + 5 <= |file| &&
      file[h.offset..h.offset + |data| + 5] == data + [0] + Fixed(4, Mask(Crc.Value(data + [0])) as nat)
  {
    hide Fixed, FromFixed, Mask, Unmask, Extend, Crc.Value, Power;
    ExtendConcat(data, [0]);
    assert Trailer(data) == [0] + Fixed(4, Mask(Crc.Value(data + [0])) as nat);
    Associate(data, [0], Fixed(4, Mask(Crc.Value(data + [0])) as nat));
    if Stored(file, h, data) {
      StoredReads(file, h, data, true);
    }
    if ReadBlock(file, h, true) == Some(data) {
      ReadIsStored(file, h, data);
    }
  }

  lemma ReadIsStored(file: Bytes, h: Handle, data: Bytes)
    requires ReadBlock(file, h, true) == Some(data)
    ensures Stored(file, h, data)
  {
    hide Fixed, FromFixed, Mask, Extend, Crc.Value, Power, Unmask;
    var s, n := file[h.offset..h.offset + h.size + TRAILER_SIZE], h.size;
    var crc := Crc.Value(s[..n + 1]);
    assert s[..n + 1] == data + [NO_COMPRESSION];
    ExtendConcat(data, [NO_COMPRESSION]);
    WordSizes();
    FixedOnto(s[n + 1..]);
    MaskUnmask(FromFixed(s[n + 1..]) as Crc.Word);
    assert s == s[..n + 1] + s[n + 1..];
    Associate(data, [NO_COMPRESSION], s[n + 1..]);
  }

  lemma StoredStays(file: Bytes, more: Bytes, h: Handle, data: Bytes)
    requires Stored(file, h, data)
    ensures Stored(file + more, h, data)
  {
    hide Trailer;
    var to := h.offset + h.size + TRAILER_SIZE;
    assert (file + more)[h.offset..to] == file[h.offset..to];
  }

  lemma StoredAtEnd(file: Bytes, data: Bytes)
    ensures Stored(file + (data + Trailer(data)), Handle(|file|, |data|), data)
  {
    hide Trailer;
    var s := file + (data + Trailer(data));
    assert s[|file|..] == data + Trailer(data);
    assert s[|file|..|file| + |data| + TRAILER_SIZE] == s[|file|..];
  }
}
