/** Bloom filters (util/bloom.cc) and the block of filters of a table (table/filter_block.cc). */
module Filter {
  import opened DbFormat
  import opened Coding

  // ---------------------------------------------------------------- bits of a byte array

  /** Bit `b` of a number. */
  predicate BitOf(x: nat, b: nat) {
    if b == 0 then x % 2 == 1 else BitOf(x / 2, b - 1)
  }

  /** x | (1 << b). */
  function OrBit(x: nat, b: nat): nat {
    if b == 0 then x - x % 2 + 1 else 2 * OrBit(x / 2, b - 1) + x % 2
  }

  lemma {:induction false} OrBitHas(x: nat, b: nat, c: nat)
    ensures BitOf(OrBit(x, b), c) <==> b == c || BitOf(x, c)
  {
    if b > 0 {
      var y := OrBit(x, b);
      assert y / 2 == OrBit(x / 2, b - 1) && y % 2 == x % 2;
      if c > 0 {
        OrBitHas(x / 2, b - 1, c - 1);
      }
    } else {
      assert OrBit(x, 0) / 2 == x / 2;
    }
  }

  lemma {:induction false} OrBitFits(x: nat, b: nat, n: nat)
    requires b < n && x < Power(2, n)
    ensures OrBit(x, b) < Power(2, n)
  {
    if b > 0 {
      OrBitFits(x / 2, b - 1, n - 1);
    } else {
      assert Power(2, n) == 2 * Power(2, n - 1);
    }
  }

  predicate HasBit(x: byte, b: nat) {
    BitOf(x as nat, b)
  }

  function WithBit(x: byte, b: nat): byte
    requires b < 8
  {
    OrBitFits(x as nat, b, 8);
    OrBit(x as nat, b) as byte
  }

  lemma WithBitHas(x: byte, b: nat, c: nat)
    requires b < 8
    ensures HasBit(WithBit(x, b), c) <==> b == c || HasBit(x, c)
  {
    OrBitHas(x as nat, b, c);
  }

  predicate TestBit(a: Bytes, p: nat)
    requires p < 8 * |a|
  {
    HasBit(a[p / 8], p % 8)
  }

  function SetBitAt(a: Bytes, p: nat): (r: Bytes)
    requires p < 8 * |a|
    ensures |r| == |a|
  {
    a[p / 8 := WithBit(a[p / 8], p % 8)]
  }

  lemma SetBitTests(a: Bytes, p: nat, q: nat)
    requires p < 8 * |a| && q < 8 * |a|
    ensures TestBit(SetBitAt(a, p), q) <==> p == q || TestBit(a, q)
  {
    hide HasBit, WithBit;
    if p / 8 == q / 8 {
      WithBitHas(a[p / 8], p % 8, q % 8);
    }
  }

  // ---------------------------------------------------------------- the Bloom filter

  const MAX_PROBES := 30

  /** Rotate right by 17 bits. */
  function Delta(h: nat): nat {
    h / 0x2_0000 + h % 0x2_0000 * 0x8000
  }

  /** The bit that the j-th probe looks at, in an array of `bits` bits. */
  function Probe(h: nat, j: nat, bits: nat): (p: nat)
    requires bits > 0
    ensures p < bits
  {
    (h + j * Delta(h)) % WORD32 % bits
  }

  predicate AllSet(a: Bytes, h: nat, k: nat) {
    |a| > 0 && forall j :: 0 <= j < k ==> TestBit(a, Probe(h, j, 8 * |a|))
  }

  /** What KeyMayMatch answers for a key with hash `h`. */
  predicate MayMatch(filter: Bytes, h: nat) {
    |filter| >= 2 &&
    (filter[|filter| - 1] as nat > MAX_PROBES || AllSet(filter[..|filter| - 1], h, filter[|filter| - 1] as nat))
  }

  lemma {:induction false} BitIs(x: nat, b: nat)
    requires b < 8
    ensures BitOf(x, b) <==> x / [1, 2, 4, 8, 16, 32, 64, 128][b] % 2 == 1
  {
    if b > 0 {
      BitIs(x / 2, b - 1);
      assert x / 2 / 2 == x / 4 && x / 2 / 4 == x / 8 && x / 2 / 8 == x / 16;
      assert x / 2 / 16 == x / 32 && x / 2 / 32 == x / 64 && x / 2 / 64 == x / 128;
    }
  }

  /** The j-th bit that a hash leads to: the hash is advanced by itself rotated right by 17 bits. */
  ghost function PlaceOf(h: nat, j: nat, bits: nat): nat
    requires bits > 0
  {
    (h + j * (h / 131072 + h % 131072 * 32768)) % 0x1_0000_0000 % bits
  }

  ghost predicate LeadsTo(h: nat, j: nat, bits: nat, p: nat)
    requires bits > 0
  {
    p == PlaceOf(h, j, bits)
  }

  /** Bit `p` of the bytes before the last is set. */
  ghost predicate HasBitAt(filter: Bytes, p: nat) {
    p < 8 * (|filter| - 1) && filter[p / 8] as nat / [1, 2, 4, 8, 16, 32, 64, 128][p % 8] % 2 == 1
  }

  /** The j-th bit that a hash leads to is set. */
  ghost predicate Hits(filter: Bytes, h: nat, j: nat) {
    |filter| >= 2 && HasBitAt(filter, PlaceOf(h, j, 8 * (|filter| - 1)))
  }

  lemma BitAtIs(filter: Bytes, p: nat)
    requires |filter| >= 2 && p < 8 * (|filter| - 1)
    ensures HasBitAt(filter, p) <==> TestBit(filter[..|filter| - 1], p)
  {
    BitIs(filter[p / 8] as nat, p % 8);
  }

  lemma ProbeIs(filter: Bytes, h: nat, j: nat)
    requires |filter| >= 2
    ensures var a := filter[..|filter| - 1];
      Hits(filter, h, j) <==> TestBit(a, Probe(h, j, 8 * |a|))
  {
    hide HasBitAt, TestBit;
    BitAtIs(filter, Probe(h, j, 8 * (|filter| - 1)));
  }

  lemma MayMatchMeans(filter: Bytes, h: nat)
    requires |filter| >= 2 && filter[|filter| - 1] <= 30
    ensures MayMatch(filter, h) <==> forall j: nat :: j < filter[|filter| - 1] as nat ==> Hits(filter, h, j)
  {
    hide TestBit, Probe, Hits;
    var a := filter[..|filter| - 1];
    forall j: nat
      ensures Hits(filter, h, j) <==> TestBit(a, Probe(h, j, 8 * |a|))
    {
      ProbeIs(filter, h, j);
    }
  }

  /** BloomFilterPolicy::KeyMayMatch. */
  method BloomMayMatch(hash: Bytes -> nat, key: Bytes, filter: Bytes) returns (r: bool)
    ensures r == MayMatch(filter, hash(key))
    ensures |filter| < 2 ==> !r
    ensures |filter| >= 2 && filter[|filter| - 1] > 30 ==> r
    ensures |filter| >= 2 && filter[|filter| - 1] <= 30 ==>
      (r <==> forall j: nat :: j < filter[|filter| - 1] as nat ==> Hits(filter, hash(key), j))
  {
    hide TestBit, Hits;
    var len := |filter|;
    if len < 2 {
      return false;
    }
    var a := filter[..len - 1];
    var bits := (len - 1) * 8;
    var k := filter[len - 1] as nat;
    if k > MAX_PROBES {
      return true;
    }
    var h0 := hash(key);
    MayMatchMeans(filter, h0);
    hide Delta;
    var h, delta := h0 % WORD32, Delta(h0);
    for j := 0 to k
      invariant h == (h0 + j * delta) % WORD32
      invariant forall i :: 0 <= i < j ==> TestBit(a, Probe(h0, i, bits))
    {
      assert h % bits == Probe(h0, j, bits);
      if !TestBit(a, h % bits) {
        return false;
      }
      NextProbe(h0, j, delta);
      h := (h + delta) % WORD32;
    }
    return true;
  }

  lemma NextProbe(h: nat, j: nat, delta: nat)
    ensures ((h + j * delta) % WORD32 + delta) % WORD32 == (h + (j + 1) * delta) % WORD32
  {
    var x := h + j * delta;
    assert h + (j + 1) * delta == x + delta;
    assert (x % WORD32 + delta) % WORD32 == (x + delta) % WORD32;
  }

  /** The bits of one key, set by its first `k` probes. */
  function WithProbes(a: Bytes, h: nat, k: nat): (r: Bytes)
    requires |a| > 0
    ensures |r| == |a|
  {
    if k == 0 then a else SetBitAt(WithProbes(a, h, k - 1), Probe(h, k - 1, 8 * |a|))
  }

  function WithKeys(a: Bytes, hash: Bytes -> nat, k: nat, keys: seq<Bytes>, n: nat): (r: Bytes)
    requires |a| > 0 && n <= |keys|
    ensures |r| == |a|
  {
    if n == 0 then a else WithProbes(WithKeys(a, hash, k, keys, n - 1), hash(keys[n - 1]), k)
  }

  function BloomBytes(n: nat, bits_per_key: nat): (bytes: nat)
    ensures bytes >= 8
  {
    var bits := n * bits_per_key;
    ((if bits < 64 then 64 else bits) + 7) / 8
  }

  /** The filter of some keys: the bit array and the number of probes. */
  function Bloom(hash: Bytes -> nat, bits_per_key: nat, k: nat, keys: seq<Bytes>): Bytes
    requires k <= MAX_PROBES
  {
    WithKeys(seq(BloomBytes(|keys|, bits_per_key), i => 0), hash, k, keys, |keys|) + [k as byte]
  }

  lemma {:induction false} ProbesSet(a: Bytes, h: nat, k: nat, p: nat)
    requires |a| > 0 && p < 8 * |a|
    ensures TestBit(WithProbes(a, h, k), p) <==> TestBit(a, p) || exists j :: 0 <= j < k && p == Probe(h, j, 8 * |a|)
  {
    hide TestBit, SetBitAt, Probe;
    if k > 0 {
      ProbesSet(a, h, k - 1, p);
      SetBitTests(WithProbes(a, h, k - 1), Probe(h, k - 1, 8 * |a|), p);
    }
  }

  lemma {:induction false} KeysSet(a: Bytes, hash: Bytes -> nat, k: nat, keys: seq<Bytes>, n: nat, m: nat)
    requires |a| > 0 && m < n <= |keys|
    ensures AllSet(WithKeys(a, hash, k, keys, n), hash(keys[m]), k)
  {
    hide TestBit, WithProbes, Probe;
    var before := WithKeys(a, hash, k, keys, n - 1);
    var bits, h := 8 * |a|, hash(keys[n - 1]);
    assert WithKeys(a, hash, k, keys, n) == WithProbes(before, h, k);
    if m < n - 1 {
      KeysSet(a, hash, k, keys, n - 1, m);
    }
    forall j | 0 <= j < k
      ensures TestBit(WithProbes(before, h, k), Probe(hash(keys[m]), j, bits))
    {
      ProbesSet(before, h, k, Probe(hash(keys[m]), j, bits));
    }
  }

  /** Some probe of one of the first `n` keys is at bit `p`. */
  ghost predicate IsProbed(hash: Bytes -> nat, k: nat, keys: seq<Bytes>, n: nat, bits: nat, p: nat)
    requires n <= |keys| && bits > 0
  {
    exists m: nat, j: nat :: m < n && j < k && LeadsTo(hash(keys[m]), j, bits, p)
  }

  lemma ProbedStep(hash: Bytes -> nat, k: nat, keys: seq<Bytes>, n: nat, h: nat, bits: nat, p: nat)
    requires 0 < n <= |keys| && bits > 0 && h == hash(keys[n - 1])
    ensures IsProbed(hash, k, keys, n, bits, p) <==>
      IsProbed(hash, k, keys, n - 1, bits, p) || exists j :: 0 <= j < k && p == Probe(h, j, bits)
  {
    forall m: nat, j: nat | m < n
      ensures LeadsTo(hash(keys[m]), j, bits, p) <==> p == Probe(hash(keys[m]), j, bits)
    {
    }
    hide LeadsTo, Probe;
    if j :| 0 <= j < k && p == Probe(h, j, bits) {
      assert LeadsTo(hash(keys[n - 1]), j, bits, p);
    }
  }

  lemma {:induction false} KeysSetExactly(a: Bytes, hash: Bytes -> nat, k: nat, keys: seq<Bytes>, n: nat, p: nat)
    requires |a| > 0 && n <= |keys| && p < 8 * |a|
    ensures TestBit(WithKeys(a, hash, k, keys, n), p) <==> TestBit(a, p) || IsProbed(hash, k, keys, n, 8 * |a|, p)
  {
    if n > 0 {
      KeysSetExactly(a, hash, k, keys, n - 1, p);
      var before := WithKeys(a, hash, k, keys, n - 1);
      ProbesSet(before, hash(keys[n - 1]), k, p);
      ProbedStep(hash, k, keys, n, hash(keys[n - 1]), 8 * |a|, p);
      hide TestBit, WithProbes, IsProbed;
    }
  }

  /** A filter has at least 64 bits, and the bits set are exactly those that its keys lead to. */
  lemma BloomHolds(hash: Bytes -> nat, bits_per_key: nat, k: nat, keys: seq<Bytes>)
    requires k <= MAX_PROBES
    ensures var filter := Bloom(hash, bits_per_key, k, keys);
      var bits := |keys| * bits_per_key;
      |filter| == (if bits < 64 then 8 else (bits + 7) / 8) + 1 && filter[|filter| - 1] as nat == k &&
      forall p: nat :: p < 8 * (|filter| - 1) ==>
        (HasBitAt(filter, p) <==> IsProbed(hash, k, keys, |keys|, 8 * (|filter| - 1), p))
  {
    var filter := Bloom(hash, bits_per_key, k, keys);
    var start: Bytes := seq(|filter| - 1, i => 0);
    assert filter[..|filter| - 1] == WithKeys(start, hash, k, keys, |keys|);
    forall p: nat | p < 8 * (|filter| - 1)
      ensures HasBitAt(filter, p) <==> IsProbed(hash, k, keys, |keys|, 8 * (|filter| - 1), p)
    {
      hide HasBitAt, IsProbed, WithKeys;
      BitAtIs(filter, p);
      KeysSetExactly(start, hash, k, keys, |keys|, p);
      assert !TestBit(start, p) by { NoBits(p % 8); }
    }
  }

  lemma {:induction false} NoBits(b: nat)
    ensures !BitOf(0, b)
  {
    if b > 0 {
      NoBits(b - 1);
    }
  }

  /** A Bloom filter never denies one of its keys. */
  lemma BloomMatches(hash: Bytes -> nat, bits_per_key: nat, k: nat, keys: seq<Bytes>, key: Bytes)
    requires k <= MAX_PROBES && key in keys
    ensures MayMatch(Bloom(hash, bits_per_key, k, keys), hash(key))
  {
    hide TestBit, WithKeys, Probe;
    var m :| 0 <= m < |keys| && keys[m] == key;
    var start: Bytes := seq(BloomBytes(|keys|, bits_per_key), i => 0);
    var filter := Bloom(hash, bits_per_key, k, keys);
    KeysSet(start, hash, k, keys, |keys|, m);
    assert filter[..|filter| - 1] == WithKeys(start, hash, k, keys, |keys|);
  }

  /** The probes of one key. */
  method AddHash(a: Bytes, h0: nat, k: nat) returns (r: Bytes)
    requires |a| > 0
    ensures r == WithProbes(a, h0, k)
  {
    var bits := 8 * |a|;
    r := a;
    var h, delta := h0 % WORD32, Delta(h0);
    for j := 0 to k
      invariant h == (h0 + j * delta) % WORD32 && r == WithProbes(a, h0, j)
    {
      assert h % bits == Probe(h0, j, bits);
      r := SetBitAt(r, h % bits);
      NextProbe(h0, j, delta);
      h := (h + delta) % WORD32;
    }
  }

  /** BloomFilterPolicy::CreateFilter. */
  method CreateBloom(hash: Bytes -> nat, bits_per_key: nat, k: nat, keys: seq<Bytes>) returns (filter: Bytes)
    requires k <= MAX_PROBES
    ensures filter == Bloom(hash, bits_per_key, k, keys)
    ensures forall key :: key in keys ==> MayMatch(filter, hash(key))
    ensures |filter| == (if |keys| * bits_per_key < 64 then 8 else (|keys| * bits_per_key + 7) / 8) + 1
    ensures filter[|filter| - 1] as nat == k
    ensures forall p: nat :: p < 8 * (|filter| - 1) ==>
      (HasBitAt(filter, p) <==> IsProbed(hash, k, keys, |keys|, 8 * (|filter| - 1), p))
  {
    hide WithProbes, MayMatch, HasBitAt, IsProbed;
    var bits := |keys| * bits_per_key;
    if bits < 64 {
      bits := 64;
    }
    var bytes := (bits + 7) / 8;
    var a: Bytes := seq(bytes, i => 0);
    for i := 0 to |keys|
      invariant |a| == bytes && a == WithKeys(seq(bytes, i => 0), hash, k, keys, i)
    {
      a := AddHash(a, hash(keys[i]), k);
    }
    filter := a + [k as byte];
    BloomHolds(hash, bits_per_key, k, keys);
    forall key | key in keys
      ensures MayMatch(filter, hash(key))
    {
      BloomMatches(hash, bits_per_key, k, keys, key);
    }
  }

  // ---------------------------------------------------------------- the filter block

  const BASE_LG: nat := 11
  const BASE: nat := 2048

  /** A filter policy: its name in table files, and how filters are made and asked. */
  datatype Policy = Policy(name: Bytes, create: seq<Bytes> -> Bytes, may_match: (Bytes, Bytes) -> bool)

  ghost predicate NoFalseNegatives(policy: Policy) {
    forall keys, key :: key in keys ==> policy.may_match(key, policy.create(keys))
  }

  /** "leveldb.BuiltinBloomFilter2". */
  const BLOOM_NAME: Bytes := [
    0x6c, 0x65, 0x76, 0x65, 0x6c, 0x64, 0x62, 0x2e, 0x42, 0x75, 0x69, 0x6c, 0x74, 0x69,
    0x6e, 0x42, 0x6c, 0x6f, 0x6f, 0x6d, 0x46, 0x69, 0x6c, 0x74, 0x65, 0x72, 0x32]

  function BloomPolicy(hash: Bytes -> nat, bits_per_key: nat, k: nat): Policy
    requires k <= MAX_PROBES
  {
    Policy(BLOOM_NAME, keys => Bloom(hash, bits_per_key, k, keys), (key, filter) => MayMatch(filter, hash(key)))
  }

  lemma BloomIsSafe(hash: Bytes -> nat, bits_per_key: nat, k: nat)
    requires k <= MAX_PROBES
    ensures NoFalseNegatives(BloomPolicy(hash, bits_per_key, k))
  {
    hide Bloom, MayMatch;
    var policy := BloomPolicy(hash, bits_per_key, k);
    forall keys, key: Bytes | key in keys
      ensures policy.may_match(key, policy.create(keys))
    {
      BloomMatches(hash, bits_per_key, k, keys, key);
    }
  }

  /** The filters of the first `n` groups of keys; a group without keys has an empty filter. */
  function Filters(policy: Policy, groups: seq<seq<Bytes>>, n: nat): Bytes
    requires n <= |groups|
  {
    if n == 0 then
      []
    else
      Filters(policy, groups, n - 1) + if groups[n - 1] == [] then [] else policy.create(groups[n - 1])
  }

  /** FilterBlockReader::KeyMayMatch: what cannot be understood counts as a match. */
  function KeyMayMatch(policy: Policy, contents: Bytes, block_offset: nat, key: Bytes): bool {
    var n := |contents|;
    if n < 5 then
      true
    else
      var table := Word(contents, n - 5);
      if table > n - 5 then
        true
      else
        var index := block_offset / Power(2, contents[n - 1] as nat);
        if index < (n - 5 - table) / 4 then
          IndexInside(index, table, n);
          var start, limit := Word(contents, table + 4 * index), Word(contents, table + 4 * index + 4);
          if start <= limit <= table then policy.may_match(key, contents[start..limit]) else start != limit
        else
          true
  }

  lemma IndexInside(index: nat, table: nat, n: nat)
    requires table + 5 <= n && index < (n - 5 - table) / 4
    ensures table + 4 * index + 8 <= n
  {
  }

  class FilterBlockBuilder {
    const policy: Policy
    var keys: seq<Bytes>
    var result: Bytes
    var offsets: seq<nat>
    /** The keys of the filters generated so far. */
    ghost var groups: seq<seq<Bytes>>

    ghost predicate Valid()
      reads this
    {
      |groups| == |offsets| && result == Filters(policy, groups, |groups|) &&
      forall i :: 0 <= i < |offsets| ==> offsets[i] == |Filters(policy, groups, i)|
    }

    /** The key is, or will be, in filter `i`. */
    ghost predicate Has(i: nat, key: Bytes)
      reads this
    {
      if i < |groups| then key in groups[i] else i == |groups| && key in keys
    }

    constructor (policy: Policy)
      ensures Valid() && this.policy == policy && groups == [] && keys == []
    {
      this.policy := policy;
      keys, result, offsets, groups := [], [], [], [];
    }

    method GenerateFilter()
      requires Valid()
      modifies this
      ensures Valid() && groups == old(groups) + [old(keys)] && keys == []
    {
      ghost var before := groups;
      offsets := offsets + [|result|];
      if keys != [] {
        result := result + policy.create(keys);
      }
      groups := groups + [keys];
      keys := [];
      forall i | 0 <= i <= |before|
        ensures Filters(policy, groups, i) == Filters(policy, before, i)
      {
        SameFilters(policy, before, groups, i);
      }
    }

    /** Called with the offset at which the next data block will start. */
    method StartBlock(block_offset: nat)
      requires Valid() && block_offset / BASE >= |offsets|
      modifies this
      ensures Valid() && |offsets| == block_offset / BASE
      ensures forall i, key :: old(Has(i, key)) ==> Has(i, key)
    {
      hide Filters;
      var filter_index := block_offset / BASE;
      while filter_index > |offsets|
        invariant Valid() && |offsets| <= filter_index
        invariant forall i, key :: old(Has(i, key)) ==> Has(i, key)
        decreases filter_index - |offsets|
      {
        GenerateFilter();
      }
    }

    method AddKey(key: Bytes)
      requires Valid()
      modifies this`keys
      ensures Valid() && keys == old(keys) + [key] && Has(|offsets|, key)
      ensures forall i, k :: old(Has(i, k)) ==> Has(i, k)
    {
      keys := keys + [key];
    }

    /** Asked at the offset of a data block, the finished block answers as the filter of the keys
        added for its 2048 bytes of offsets does, so yes for each of them. */
    method Finish() returns (contents: Bytes)
      requires Valid() && NoFalseNegatives(policy)
      modifies this
      ensures groups == old(groups) + if old(keys) == [] then [] else [old(keys)]
      ensures |contents| < WORD32 ==>
        forall block_offset: nat, key :: KeyMayMatch(policy, contents, block_offset, key) <==>
          block_offset / 2048 >= |groups| || FilterSays(policy, groups[block_offset / 2048], key)
      ensures |contents| < WORD32 ==>
        forall block_offset: nat, key :: old(Has(block_offset / BASE, key)) ==> KeyMayMatch(policy, contents, block_offset, key)
    {
      if keys != [] {
        GenerateFilter();
      }
      hide Filters, Laid, KeyMayMatch, NoFalseNegatives, Words;
      var words := WordBytes(offsets);
      contents := result + words + Fixed(4, |result|) + [BASE_LG as byte];
      LaidOut(result, offsets);
      if |contents| < WORD32 {
        forall block_offset: nat, key
          ensures KeyMayMatch(policy, contents, block_offset, key) <==>
            block_offset / BASE >= |groups| || FilterSays(policy, groups[block_offset / BASE], key)
        {
          Answers(policy, groups, offsets, contents, block_offset, key);
        }
        forall block_offset: nat, key | old(Has(block_offset / BASE, key))
          ensures KeyMayMatch(policy, contents, block_offset, key)
        {
          NeverDenies(policy, groups[block_offset / BASE], key);
        }
      }
    }
  }

  lemma {:induction false} SameFilters(policy: Policy, a: seq<seq<Bytes>>, b: seq<seq<Bytes>>, n: nat)
    requires n <= |a| && n <= |b| && forall i :: 0 <= i < n ==> a[i] == b[i]
    ensures Filters(policy, a, n) == Filters(policy, b, n)
  {
    if n > 0 {
      SameFilters(policy, a, b, n - 1);
    }
  }

  lemma {:induction false} FiltersPrefix(policy: Policy, groups: seq<seq<Bytes>>, i: nat, n: nat)
    requires i <= n <= |groups|
    ensures Filters(policy, groups, i) <= Filters(policy, groups, n)
  {
    if i < n {
      FiltersPrefix(policy, groups, i, n - 1);
    }
  }

  /** What the filter of some keys says; no keys have the empty filter. */
  predicate FilterSays(policy: Policy, keys: seq<Bytes>, key: Bytes) {
    policy.may_match(key, if keys == [] then [] else policy.create(keys))
  }

  lemma Answers(policy: Policy, groups: seq<seq<Bytes>>, offsets: seq<nat>, contents: Bytes, block_offset: nat, key: Bytes)
    requires |offsets| == |groups| && |contents| < WORD32
    requires forall i :: 0 <= i < |offsets| ==> offsets[i] == |Filters(policy, groups, i)|
    requires var result := Filters(policy, groups, |groups|); Laid(result, offsets + [|result|], contents)
    ensures KeyMayMatch(policy, contents, block_offset, key) <==>
      block_offset / BASE >= |groups| || FilterSays(policy, groups[block_offset / BASE], key)
  {
    hide FromFixed, Words, Word, Filters, Fixed, Power, WordsBetween;
    var result := Filters(policy, groups, |groups|);
    var ws := offsets + [|result|];
    var index := block_offset / BASE;
    assert Power(2, BASE_LG) == BASE by { PowerBase(); }
    TailOfLaid(result, ws, contents);
    if index < |groups| {
      FilterInside(policy, groups, index);
      assert ws[index + 1] == |Filters(policy, groups, index + 1)|;
      WordInside(result, ws, [BASE_LG as byte], contents, index);
      WordInside(result, ws, [BASE_LG as byte], contents, index + 1);
      PrefixSlice(result, contents, ws[index], ws[index + 1]);
    }
  }

  /** The end of a finished block: where the offsets start, and the base. */
  lemma TailOfLaid(result: Bytes, ws: seq<nat>, contents: Bytes)
    requires Laid(result, ws, contents) && |ws| > 0 && ws[|ws| - 1] == |result| && |contents| < WORD32
    ensures |contents| == |result| + 4 * |ws| + 1 && result <= contents
    ensures contents[|contents| - 1] == BASE_LG as byte && Word(contents, |contents| - 5) == |result|
  {
    hide FromFixed, Words, Word;
    BetweenPrefix(result, ws, [BASE_LG as byte], contents);
    WordInside(result, ws, [BASE_LG as byte], contents, |ws| - 1);
  }

  lemma PrefixSlice(a: Bytes, b: Bytes, i: nat, j: nat)
    requires a <= b && i <= j <= |a|
    ensures b[i..j] == a[i..j]
  {
    assert b[..|a|] == a;
  }

  lemma NeverDenies(policy: Policy, keys: seq<Bytes>, key: Bytes)
    requires NoFalseNegatives(policy) && key in keys
    ensures FilterSays(policy, keys, key)
  {
  }

  /** A filter lies between two offsets. */
  lemma FilterInside(policy: Policy, groups: seq<seq<Bytes>>, i: nat)
    requires i < |groups|
    ensures var start, limit := |Filters(policy, groups, i)|, |Filters(policy, groups, i + 1)|;
      var result := Filters(policy, groups, |groups|);
      start <= limit <= |result| && result[start..limit] == if groups[i] == [] then [] else policy.create(groups[i])
  {
    FiltersPrefix(policy, groups, i + 1, |groups|);
    var a, f := Filters(policy, groups, i), if groups[i] == [] then [] else policy.create(groups[i]);
    var result := Filters(policy, groups, |groups|);
    assert Filters(policy, groups, i + 1) == a + f;
    assert result[..|a + f|] == a + f;
    assert result[|a|..|a + f|] == (a + f)[|a|..];
  }

  lemma PowerBase()
    ensures Power(2, 11) == 2048
  {
    assert Power(2, 4) == 16;
    assert Power(2, 8) == 16 * Power(2, 4);
    assert Power(2, 11) == 8 * Power(2, 8);
  }

  /** The layout of the block: filters, offsets and where they start, base. */
  ghost predicate Laid(result: Bytes, ws: seq<nat>, contents: Bytes) {
    WordsBetween(result, ws, [BASE_LG as byte], contents)
  }

  lemma LaidOut(result: Bytes, offsets: seq<nat>)
    ensures Laid(result, offsets + [|result|], result + Words(offsets) + Fixed(4, |result|) + [BASE_LG as byte])
  {
    hide Words, Fixed;
    AppendWord(offsets, |result|);
    Associate(result, Words(offsets), Fixed(4, |result|));
  }

}
