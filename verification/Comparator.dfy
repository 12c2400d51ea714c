/** The bytewise comparator and the comparator of internal keys, with their shortening functions
    (util/comparator.cc, db/dbformat.cc). */
module Comparator {
  import opened DbFormat
  import opened Coding

  // ---------------------------------------------------------------- byte strings

  /** Slice::compare(b) < 0: lexicographic, a proper prefix first. */
  predicate BytesLess(a: Bytes, b: Bytes) {
    b != [] && (a == [] || a[0] < b[0] || (a[0] == b[0] && BytesLess(a[1..], b[1..])))
  }

  lemma {:induction false} BytesTotal(a: Bytes, b: Bytes)
    ensures BytesLess(a, b) || a == b || BytesLess(b, a)
    ensures !(BytesLess(a, b) && BytesLess(b, a)) && !BytesLess(a, a)
  {
    if a != [] {
      BytesTotal(a[1..], a[1..]);
      if b != [] {
        BytesTotal(a[1..], b[1..]);
        assert a == [a[0]] + a[1..] && b == [b[0]] + b[1..];
      }
    }
  }

  lemma {:induction false} BytesTransitive(a: Bytes, b: Bytes, c: Bytes)
    requires BytesLess(a, b) && BytesLess(b, c)
    ensures BytesLess(a, c)
  {
    if a != [] && a[0] == b[0] == c[0] {
      BytesTransitive(a[1..], b[1..], c[1..]);
    }
  }

  /** Two strings that agree up to `i` and differ there. */
  lemma {:induction false} DifferAt(a: Bytes, b: Bytes, i: nat)
    requires i < |a| && i < |b| && a[..i] == b[..i] && a[i] < b[i]
    ensures BytesLess(a, b)
  {
    if i > 0 {
      assert a[..i][0] == a[0] && b[..i][0] == b[0];
      assert a[1..][..i - 1] == a[..i][1..] && b[1..][..i - 1] == b[..i][1..];
      DifferAt(a[1..], b[1..], i - 1);
    }
  }

  /** `i` is the first position at which two strings differ. */
  predicate FirstDifference(a: Bytes, b: Bytes, i: nat) {
    i < |a| && i < |b| && a[..i] == b[..i] && a[i] != b[i]
  }

  lemma {:induction false} SomeDifference(a: Bytes, b: Bytes) returns (i: nat)
    requires !(a <= b) && !(b <= a)
    ensures FirstDifference(a, b, i)
  {
    if a[0] != b[0] {
      i := 0;
    } else {
      assert a[1..] <= b[1..] ==> a <= b;
      assert b[1..] <= a[1..] ==> b <= a;
      i := SomeDifference(a[1..], b[1..]);
      i := i + 1;
      assert a[..i] == [a[0]] + a[1..][..i - 1] && b[..i] == [b[0]] + b[1..][..i - 1];
    }
  }

  lemma {:induction false} PrefixLess(a: Bytes, b: Bytes)
    requires a <= b
    ensures BytesLess(a, b) <==> |a| < |b|
  {
    if a != [] {
      PrefixLess(a[1..], b[1..]);
    }
  }

  /** The order is that of the first byte that differs, and a prefix comes before what it begins. */
  lemma BytesLessMeans(a: Bytes, b: Bytes)
    ensures BytesLess(a, b) <==> (a <= b && |a| < |b|) || exists i: nat :: FirstDifference(a, b, i) && a[i] < b[i]
  {
    if a <= b {
      PrefixLess(a, b);
    } else if b <= a {
      PrefixLess(b, a);
      BytesTotal(a, b);
    } else {
      var i := SomeDifference(a, b);
      BytesTotal(a, b);
      if a[i] < b[i] {
        DifferAt(a, b, i);
      } else {
        DifferAt(b, a, i);
        forall j: nat | FirstDifference(a, b, j)
          ensures j == i
        {
          DifferOnce(a, b, i, j);
        }
      }
    }
  }

  lemma DifferOnce(a: Bytes, b: Bytes, i: nat, j: nat)
    requires FirstDifference(a, b, i) && FirstDifference(a, b, j)
    ensures i == j
  {
    if i < j {
      SameBefore(a, b, i, j);
    } else if j < i {
      SameBefore(a, b, j, i);
    }
  }

  lemma SameBefore(a: Bytes, b: Bytes, i: nat, j: nat)
    requires i < j <= |a| && j <= |b| && a[..j] == b[..j]
    ensures a[i] == b[i]
  {
    assert a[..j][i] == b[..j][i];
  }

  /** A key not less than `start` and less than `limit`, shortened when that is easy. */
  method FindShortestSeparator(start: Bytes, limit: Bytes) returns (r: Bytes)
    ensures r == start || (|r| <= |start| && BytesLess(start, r) && BytesLess(r, limit))
    ensures start <= limit || limit <= start ==> r == start
    ensures forall i: nat :: FirstDifference(start, limit, i) ==>
      r == if start[i] as nat + 1 < limit[i] as nat then start[..i] + [start[i] + 1] else start
  {
    var min_length := if |start| < |limit| then |start| else |limit|;
    var diff_index := 0;
    while diff_index < min_length && start[diff_index] == limit[diff_index]
      invariant diff_index <= min_length && start[..diff_index] == limit[..diff_index]
    {
      diff_index := diff_index + 1;
    }
    r := start;
    if diff_index < min_length {
      var diff_byte := start[diff_index];
      if diff_byte < 0xff && diff_byte + 1 < limit[diff_index] {
        r := start[..diff_index] + [diff_byte + 1];
        assert r[..diff_index] == start[..diff_index];
        DifferAt(start, r, diff_index);
        DifferAt(r, limit, diff_index);
      }
      forall i: nat | FirstDifference(start, limit, i)
        ensures i == diff_index
      {
        DifferOnce(start, limit, i, diff_index);
      }
      assert !(start <= limit) && !(limit <= start);
    }
  }

  /** A key not less than `key`, shortened when that is easy. */
  method FindShortSuccessor(key: Bytes) returns (r: Bytes)
    ensures r == key || (|r| <= |key| && BytesLess(key, r))
    ensures (forall i :: 0 <= i < |key| ==> key[i] == 0xff) ==> r == key
    ensures forall i: nat :: i < |key| && key[i] != 0xff && (forall j :: 0 <= j < i ==> key[j] == 0xff) ==>
      r == key[..i] + [key[i] + 1]
  {
    for i := 0 to |key|
      invariant forall j :: 0 <= j < i ==> key[j] == 0xff
    {
      if key[i] != 0xff {
        r := key[..i] + [key[i] + 1];
        assert r[..i] == key[..i];
        DifferAt(key, r, i);
        return;
      }
    }
    r := key;
  }

  // ---------------------------------------------------------------- internal keys

  /** An internal key: the user key, and sequence number and type packed into 64 bits. */
  datatype InternalKey = InternalKey(user: Bytes, pack: nat)

  /** PackSequenceAndType(kMaxSequenceNumber, kValueTypeForSeek): the earliest of a user key. */
  const MAX_PACK := MAX_SEQUENCE_NUMBER * 256 + 1

  predicate KeyLess(a: InternalKey, b: InternalKey) {
    BytesLess(a.user, b.user) || (a.user == b.user && a.pack > b.pack)
  }

  predicate KeyAtMost(a: InternalKey, b: InternalKey) {
    a == b || KeyLess(a, b)
  }

  lemma KeyTotal(a: InternalKey, b: InternalKey)
    ensures KeyLess(a, b) || a == b || KeyLess(b, a)
    ensures !(KeyLess(a, b) && KeyLess(b, a)) && !KeyLess(a, a)
  {
    BytesTotal(a.user, b.user);
    BytesTotal(a.user, a.user);
  }

  lemma KeyTransitive(a: InternalKey, b: InternalKey, c: InternalKey)
    requires KeyLess(a, b) && KeyLess(b, c)
    ensures KeyLess(a, c)
  {
    if BytesLess(a.user, b.user) && BytesLess(b.user, c.user) {
      BytesTransitive(a.user, b.user, c.user);
    }
  }

  /** What the table relies on: a separator is the last key of its block itself, or the earliest
      key of a user key strictly between that key's and the next one's. */
  ghost predicate Separates(sep: InternalKey, last: InternalKey, next: InternalKey) {
    sep == last || (sep.pack == MAX_PACK && BytesLess(last.user, sep.user) && BytesLess(sep.user, next.user))
  }

  method FindKeySeparator(start: InternalKey, limit: InternalKey) returns (r: InternalKey)
    ensures Separates(r, start, limit)
    ensures start.user <= limit.user || limit.user <= start.user ==> r == start
    ensures forall i: nat :: FirstDifference(start.user, limit.user, i) ==>
      r == if start.user[i] as nat + 1 < limit.user[i] as nat && i + 1 < |start.user|
        then InternalKey(start.user[..i] + [start.user[i] + 1], MAX_PACK) else start
  {
    var tmp := FindShortestSeparator(start.user, limit.user);
    r := start;
    if |tmp| < |start.user| && BytesLess(start.user, tmp) {
      r := InternalKey(tmp, MAX_PACK);
    }
  }

  ghost predicate Succeeds(sep: InternalKey, last: InternalKey) {
    sep == last || (sep.pack == MAX_PACK && BytesLess(last.user, sep.user))
  }

  method FindKeySuccessor(key: InternalKey) returns (r: InternalKey)
    ensures Succeeds(r, key)
    ensures forall i: nat :: i < |key.user| && key.user[i] != 0xff && (forall j :: 0 <= j < i ==> key.user[j] == 0xff) ==>
      r == if i + 1 < |key.user| then InternalKey(key.user[..i] + [key.user[i] + 1], MAX_PACK) else key
  {
    var tmp := FindShortSuccessor(key.user);
    r := key;
    if |tmp| < |key.user| && BytesLess(key.user, tmp) {
      r := InternalKey(tmp, MAX_PACK);
    }
  }

  /** A separator lies at or above its block and below the next, so the source's assertions hold. */
  lemma SeparatorBetween(sep: InternalKey, last: InternalKey, next: InternalKey)
    requires Separates(sep, last, next) && KeyLess(last, next)
    ensures KeyAtMost(last, sep) && KeyLess(sep, next)
  {
  }
}
