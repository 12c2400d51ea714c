/** Internal keys, entries and table files (db/dbformat.h, db/dbformat.cc, db/version_edit.h).

    A user key is represented by its place in the order of the user comparator.
    Only that order is ever consulted by the code modelled here, and the byte strings
    under any total order form a countable order, which embeds in the reals.  The reals
    are dense, so no proof can lean on "the next key". */
module DbFormat {

  type UserKey = real

  newtype byte = x: int | 0 <= x < 256

  type Bytes = seq<byte>

  datatype Option<+T> = None | Some(value: T)

  /** kTypeDeletion = 0, kTypeValue = 1. */
  datatype Kind = Deletion | Value

  datatype IKey = IKey(user: UserKey, seqno: nat, kind: Kind)

  datatype Entry = Entry(k: IKey, v: Bytes)

  /** A table file: its number, its size in bytes (consulted by heuristics only) and
      the entries that its iterator yields, in order. */
  datatype File = File(number: nat, size: nat, entries: seq<Entry>)

  const NUM_LEVELS := 7
  const MAX_MEM_COMPACT_LEVEL := 2
  /** kMaxSequenceNumber: 56 bits. */
  const MAX_SEQUENCE_NUMBER := 0xFF_FFFF_FFFF_FFFF

  /** The eight-byte suffix of an internal key: the sequence number above the value type. */
  function Pack(k: IKey): nat {
    k.seqno * 256 + if k.kind.Value? then 1 else 0
  }

  /** InternalKeyComparator::Compare(a, b) < 0. */
  predicate Less(a: IKey, b: IKey) {
    a.user < b.user ||
    (a.user == b.user && (a.seqno > b.seqno || (a.seqno == b.seqno && a.kind.Value? && b.kind.Deletion?)))
  }

  /** The comparator looks at the packed suffix: larger suffix first. */
  lemma LessIsPackedOrder(a: IKey, b: IKey)
    ensures Less(a, b) <==> a.user < b.user || (a.user == b.user && Pack(a) > Pack(b))
    ensures Less(a, b) || Less(b, a) || a == b
    ensures !(Less(a, b) && Less(b, a))
  {
  }

  /** The internal key that LookupKey builds: the first possible key of `user` that a
      reader at sequence number `snapshot` may see. */
  function Target(user: UserKey, snapshot: nat): IKey {
    IKey(user, snapshot, Value)
  }

  ghost function EntrySet(s: seq<Entry>): set<Entry> {
    set e | e in s
  }

  ghost predicate Sorted(s: seq<Entry>) {
    forall i, j :: 0 <= i < j < |s| ==> Less(s[i].k, s[j].k)
  }

  ghost predicate ValidFile(f: File) {
    |f.entries| > 0 && Sorted(f.entries)
  }

  function Smallest(f: File): IKey
    requires |f.entries| > 0
  {
    f.entries[0].k
  }

  function Largest(f: File): IKey
    requires |f.entries| > 0
  {
    f.entries[|f.entries| - 1].k
  }

  /** All of `f` lies before all of `g` in internal-key order. */
  ghost predicate Precedes(f: File, g: File)
    requires ValidFile(f) && ValidFile(g)
  {
    Less(Largest(f), Smallest(g))
  }

  /** The closed user-key ranges of the two files meet. */
  predicate UserOverlap(f: File, g: File)
    requires |f.entries| > 0 && |g.entries| > 0
  {
    Smallest(f).user <= Largest(g).user && Smallest(g).user <= Largest(f).user
  }

  lemma EntryInRange(f: File, e: Entry)
    requires ValidFile(f) && e in f.entries
    ensures Smallest(f).user <= e.k.user <= Largest(f).user
    ensures e.k == Smallest(f) || Less(Smallest(f), e.k)
    ensures e.k == Largest(f) || Less(e.k, Largest(f))
  {
    var i :| 0 <= i < |f.entries| && f.entries[i] == e;
  }
}
