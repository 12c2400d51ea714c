/** The hash table of the cache: chained buckets that are redistributed when they fill up
    (util/cache.cc). */
module HandleTable {
  import opened DbFormat

  /** A chained entry: the key and the handle that it leads to. */
  datatype Item = Item(key: Bytes, id: nat)

  /** hash & (length - 1), for a length that is a power of two. */
  function Slot(h: nat, length: nat): (b: nat)
    requires length > 0
    ensures b < length
  {
    h % length
  }

  predicate IsPowerOfTwo(n: nat) {
    n == 1 || (n > 1 && n % 2 == 0 && IsPowerOfTwo(n / 2))
  }

  /** The slot of a key in a chain, or the end of the chain. */
  function Find(chain: seq<Item>, key: Bytes): (i: nat)
    ensures i <= |chain| && (i < |chain| ==> chain[i].key == key)
    ensures forall j :: 0 <= j < i ==> chain[j].key != key
  {
    if chain == [] || chain[0].key == key then 0 else Find(chain[1..], key) + 1
  }

  ghost predicate Distinct(chain: seq<Item>) {
    forall i, j :: 0 <= i < j < |chain| ==> chain[i].key != chain[j].key
  }

  /** Every item is in the bucket of its hash, once. */
  ghost predicate BucketsOk(buckets: seq<seq<Item>>, hash: Bytes -> nat) {
    |buckets| > 0 &&
    (forall b :: 0 <= b < |buckets| ==> Distinct(buckets[b])) &&
    (forall b, i :: 0 <= b < |buckets| && 0 <= i < |buckets[b]| ==> Slot(hash(buckets[b][i].key), |buckets|) == b)
  }

  ghost predicate Holds(buckets: seq<seq<Item>>, hash: Bytes -> nat, key: Bytes, id: nat)
    requires |buckets| > 0
  {
    Item(key, id) in buckets[Slot(hash(key), |buckets|)]
  }

  /** The buckets hold exactly the pairs of the map. */
  ghost predicate Refines(buckets: seq<seq<Item>>, hash: Bytes -> nat, contents: map<Bytes, nat>) {
    BucketsOk(buckets, hash) &&
    forall key, id :: Holds(buckets, hash, key, id) <==> key in contents && contents[key] == id
  }

  class HandleTable {
    const hash: Bytes -> nat
    var buckets: seq<seq<Item>>
    var elems: nat
    ghost var contents: map<Bytes, nat>

    ghost predicate Valid()
      reads this
    {
      Refines(buckets, hash, contents) && elems == |contents| &&
      IsPowerOfTwo(|buckets|) && elems <= |buckets|
    }

    constructor (hash: Bytes -> nat)
      ensures Valid() && contents == map[] && this.hash == hash
    {
      this.hash := hash;
      buckets, elems, contents := [[], [], [], []], 0, map[];
    }

    method Lookup(key: Bytes) returns (r: Option<nat>)
      requires Valid()
      ensures r == if key in contents then Some(contents[key]) else None
    {
      var b := Slot(hash(key), |buckets|);
      var i := Find(buckets[b], key);
      FindMeans(buckets, hash, contents, key);
      r := if i < |buckets[b]| then Some(buckets[b][i].id) else None;
    }

    /** An entry with the same key is replaced in its place; otherwise the chain grows. */
    method Insert(key: Bytes, id: nat) returns (old_id: Option<nat>)
      requires Valid()
      modifies this
      ensures Valid() && contents == old(contents)[key := id]
      ensures old_id == if key in old(contents) then Some(old(contents)[key]) else None
    {
      hide Refines;
      assert |buckets| > 0 by { SomeBucket(buckets, hash, contents); }
      var b := Slot(hash(key), |buckets|);
      var chain := buckets[b];
      var i := Find(chain, key);
      FindMeans(buckets, hash, contents, key);
      old_id := if i < |chain| then Some(chain[i].id) else None;
      PutKeeps(buckets, hash, contents, key, id);
      buckets := buckets[b := if i < |chain| then chain[i := Item(key, id)] else chain + [Item(key, id)]];
      contents := contents[key := id];
      if old_id.None? {
        elems := elems + 1;
        if elems > |buckets| {
          Resize();
        }
      }
    }

    method Remove(key: Bytes) returns (r: Option<nat>)
      requires Valid()
      modifies this
      ensures Valid() && contents == old(contents) - {key}
      ensures r == if key in old(contents) then Some(old(contents)[key]) else None
    {
      hide Refines;
      assert |buckets| > 0 by { SomeBucket(buckets, hash, contents); }
      var b := Slot(hash(key), |buckets|);
      var chain := buckets[b];
      var i := Find(chain, key);
      FindMeans(buckets, hash, contents, key);
      r := if i < |chain| then Some(chain[i].id) else None;
      if i < |chain| {
        DropKeeps(buckets, hash, contents, key);
        buckets := buckets[b := chain[..i] + chain[i + 1..]];
        assert contents == (contents - {key})[key := contents[key]];
        elems := elems - 1;
        contents := contents - {key};
      } else {
        assert contents - {key} == contents;
      }
    }

    /** Redistribute every chain over more buckets; what the table holds does not change, and the
        chains are short again on average. */
    method Resize()
      requires Refines(buckets, hash, contents) && elems == |contents|
      modifies this`buckets
      ensures Valid()
    {
      hide Refines;
      var new_length := 4;
      while new_length < elems
        invariant new_length > 0 && IsPowerOfTwo(new_length)
      {
        new_length := new_length * 2;
      }
      buckets := Redistribute(buckets, hash, new_length, contents);
    }
  }

  lemma SomeBucket(buckets: seq<seq<Item>>, hash: Bytes -> nat, contents: map<Bytes, nat>)
    requires Refines(buckets, hash, contents)
    ensures |buckets| > 0
  {
  }

  lemma FindMeans(buckets: seq<seq<Item>>, hash: Bytes -> nat, contents: map<Bytes, nat>, key: Bytes)
    requires Refines(buckets, hash, contents)
    ensures |buckets| > 0
    ensures var chain := buckets[Slot(hash(key), |buckets|)];
      var i := Find(chain, key);
      if i < |chain| then key in contents && contents[key] == chain[i].id else key !in contents
  {
    var chain := buckets[Slot(hash(key), |buckets|)];
    var i := Find(chain, key);
    if key in contents {
      assert Holds(buckets, hash, key, contents[key]);
    }
    if i < |chain| {
      assert chain[i] == Item(key, chain[i].id);
      assert Holds(buckets, hash, key, chain[i].id);
    }
  }

  /** Changing one chain changes what is held of the keys of that chain only. */
  lemma OneChain(buckets: seq<seq<Item>>, hash: Bytes -> nat, b: nat, chain: seq<Item>)
    requires BucketsOk(buckets, hash) && b < |buckets| && Distinct(chain)
    requires forall i :: 0 <= i < |chain| ==> Slot(hash(chain[i].key), |buckets|) == b
    ensures BucketsOk(buckets[b := chain], hash)
    ensures forall key, id :: Holds(buckets[b := chain], hash, key, id) <==>
      if Slot(hash(key), |buckets|) == b then Item(key, id) in chain else Holds(buckets, hash, key, id)
  {
  }

  lemma PutKeeps(buckets: seq<seq<Item>>, hash: Bytes -> nat, contents: map<Bytes, nat>, key: Bytes, id: nat)
    requires Refines(buckets, hash, contents)
    ensures |buckets| > 0
    ensures var b := Slot(hash(key), |buckets|);
      var chain := buckets[b];
      var i := Find(chain, key);
      Refines(buckets[b := if i < |chain| then chain[i := Item(key, id)] else chain + [Item(key, id)]], hash, contents[key := id])
  {
    hide Slot;
    var b := Slot(hash(key), |buckets|);
    var chain := buckets[b];
    var i := Find(chain, key);
    var later := if i < |chain| then chain[i := Item(key, id)] else chain + [Item(key, id)];
    assert Distinct(chain);
    assert Distinct(later);
    OneChain(buckets, hash, b, later);
    var after, grown := buckets[b := later], contents[key := id];
    forall k, n
      ensures Holds(after, hash, k, n) <==> k in grown && grown[k] == n
    {
      assert Holds(buckets, hash, k, n) <==> k in contents && contents[k] == n;
      if Slot(hash(k), |buckets|) == b {
        PutChain(chain, i, Item(key, id), Item(k, n));
      }
    }
  }

  lemma PutChain(chain: seq<Item>, i: nat, x: Item, y: Item)
    requires Distinct(chain) && i == Find(chain, x.key)
    ensures var later := if i < |chain| then chain[i := x] else chain + [x];
      y in later <==> (y.key == x.key && y == x) || (y.key != x.key && y in chain)
  {
    var later := if i < |chain| then chain[i := x] else chain + [x];
    if y in chain && y.key != x.key {
      var j :| 0 <= j < |chain| && chain[j] == y;
      assert later[j] == y;
    }
    if y in later {
      var j :| 0 <= j < |later| && later[j] == y;
      assert j != i && j < |chain| ==> chain[j] == y;
    }
    assert later[i] == x;
  }

  lemma DropKeeps(buckets: seq<seq<Item>>, hash: Bytes -> nat, contents: map<Bytes, nat>, key: Bytes)
    requires Refines(buckets, hash, contents) && |buckets| > 0
    requires Find(buckets[Slot(hash(key), |buckets|)], key) < |buckets[Slot(hash(key), |buckets|)]|
    ensures var b := Slot(hash(key), |buckets|);
      var chain := buckets[b];
      var i := Find(chain, key);
      Refines(buckets[b := chain[..i] + chain[i + 1..]], hash, contents - {key})
  {
    hide Slot, Holds;
    var b := Slot(hash(key), |buckets|);
    var chain := buckets[b];
    var i := Find(chain, key);
    var later := chain[..i] + chain[i + 1..];
    assert Distinct(chain);
    DropDistinct(chain, i);
    forall j | 0 <= j < |later|
      ensures Slot(hash(later[j].key), |buckets|) == b
    {
      assert later[j] == chain[if j < i then j else j + 1];
    }
    assert BucketsOk(buckets, hash);
    hide BucketsOk;
    OneChain(buckets, hash, b, later);
    var after, rest := buckets[b := later], contents - {key};
    forall k, n
      ensures Holds(after, hash, k, n) <==> k in rest && rest[k] == n
    {
      assert Holds(buckets, hash, k, n) <==> k in contents && contents[k] == n;
      if Slot(hash(k), |buckets|) == b {
        DropChain(chain, i, Item(k, n));
        HoldsMeans(buckets, hash, k, n);
      }
    }
  }

  lemma HoldsMeans(buckets: seq<seq<Item>>, hash: Bytes -> nat, key: Bytes, id: nat)
    requires |buckets| > 0
    ensures Holds(buckets, hash, key, id) <==> Item(key, id) in buckets[Slot(hash(key), |buckets|)]
  {
  }

  lemma DropDistinct(chain: seq<Item>, i: nat)
    requires Distinct(chain) && i < |chain|
    ensures Distinct(chain[..i] + chain[i + 1..])
  {
    var later := chain[..i] + chain[i + 1..];
    forall j, k | 0 <= j < k < |later|
      ensures later[j].key != later[k].key
    {
      assert later[j] == chain[if j < i then j else j + 1] && later[k] == chain[if k < i then k else k + 1];
    }
  }

  lemma DropChain(chain: seq<Item>, i: nat, y: Item)
    requires Distinct(chain) && i < |chain|
    ensures y in chain[..i] + chain[i + 1..] <==> y in chain && y.key != chain[i].key
  {
    var later := chain[..i] + chain[i + 1..];
    if y in chain && y.key != chain[i].key {
      var j :| 0 <= j < |chain| && chain[j] == y;
      assert later[if j < i then j else j - 1] == y;
    }
    if y in later {
      var j :| 0 <= j < |later| && later[j] == y;
      assert chain[if j < i then j else j + 1] == y;
    }
  }

  // ---------------------------------------------------------------- resizing

  /** The items of the first chains, and of the front of the next one. */
  ghost predicate Moved(buckets: seq<seq<Item>>, b: nat, i: nat, x: Item) {
    exists c, j :: 0 <= c < |buckets| && 0 <= j < |buckets[c]| && buckets[c][j] == x && (c < b || (c == b && j < i))
  }

  /** The new chains hold exactly the items moved so far. */
  ghost predicate Moving(buckets: seq<seq<Item>>, hash: Bytes -> nat, fresh_buckets: seq<seq<Item>>, b: nat, i: nat) {
    BucketsOk(fresh_buckets, hash) &&
    forall key, id :: Holds(fresh_buckets, hash, key, id) <==> Moved(buckets, b, i, Item(key, id))
  }

  lemma NotYetMoved(buckets: seq<seq<Item>>, hash: Bytes -> nat, b: nat, i: nat, id: nat)
    requires BucketsOk(buckets, hash) && b < |buckets| && i < |buckets[b]|
    ensures !Moved(buckets, b, i, Item(buckets[b][i].key, id))
  {
    if Moved(buckets, b, i, Item(buckets[b][i].key, id)) {
      var c, j :| 0 <= c < |buckets| && 0 <= j < |buckets[c]| && buckets[c][j] == Item(buckets[b][i].key, id) && (c < b || (c == b && j < i));
    }
  }

  lemma MoveOne(buckets: seq<seq<Item>>, hash: Bytes -> nat, fresh_buckets: seq<seq<Item>>, b: nat, i: nat)
    requires BucketsOk(buckets, hash) && Moving(buckets, hash, fresh_buckets, b, i) && b < |buckets| && i < |buckets[b]|
    ensures |fresh_buckets| > 0
    ensures var x := buckets[b][i];
      var c := Slot(hash(x.key), |fresh_buckets|);
      Moving(buckets, hash, fresh_buckets[c := [x] + fresh_buckets[c]], b, i + 1)
  {
    var x := buckets[b][i];
    var c := Slot(hash(x.key), |fresh_buckets|);
    var chain := [x] + fresh_buckets[c];
    forall j | 0 <= j < |fresh_buckets[c]|
      ensures fresh_buckets[c][j].key != x.key
    {
      var y := fresh_buckets[c][j];
      NotYetMoved(buckets, hash, b, i, y.id);
      assert Slot(hash(y.key), |fresh_buckets|) == c;
      assert y == Item(y.key, y.id) && Holds(fresh_buckets, hash, y.key, y.id);
    }
    assert Distinct(fresh_buckets[c]);
    OneChain(fresh_buckets, hash, c, chain);
    forall key, id
      ensures Moved(buckets, b, i + 1, Item(key, id)) <==> Moved(buckets, b, i, Item(key, id)) || Item(key, id) == x
    {
      MovedStep(buckets, b, i, Item(key, id));
    }
  }

  lemma MovedStep(buckets: seq<seq<Item>>, b: nat, i: nat, y: Item)
    requires b < |buckets| && i < |buckets[b]|
    ensures Moved(buckets, b, i + 1, y) <==> Moved(buckets, b, i, y) || y == buckets[b][i]
  {
    if Moved(buckets, b, i + 1, y) {
      var c, j :| 0 <= c < |buckets| && 0 <= j < |buckets[c]| && buckets[c][j] == y && (c < b || (c == b && j < i + 1));
      assert (c == b && j == i) || Moved(buckets, b, i, y);
    }
    if Moved(buckets, b, i, y) {
      var c, j :| 0 <= c < |buckets| && 0 <= j < |buckets[c]| && buckets[c][j] == y && (c < b || (c == b && j < i));
    }
  }

  lemma NextChain(buckets: seq<seq<Item>>, hash: Bytes -> nat, fresh_buckets: seq<seq<Item>>, b: nat)
    requires b < |buckets| && Moving(buckets, hash, fresh_buckets, b, |buckets[b]|)
    ensures Moving(buckets, hash, fresh_buckets, b + 1, 0)
  {
    forall key, id
      ensures Moved(buckets, b + 1, 0, Item(key, id)) <==> Moved(buckets, b, |buckets[b]|, Item(key, id))
    {
      var y := Item(key, id);
      if Moved(buckets, b + 1, 0, y) {
        var c, j :| 0 <= c < |buckets| && 0 <= j < |buckets[c]| && buckets[c][j] == y && (c < b + 1 || (c == b + 1 && j < 0));
      }
      if Moved(buckets, b, |buckets[b]|, y) {
        var c, j :| 0 <= c < |buckets| && 0 <= j < |buckets[c]| && buckets[c][j] == y && (c < b || (c == b && j < |buckets[b]|));
      }
    }
  }

  lemma AllMoved(buckets: seq<seq<Item>>, hash: Bytes -> nat, fresh_buckets: seq<seq<Item>>, contents: map<Bytes, nat>)
    requires Refines(buckets, hash, contents) && Moving(buckets, hash, fresh_buckets, |buckets|, 0)
    ensures Refines(fresh_buckets, hash, contents)
  {
    forall key, id
      ensures Moved(buckets, |buckets|, 0, Item(key, id)) <==> Holds(buckets, hash, key, id)
    {
      var y := Item(key, id);
      if Moved(buckets, |buckets|, 0, y) {
        var c, j :| 0 <= c < |buckets| && 0 <= j < |buckets[c]| && buckets[c][j] == y;
        assert Slot(hash(buckets[c][j].key), |buckets|) == c;
      }
      if Holds(buckets, hash, key, id) {
        var c := Slot(hash(key), |buckets|);
        var j :| 0 <= j < |buckets[c]| && buckets[c][j] == y;
      }
    }
  }

  /** The loops of Resize: every item goes to the front of its new chain. */
  method Redistribute(buckets: seq<seq<Item>>, hash: Bytes -> nat, n: nat, ghost contents: map<Bytes, nat>)
    returns (fresh_buckets: seq<seq<Item>>)
    requires Refines(buckets, hash, contents) && n > 0
    ensures Refines(fresh_buckets, hash, contents) && |fresh_buckets| == n
  {
    hide Moving, Refines;
    assert BucketsOk(buckets, hash) by { RefinesOk(buckets, hash, contents); }
    fresh_buckets := seq(n, i => []);
    NothingMoved(buckets, hash, n);
    for b := 0 to |buckets|
      invariant Moving(buckets, hash, fresh_buckets, b, 0) && |fresh_buckets| == n
    {
      for i := 0 to |buckets[b]|
        invariant Moving(buckets, hash, fresh_buckets, b, i) && |fresh_buckets| == n
      {
        MoveOne(buckets, hash, fresh_buckets, b, i);
        var x := buckets[b][i];
        var c := Slot(hash(x.key), |fresh_buckets|);
        fresh_buckets := fresh_buckets[c := [x] + fresh_buckets[c]];
      }
      NextChain(buckets, hash, fresh_buckets, b);
    }
    AllMoved(buckets, hash, fresh_buckets, contents);
  }

  lemma RefinesOk(buckets: seq<seq<Item>>, hash: Bytes -> nat, contents: map<Bytes, nat>)
    requires Refines(buckets, hash, contents)
    ensures BucketsOk(buckets, hash)
  {
  }

  lemma NothingMoved(buckets: seq<seq<Item>>, hash: Bytes -> nat, n: nat)
    requires n > 0
    ensures Moving(buckets, hash, seq(n, i => []), 0, 0)
  {
  }
}
