/** SkipList::FindGreaterOrEqual, Contains and Insert as code (db/skiplist.h). */
module SkipListCode {
  import opened SkipList
  import opened SkipListRuns

  /** `key` is in the level-0 list. */
  ghost predicate HasKey(nodes: seq<Node>, chain: seq<nat>, key: Key) {
    exists n :: Holds(nodes, chain, n, key)
  }

  /** `p` is the last node of its level with a key less than `key`. */
  ghost predicate LastBefore(nodes: seq<Node>, chain: seq<nat>, key: Key, p: nat) {
    exists k :: 0 <= k < |chain| && chain[k] == p && Parts(nodes, chain, key, k)
  }

  /** `t` is what the stores make of `s`. */
  ghost predicate Reaches(s: List, stores: seq<Store>, t: List)
    decreases |stores|
  {
    if stores == [] then
      s == t
    else
      var last := |stores| - 1;
      exists m :: Reaches(s, stores[..last], m) && CanStore(m, stores[last]) && t == AfterStore(m, stores[last])
  }

  lemma ReachesNext(s: List, stores: seq<Store>, m: List, e: Store)
    requires Reaches(s, stores, m) && CanStore(m, e)
    ensures Reaches(s, stores + [e], AfterStore(m, e))
  {
    assert (stores + [e])[..|stores|] == stores;
  }

  /** Only the store that links a node at level 0 changes the set of keys, and it adds one. */
  lemma KeysAfter(s: List, chains: seq<seq<nat>>, e: Store, key: Key)
    requires Inv(s, chains) && CanStore(s, e)
    ensures HasKey(AfterStore(s, e).nodes, ChainsAfter(s, chains, e)[0], key) <==>
      HasKey(s.nodes, chains[0], key) || (e.Publish? && s.writer.i == 0 && s.nodes[s.writer.x].key == key)
  {
    hide Precedes, InsertAfter, WriterOk, Nested;
    var later := AfterStore(s, e);
    var before, after := chains[0], ChainsAfter(s, chains, e)[0];
    assert SortedLevel(s.nodes, 0, before);
    if e.Publish? {
      PublishFacts(s, chains);
    }
    forall n | n in before
      ensures n < |s.nodes| && later.nodes[n].key == s.nodes[n].key
    {
      var k := PositionOf(before, n);
    }
    if HasKey(s.nodes, before, key) {
      var n :| Holds(s.nodes, before, n, key);
      assert Holds(later.nodes, after, n, key);
    }
    if HasKey(later.nodes, after, key) {
      var n :| Holds(later.nodes, after, n, key);
      if n in before {
        assert Holds(s.nodes, before, n, key);
      }
    }
    if e.Publish? && s.writer.i == 0 && s.nodes[s.writer.x].key == key {
      assert Holds(later.nodes, after, s.writer.x, key);
    }
  }

  lemma PublishFacts(s: List, chains: seq<seq<nat>>)
    requires Inv(s, chains) && CanStore(s, Publish)
    ensures HEAD < s.writer.x < |s.nodes|
    ensures var after := ChainsAfter(s, chains, Publish)[0];
      forall n :: n in after <==> n in chains[0] || (s.writer.i == 0 && n == s.writer.x)
  {
    var Linking(x, prev, i, _) := s.writer;
    assert SortedLevel(s.nodes, i, chains[i]);
    PublishedLevel(s.nodes, i, chains[i], prev[i], x);
  }

  lemma StrictlyBefore(nodes: seq<Node>, l: nat, chains: seq<seq<nat>>, key: Key, p: nat)
    requires SortedLevels(nodes, chains) && Nested(chains) && l < MAX_HEIGHT
    requires LastBefore(nodes, chains[l], key, p) && !HasKey(nodes, chains[0], key)
    ensures PrecedesAt(nodes, l, key, p)
  {
    var chain := chains[l];
    assert SortedLevel(nodes, l, chain);
    var k :| 0 <= k < |chain| && chain[k] == p && Parts(nodes, chain, key, k);
    assert Within(chain, chains[0]);
    forall j | k < j < |chain|
      ensures key < nodes[chain[j]].key
    {
      assert chain[j] in chain;
      if nodes[chain[j]].key == key {
        assert Holds(nodes, chains[0], chain[j], key);
      }
    }
    assert SplitsAt(nodes, chain, key, k);
    assert Precedes(nodes, chain, key, p);
  }

  class Table {
    var list: List
    ghost var chains: seq<seq<nat>>

    ghost predicate Valid()
      reads this
    {
      Inv(list, chains) && list.writer.Idle?
    }

    ghost predicate Has(key: Key)
      reads this
      requires Valid()
    {
      HasKey(list.nodes, chains[0], key)
    }

    constructor ()
      ensures Valid() && forall key :: !Has(key)
    {
      list := EmptyList();
      new;
      chains := StartsOk();
      ChainUnique(list.nodes, 0, chains[0], [HEAD]) by { assert LinkedAt(list.nodes, 0, [HEAD], 0); }
    }

    method FindGreaterOrEqual(key: Key) returns (next: Ptr, prev: seq<nat>)
      requires Valid()
      ensures |prev| == MAX_HEIGHT
      ensures forall l :: 0 <= l < list.max_height ==> LastBefore(list.nodes, chains[l], key, prev[l])
      ensures IsAnswer(list.nodes, chains[0], AtLeast(key), prev[0], next)
    {
      hide IsAnswer, Parts, WriterOk;
      var nodes := list.nodes;
      prev := seq(MAX_HEIGHT, i => HEAD);
      var x := HEAD;
      var level := list.max_height - 1;
      assert SortedLevel(nodes, level, chains[level]);
      ghost var k := 0;
      while true
        invariant 0 <= level < list.max_height && |prev| == MAX_HEIGHT
        invariant 0 <= k < |chains[level]| && chains[level][k] == x && IsBefore(nodes, AtLeast(key), x)
        invariant forall l :: level < l < list.max_height ==> LastBefore(nodes, chains[l], key, prev[l])
        decreases level, |chains[level]| - k
      {
        assert SortedLevel(nodes, level, chains[level]);
        assert LinkedAt(nodes, level, chains[level], k);
        next := nodes[x].next[level];
        if KeyIsAfterNode(nodes, key, next) {
          x := next.node;
          k := k + 1;
        } else {
          PartsHere(nodes, level, chains[level], key, k);
          prev := prev[level := x];
          if level == 0 {
            AnswerHere(nodes, chains[0], AtLeast(key), k);
            return;
          }
          assert x in chains[level] && Within(chains[level], chains[level - 1]);
          level := level - 1;
          k := PositionOf(chains[level], x);
        }
      }
    }

    method Contains(key: Key) returns (found: bool)
      requires Valid()
      ensures found <==> Has(key)
    {
      var x, prev := FindGreaterOrEqual(key);
      assert SortedLevel(list.nodes, 0, chains[0]);
      found := x.To? && list.nodes[x.node].key == key;
      if found {
        assert Holds(list.nodes, chains[0], x.node, key);
      }
    }

    /** One observable store. */
    ghost method Store(e: Store, start: List, stores: seq<Store>, later: List) returns (more: seq<Store>)
      requires Inv(list, chains) && CanStore(list, e) && later == AfterStore(list, e) && Reaches(start, stores, list)
      modifies this`chains
      ensures more == stores + [e] && Reaches(start, more, later)
      ensures chains == ChainsAfter(list, old(chains), e) && Inv(later, chains)
      ensures forall key ::
        HasKey(later.nodes, chains[0], key) <==>
        HasKey(list.nodes, old(chains)[0], key) ||
        (e.Publish? && list.writer.i == 0 && list.nodes[list.writer.x].key == key)
    {
      hide HasKey;
      StoreKeeps(list, chains, e);
      forall key
        ensures HasKey(later.nodes, ChainsAfter(list, chains, e)[0], key) <==>
          HasKey(list.nodes, chains[0], key) ||
          (e.Publish? && list.writer.i == 0 && list.nodes[list.writer.x].key == key)
      {
        KeysAfter(list, chains, e, key);
      }
      ReachesNext(start, stores, list, e);
      more := stores + [e];
      chains := ChainsAfter(list, chains, e);
    }

    /** The first half of Insert: the predecessor of the new node at every level it will have. */
    method FindPrev(key: Key, height: nat) returns (prev: seq<nat>)
      requires Valid() && 0 < height <= MAX_HEIGHT && !Has(key)
      ensures BeginOk(list, key, height, prev)
    {
      hide HasKey, LastBefore, IsAnswer, PrecedesAt, SortedLevel, Nested;
      var next: Ptr;
      next, prev := FindGreaterOrEqual(key);
      var h := list.max_height;
      while h < height
        invariant list.max_height <= h <= MAX_HEIGHT && |prev| == MAX_HEIGHT
        invariant forall l :: 0 <= l < h ==> LastBefore(list.nodes, chains[l], key, prev[l])
      {
        prev := prev[h := HEAD];
        HeadIsLast(list.nodes, key);
        h := h + 1;
      }
      PrevIsRight(list, chains, key, height, prev);
    }

    /** Insert, for every outcome `height` of RandomHeight: the list gains the key, by a
        sequence of stores that are all steps of the concurrent model. */
    method Insert(key: Key, height: nat) returns (ghost stores: seq<Store>)
      requires Valid() && 0 < height <= MAX_HEIGHT && !Has(key)
      modifies this
      ensures Valid()
      ensures forall k :: Has(k) <==> old(Has(k)) || k == key
      ensures Reaches(old(list), stores, list)
    {
      hide HasKey, BeginOk, Reaches, SortedLevel, Nested, Precedes;
      var prev := FindPrev(key, height);
      ghost var start := list;
      stores := [];
      assert Reaches(start, stores, list) by { ReachesStart(start); }
      stores := Store(Begin(key, height, prev), start, stores, list.(writer := Found(key, height, prev)));
      list := list.(writer := Found(key, height, prev));
      var x := |list.nodes|;
      var raised := List(list.nodes + [NewNode(key, height)],
        if height > list.max_height then height else list.max_height,
        Linking(x, prev, 0, false));
      stores := Store(Raise, start, stores, raised);
      list := raised;
      for i := 0 to height
        invariant Inv(list, chains) && Reaches(start, stores, list) && |chains| == MAX_HEIGHT
        invariant list.writer == if i < height then Linking(x, prev, i, false) else Idle
        invariant i < height ==> |list.nodes[x].next| == height && list.nodes[x].key == key
        invariant forall k :: HasKey(list.nodes, chains[0], k) <==> old(Has(k)) || (i > 0 && k == key)
      {
        stores := LinkLevel(x, prev, i, start, stores);
      }
    }

    /** One level of the linking loop: first the node's own cell, then the predecessor's. */
    method LinkLevel(x: nat, prev: seq<nat>, i: nat, ghost start: List, ghost stores: seq<Store>)
      returns (ghost more: seq<Store>)
      requires Inv(list, chains) && Reaches(start, stores, list) && list.writer == Linking(x, prev, i, false)
      modifies this
      ensures Inv(list, chains) && Reaches(start, more, list) && |chains| == |old(chains)| == MAX_HEIGHT
      ensures x < |old(list.nodes)| && i < |old(list.nodes)[x].next| && x < |list.nodes|
      ensures list.nodes[x].key == old(list.nodes)[x].key && |list.nodes[x].next| == |old(list.nodes)[x].next|
      ensures list.writer == if i + 1 < |list.nodes[x].next| then Linking(x, prev, i + 1, false) else Idle
      ensures forall k ::
        HasKey(list.nodes, chains[0], k) <==>
        HasKey(old(list.nodes), old(chains)[0], k) || (i == 0 && k == old(list.nodes)[x].key)
    {
      hide HasKey, BeginOk, Reaches, SortedLevel, Nested, Precedes;
      CanLoad(list, chains);
      var loaded := list.(nodes := SetCell(list.nodes, x, i, list.nodes[prev[i]].next[i]), writer := Linking(x, prev, i, true));
      more := Store(Load, start, stores, loaded);
      list := loaded;
      var published := list.(nodes := SetCell(list.nodes, prev[i], i, To(x)),
        writer := if i + 1 < |list.nodes[x].next| then Linking(x, prev, i + 1, false) else Idle);
      more := Store(Publish, start, more, published);
      list := published;
    }
  }

  lemma ReachesStart(s: List)
    ensures Reaches(s, [], s)
  {
  }

  /** The cells that Insert reads and writes at a level exist. */
  lemma CanLoad(s: List, chains: seq<seq<nat>>)
    requires Inv(s, chains) && s.writer.Linking? && !s.writer.loaded
    ensures CanStore(s, Load)
  {
    var Linking(x, prev, i, _) := s.writer;
    assert SortedLevel(s.nodes, i, chains[i]);
    assert Precedes(s.nodes, chains[i], s.nodes[x].key, prev[i]);
  }

  /** On an empty level the head comes last before any key. */
  lemma HeadIsLast(nodes: seq<Node>, key: Key)
    ensures LastBefore(nodes, [HEAD], key, HEAD)
  {
    assert Parts(nodes, [HEAD], key, 0);
  }

  lemma PrevIsRight(s: List, chains: seq<seq<nat>>, key: Key, height: nat, prev: seq<nat>)
    requires Inv(s, chains) && 0 < height <= MAX_HEIGHT && |prev| == MAX_HEIGHT
    requires !HasKey(s.nodes, chains[0], key)
    requires forall l :: 0 <= l < height ==> LastBefore(s.nodes, chains[l], key, prev[l])
    ensures BeginOk(s, key, height, prev)
  {
    forall l | 0 <= l < height
      ensures PrecedesAt(s.nodes, l, key, prev[l])
    {
      StrictlyBefore(s.nodes, l, chains, key, prev[l]);
    }
  }
}
