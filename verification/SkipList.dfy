/** The skip list under one writer and any number of lock-free readers (db/skiplist.h).

    A key is represented by its place in the comparator's order.  Atomic pointers are
    sequentially consistent cells: every load or store of the source that another thread
    can observe is one step. */
module SkipList {

  type Key = real

  const MAX_HEIGHT := 12
  const HEAD: nat := 0

  /** The content of a next_ cell.  `Garbage` is what NewNode leaves behind. */
  datatype Ptr = Garbage | Null | To(node: nat)

  /** A node; next_ has as many cells as the node is high. */
  datatype Node = Node(key: Key, next: seq<Ptr>)

  /** Where Insert stands.  `loaded` says that x->next_[i] has been set and that the store
      into prev[i] comes next. */
  datatype Insertion =
    | Idle
    | Found(key: Key, height: nat, prev: seq<nat>)
    | Linking(x: nat, prev: seq<nat>, i: nat, loaded: bool)

  datatype List = List(nodes: seq<Node>, max_height: nat, writer: Insertion)

  function NewNode(key: Key, height: nat): Node {
    Node(key, seq(height, i => Garbage))
  }

  /** The constructor: a head of full height with every cell NULL. */
  function EmptyList(): List {
    List([Node(0.0, seq(MAX_HEIGHT, i => Null))], 1, Idle)
  }

  /** KeyIsAfterNode: NULL is considered infinite. */
  predicate KeyIsAfterNode(nodes: seq<Node>, key: Key, p: Ptr) {
    p.To? && p.node < |nodes| && nodes[p.node].key < key
  }

  // ---------------------------------------------------------------- levels

  /** `chain` is the list of nodes linked at level `l`, from the head to NULL. */
  ghost predicate IsChain(nodes: seq<Node>, l: nat, chain: seq<nat>) {
    |chain| > 0 && chain[0] == HEAD &&
    (forall k :: 0 <= k < |chain| ==> chain[k] < |nodes| && l < |nodes[chain[k]].next|) &&
    (forall k :: 0 <= k < |chain| ==> LinkedAt(nodes, l, chain, k))
  }

  ghost predicate LinkedAt(nodes: seq<Node>, l: nat, chain: seq<nat>, k: nat) {
    k < |chain| && chain[k] < |nodes| && l < |nodes[chain[k]].next| &&
    nodes[chain[k]].next[l] == if k + 1 < |chain| then To(chain[k + 1]) else Null
  }

  ghost predicate Increasing(nodes: seq<Node>, chain: seq<nat>)
    requires forall k :: 0 <= k < |chain| ==> chain[k] < |nodes|
  {
    (forall k :: 1 <= k < |chain| ==> chain[k] != HEAD) &&
    (forall j, k :: 1 <= j < k < |chain| ==> nodes[chain[j]].key < nodes[chain[k]].key)
  }

  ghost predicate SortedLevel(nodes: seq<Node>, l: nat, chain: seq<nat>) {
    IsChain(nodes, l, chain) && Increasing(nodes, chain)
  }

  ghost predicate SortedLevels(nodes: seq<Node>, chains: seq<seq<nat>>) {
    |chains| == MAX_HEIGHT && forall l :: 0 <= l < MAX_HEIGHT ==> SortedLevel(nodes, l, chains[l])
  }

  /** Every level is a sublist of the levels below (all are sorted by key). */
  ghost predicate Nested(chains: seq<seq<nat>>) {
    forall l, m :: 0 <= m <= l < |chains| ==> Within(chains[l], chains[m])
  }

  ghost predicate Within(a: seq<nat>, b: seq<nat>) {
    forall x :: x in a ==> x in b
  }

  /** `p` is the last node of its level before `key`. */
  ghost predicate Precedes(nodes: seq<Node>, chain: seq<nat>, key: Key, p: nat) {
    exists k :: 0 <= k < |chain| && chain[k] == p && SplitsAt(nodes, chain, key, k)
  }

  ghost predicate SplitsAt(nodes: seq<Node>, chain: seq<nat>, key: Key, k: nat) {
    k < |chain| &&
    (forall j :: 1 <= j <= k && chain[j] < |nodes| ==> nodes[chain[j]].key < key) &&
    (forall j :: k < j < |chain| && chain[j] < |nodes| ==> key < nodes[chain[j]].key)
  }

  ghost predicate SameCell(nodes: seq<Node>, a: nat, b: nat, l: nat) {
    a < |nodes| && b < |nodes| && l < |nodes[a].next| && l < |nodes[b].next| && nodes[a].next[l] == nodes[b].next[l]
  }

  ghost predicate WriterOk(s: List, chains: seq<seq<nat>>)
    requires |chains| == MAX_HEIGHT
  {
    match s.writer
    case Idle => true
    case Found(key, height, prev) =>
      0 < height <= MAX_HEIGHT && |prev| >= height &&
      forall l :: 0 <= l < height ==> Precedes(s.nodes, chains[l], key, prev[l])
    case Linking(x, prev, i, loaded) =>
      HEAD < x < |s.nodes| && i < |s.nodes[x].next| <= s.max_height <= MAX_HEIGHT && |prev| >= |s.nodes[x].next| &&
      (forall l :: 0 <= l < MAX_HEIGHT ==> (x in chains[l] <==> l < i)) &&
      (forall l :: i <= l < |s.nodes[x].next| ==> Precedes(s.nodes, chains[l], s.nodes[x].key, prev[l])) &&
      (loaded ==> SameCell(s.nodes, x, prev[i], i))
  }

  /** What holds in every state between two stores of the writer. */
  ghost predicate Inv(s: List, chains: seq<seq<nat>>) {
    1 <= s.max_height <= MAX_HEIGHT &&
    SortedLevels(s.nodes, chains) && Nested(chains) &&
    (forall l :: s.max_height <= l < MAX_HEIGHT ==> chains[l] == [HEAD]) &&
    WriterOk(s, chains)
  }

  // ---------------------------------------------------------------- the writer's steps

  datatype Store =
    | Begin(key: Key, height: nat, prev: seq<nat>)
    | Raise
    | Load
    | Publish

  function SetCell(nodes: seq<Node>, n: nat, l: nat, p: Ptr): seq<Node>
    requires n < |nodes| && l < |nodes[n].next|
  {
    nodes[n := nodes[n].(next := nodes[n].next[l := p])]
  }

  /** `Begin` is Insert's search, whose reads no other thread observes: it starts with a key that is
      not in the list, and for every level up to the new height it knows the last node
      before the key. */
  ghost predicate BeginOk(s: List, key: Key, height: nat, prev: seq<nat>) {
    0 < height <= MAX_HEIGHT && |prev| >= height &&
    forall l :: 0 <= l < height ==> PrecedesAt(s.nodes, l, key, prev[l])
  }

  ghost predicate PrecedesAt(nodes: seq<Node>, l: nat, key: Key, p: nat) {
    exists chain :: IsChain(nodes, l, chain) && Precedes(nodes, chain, key, p)
  }

  ghost predicate CanStore(s: List, e: Store) {
    match e
    case Begin(key, height, prev) => s.writer.Idle? && BeginOk(s, key, height, prev)
    case Raise => s.writer.Found?
    case Load =>
      s.writer.Linking? && !s.writer.loaded &&
      var Linking(x, prev, i, _) := s.writer;
      x < |s.nodes| && i < |s.nodes[x].next| && i < |prev| && prev[i] < |s.nodes| && i < |s.nodes[prev[i]].next|
    case Publish =>
      s.writer.Linking? && s.writer.loaded &&
      var Linking(x, prev, i, _) := s.writer;
      x < |s.nodes| && i < |prev| && prev[i] < |s.nodes| && i < |s.nodes[prev[i]].next|
  }

  /** max_height_ is raised before the node is linked anywhere; then, level by level from the
      bottom, the node's own cell is set and the predecessor's cell is redirected to it. */
  ghost function AfterStore(s: List, e: Store): List
    requires CanStore(s, e)
  {
    match e
    case Begin(key, height, prev) => s.(writer := Found(key, height, prev))
    case Raise =>
      var Found(key, height, prev) := s.writer;
      List(s.nodes + [NewNode(key, height)],
        if height > s.max_height then height else s.max_height,
        Linking(|s.nodes|, prev, 0, false))
    case Load =>
      var Linking(x, prev, i, _) := s.writer;
      s.(nodes := SetCell(s.nodes, x, i, s.nodes[prev[i]].next[i]), writer := Linking(x, prev, i, true))
    case Publish =>
      var Linking(x, prev, i, _) := s.writer;
      s.(nodes := SetCell(s.nodes, prev[i], i, To(x)),
         writer := if i + 1 < |s.nodes[x].next| then Linking(x, prev, i + 1, false) else Idle)
  }

  /** The levels after a step: only a publishing store changes one. */
  ghost function ChainsAfter(s: List, chains: seq<seq<nat>>, e: Store): seq<seq<nat>>
    requires CanStore(s, e)
  {
    if e.Publish? && s.writer.i < |chains| then
      var Linking(x, prev, i, _) := s.writer;
      chains[i := InsertAfter(chains[i], prev[i], x)]
    else
      chains
  }

  ghost function InsertAfter(chain: seq<nat>, p: nat, x: nat): seq<nat> {
    if chain == [] then
      []
    else if chain[0] == p then
      [p, x] + chain[1..]
    else
      [chain[0]] + InsertAfter(chain[1..], p, x)
  }

  // ---------------------------------------------------------------- every store keeps the levels

  lemma {:induction false} ChainUnique(nodes: seq<Node>, l: nat, a: seq<nat>, b: seq<nat>)
    requires IsChain(nodes, l, a) && IsChain(nodes, l, b)
    ensures a == b
  {
    var shorter := if |a| <= |b| then |a| else |b|;
    SameUpTo(nodes, l, a, b, shorter - 1);
    var k := shorter - 1;
    assert a[k] == b[k];
    assert LinkedAt(nodes, l, a, k) && LinkedAt(nodes, l, b, k);
  }

  lemma {:induction false} SameUpTo(nodes: seq<Node>, l: nat, a: seq<nat>, b: seq<nat>, n: nat)
    requires IsChain(nodes, l, a) && IsChain(nodes, l, b) && n < |a| && n < |b|
    ensures forall k :: 0 <= k <= n ==> a[k] == b[k]
  {
    if n > 0 {
      SameUpTo(nodes, l, a, b, n - 1);
      assert a[n - 1] == b[n - 1];
      assert LinkedAt(nodes, l, a, n - 1) && LinkedAt(nodes, l, b, n - 1);
    }
  }

  /** `later` has the nodes of `earlier` with the same keys and heights, and maybe more. */
  ghost predicate SameKeys(earlier: seq<Node>, later: seq<Node>) {
    |earlier| <= |later| &&
    forall n :: 0 <= n < |earlier| ==> later[n].key == earlier[n].key && |later[n].next| == |earlier[n].next|
  }

  lemma PrecedesStays(earlier: seq<Node>, later: seq<Node>, l: nat, chain: seq<nat>, key: Key, p: nat)
    requires SameKeys(earlier, later) && IsChain(earlier, l, chain) && Precedes(earlier, chain, key, p)
    ensures Precedes(later, chain, key, p)
  {
    var k :| 0 <= k < |chain| && chain[k] == p && SplitsAt(earlier, chain, key, k);
    assert SplitsAt(later, chain, key, k);
  }

  /** A store into a cell that is not on the level leaves the level alone. */
  lemma OtherCells(nodes: seq<Node>, n: nat, i: nat, p: Ptr, l: nat, chain: seq<nat>)
    requires n < |nodes| && i < |nodes[n].next|
    requires SortedLevel(nodes, l, chain) && (l != i || n !in chain)
    ensures SortedLevel(SetCell(nodes, n, i, p), l, chain)
  {
    var later := SetCell(nodes, n, i, p);
    forall k | 0 <= k < |chain|
      ensures chain[k] < |later| && l < |later[chain[k]].next|
      ensures LinkedAt(later, l, chain, k)
    {
      assert LinkedAt(nodes, l, chain, k);
      assert chain[k] in chain;
    }
  }

  /** Linking a node in after position `k`. */
  lemma LinkIn(nodes: seq<Node>, i: nat, chain: seq<nat>, k: nat, x: nat)
    requires SortedLevel(nodes, i, chain) && k < |chain|
    requires HEAD < x < |nodes| && x !in chain && i < |nodes[x].next| && SameCell(nodes, x, chain[k], i)
    requires SplitsAt(nodes, chain, nodes[x].key, k)
    ensures SortedLevel(SetCell(nodes, chain[k], i, To(x)), i, chain[..k + 1] + [x] + chain[k + 1..])
  {
    var later := SetCell(nodes, chain[k], i, To(x));
    var linked := chain[..k + 1] + [x] + chain[k + 1..];
    LinkedIncreasing(nodes, chain, k, x);
    hide SplitsAt;
    forall j | 0 <= j < |linked|
      ensures linked[j] < |later| && i < |later[linked[j]].next|
      ensures LinkedAt(later, i, linked, j)
    {
      LinkedCell(nodes, i, chain, k, x, j);
    }
    assert IsChain(later, i, linked);
    assert Increasing(later, linked);
  }

  lemma LinkedCell(nodes: seq<Node>, i: nat, chain: seq<nat>, k: nat, x: nat, j: nat)
    requires SortedLevel(nodes, i, chain) && k < |chain| && j <= |chain|
    requires HEAD < x < |nodes| && x !in chain && SameCell(nodes, x, chain[k], i)
    ensures LinkedAt(SetCell(nodes, chain[k], i, To(x)), i, chain[..k + 1] + [x] + chain[k + 1..], j)
  {
    assert LinkedAt(nodes, i, chain, k);
    if j < k {
      assert LinkedAt(nodes, i, chain, j);
      assert chain[j] != chain[k];
    } else if j == k + 1 {
      assert chain[k] in chain;
    } else if j > k + 1 {
      assert LinkedAt(nodes, i, chain, j - 1);
      assert chain[j - 1] != chain[k];
    }
  }

  lemma LinkedIncreasing(nodes: seq<Node>, chain: seq<nat>, k: nat, x: nat)
    requires |chain| > 0 && k < |chain| && HEAD < x < |nodes|
    requires forall j :: 0 <= j < |chain| ==> chain[j] < |nodes|
    requires Increasing(nodes, chain) && SplitsAt(nodes, chain, nodes[x].key, k)
    ensures var linked := chain[..k + 1] + [x] + chain[k + 1..];
      (forall j :: 0 <= j < |linked| ==> linked[j] < |nodes|) && Increasing(nodes, linked)
  {
    var linked := chain[..k + 1] + [x] + chain[k + 1..];
    assert forall j :: 0 <= j < |linked| ==>
      linked[j] == if j <= k then chain[j] else if j == k + 1 then x else chain[j - 1];
  }

  lemma {:induction false} InsertAfterIs(chain: seq<nat>, k: nat, x: nat)
    requires k < |chain| && chain[k] !in chain[..k]
    ensures InsertAfter(chain, chain[k], x) == chain[..k + 1] + [x] + chain[k + 1..]
  {
    if k > 0 {
      assert chain[0] in chain[..k];
      assert chain[1..][..k - 1] == chain[..k][1..];
      InsertAfterIs(chain[1..], k - 1, x);
    }
  }

  lemma NoRepeat(nodes: seq<Node>, l: nat, chain: seq<nat>, k: nat)
    requires SortedLevel(nodes, l, chain) && k < |chain|
    ensures chain[k] !in chain[..k]
  {
  }

  lemma BeginKeeps(s: List, chains: seq<seq<nat>>, e: Store)
    requires Inv(s, chains) && e.Begin? && CanStore(s, e)
    ensures Inv(AfterStore(s, e), chains)
  {
    forall l | 0 <= l < e.height
      ensures Precedes(s.nodes, chains[l], e.key, e.prev[l])
    {
      assert PrecedesAt(s.nodes, l, e.key, e.prev[l]);
      var chain :| IsChain(s.nodes, l, chain) && Precedes(s.nodes, chain, e.key, e.prev[l]);
      ChainUnique(s.nodes, l, chain, chains[l]);
    }
  }

  lemma NewNodeUnseen(nodes: seq<Node>, node: Node, l: nat, chain: seq<nat>)
    requires SortedLevel(nodes, l, chain)
    ensures SortedLevel(nodes + [node], l, chain) && |nodes| !in chain
  {
    var later := nodes + [node];
    forall k | 0 <= k < |chain|
      ensures chain[k] < |later| && l < |later[chain[k]].next|
      ensures LinkedAt(later, l, chain, k)
    {
      assert LinkedAt(nodes, l, chain, k);
      assert later[chain[k]] == nodes[chain[k]];
    }
  }

  lemma RaiseKeeps(s: List, chains: seq<seq<nat>>)
    requires Inv(s, chains) && CanStore(s, Raise)
    ensures Inv(AfterStore(s, Raise), chains)
  {
    hide Precedes;
    var later := AfterStore(s, Raise);
    var x := |s.nodes|;
    forall l | 0 <= l < MAX_HEIGHT
      ensures SortedLevel(later.nodes, l, chains[l]) && x !in chains[l]
    {
      NewNodeUnseen(s.nodes, later.nodes[x], l, chains[l]);
    }
    forall l | 0 <= l < s.writer.height
      ensures Precedes(later.nodes, chains[l], s.writer.key, s.writer.prev[l])
    {
      PrecedesStays(s.nodes, later.nodes, l, chains[l], s.writer.key, s.writer.prev[l]);
    }
    assert SortedLevel(s.nodes, 0, chains[0]);
  }

  lemma LoadKeeps(s: List, chains: seq<seq<nat>>)
    requires Inv(s, chains) && CanStore(s, Load)
    ensures Inv(AfterStore(s, Load), chains)
  {
    hide Precedes;
    var later := AfterStore(s, Load);
    var Linking(x, prev, i, _) := s.writer;
    forall l | 0 <= l < MAX_HEIGHT
      ensures SortedLevel(later.nodes, l, chains[l])
    {
      OtherCells(s.nodes, x, i, s.nodes[prev[i]].next[i], l, chains[l]);
    }
    hide SortedLevel;
    forall l | i <= l < |s.nodes[x].next|
      ensures Precedes(later.nodes, chains[l], s.nodes[x].key, prev[l])
    {
      assert IsChain(s.nodes, l, chains[l]) by { SortedIsChain(s.nodes, l, chains[l]); }
      PrecedesStays(s.nodes, later.nodes, l, chains[l], s.nodes[x].key, prev[l]);
    }
  }

  lemma SortedIsChain(nodes: seq<Node>, l: nat, chain: seq<nat>)
    requires SortedLevel(nodes, l, chain)
    ensures IsChain(nodes, l, chain)
  {
  }

  /** The level that a publishing store changes. */
  lemma PublishedLevel(nodes: seq<Node>, i: nat, chain: seq<nat>, p: nat, x: nat)
    requires SortedLevel(nodes, i, chain) && HEAD < x < |nodes| && x !in chain
    requires Precedes(nodes, chain, nodes[x].key, p) && SameCell(nodes, x, p, i)
    ensures SortedLevel(SetCell(nodes, p, i, To(x)), i, InsertAfter(chain, p, x))
    ensures forall n :: n in InsertAfter(chain, p, x) <==> n in chain || n == x
  {
    var k :| 0 <= k < |chain| && chain[k] == p && SplitsAt(nodes, chain, nodes[x].key, k);
    NoRepeat(nodes, i, chain, k);
    InsertAfterIs(chain, k, x);
    LinkIn(nodes, i, chain, k, x);
    assert chain == chain[..k + 1] + chain[k + 1..];
  }

  lemma PublishKeepsLevels(s: List, chains: seq<seq<nat>>)
    requires Inv(s, chains) && CanStore(s, Publish)
    ensures SortedLevels(AfterStore(s, Publish).nodes, ChainsAfter(s, chains, Publish))
    ensures Nested(ChainsAfter(s, chains, Publish))
    ensures forall n :: n in ChainsAfter(s, chains, Publish)[s.writer.i] <==> n in chains[s.writer.i] || n == s.writer.x
  {
    hide SplitsAt, Precedes, InsertAfter, IsChain, Increasing;
    var later, after := AfterStore(s, Publish), ChainsAfter(s, chains, Publish);
    var Linking(x, prev, i, _) := s.writer;
    PublishedLevel(s.nodes, i, chains[i], prev[i], x);
    forall l | 0 <= l < MAX_HEIGHT
      ensures SortedLevel(later.nodes, l, after[l])
    {
      if l != i {
        OtherCells(s.nodes, prev[i], i, To(x), l, chains[l]);
      }
    }
    forall l, m | 0 <= m <= l < MAX_HEIGHT
      ensures Within(after[l], after[m])
    {
      assert Within(chains[l], chains[m]);
    }
  }

  lemma PublishKeeps(s: List, chains: seq<seq<nat>>)
    requires Inv(s, chains) && CanStore(s, Publish)
    ensures Inv(AfterStore(s, Publish), ChainsAfter(s, chains, Publish))
  {
    hide SplitsAt, Precedes, InsertAfter, IsChain, Increasing, Nested;
    var later := AfterStore(s, Publish);
    var Linking(x, prev, i, _) := s.writer;
    PublishKeepsLevels(s, chains);
    forall l | i < l < |s.nodes[x].next|
      ensures Precedes(later.nodes, chains[l], s.nodes[x].key, prev[l])
    {
      PrecedesStays(s.nodes, later.nodes, l, chains[l], s.nodes[x].key, prev[l]);
    }
  }

  /** Every store of the writer keeps every level sorted and inside the levels below. */
  lemma StoreKeeps(s: List, chains: seq<seq<nat>>, e: Store)
    requires Inv(s, chains) && CanStore(s, e)
    ensures Inv(AfterStore(s, e), ChainsAfter(s, chains, e))
  {
    hide Inv;
    match e {
      case Begin(_, _, _) => BeginKeeps(s, chains, e);
      case Raise => RaiseKeeps(s, chains);
      case Load => LoadKeeps(s, chains);
      case Publish => PublishKeeps(s, chains);
    }
  }
}
