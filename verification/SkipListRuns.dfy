/** Searches that interleave with an insertion, and the insertion itself (db/skiplist.h). */
module SkipListRuns {
  import opened SkipList

  // ---------------------------------------------------------------- searches

  /** FindGreaterOrEqual, FindLessThan and FindLast. */
  datatype Goal = AtLeast(target: Key) | Below(target: Key) | Last

  /** A search holds a node and a level; when it ends it holds the node and the pointer that it
      read last. */
  datatype Search = Searching(goal: Goal, x: nat, level: nat) | Finished(goal: Goal, x: nat, next: Ptr)

  predicate GoesOn(nodes: seq<Node>, goal: Goal, p: Ptr) {
    match goal
    case AtLeast(t) => KeyIsAfterNode(nodes, t, p)
    case Below(t) => KeyIsAfterNode(nodes, t, p)
    case Last => p.To?
  }

  predicate CanRead(s: List, r: Search) {
    r.Searching? && r.x < |s.nodes| && r.level < |s.nodes[r.x].next|
  }

  /** One load of a next_ cell and what the loop does with it. */
  function AfterRead(s: List, r: Search): Search
    requires CanRead(s, r)
  {
    var next := s.nodes[r.x].next[r.level];
    if GoesOn(s.nodes, r.goal, next) && next.To? then
      Searching(r.goal, next.node, r.level)
    else if r.level == 0 then
      Finished(r.goal, r.x, next)
    else
      Searching(r.goal, r.x, r.level - 1)
  }

  function StartSearch(s: List, goal: Goal): Search
    requires s.max_height > 0
  {
    Searching(goal, HEAD, s.max_height - 1)
  }

  ghost predicate IsBefore(nodes: seq<Node>, goal: Goal, x: nat) {
    x == HEAD || goal.Last? || (x < |nodes| && nodes[x].key < goal.target)
  }

  ghost predicate SearchOk(s: List, chains: seq<seq<nat>>, r: Search) {
    r.Searching? ==> r.level < |chains| && r.x in chains[r.level] && IsBefore(s.nodes, r.goal, r.x)
  }

  /** The key of a node of the level-0 list. */
  ghost predicate Holds(nodes: seq<Node>, chain: seq<nat>, n: nat, key: Key) {
    n in chain && n != HEAD && n < |nodes| && nodes[n].key == key
  }

  ghost predicate LeastAtLeast(nodes: seq<Node>, chain: seq<nat>, t: Key, n: nat) {
    n < |nodes| && Holds(nodes, chain, n, nodes[n].key) && nodes[n].key >= t &&
    forall m, k :: Holds(nodes, chain, m, k) && k >= t ==> nodes[n].key <= k
  }

  ghost predicate GreatestBelow(nodes: seq<Node>, chain: seq<nat>, t: Key, n: nat) {
    n < |nodes| && Holds(nodes, chain, n, nodes[n].key) && nodes[n].key < t &&
    forall m, k :: Holds(nodes, chain, m, k) && k < t ==> k <= nodes[n].key
  }

  ghost predicate Greatest(nodes: seq<Node>, chain: seq<nat>, n: nat) {
    n < |nodes| && Holds(nodes, chain, n, nodes[n].key) &&
    forall m, k :: Holds(nodes, chain, m, k) ==> k <= nodes[n].key
  }

  ghost predicate AllBelow(nodes: seq<Node>, chain: seq<nat>, t: Key) {
    forall m, k :: Holds(nodes, chain, m, k) ==> k < t
  }

  ghost predicate NoneBelow(nodes: seq<Node>, chain: seq<nat>, t: Key) {
    forall m, k :: Holds(nodes, chain, m, k) ==> k >= t
  }

  /** What the three searches promise about the level-0 list `chain`. */
  ghost predicate IsAnswer(nodes: seq<Node>, chain: seq<nat>, goal: Goal, x: nat, next: Ptr) {
    match goal
    case AtLeast(t) =>
      if next.To? then LeastAtLeast(nodes, chain, t, next.node) else next.Null? && AllBelow(nodes, chain, t)
    case Below(t) => if x == HEAD then NoneBelow(nodes, chain, t) else GreatestBelow(nodes, chain, t, x)
    case Last => if x == HEAD then chain == [HEAD] else Greatest(nodes, chain, x)
  }

  lemma PositionOf(chain: seq<nat>, x: nat) returns (k: nat)
    requires x in chain
    ensures k < |chain| && chain[k] == x
  {
    k :| 0 <= k < |chain| && chain[k] == x;
  }

  /** The nodes up to a position come before a key, the others do not. */
  ghost predicate Parts(nodes: seq<Node>, chain: seq<nat>, key: Key, k: nat) {
    k < |chain| &&
    (forall j :: 1 <= j <= k && chain[j] < |nodes| ==> nodes[chain[j]].key < key) &&
    (forall j :: k < j < |chain| && chain[j] < |nodes| ==> key <= nodes[chain[j]].key)
  }

  lemma PartsHere(nodes: seq<Node>, l: nat, chain: seq<nat>, key: Key, k: nat)
    requires SortedLevel(nodes, l, chain) && k < |chain|
    requires chain[k] == HEAD || nodes[chain[k]].key < key
    requires !KeyIsAfterNode(nodes, key, nodes[chain[k]].next[l])
    ensures Parts(nodes, chain, key, k)
  {
    assert LinkedAt(nodes, l, chain, k);
    if k + 1 < |chain| {
      assert key <= nodes[chain[k + 1]].key;
      forall j | k < j < |chain|
        ensures key <= nodes[chain[j]].key
      {
        assert j > k + 1 ==> nodes[chain[k + 1]].key < nodes[chain[j]].key;
      }
    }
  }

  lemma AnswerHere(nodes: seq<Node>, chain: seq<nat>, goal: Goal, k: nat)
    requires SortedLevel(nodes, 0, chain) && k < |chain|
    requires if goal.Last? then k == |chain| - 1 else Parts(nodes, chain, goal.target, k)
    ensures IsAnswer(nodes, chain, goal, chain[k], nodes[chain[k]].next[0])
  {
    assert LinkedAt(nodes, 0, chain, k);
    forall n, key | Holds(nodes, chain, n, key)
      ensures exists j :: 1 <= j < |chain| && chain[j] == n && nodes[chain[j]].key == key
    {
      var j := PositionOf(chain, n);
    }
    if k + 1 < |chain| {
      assert chain[k + 1] in chain;
      forall j | k + 1 <= j < |chain|
        ensures nodes[chain[k + 1]].key <= nodes[chain[j]].key
      {
      }
    }
  }

  /** A search never meets an uninitialized cell, stays before its target on a level list, and
      when it ends its answer is right for the level-0 list of that very moment. */
  lemma ReadOk(s: List, chains: seq<seq<nat>>, r: Search)
    requires Inv(s, chains) && r.Searching? && SearchOk(s, chains, r)
    ensures CanRead(s, r) && !s.nodes[r.x].next[r.level].Garbage?
    ensures var later := AfterRead(s, r);
      SearchOk(s, chains, later) &&
      (later.Finished? ==> IsAnswer(s.nodes, chains[0], r.goal, later.x, later.next))
  {
    hide IsAnswer;
    var chain := chains[r.level];
    var k := PositionOf(chain, r.x);
    assert SortedLevel(s.nodes, r.level, chain);
    assert LinkedAt(s.nodes, r.level, chain, k);
    var next := s.nodes[r.x].next[r.level];
    if next.To? && GoesOn(s.nodes, r.goal, next) {
      assert chain[k + 1] in chain;
    } else if r.level == 0 {
      if !r.goal.Last? {
        PartsHere(s.nodes, 0, chain, r.goal.target, k);
      }
      AnswerHere(s.nodes, chain, r.goal, k);
    } else {
      assert Within(chains[r.level], chains[r.level - 1]);
    }
  }

  lemma SearchStays(s: List, chains: seq<seq<nat>>, e: Store, r: Search)
    requires Inv(s, chains) && CanStore(s, e) && SearchOk(s, chains, r)
    ensures SearchOk(AfterStore(s, e), ChainsAfter(s, chains, e), r)
  {
    hide Precedes, InsertAfter;
    if r.Searching? {
      assert SortedLevel(s.nodes, r.level, chains[r.level]);
      var k := PositionOf(chains[r.level], r.x);
      if e.Publish? {
        var i := s.writer.i;
        assert SortedLevel(s.nodes, i, chains[i]);
        PublishedLevel(s.nodes, i, chains[i], s.writer.prev[i], s.writer.x);
      }
    }
  }

  lemma StartOk(s: List, chains: seq<seq<nat>>, goal: Goal)
    requires Inv(s, chains)
    ensures SearchOk(s, chains, StartSearch(s, goal))
  {
    assert SortedLevel(s.nodes, s.max_height - 1, chains[s.max_height - 1]);
  }

  ghost predicate LeastAbove(nodes: seq<Node>, chain: seq<nat>, n: nat, next: nat) {
    n < |nodes| && next < |nodes| && Holds(nodes, chain, next, nodes[next].key) && nodes[next].key > nodes[n].key &&
    forall m, k :: Holds(nodes, chain, m, k) && k > nodes[n].key ==> nodes[next].key <= k
  }

  /** Iterator::Next: the pointer read at any later time leads to the least larger key. */
  lemma IteratorNextIsSuccessor(s: List, chains: seq<seq<nat>>, n: nat)
    requires Inv(s, chains) && n in chains[0] && n != HEAD
    ensures n < |s.nodes| && |s.nodes[n].next| > 0
    ensures var next := s.nodes[n].next[0];
      if next.To? then LeastAbove(s.nodes, chains[0], n, next.node) else next.Null? && Greatest(s.nodes, chains[0], n)
  {
    var chain := chains[0];
    var k := PositionOf(chain, n);
    assert SortedLevel(s.nodes, 0, chain);
    assert LinkedAt(s.nodes, 0, chain, k);
    forall m, key | Holds(s.nodes, chain, m, key)
      ensures exists j :: 1 <= j < |chain| && chain[j] == m && s.nodes[chain[j]].key == key
    {
      var j := PositionOf(chain, m);
    }
    if k + 1 < |chain| {
      assert chain[k + 1] in chain;
    }
  }

  // ---------------------------------------------------------------- runs

  datatype System = System(list: List, readers: seq<Search>)

  datatype Event = Writes(store: Store) | Opens(goal: Goal) | Reads(r: nat)

  ghost predicate Enabled(s: System, e: Event) {
    match e
    case Writes(store) => CanStore(s.list, store)
    case Opens(_) => s.list.max_height > 0
    case Reads(r) => r < |s.readers| && s.readers[r].Searching? && CanRead(s.list, s.readers[r])
  }

  ghost function Next(s: System, e: Event): System
    requires Enabled(s, e)
  {
    match e
    case Writes(store) => s.(list := AfterStore(s.list, store))
    case Opens(goal) => s.(readers := s.readers + [StartSearch(s.list, goal)])
    case Reads(r) => s.(readers := s.readers[r := AfterRead(s.list, s.readers[r])])
  }

  ghost predicate IsRun(states: seq<System>, events: seq<Event>) {
    |states| == |events| + 1 && states[0] == System(EmptyList(), []) &&
    forall i :: 0 <= i < |events| ==> Enabled(states[i], events[i]) && states[i + 1] == Next(states[i], events[i])
  }

  ghost predicate SystemOk(s: System, chains: seq<seq<nat>>) {
    Inv(s.list, chains) && forall r :: 0 <= r < |s.readers| ==> SearchOk(s.list, chains, s.readers[r])
  }

  lemma StartsOk() returns (chains: seq<seq<nat>>)
    ensures SystemOk(System(EmptyList(), []), chains)
  {
    chains := seq(MAX_HEIGHT, l => [HEAD]);
    forall l | 0 <= l < MAX_HEIGHT
      ensures SortedLevel(EmptyList().nodes, l, chains[l])
    {
      assert LinkedAt(EmptyList().nodes, l, chains[l], 0);
    }
  }

  lemma NextOk(s: System, chains: seq<seq<nat>>, e: Event) returns (after: seq<seq<nat>>)
    requires SystemOk(s, chains) && Enabled(s, e)
    ensures SystemOk(Next(s, e), after)
  {
    hide Inv, SearchOk;
    match e {
      case Writes(store) =>
        after := ChainsAfter(s.list, chains, store);
        StoreKeeps(s.list, chains, store);
        forall r | 0 <= r < |s.readers|
          ensures SearchOk(Next(s, e).list, after, s.readers[r])
        {
          SearchStays(s.list, chains, store, s.readers[r]);
        }
      case Opens(goal) =>
        after := chains;
        StartOk(s.list, chains, goal);
      case Reads(r) =>
        after := chains;
        ReadOk(s.list, chains, s.readers[r]);
    }
  }

  lemma {:induction false} RunOk(states: seq<System>, events: seq<Event>, n: nat) returns (chains: seq<seq<nat>>)
    requires IsRun(states, events) && n <= |events|
    ensures SystemOk(states[n], chains)
  {
    if n == 0 {
      chains := StartsOk();
    } else {
      var before := RunOk(states, events, n - 1);
      assert Enabled(states[n - 1], events[n - 1]);
      chains := NextOk(states[n - 1], before, events[n - 1]);
    }
  }

  /** In every state of every run each level is sorted and nested in the one below, and every
      reader's next load is of an initialized cell. */
  lemma EveryStateIsSkipList(states: seq<System>, events: seq<Event>, n: nat) returns (chains: seq<seq<nat>>)
    requires IsRun(states, events) && n <= |events|
    ensures SortedLevels(states[n].list.nodes, chains) && Nested(chains)
    ensures forall r :: 0 <= r < |states[n].readers| && states[n].readers[r].Searching? ==>
      CanRead(states[n].list, states[n].readers[r]) &&
      !states[n].list.nodes[states[n].readers[r].x].next[states[n].readers[r].level].Garbage?
  {
    chains := RunOk(states, events, n);
    var s := states[n];
    forall r | 0 <= r < |s.readers| && s.readers[r].Searching?
      ensures CanRead(s.list, s.readers[r]) && !s.list.nodes[s.readers[r].x].next[s.readers[r].level].Garbage?
    {
      ReadOk(s.list, chains, s.readers[r]);
    }
  }

  /** In every run, a search that ends has the right answer for the level-0 list as it stands
      at the search's last load. */
  lemma EverySearchIsRight(states: seq<System>, events: seq<Event>, n: nat)
    requires IsRun(states, events) && n < |events| && events[n].Reads?
    requires states[n + 1].readers[events[n].r].Finished?
    ensures exists chain ::
      SortedLevel(states[n].list.nodes, 0, chain) &&
      var done := states[n + 1].readers[events[n].r];
      IsAnswer(states[n].list.nodes, chain, done.goal, done.x, done.next)
  {
    hide IsAnswer;
    var chains := RunOk(states, events, n);
    var s, r := states[n], events[n].r;
    assert Enabled(s, events[n]);
    ReadOk(s.list, chains, s.readers[r]);
    assert SortedLevel(s.list.nodes, 0, chains[0]);
  }
}
