/** One shard of the cache: reference counts, the LRU list and eviction (util/cache.cc). */
module Cache {
  import opened DbFormat
  import HandleTable

  /** LRUHandle: `refs` counts the clients, and the cache itself while the entry is cached. */
  datatype Handle = Handle(key: Bytes, charge: nat, in_cache: bool, refs: nat)

  // ---------------------------------------------------------------- lists of handles

  ghost predicate Unrepeated(s: seq<nat>) {
    forall i, j :: 0 <= i < j < |s| ==> s[i] != s[j]
  }

  /** LRU_Remove. */
  function Without(s: seq<nat>, x: nat): (r: seq<nat>)
    ensures |r| <= |s|
  {
    if s == [] then [] else if s[0] == x then s[1..] else [s[0]] + Without(s[1..], x)
  }

  lemma {:induction false} WithoutIs(s: seq<nat>, x: nat)
    requires Unrepeated(s)
    ensures Unrepeated(Without(s, x)) && forall y :: y in Without(s, x) <==> y in s && y != x
    ensures x !in s ==> Without(s, x) == s
  {
    if s != [] && s[0] != x {
      WithoutIs(s[1..], x);
      var r := Without(s[1..], x);
      assert forall y :: y in s <==> y == s[0] || y in s[1..];
      forall i | 0 <= i < |r|
        ensures r[i] != s[0]
      {
        assert r[i] in r;
      }
    } else if s != [] {
      assert forall y :: y in s <==> y == s[0] || y in s[1..];
    }
  }

  /** What remains keeps its order. */
  lemma {:induction false} WithoutAt(s: seq<nat>, i: nat)
    requires Unrepeated(s) && i < |s|
    ensures Without(s, s[i]) == s[..i] + s[i + 1..]
  {
    if i > 0 {
      WithoutAt(s[1..], i - 1);
      assert s[..i] == [s[0]] + s[1..][..i - 1];
    }
  }

  /** The sum of the charges of some handles. */
  function Charge(handles: map<nat, Handle>, s: seq<nat>): nat {
    if s == [] then 0 else (if s[0] in handles then handles[s[0]].charge else 0) + Charge(handles, s[1..])
  }

  lemma {:induction false} ChargeSnoc(handles: map<nat, Handle>, s: seq<nat>, x: nat)
    ensures Charge(handles, s + [x]) == Charge(handles, s) + if x in handles then handles[x].charge else 0
  {
    if s == [] {
      assert [x][1..] == [];
    } else {
      assert (s + [x])[1..] == s[1..] + [x];
      ChargeSnoc(handles, s[1..], x);
    }
  }

  lemma {:induction false} ChargeWithout(handles: map<nat, Handle>, s: seq<nat>, x: nat)
    requires Unrepeated(s) && x in s
    ensures Charge(handles, s) == Charge(handles, Without(s, x)) + if x in handles then handles[x].charge else 0
  {
    if s[0] != x {
      ChargeWithout(handles, s[1..], x);
    }
  }

  /** Charges do not change. */
  lemma {:induction false} ChargeSame(a: map<nat, Handle>, b: map<nat, Handle>, s: seq<nat>)
    requires forall y :: y in s ==> y in a && y in b && a[y].charge == b[y].charge
    ensures Charge(a, s) == Charge(b, s)
  {
    if s != [] {
      ChargeSame(a, b, s[1..]);
    }
  }

  // ---------------------------------------------------------------- the invariant

  datatype Lists = Lists(usage: nat, lru: seq<nat>, in_use: seq<nat>, handles: map<nat, Handle>, next_id: nat, deleted: seq<nat>)

  /** The references that clients hold on each live handle. */
  type Clients = map<nat, nat>

  ghost predicate CountsOk(c: Lists, clients: Clients) {
    clients.Keys == c.handles.Keys &&
    forall id :: id in c.handles ==>
      id < c.next_id && c.handles[id].refs > 0 &&
      c.handles[id].refs == clients[id] + if c.handles[id].in_cache then 1 else 0
  }

  /** Cached entries without clients are on the LRU list, those with clients on the other. */
  ghost predicate ListsOk(c: Lists) {
    Unrepeated(c.lru) && Unrepeated(c.in_use) &&
    (forall id :: id in c.lru <==> id in c.handles && c.handles[id].in_cache && c.handles[id].refs == 1) &&
    (forall id :: id in c.in_use <==> id in c.handles && c.handles[id].in_cache && c.handles[id].refs >= 2)
  }

  ghost predicate UsageOk(c: Lists) {
    c.usage == Charge(c.handles, c.lru) + Charge(c.handles, c.in_use)
  }

  /** A handle is freed, by one call of its deleter, or live. */
  ghost predicate DeletedOk(c: Lists) {
    Unrepeated(c.deleted) && forall id: nat :: id in c.deleted <==> id < c.next_id && id !in c.handles
  }

  ghost predicate Inv(c: Lists, clients: Clients) {
    CountsOk(c, clients) && ListsOk(c) && UsageOk(c) && DeletedOk(c)
  }

  /** The table leads to exactly the cached handles, `gone` excepted. */
  ghost predicate TableOk(contents: map<Bytes, nat>, handles: map<nat, Handle>, gone: Option<nat>) {
    forall key, id: nat :: Leads(contents, key, id) <==> Cached(handles, key, id) && gone != Some(id)
  }

  ghost predicate Leads(contents: map<Bytes, nat>, key: Bytes, id: nat) {
    key in contents && contents[key] == id
  }

  ghost predicate Cached(handles: map<nat, Handle>, key: Bytes, id: nat) {
    id in handles && handles[id].in_cache && handles[id].key == key
  }

  // ---------------------------------------------------------------- operations on the lists

  /** Ref, for a cached handle. */
  function Ref(c: Lists, id: nat): Lists
    requires id in c.handles
  {
    var h := c.handles[id];
    var moved := if h.refs == 1 && h.in_cache then c.(lru := Without(c.lru, id), in_use := c.in_use + [id]) else c;
    moved.(handles := c.handles[id := h.(refs := h.refs + 1)])
  }

  /** Unref: the last reference calls the deleter; losing the last client moves a cached entry to
      the end of the LRU list. */
  function Unref(c: Lists, id: nat): Lists
    requires id in c.handles && c.handles[id].refs > 0
  {
    var h := c.handles[id].(refs := c.handles[id].refs - 1);
    if h.refs == 0 then
      c.(handles := c.handles - {id}, deleted := c.deleted + [id])
    else
      var moved := if h.in_cache && h.refs == 1 then c.(in_use := Without(c.in_use, id), lru := c.lru + [id]) else c;
      moved.(handles := c.handles[id := h])
  }

  /** FinishErase on a handle that the table no longer leads to. */
  function FinishErase(c: Lists, id: nat): Lists
    requires id in c.handles && c.handles[id].refs > 0
  {
    var h := c.handles[id];
    Unref(c.(lru := Without(c.lru, id), in_use := Without(c.in_use, id),
      handles := c.handles[id := h.(in_cache := false)],
      usage := if c.usage >= h.charge then c.usage - h.charge else 0), id)
  }

  lemma RefKeepsLists(c: Lists, clients: Clients, id: nat)
    requires Inv(c, clients) && id in c.handles
    ensures ListsOk(Ref(c, id))
  {
    hide UsageOk, DeletedOk, Without;
    WithoutIs(c.lru, id);
  }

  lemma RefKeepsUsage(c: Lists, clients: Clients, id: nat)
    requires Inv(c, clients) && id in c.handles
    ensures UsageOk(Ref(c, id))
  {
    hide DeletedOk, CountsOk, Without, Charge;
    var later := Ref(c, id);
    ChargeSnoc(later.handles, c.in_use, id);
    ChargeSame(c.handles, later.handles, c.lru);
    ChargeSame(c.handles, later.handles, c.in_use);
    if c.handles[id].refs == 1 && c.handles[id].in_cache {
      ChargeWithout(later.handles, c.lru, id);
    }
  }

  lemma RefKeeps(c: Lists, clients: Clients, id: nat)
    requires Inv(c, clients) && id in c.handles
    ensures Inv(Ref(c, id), clients[id := clients[id] + 1])
  {
    hide UsageOk, ListsOk, Without;
    RefKeepsLists(c, clients, id);
    RefKeepsUsage(c, clients, id);
  }

  lemma UnrefKeepsLists(c: Lists, clients: Clients, id: nat)
    requires Inv(c, clients) && id in c.handles && clients[id] > 0
    ensures ListsOk(Unref(c, id)) && DeletedOk(Unref(c, id))
  {
    hide UsageOk, Without;
    WithoutIs(c.in_use, id);
  }

  lemma UnrefKeepsUsage(c: Lists, clients: Clients, id: nat)
    requires Inv(c, clients) && id in c.handles && clients[id] > 0
    ensures UsageOk(Unref(c, id))
  {
    hide DeletedOk, Without, Charge;
    var later := Unref(c, id);
    ChargeSame(c.handles, later.handles, c.lru);
    ChargeSame(c.handles, later.handles, c.in_use);
    if id in later.handles && later.handles[id].in_cache && later.handles[id].refs == 1 {
      ChargeSnoc(later.handles, c.lru, id);
      ChargeWithout(later.handles, c.in_use, id);
    }
  }

  lemma UnrefKeeps(c: Lists, clients: Clients, id: nat)
    requires Inv(c, clients) && id in c.handles && clients[id] > 0
    ensures var later := Unref(c, id);
      Inv(later, if id in later.handles then clients[id := clients[id] - 1] else clients - {id})
  {
    hide UsageOk, ListsOk, DeletedOk, Without;
    UnrefKeepsLists(c, clients, id);
    UnrefKeepsUsage(c, clients, id);
  }

  /** What FinishErase leaves, spelled out. */
  lemma EraseShape(c: Lists, clients: Clients, id: nat)
    requires CountsOk(c, clients) && id in c.handles && c.handles[id].in_cache
    ensures var later, h := FinishErase(c, id), c.handles[id];
      later.lru == Without(c.lru, id) && later.in_use == Without(c.in_use, id) && later.next_id == c.next_id &&
      later.usage == (if c.usage >= h.charge then c.usage - h.charge else 0) &&
      (if clients[id] == 0 then
        later.handles == c.handles - {id} && later.deleted == c.deleted + [id]
      else
        later.handles == c.handles[id := h.(in_cache := false, refs := h.refs - 1)] && later.deleted == c.deleted)
  {
    hide Without;
    var h := c.handles[id];
    assert c.handles[id := h.(in_cache := false)] - {id} == c.handles - {id};
  }

  lemma EraseKeepsLists(c: Lists, clients: Clients, id: nat)
    requires Inv(c, clients) && id in c.handles && c.handles[id].in_cache
    ensures c.handles[id].refs > 0 && ListsOk(FinishErase(c, id))
  {
    WithoutIs(c.lru, id);
    WithoutIs(c.in_use, id);
    EraseShape(c, clients, id);
    hide UsageOk, DeletedOk, Without, FinishErase, Unrepeated;
    var later := FinishErase(c, id);
    forall x
      ensures x in later.lru <==> x in later.handles && later.handles[x].in_cache && later.handles[x].refs == 1
      ensures x in later.in_use <==> x in later.handles && later.handles[x].in_cache && later.handles[x].refs >= 2
    {
      assert x in c.lru <==> x in c.handles && c.handles[x].in_cache && c.handles[x].refs == 1;
    }
  }

  lemma EraseKeepsDeleted(c: Lists, clients: Clients, id: nat)
    requires Inv(c, clients) && id in c.handles && c.handles[id].in_cache
    ensures c.handles[id].refs > 0 && DeletedOk(FinishErase(c, id))
  {
    EraseShape(c, clients, id);
    hide UsageOk, ListsOk, Without, FinishErase;
  }

  lemma EraseKeepsCounts(c: Lists, clients: Clients, id: nat)
    requires CountsOk(c, clients) && id in c.handles && c.handles[id].in_cache
    ensures var later := FinishErase(c, id); CountsOk(later, if id in later.handles then clients else clients - {id})
  {
    EraseShape(c, clients, id);
    hide Without, FinishErase;
  }

  /** Erasing a cached handle takes the cache's reference and its charge away; the deleter runs at
      once if no client holds it. */
  lemma FinishEraseKeeps(c: Lists, clients: Clients, id: nat)
    requires Inv(c, clients) && id in c.handles && c.handles[id].in_cache
    ensures c.handles[id].refs > 0
    ensures var later := FinishErase(c, id);
      Inv(later, if id in later.handles then clients else clients - {id}) &&
      later.usage == c.usage - c.handles[id].charge &&
      later.lru == Without(c.lru, id) && later.in_use == Without(c.in_use, id) &&
      (id in later.handles <==> clients[id] > 0) && later.next_id == c.next_id &&
      later.deleted == c.deleted + (if clients[id] == 0 then [id] else []) &&
      (forall x :: x != id ==> (x in later.handles <==> x in c.handles)) &&
      (forall x :: x in later.handles && x != id ==> later.handles[x] == c.handles[x]) &&
      (id in later.handles ==> !later.handles[id].in_cache)
  {
    EraseUsage(c, clients, id);
    EraseKeepsLists(c, clients, id);
    EraseKeepsDeleted(c, clients, id);
    EraseKeepsCounts(c, clients, id);
    EraseShape(c, clients, id);
    hide UsageOk, Without, ListsOk, DeletedOk, FinishErase;
  }

  lemma EraseUsage(c: Lists, clients: Clients, id: nat)
    requires Inv(c, clients) && id in c.handles && c.handles[id].in_cache
    ensures c.usage >= c.handles[id].charge && UsageOk(FinishErase(c, id))
  {
    hide DeletedOk, Without, Charge;
    WithoutIs(c.lru, id);
    WithoutIs(c.in_use, id);
    EraseShape(c, clients, id);
    hide FinishErase;
    var later := FinishErase(c, id);
    if id in c.lru {
      ChargeWithout(c.handles, c.lru, id);
    } else {
      assert id in c.in_use;
      ChargeWithout(c.handles, c.in_use, id);
    }
    ChargeSame(c.handles, later.handles, Without(c.lru, id));
    ChargeSame(c.handles, later.handles, Without(c.in_use, id));
  }

  // ---------------------------------------------------------------- the table and the lists

  lemma TableAfterErase(contents: map<Bytes, nat>, c: Lists, clients: Clients, id: nat)
    requires Inv(c, clients) && id in c.handles && c.handles[id].in_cache && TableOk(contents, c.handles, Some(id))
    ensures TableOk(contents, FinishErase(c, id).handles, None)
  {
    FinishEraseKeeps(c, clients, id);
    hide FinishErase, Inv;
    var later := FinishErase(c, id).handles;
    forall key, x: nat
      ensures Leads(contents, key, x) <==> Cached(later, key, x)
    {
      assert Leads(contents, key, x) <==> Cached(c.handles, key, x) && x != id;
    }
  }

  lemma TableAfterRemove(contents: map<Bytes, nat>, handles: map<nat, Handle>, key: Bytes)
    requires TableOk(contents, handles, None) && key in contents
    ensures TableOk(contents - {key}, handles, Some(contents[key]))
    ensures contents[key] in handles && handles[contents[key]].in_cache && handles[contents[key]].key == key
  {
    var rest, id := contents - {key}, contents[key];
    assert Leads(contents, key, id);
    forall k, x: nat
      ensures Leads(rest, k, x) <==> Cached(handles, k, x) && x != id
    {
      assert Leads(contents, k, x) <==> Cached(handles, k, x);
    }
  }

  lemma TableSame(contents: map<Bytes, nat>, a: map<nat, Handle>, b: map<nat, Handle>)
    requires TableOk(contents, a, None)
    requires forall id :: (id in a && a[id].in_cache) <==> (id in b && b[id].in_cache)
    requires forall id :: id in a && id in b ==> a[id].key == b[id].key
    ensures TableOk(contents, b, None)
  {
    forall key, id: nat
      ensures Leads(contents, key, id) <==> Cached(b, key, id)
    {
      assert Leads(contents, key, id) <==> Cached(a, key, id);
    }
  }

  /** A new entry, with a reference for the client and one for the cache. */
  function Added(c: Lists, key: Bytes, charge: nat): Lists {
    c.(handles := c.handles[c.next_id := Handle(key, charge, true, 2)], in_use := c.in_use + [c.next_id],
       usage := c.usage + charge, next_id := c.next_id + 1)
  }

  /** A new entry that is not cached. */
  function AddedUncached(c: Lists, key: Bytes, charge: nat): Lists {
    c.(handles := c.handles[c.next_id := Handle(key, charge, false, 1)], next_id := c.next_id + 1)
  }

  lemma AddedKeeps(c: Lists, clients: Clients, key: Bytes, charge: nat)
    requires Inv(c, clients)
    ensures Inv(Added(c, key, charge), clients[c.next_id := 1])
  {
    AddedKeepsUsage(c, clients, key, charge);
    hide UsageOk;
    assert c.next_id !in c.handles && c.next_id !in c.in_use;
    var later := Added(c, key, charge);
    assert ListsOk(later) by { hide DeletedOk; }
    assert CountsOk(later, clients[c.next_id := 1]) by { hide DeletedOk, ListsOk; }
    assert DeletedOk(later) by { hide CountsOk, ListsOk; }
  }

  lemma AddedKeepsUsage(c: Lists, clients: Clients, key: Bytes, charge: nat)
    requires Inv(c, clients)
    ensures UsageOk(Added(c, key, charge)) && UsageOk(AddedUncached(c, key, charge))
  {
    hide DeletedOk, Charge;
    var later, uncached := Added(c, key, charge), AddedUncached(c, key, charge);
    assert c.next_id !in c.handles;
    ChargeSnoc(later.handles, c.in_use, c.next_id);
    ChargeSame(c.handles, later.handles, c.lru);
    ChargeSame(c.handles, later.handles, c.in_use);
    ChargeSame(c.handles, uncached.handles, c.lru);
    ChargeSame(c.handles, uncached.handles, c.in_use);
  }

  lemma AddedUncachedKeeps(c: Lists, clients: Clients, key: Bytes, charge: nat)
    requires Inv(c, clients)
    ensures Inv(AddedUncached(c, key, charge), clients[c.next_id := 1])
  {
    AddedKeepsUsage(c, clients, key, charge);
    hide UsageOk;
    assert c.next_id !in c.handles;
  }

  lemma TableAfterAdd(contents: map<Bytes, nat>, c: Lists, clients: Clients, key: Bytes, charge: nat)
    requires CountsOk(c, clients) && TableOk(contents, c.handles, None)
    ensures TableOk(contents[key := c.next_id], Added(c, key, charge).handles, if key in contents then Some(contents[key]) else None)
    ensures TableOk(contents, AddedUncached(c, key, charge).handles, None)
    ensures key in contents ==>
      contents[key] in c.handles && c.handles[contents[key]].in_cache && contents[key] != c.next_id
  {
    var later, grown := Added(c, key, charge).handles, contents[key := c.next_id];
    var gone := if key in contents then Some(contents[key]) else None;
    assert c.next_id !in c.handles;
    forall k, x: nat
      ensures Leads(grown, k, x) <==> Cached(later, k, x) && gone != Some(x)
    {
      assert Leads(contents, k, x) <==> Cached(c.handles, k, x);
      assert Leads(contents, key, x) <==> Cached(c.handles, key, x);
    }
    if key in contents {
      assert Leads(contents, key, contents[key]);
    }
    var uncached := AddedUncached(c, key, charge).handles;
    TableSame(contents, c.handles, uncached);
  }

  // ---------------------------------------------------------------- the cache

  class LRUCache {
    const capacity: nat
    const table: HandleTable.HandleTable
    var state: Lists
    /** The references that clients have not given back. */
    ghost var clients: Clients

    ghost predicate Valid()
      reads this, table
    {
      table.Valid() && Inv(state, clients) && TableOk(table.contents, state.handles, None)
    }

    constructor (capacity: nat, hash: Bytes -> nat)
      ensures Valid() && clients == map[] && this.capacity == capacity && fresh(table)
    {
      hide Inv, TableOk;
      EmptyOk();
      this.capacity := capacity;
      table := new HandleTable.HandleTable(hash);
      state := Lists(0, [], [], map[], 0, []);
      clients := map[];
    }

    method Lookup(key: Bytes) returns (r: Option<nat>)
      requires Valid()
      modifies this
      ensures Valid()
      ensures r.Some? <==> key in table.contents
      ensures r.Some? ==>
        r.value == table.contents[key] && r.value in old(clients) && clients == old(clients)[r.value := old(clients)[r.value] + 1]
      ensures r.None? ==> state == old(state) && clients == old(clients)
      ensures r.Some? ==> state.lru == Without(old(state.lru), r.value)
      ensures state.deleted == old(state.deleted) && state.usage == old(state.usage)
    {
      hide Inv, TableOk;
      r := table.Lookup(key);
      if r.Some? {
        var id := r.value;
        CachedIsLive(table.contents, state, clients, key);
        RefKeeps(state, clients, id);
        RefSame(state, clients, id);
        TableSame(table.contents, state.handles, Ref(state, id).handles);
        state := Ref(state, id);
        clients := clients[id := clients[id] + 1];
      }
    }

    /** Release: the deleter runs now exactly if this was the last reference of all. */
    method Release(id: nat)
      requires Valid() && id in clients && clients[id] > 0
      modifies this
      ensures Valid()
      ensures clients == if id in state.handles then old(clients)[id := old(clients)[id] - 1] else old(clients) - {id}
      ensures state.deleted == old(state.deleted) +
        if old(clients)[id] == 1 && (id in old(state.handles) && !old(state.handles)[id].in_cache) then [id] else []
      ensures state.lru == old(state.lru) +
        if old(clients)[id] == 1 && (id in old(state.handles) && old(state.handles)[id].in_cache) then [id] else []
      ensures state.usage == old(state.usage)
    {
      hide TableOk;
      HandlesOfClients(state, clients);
      UnrefKeeps(state, clients, id);
      UnrefSame(state, clients, id);
      TableSame(table.contents, state.handles, Unref(state, id).handles);
      state := Unref(state, id);
      clients := if id in state.handles then clients[id := clients[id] - 1] else clients - {id};
    }

    /** FinishErase: a cached handle that the table no longer leads to leaves the lists. */
    method FinishErased(id: nat)
      requires table.Valid() && Inv(state, clients) && TableOk(table.contents, state.handles, Some(id))
      requires id in state.handles && state.handles[id].in_cache
      modifies this`state, this`clients
      ensures Valid() && ErasedOne(old(state), state, old(clients), clients, id)
    {
      hide Inv, TableOk, FinishErase, Without;
      FinishEraseKeeps(state, clients, id);
      TableAfterErase(table.contents, state, clients, id);
      HandlesOfClients(state, clients);
      state := FinishErase(state, id);
      clients := if id in state.handles then clients else clients - {id};
    }

    /** Take a cached handle out of the table and out of the cache. */
    method EraseHandle(key: Bytes)
      requires Valid() && key in table.contents
      modifies this, table
      ensures Valid() && table.contents == old(table.contents) - {key}
      ensures ErasedOne(old(state), state, old(clients), clients, old(table.contents)[key])
    {
      hide Inv, TableOk, ErasedOne;
      TableAfterRemove(table.contents, state.handles, key);
      var r := table.Remove(key);
      FinishErased(r.value);
    }

    /** The deleter runs now exactly if no client holds the entry. */
    method Erase(key: Bytes)
      requires Valid()
      modifies this, table
      ensures Valid() && table.contents == old(table.contents) - {key}
      ensures state.deleted == old(state.deleted) +
        if key in old(table.contents) && IsFree(old(clients), old(table.contents)[key]) then [old(table.contents)[key]] else []
      ensures key !in old(table.contents) ==> state == old(state)
      ensures key in old(table.contents) ==> state.lru == Without(old(state.lru), old(table.contents)[key])
    {
      var r := table.Lookup(key);
      if r.Some? {
        EraseHandle(key);
      } else {
        assert table.contents - {key} == table.contents;
      }
    }

    /** The eviction loop: the oldest released entries go first, until the charge fits or no
        unreferenced entry is left. */
    method Evict(limit: nat) returns (ghost evicted: nat)
      requires Valid()
      modifies this, table
      ensures Valid() && (state.usage <= limit || state.lru == [])
      ensures Drained(old(state), state, old(clients), clients, evicted)
      ensures StillCached(old(table.contents), old(clients), table.contents) && Shrunk(old(table.contents), table.contents)
      ensures evicted > 0 ==> state.usage + ChargeOf(old(state), old(state.lru)[evicted - 1]) > limit
    {
      hide Inv, TableOk, ErasedOne, Drained, StillCached, Shrunk, ChargeOf;
      evicted := 0;
      NothingDrained(state, clients, table.contents);
      while state.usage > limit && state.lru != []
        invariant Valid() && Drained(old(state), state, old(clients), clients, evicted)
        invariant StillCached(old(table.contents), old(clients), table.contents) && Shrunk(old(table.contents), table.contents)
        invariant evicted > 0 ==>
          evicted <= |old(state.lru)| && state.usage + ChargeOf(old(state), old(state.lru)[evicted - 1]) > limit
        decreases |state.lru|
      {
        EvictOldest(old(state), old(clients), evicted, old(table.contents));
        evicted := evicted + 1;
      }
      DrainedFront(old(state), state, old(clients), clients, evicted);
    }

    /** One round of the loops of Insert and Prune: the oldest released entry goes. */
    method EvictOldest(ghost before: Lists, ghost held: Clients, ghost n: nat, ghost contents: map<Bytes, nat>)
      requires Valid() && state.lru != [] && Drained(before, state, held, clients, n)
      requires StillCached(contents, held, table.contents) && Shrunk(contents, table.contents)
      modifies this, table
      ensures Valid() && Drained(before, state, held, clients, n + 1) && n < |before.lru| && |state.lru| < |old(state.lru)|
      ensures old(state.usage) == state.usage + ChargeOf(before, before.lru[n])
      ensures StillCached(contents, held, table.contents) && Shrunk(contents, table.contents)
    {
      hide Inv, TableOk, ErasedOne, Drained;
      var oldest := state.lru[0];
      OldestIsCached(table.contents, state, clients);
      EraseHandle(state.handles[oldest].key);
      DrainedStep(before, old(state), state, held, old(clients), clients, n);
    }

    /** All unreferenced entries are deleted, oldest first; those that clients hold are still found. */
    method Prune()
      requires Valid()
      modifies this, table
      ensures Valid() && state.lru == [] && state.deleted == old(state.deleted) + old(state.lru)
      ensures StillCached(old(table.contents), old(clients), table.contents) && Shrunk(old(table.contents), table.contents)
      ensures forall x :: x in old(clients) && old(clients)[x] > 0 ==> x in clients && clients[x] == old(clients)[x]
    {
      hide Inv, TableOk, ErasedOne, Drained, StillCached, Shrunk;
      ghost var erased := 0;
      NothingDrained(state, clients, table.contents);
      while state.lru != []
        invariant Valid() && Drained(old(state), state, old(clients), clients, erased)
        invariant StillCached(old(table.contents), old(clients), table.contents) && Shrunk(old(table.contents), table.contents)
        decreases |state.lru|
      {
        EvictOldest(old(state), old(clients), erased, old(table.contents));
        erased := erased + 1;
      }
      DrainedFront(old(state), state, old(clients), clients, erased);
    }

    /** The first half of Insert, for a positive capacity: the new entry replaces an old one of the
        same key and is held by the caller. */
    method Put(key: Bytes, charge: nat) returns (id: nat)
      requires Valid()
      modifies this, table
      ensures Valid() && id == old(state.next_id) && id in clients && clients[id] == 1
      ensures table.contents == old(table.contents)[key := id]
      ensures state.lru ==
        if key in old(table.contents) then Without(old(state.lru), old(table.contents)[key]) else old(state.lru)
      ensures state.deleted == old(state.deleted) +
        if key in old(table.contents) && IsFree(old(clients), old(table.contents)[key]) then [old(table.contents)[key]] else []
      ensures forall x :: x in state.lru ==> ChargeOf(state, x) == ChargeOf(old(state), x)
      ensures forall x :: x in old(clients) && old(clients)[x] > 0 ==> x in clients && clients[x] == old(clients)[x]
    {
      hide Inv, TableOk, Without;
      id := state.next_id;
      ReleasedAreOld(state, clients);
      AddedKeeps(state, clients, key, charge);
      HandlesOfClients(state, clients);
      TableAfterAdd(table.contents, state, clients, key, charge);
      state := Added(state, key, charge);
      clients := clients[id := 1];
      var old_id := table.Insert(key, id);
      if old_id.Some? {
        assert state.handles[old_id.value] == old(state.handles)[old_id.value];
        FinishErased(old_id.value);
        ErasedCharges(old(state), old(clients), key, charge, state, clients, old_id.value, old(clients)[id := 1]);
      }
    }

    /** Insert: the new entry stays cached, held by the caller; older entries are evicted, those
        released first going first, until the charge fits the capacity or none is left. */
    method Insert(key: Bytes, charge: nat) returns (id: nat, ghost evicted: nat)
      requires Valid()
      modifies this, table
      ensures Valid() && id == old(state.next_id) && id in clients && clients[id] == 1
      ensures capacity > 0 ==> key in table.contents && table.contents[key] == id
      ensures state.usage <= capacity || state.lru == []
      ensures capacity > 0 ==>
        var rest := if key in old(table.contents) then Without(old(state.lru), old(table.contents)[key]) else old(state.lru);
        var replaced := if key in old(table.contents) && IsFree(old(clients), old(table.contents)[key]) then [old(table.contents)[key]] else [];
        evicted <= |rest| && state.lru == rest[evicted..] &&
        state.deleted == old(state.deleted) + replaced + rest[..evicted] &&
        (evicted > 0 ==> state.usage + ChargeOf(old(state), rest[evicted - 1]) > capacity)
      ensures capacity == 0 ==> Shrunk(old(table.contents), table.contents)
      ensures forall x :: x in old(clients) && old(clients)[x] > 0 ==> x in clients && clients[x] == old(clients)[x]
    {
      hide Inv, TableOk;
      if capacity > 0 {
        id := Put(key, charge);
      } else {
        id := state.next_id;
        AddedUncachedKeeps(state, clients, key, charge);
        HandlesOfClients(state, clients);
        TableAfterAdd(table.contents, state, clients, key, charge);
        state := AddedUncached(state, key, charge);
        clients := clients[id := 1];
      }
      evicted := Evict(capacity);
    }
  }

  /** No client holds the handle. */
  ghost predicate IsFree(clients: Clients, id: nat) {
    id in clients && clients[id] == 0
  }

  ghost function ChargeOf(c: Lists, id: nat): nat {
    if id in c.handles then c.handles[id].charge else 0
  }

  /** What taking one cached entry out does: the deleter runs now if no client holds it. */
  ghost predicate ErasedOne(before: Lists, after: Lists, held: Clients, left: Clients, id: nat) {
    after.lru == Without(before.lru, id) && after.in_use == Without(before.in_use, id) && after.next_id == before.next_id &&
    id in before.handles && id in held && after.usage == before.usage - before.handles[id].charge &&
    after.deleted == before.deleted + (if held[id] == 0 then [id] else []) &&
    (id in after.handles ==> held[id] > 0) &&
    (forall x :: x in after.handles && x != id ==> x in before.handles && after.handles[x] == before.handles[x]) &&
    (forall x :: x in left ==> x in held && left[x] == held[x]) &&
    (forall x :: x in held && held[x] > 0 ==> x in left)
  }

  /** The first `n` entries of the LRU list have been deleted, in order, and nothing else. */
  ghost predicate Drained(before: Lists, after: Lists, held: Clients, left: Clients, n: nat) {
    n <= |before.lru| && after.lru == before.lru[n..] && after.deleted == before.deleted + before.lru[..n] &&
    after.next_id == before.next_id &&
    (forall x :: x in after.handles ==> x in before.handles && after.handles[x] == before.handles[x]) &&
    (forall x :: x in left ==> x in held && left[x] == held[x]) &&
    (forall x :: x in held && held[x] > 0 ==> x in left)
  }

  /** Replacing an entry changes no charge of a released one. */
  lemma ErasedCharges(c: Lists, clients: Clients, key: Bytes, charge: nat, after: Lists, left: Clients, id: nat, held: Clients)
    requires Inv(c, clients) && Inv(Added(c, key, charge), held) && ErasedOne(Added(c, key, charge), after, held, left, id)
    requires Inv(after, left)
    ensures forall x :: x in after.lru ==> ChargeOf(after, x) == ChargeOf(c, x)
  {
    ReleasedAreOld(c, clients);
    ReleasedAreOld(after, left);
    ReleasedStay(Added(c, key, charge), held, id);
    hide Inv, Without;
  }

  lemma ReleasedAreOld(c: Lists, clients: Clients)
    requires Inv(c, clients)
    ensures forall x :: x in c.lru ==> x in c.handles && x != c.next_id
  {
  }

  lemma ReleasedStay(c: Lists, clients: Clients, id: nat)
    requires Inv(c, clients)
    ensures forall x :: x in Without(c.lru, id) ==> x in c.lru && x != id
  {
    WithoutIs(c.lru, id);
  }

  lemma NothingDrained(c: Lists, clients: Clients, contents: map<Bytes, nat>)
    ensures Drained(c, c, clients, clients, 0) && StillCached(contents, clients, contents) && Shrunk(contents, contents)
  {
  }

  lemma DrainedFront(before: Lists, after: Lists, held: Clients, left: Clients, n: nat)
    requires Drained(before, after, held, left, n)
    ensures n <= |before.lru| && (after.lru == [] ==> before.lru[..n] == before.lru)
    ensures after.deleted == before.deleted + before.lru[..n]
    ensures forall x :: x in held && held[x] > 0 ==> x in left && left[x] == held[x]
  {
  }

  lemma DrainedStep(before: Lists, mid: Lists, after: Lists, held: Clients, some: Clients, left: Clients, n: nat)
    requires Drained(before, mid, held, some, n) && mid.lru != [] && ErasedOne(mid, after, some, left, mid.lru[0])
    requires Without(mid.lru, mid.lru[0]) == mid.lru[1..] && mid.lru[0] in some && some[mid.lru[0]] == 0
    ensures n < |before.lru| && Drained(before, after, held, left, n + 1)
    ensures mid.usage == after.usage + ChargeOf(before, before.lru[n]) && |after.lru| < |mid.lru|
    ensures mid.lru[0] in held && held[mid.lru[0]] == 0
  {
  }

  ghost predicate Shrunk(before: map<Bytes, nat>, after: map<Bytes, nat>) {
    forall key :: key in after ==> key in before && after[key] == before[key]
  }

  /** Entries that clients hold are still found. */
  /** Entries that clients hold are still found. */
  ghost predicate StillCached(before: map<Bytes, nat>, clients: Clients, after: map<Bytes, nat>) {
    forall key :: key in before && before[key] in clients && clients[before[key]] > 0 ==>
      key in after && after[key] == before[key]
  }

  lemma EmptyOk()
    ensures Inv(Lists(0, [], [], map[], 0, []), map[]) && TableOk(map[], map[], None)
  {
    NothingCached(map[], map[]);
  }

  lemma NothingCached(contents: map<Bytes, nat>, handles: map<nat, Handle>)
    requires |contents| == 0 && |handles| == 0
    ensures TableOk(contents, handles, None)
  {
    forall key, id: nat
      ensures !Leads(contents, key, id) && !Cached(handles, key, id)
    {
      assert contents == map[] && handles == map[];
    }
  }

  /** Clients hold live handles, and the next one is new. */
  lemma HandlesOfClients(c: Lists, clients: Clients)
    requires Inv(c, clients)
    ensures CountsOk(c, clients) && clients.Keys == c.handles.Keys && c.next_id !in c.handles
    ensures forall id :: id in clients && clients[id] > 0 ==> c.handles[id].refs > 0
  {
  }

  lemma CachedIsLive(contents: map<Bytes, nat>, c: Lists, clients: Clients, key: Bytes)
    requires Inv(c, clients) && TableOk(contents, c.handles, None) && key in contents
    ensures contents[key] in c.handles && contents[key] in clients
  {
    assert Leads(contents, key, contents[key]);
  }

  lemma RefSame(c: Lists, clients: Clients, id: nat)
    requires Inv(c, clients) && id in c.handles
    ensures var later := Ref(c, id).handles;
      (forall x :: (x in c.handles && c.handles[x].in_cache) <==> (x in later && later[x].in_cache)) &&
      (forall x :: x in c.handles && x in later ==> c.handles[x].key == later[x].key)
    ensures Ref(c, id).deleted == c.deleted && Ref(c, id).usage == c.usage && Ref(c, id).lru == Without(c.lru, id)
  {
    hide UsageOk, DeletedOk, Without;
    WithoutIs(c.lru, id);
  }

  lemma UnrefSame(c: Lists, clients: Clients, id: nat)
    requires Inv(c, clients) && id in c.handles && clients[id] > 0
    ensures var later := Unref(c, id).handles;
      (forall x :: (x in c.handles && c.handles[x].in_cache) <==> (x in later && later[x].in_cache)) &&
      (forall x :: x in c.handles && x in later ==> c.handles[x].key == later[x].key)
    ensures Unref(c, id).deleted == c.deleted + if clients[id] == 1 && !c.handles[id].in_cache then [id] else []
    ensures Unref(c, id).lru == c.lru + if clients[id] == 1 && c.handles[id].in_cache then [id] else []
    ensures Unref(c, id).usage == c.usage
  {
  }

  lemma OldestIsCached(contents: map<Bytes, nat>, c: Lists, clients: Clients)
    requires Inv(c, clients) && TableOk(contents, c.handles, None) && c.lru != []
    ensures c.lru[0] in c.handles
    ensures var key := c.handles[c.lru[0]].key; key in contents && contents[key] == c.lru[0]
    ensures Without(c.lru, c.lru[0]) == c.lru[1..] && c.lru[0] in clients && clients[c.lru[0]] == 0
  {
    var id := c.lru[0];
    assert id in c.lru;
    var key := c.handles[id].key;
    assert Cached(c.handles, key, id);
    assert Leads(contents, key, id);
  }

  /** In every reachable state of the cache, each deleter has run at most once, and only for a
      handle that neither a client nor the cache refers to. */
  lemma DeletersRunOnce(c: Lists, clients: Clients)
    requires Inv(c, clients)
    ensures Unrepeated(c.deleted)
    ensures forall id :: id in c.deleted ==> id !in clients && id !in c.lru && id !in c.in_use
    ensures forall id: nat :: id < c.next_id && id !in c.deleted ==>
      id in c.handles && (clients[id] > 0 || c.handles[id].in_cache)
  {
  }
}
