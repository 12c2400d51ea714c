/** MergingIterator (table/merger.cc): a two-way cursor over the union of sorted children. */
module Merger {
  import opened DbFormat
  import opened Version

  datatype Direction = Forward | Reverse

  ghost predicate SortedAll(children: seq<seq<Entry>>) {
    forall i :: 0 <= i < |children| ==> Sorted(children[i])
  }

  /** No two children hold the same internal key. */
  ghost predicate KeysDistinct(children: seq<seq<Entry>>) {
    forall i, j, a, b ::
      0 <= i < |children| && 0 <= j < |children| && i != j && a in children[i] && b in children[j] ==> a.k != b.k
  }

  /** `union` lists the entries of all the children in order. */
  ghost predicate IsUnion(union: seq<Entry>, children: seq<seq<Entry>>) {
    Sorted(union) &&
    (forall e :: e in union ==> exists i :: 0 <= i < |children| && e in children[i]) &&
    (forall i, e :: 0 <= i < |children| && e in children[i] ==> e in union)
  }

  ghost predicate Mergeable(children: seq<seq<Entry>>, union: seq<Entry>) {
    SortedAll(children) && KeysDistinct(children) && IsUnion(union, children)
  }

  /** How many entries of `child` lie among the first `n` of the union. */
  ghost function Front(child: seq<Entry>, union: seq<Entry>, n: nat): nat
    requires n <= |union|
  {
    if n < |union| then SeekIndex(child, union[n].k) else |child|
  }

  /** One back from `j`; stepping back from the first entry makes a cursor invalid. */
  function Back(j: nat, length: nat): nat {
    if j == 0 then length else j - 1
  }

  lemma {:induction false} SeekIndexIs(s: seq<Entry>, t: IKey, i: nat)
    requires Sorted(s) && i <= |s|
    requires i > 0 ==> Less(s[i - 1].k, t)
    requires i < |s| ==> !Less(s[i].k, t)
    ensures SeekIndex(s, t) == i
  {
    var j := SeekIndex(s, t);
    assert forall m :: 0 <= m < i ==> m == i - 1 || Less(s[m].k, s[i - 1].k);
  }

  /** Entries at the front are the next of the union. */
  lemma FrontBounds(children: seq<seq<Entry>>, union: seq<Entry>, n: nat, i: nat)
    requires Mergeable(children, union) && n <= |union| && i < |children|
    ensures var j := Front(children[i], union, n);
      j <= |children[i]| &&
      (j < |children[i]| ==> n < |union| && !Less(children[i][j].k, union[n].k)) &&
      (j > 0 ==> n > 0 && !Less(union[n - 1].k, children[i][j - 1].k))
  {
    var j := Front(children[i], union, n);
    if j > 0 {
      var e := children[i][j - 1];
      assert e in children[i];
      assert e in union;
      var m :| 0 <= m < |union| && union[m] == e;
      if n < |union| {
        assert Less(e.k, union[n].k);
        assert m < n;
      }
    }
  }

  lemma LaterInUnion(union: seq<Entry>, n: nat, e: Entry)
    requires Sorted(union) && n < |union| && e in union && Less(union[n].k, e.k)
    ensures n + 1 < |union| && !Less(e.k, union[n + 1].k)
  {
    var m :| 0 <= m < |union| && union[m] == e;
    assert m >= n;
  }

  lemma AfterHome(children: seq<seq<Entry>>, union: seq<Entry>, n: nat, c: nat, j: nat)
    requires Mergeable(children, union) && n < |union|
    requires c < |children| && j < |children[c]| && children[c][j] == union[n]
    ensures Front(children[c], union, n) == j && Front(children[c], union, n + 1) == j + 1
  {
    var child := children[c];
    SeekIndexIs(child, union[n].k, j);
    if j + 1 < |child| {
      assert child[j + 1] in child;
      LaterInUnion(union, n, child[j + 1]);
    }
    if n + 1 < |union| {
      SeekIndexIs(child, union[n + 1].k, j + 1);
    }
  }

  /** Which child holds the n-th entry of the union, and where. */
  lemma HomeOf(children: seq<seq<Entry>>, union: seq<Entry>, n: nat) returns (c: nat, j: nat)
    requires Mergeable(children, union) && n < |union|
    ensures c < |children| && j < |children[c]| && children[c][j] == union[n]
    ensures Front(children[c], union, n) == j && Front(children[c], union, n + 1) == j + 1
  {
    assert union[n] in union;
    c :| 0 <= c < |children| && union[n] in children[c];
    j :| 0 <= j < |children[c]| && children[c][j] == union[n];
    AfterHome(children, union, n, c, j);
  }

  /** Passing the n-th entry of the union moves only the child that holds it. */
  lemma FrontStep(children: seq<seq<Entry>>, union: seq<Entry>, n: nat, c: nat, i: nat)
    requires Mergeable(children, union) && n < |union| && c < |children| && i < |children| && i != c
    requires union[n] in children[c]
    ensures Front(children[i], union, n + 1) == Front(children[i], union, n)
  {
    var child := children[i];
    var j := Front(child, union, n);
    FrontBounds(children, union, n, i);
    if j < |child| {
      assert child[j] in child;
      assert child[j].k != union[n].k;
      LessIsPackedOrder(child[j].k, union[n].k);
      LaterInUnion(union, n, child[j]);
    }
    if n + 1 < |union| {
      SeekIndexIs(child, union[n + 1].k, j);
    }
  }

  /** `s` is a valid child with the least current key among the first `n`, or none is valid. */
  ghost predicate IsSmallest(children: seq<seq<Entry>>, pos: seq<nat>, n: nat, s: Option<nat>)
    requires n <= |children| == |pos|
  {
    match s
    case Some(c) =>
      c < n && pos[c] < |children[c]| &&
      (forall j :: 0 <= j < n && pos[j] < |children[j]| ==> !Less(children[j][pos[j]].k, children[c][pos[c]].k))
    case None => forall j :: 0 <= j < n ==> pos[j] >= |children[j]|
  }

  ghost predicate IsLargest(children: seq<seq<Entry>>, pos: seq<nat>, n: nat, s: Option<nat>)
    requires n <= |children| == |pos|
  {
    match s
    case Some(c) =>
      n <= c < |children| && pos[c] < |children[c]| &&
      (forall j :: n <= j < |children| && pos[j] < |children[j]| ==> !Less(children[c][pos[c]].k, children[j][pos[j]].k))
    case None => forall j :: n <= j < |children| ==> pos[j] >= |children[j]|
  }

  /** The scan of FindSmallest. */
  method ScanSmallest(children: seq<seq<Entry>>, pos: seq<nat>) returns (smallest: Option<nat>)
    requires |pos| == |children|
    ensures IsSmallest(children, pos, |children|, smallest)
  {
    smallest := None;
    for i := 0 to |children|
      invariant IsSmallest(children, pos, i, smallest)
    {
      if pos[i] < |children[i]| {
        if smallest.None? || Less(children[i][pos[i]].k, children[smallest.value][pos[smallest.value]].k) {
          smallest := Some(i);
        }
      }
    }
  }

  /** The scan of FindLargest, from the last child. */
  method ScanLargest(children: seq<seq<Entry>>, pos: seq<nat>) returns (largest: Option<nat>)
    requires |pos| == |children|
    ensures IsLargest(children, pos, 0, largest)
  {
    largest := None;
    for i := |children| downto 0
      invariant IsLargest(children, pos, i, largest)
    {
      if pos[i] < |children[i]| {
        if largest.None? || Less(children[largest.value][pos[largest.value]].k, children[i][pos[i]].k) {
          largest := Some(i);
        }
      }
    }
  }

  class MergingIterator {
    const children: seq<seq<Entry>>
    ghost const union: seq<Entry>
    var pos: seq<nat>
    var current: Option<nat>
    var direction: Direction
    ghost var at: nat

    /** The children stand where a merge that has reached `at` leaves them. */
    ghost predicate Placed()
      requires Mergeable(children, union) && |pos| == |children| && at < |union|
      reads this
    {
      forall i :: 0 <= i < |children| ==>
        pos[i] == if direction.Forward? then Front(children[i], union, at)
                  else Back(Front(children[i], union, at + 1), |children[i]|)
    }

    ghost predicate Valid()
      reads this
    {
      Mergeable(children, union) && |pos| == |children| && at <= |union| &&
      (current.None? <==> at == |union|) &&
      (current.Some? ==>
        current.value < |children| && pos[current.value] < |children[current.value]| &&
        children[current.value][pos[current.value]] == union[at] && Placed())
    }

    /** A cursor over the union: valid exactly while it stands on an entry. */
    ghost predicate Positioned()
      reads this
    {
      at <= |union| && (IsValid() <==> at < |union|)
    }

    /** Iterator::Valid. */
    predicate IsValid()
      reads this
    {
      current.Some?
    }

    /** The merged view: the union is what a client walks over. */
    method Entry() returns (e: Entry)
      requires Valid() && IsValid()
      ensures at < |union| && e == union[at]
    {
      e := children[current.value][pos[current.value]];
    }

    constructor (children: seq<seq<Entry>>, ghost union: seq<Entry>)
      requires Mergeable(children, union)
      ensures Valid() && this.children == children && this.union == union && !IsValid()
    {
      this.children, this.union := children, union;
      pos := seq(|children|, i requires 0 <= i < |children| => |children[i]|);
      current, direction, at := None, Forward, |union|;
    }

    /** FindSmallest: the valid child with the least key becomes current. */
    method FindSmallest(ghost n: nat)
      requires Mergeable(children, union) && |pos| == |children| && n <= |union|
      requires forall i :: 0 <= i < |children| ==> pos[i] == Front(children[i], union, n)
      modifies this`current, this`at, this`direction
      ensures at == n && direction == Forward && Valid()
    {
      var smallest := ScanSmallest(children, pos);
      SmallestIsNext(smallest, n);
      current, direction, at := smallest, Forward, n;
    }

    lemma SmallestIsNext(smallest: Option<nat>, n: nat)
      requires Mergeable(children, union) && |pos| == |children| && n <= |union|
      requires forall i :: 0 <= i < |children| ==> pos[i] == Front(children[i], union, n)
      requires IsSmallest(children, pos, |children|, smallest)
      ensures smallest.None? <==> n == |union|
      ensures smallest.Some? ==> n < |union| && children[smallest.value][pos[smallest.value]] == union[n]
    {
      if n < |union| {
        var c, j := HomeOf(children, union, n);
        assert pos[c] == j;
        var s := smallest.value;
        FrontBounds(children, union, n, s);
        var e := children[s][pos[s]];
        LessIsPackedOrder(e.k, union[n].k);
        assert e in children[s] && union[n] in children[c];
        assert e.k == union[n].k;
        assert s == c;
      } else if smallest.Some? {
        FrontBounds(children, union, n, smallest.value);
      }
    }

    /** FindLargest: the valid child with the greatest key becomes current. */
    method FindLargest(ghost n: nat)
      requires Mergeable(children, union) && |pos| == |children| && n <= |union|
      requires forall i :: 0 <= i < |children| ==> pos[i] == Back(Front(children[i], union, n), |children[i]|)
      modifies this`current, this`at, this`direction
      ensures at == Back(n, |union|) && direction == Reverse && Valid()
    {
      var largest := ScanLargest(children, pos);
      LargestIsPrevious(largest, n);
      current, direction, at := largest, Reverse, Back(n, |union|);
    }

    lemma LargestIsPrevious(largest: Option<nat>, n: nat)
      requires Mergeable(children, union) && |pos| == |children| && n <= |union|
      requires forall i :: 0 <= i < |children| ==> pos[i] == Back(Front(children[i], union, n), |children[i]|)
      requires IsLargest(children, pos, 0, largest)
      ensures largest.None? <==> Back(n, |union|) == |union|
      ensures largest.Some? ==> n > 0 && children[largest.value][pos[largest.value]] == union[n - 1]
    {
      if n > 0 {
        var c, j := HomeOf(children, union, n - 1);
        assert pos[c] == j;
        var s := largest.value;
        FrontBounds(children, union, n, s);
        var e := children[s][pos[s]];
        LessIsPackedOrder(e.k, union[n - 1].k);
        assert e in children[s] && union[n - 1] in children[c];
        assert e.k == union[n - 1].k;
        assert s == c;
      } else if largest.Some? {
        FrontBounds(children, union, n, largest.value);
      }
    }

    method SeekToFirst()
      requires Valid()
      modifies this
      ensures Valid() && Positioned() && at == 0
    {
      pos := seq(|children|, i => 0);
      FirstFront();
      FindSmallest(0);
    }

    lemma FirstFront()
      requires Mergeable(children, union)
      ensures forall i :: 0 <= i < |children| ==> Front(children[i], union, 0) == 0
    {
      forall i | 0 <= i < |children| ensures Front(children[i], union, 0) == 0 {
        FrontBounds(children, union, 0, i);
      }
    }

    method SeekToLast()
      requires Valid()
      modifies this
      ensures Valid() && Positioned() && at == Back(|union|, |union|)
    {
      pos := seq(|children|, i requires 0 <= i < |children| => Back(|children[i]|, |children[i]|));
      FindLargest(|union|);
    }

    method Seek(target: IKey)
      requires Valid()
      modifies this
      ensures Valid() && Positioned() && at == SeekIndex(union, target)
    {
      pos := seq(|children|, i requires 0 <= i < |children| => SeekIndex(children[i], target));
      ghost var n := SeekIndex(union, target);
      forall i | 0 <= i < |children| ensures pos[i] == Front(children[i], union, n) {
        SeekFront(target, i);
      }
      FindSmallest(n);
    }

    lemma SeekFront(target: IKey, i: nat)
      requires Mergeable(children, union) && i < |children|
      ensures SeekIndex(children[i], target) == Front(children[i], union, SeekIndex(union, target))
    {
      var n := SeekIndex(union, target);
      var j := Front(children[i], union, n);
      FrontBounds(children, union, n, i);
      SeekIndexIs(children[i], target, j);
    }

    /** The current child stands on the current entry. */
    lemma CurrentFront()
      requires Valid() && IsValid()
      ensures var c := current.value;
        union[at] in children[c] &&
        pos[c] == Front(children[c], union, at) && pos[c] + 1 == Front(children[c], union, at + 1)
    {
      var c := current.value;
      assert children[c][pos[c]] in children[c];
      AfterHome(children, union, at, c, pos[c]);
    }

    /** Put every child but `c` on its first entry after the current key. */
    method OthersAhead(c: nat, key: IKey, ghost n: nat)
      requires Mergeable(children, union) && |pos| == |children| && n < |union| && c < |children|
      requires key == union[n].k && union[n] in children[c]
      modifies this`pos
      ensures |pos| == |children| && pos[c] == old(pos[c])
      ensures forall j :: 0 <= j < |children| && j != c ==> pos[j] == Front(children[j], union, n)
    {
      for i := 0 to |children|
        invariant |pos| == |children| && pos[c] == old(pos[c])
        invariant forall j :: 0 <= j < i && j != c ==> pos[j] == Front(children[j], union, n)
      {
        if i != c {
          var p := SeekIndex(children[i], key);
          assert p < |children[i]| ==> children[i][p] in children[i];
          if p < |children[i]| && children[i][p].k == key {
            // The code steps past an equal key here; distinct children have none.
            assert false;
          }
          pos := pos[i := p];
        }
      }
    }

    /** Put every child but `c` on its last entry before the current key. */
    method OthersBehind(c: nat, key: IKey, ghost n: nat)
      requires Mergeable(children, union) && |pos| == |children| && n < |union| && c < |children|
      requires key == union[n].k
      modifies this`pos
      ensures |pos| == |children| && pos[c] == old(pos[c])
      ensures forall j :: 0 <= j < |children| && j != c ==> pos[j] == Back(Front(children[j], union, n), |children[j]|)
    {
      for i := 0 to |children|
        invariant |pos| == |children| && pos[c] == old(pos[c])
        invariant forall j :: 0 <= j < i && j != c ==> pos[j] == Back(Front(children[j], union, n), |children[j]|)
      {
        if i != c {
          var p := SeekIndex(children[i], key);
          if p < |children[i]| {
            p := Back(p, |children[i]|);
          } else {
            p := Back(|children[i]|, |children[i]|);
          }
          pos := pos[i := p];
        }
      }
    }

    /** Next.  After a move backwards every other child is first put back ahead of the key. */
    method Next()
      requires Valid() && IsValid()
      modifies this
      ensures Valid() && Positioned() && at == old(at) + 1
    {
      var c := current.value;
      ghost var n := at;
      CurrentFront();
      if direction != Forward {
        OthersAhead(c, children[c][pos[c]].k, n);
        direction := Forward;
      }
      pos := pos[c := pos[c] + 1];
      forall i | 0 <= i < |children| ensures pos[i] == Front(children[i], union, n + 1) {
        if i != c {
          FrontStep(children, union, n, c, i);
        }
      }
      FindSmallest(n + 1);
    }

    /** In reverse, the other children stand before the current entry already. */
    lemma OthersStay(c: nat, n: nat)
      requires Valid() && IsValid() && direction == Reverse && current == Some(c) && at == n
      requires union[n] in children[c]
      ensures forall i :: 0 <= i < |children| && i != c ==> pos[i] == Back(Front(children[i], union, n), |children[i]|)
    {
      forall i | 0 <= i < |children| && i != c
        ensures pos[i] == Back(Front(children[i], union, n), |children[i]|)
      {
        FrontStep(children, union, n, c, i);
      }
    }

    /** Prev.  After a move forwards every other child is first put behind the key. */
    method Prev()
      requires Valid() && IsValid()
      modifies this
      ensures Valid() && Positioned() && at == Back(old(at), |union|)
    {
      var c := current.value;
      ghost var n := at;
      CurrentFront();
      if direction != Reverse {
        OthersBehind(c, children[c][pos[c]].k, n);
        direction := Reverse;
      } else {
        OthersStay(c, n);
      }
      pos := pos[c := Back(pos[c], |children[c]|)];
      FindLargest(n);
    }
  }
}
