/** DBIter (db/db_iter.cc): a two-way cursor over the user keys visible at one sequence number,
    driving an internal iterator over all their versions. */
module DbIter {
  import opened DbFormat
  import opened Lsm
  import opened Version
  import opened Merger

  ghost predicate Seen(all: seq<Entry>, sequence: nat, i: int) {
    0 <= i < |all| && all[i].k.seqno <= sequence
  }

  /** Entry `i` is what the snapshot shows for its user key: its newest visible version, and a value. */
  ghost predicate Shown(all: seq<Entry>, sequence: nat, i: int) {
    Seen(all, sequence, i) && all[i].k.kind.Value? &&
    forall j :: 0 <= j < i && all[j].k.user == all[i].k.user ==> !Seen(all, sequence, j)
  }

  ghost predicate NoneShown(all: seq<Entry>, sequence: nat, from: int, to: int) {
    forall i :: from <= i < to ==> !Shown(all, sequence, i)
  }

  /** One version of a user key per sequence number. */
  ghost predicate Versions(all: seq<Entry>) {
    Sorted(all) &&
    forall i, j :: 0 <= i < j < |all| && all[i].k.user == all[j].k.user ==> all[i].k.seqno > all[j].k.seqno
  }

  lemma ReadIsShown(all: seq<Entry>, sequence: nat, k: UserKey, v: Bytes) returns (i: nat)
    requires Versions(all) && ReadsAs(EntrySet(all), k, sequence, Some(v))
    ensures Shown(all, sequence, i) && all[i].k.user == k && all[i].v == v
  {
    var stored := EntrySet(all);
    var e :| IsNewest(stored, k, sequence, e) && e.k.kind.Value? && e.v == v;
    i :| 0 <= i < |all| && all[i] == e;
    forall j | 0 <= j < i && all[j].k.user == k
      ensures !Seen(all, sequence, j)
    {
      assert all[j] in stored;
    }
  }

  lemma ShownIsRead(all: seq<Entry>, sequence: nat, i: nat)
    requires Versions(all) && Shown(all, sequence, i)
    ensures ReadsAs(EntrySet(all), all[i].k.user, sequence, Some(all[i].v))
  {
    var stored := EntrySet(all);
    forall x | x in stored && x.k.user == all[i].k.user && x.k.seqno <= sequence
      ensures x.k.seqno <= all[i].k.seqno
    {
      var j :| 0 <= j < |all| && all[j] == x;
      assert Seen(all, sequence, j);
    }
    assert all[i] in stored;
    assert IsNewest(stored, all[i].k.user, sequence, all[i]);
  }

  /** The shown entries are the sorted map of the snapshot: a key is shown with a value exactly
      when the flat lookup finds that value (and the keys strictly increase, ShownIncrease). */
  lemma ShownIsMap(all: seq<Entry>, sequence: nat, k: UserKey, v: Bytes)
    requires Versions(all)
    ensures ReadsAs(EntrySet(all), k, sequence, Some(v)) <==>
      exists i: nat :: Shown(all, sequence, i) && all[i].k.user == k && all[i].v == v
  {
    if ReadsAs(EntrySet(all), k, sequence, Some(v)) {
      var i := ReadIsShown(all, sequence, k, v);
    }
    if i: nat :| Shown(all, sequence, i) && all[i].k.user == k && all[i].v == v {
      ShownIsRead(all, sequence, i);
    }
  }

  lemma ShownIncrease(all: seq<Entry>, sequence: nat, i: int, j: int)
    requires Sorted(all) && Shown(all, sequence, i) && Shown(all, sequence, j) && i < j
    ensures all[i].k.user < all[j].k.user
  {
    assert Less(all[i].k, all[j].k);
  }

  class DBIter {
    const inner: MergingIterator
    const sequence: nat
    var direction: Direction
    var valid: bool
    var savedKey: Option<UserKey>
    var savedValue: Bytes
    /** The entry shown, as an index into the internal iterator's entries. */
    ghost var shown: nat

    ghost function All(): seq<Entry>
    {
      inner.union
    }

    ghost predicate Valid()
      reads this, inner
    {
      inner.Valid() && inner.Positioned() && Sorted(All()) &&
      (valid ==> shown < |All()| && Shown(All(), sequence, shown)) &&
      (valid && direction.Forward? ==> inner.at == shown) &&
      (valid && direction.Reverse? ==>
        savedKey == Some(All()[shown].k.user) && savedValue == All()[shown].v && JustBefore(All(), sequence, inner.at, shown))
    }

    constructor (inner: MergingIterator, sequence: nat)
      requires inner.Valid()
      ensures Valid() && !valid && this.inner == inner && this.sequence == sequence
    {
      this.inner, this.sequence := inner, sequence;
      direction, valid, savedKey, savedValue := Forward, false, None, [];
      new;
      MergeableSorted(inner);
    }

    method Key() returns (k: UserKey)
      requires Valid() && valid
      ensures k == All()[shown].k.user
    {
      if direction.Forward? {
        var e := inner.Entry();
        k := e.k.user;
      } else {
        k := savedKey.value;
      }
    }

    method Value() returns (v: Bytes)
      requires Valid() && valid
      ensures v == All()[shown].v
    {
      if direction.Forward? {
        var e := inner.Entry();
        v := e.v;
      } else {
        v := savedValue;
      }
    }

    /** FindNextUserEntry: the first shown entry from here on whose key is past the skipped one. */
    method FindNextUserEntry(skipping0: bool, skip0: Option<UserKey>)
      requires inner.Valid() && inner.Positioned() && inner.IsValid() && Sorted(All()) && direction.Forward?
      requires skipping0 ==> skip0.Some? && SeenNotBelow(All(), sequence, inner.at, skip0.value)
      requires SkipsRight(All(), sequence, inner.at, skipping0, skip0, skipping0, skip0)
      modifies this, inner
      ensures Valid() && direction.Forward?
      ensures valid ==> old(inner.at) <= shown && Past(All(), shown, skipping0, skip0)
      ensures NonePast(All(), sequence, old(inner.at), if valid then shown else |All()|, skipping0, skip0)
    {
      hide MergingIterator.Valid, SkipsRight, NonePast, SeenNotBelow, Sorted, Shown, Past, JustBefore;
      NonePastEmpty(All(), sequence, inner.at, skipping0, skip0);
      ghost var from := inner.at;
      var skipping, skip := skipping0, skip0;
      while true
        invariant inner.Valid() && inner.Positioned() && inner.IsValid() && direction.Forward?
        invariant from <= inner.at < |All()| && (skipping ==> skip.Some?)
        invariant SkipsRight(All(), sequence, inner.at, skipping0, skip0, skipping, skip)
        invariant NonePast(All(), sequence, from, inner.at, skipping0, skip0)
        decreases |All()| - inner.at
      {
        var e := inner.Entry();
        ghost var at := inner.at;
        if e.k.seqno <= sequence && e.k.kind.Value? && !(skipping && e.k.user <= skip.value) {
          ShownHere(All(), sequence, at, skipping0, skip0, skipping, skip);
          valid, savedKey, shown := true, None, at;
          return;
        }
        HiddenHere(All(), sequence, from, at, skipping0, skip0, skipping, skip);
        if e.k.seqno <= sequence && e.k.kind.Deletion? {
          skip, skipping := Some(e.k.user), true;
        }
        inner.Next();
        if !inner.IsValid() {
          break;
        }
      }
      savedKey, valid := None, false;
    }

    /** FindPrevUserEntry: the last shown entry up to here. */
    method FindPrevUserEntry()
      requires inner.Valid() && inner.Positioned() && Sorted(All()) && direction.Reverse?
      modifies this, inner
      ensures Valid()
      ensures valid ==> shown < EndOf(All(), old(inner.at))
      ensures NoneShown(All(), sequence, if valid then shown + 1 else 0, EndOf(All(), old(inner.at)))
    {
      hide MergingIterator.Valid, Behind, Sorted, Shown, JustBefore, NoneShown;
      var kind := Kind.Deletion;
      ghost var end := EndOf(All(), inner.at);
      ghost var m := 0;
      BehindNothing(All(), sequence, end, savedKey, savedValue);
      while inner.IsValid()
        invariant inner.Valid() && inner.Positioned() && direction.Reverse?
        invariant EndOf(All(), inner.at) <= end
        invariant Behind(All(), sequence, EndOf(All(), inner.at), end, kind, m, savedKey, savedValue)
        decreases EndOf(All(), inner.at)
      {
        var e := inner.Entry();
        ghost var at := inner.at;
        if e.k.seqno <= sequence {
          BehindHasKey(All(), sequence, at + 1, end, kind, m, savedKey, savedValue);
          if kind.Value? && e.k.user < savedKey.value {
            break;
          }
          BehindSeen(All(), sequence, at, end, kind, m, savedKey, savedValue);
          kind := e.k.kind;
          if kind.Deletion? {
            savedKey, savedValue := None, [];
          } else {
            m := at;
            savedKey, savedValue := Some(e.k.user), e.v;
          }
        } else {
          BehindUnseen(All(), sequence, at, end, kind, m, savedKey, savedValue);
        }
        inner.Prev();
      }
      if kind.Deletion? {
        BehindNone(All(), sequence, inner.at, end, kind, m, savedKey, savedValue);
        valid, savedKey, savedValue, direction := false, None, [], Forward;
      } else {
        BehindFound(All(), sequence, inner.at, end, kind, m, savedKey, savedValue);
        valid, shown := true, m;
      }
    }

    /** Next: the next shown entry. */
    method Next()
      requires Valid() && valid
      modifies this, inner
      ensures Valid()
      ensures valid ==> shown > old(shown)
      ensures NoneShown(All(), sequence, old(shown) + 1, if valid then shown else |All()|)
    {
      hide MergingIterator.Valid, Sorted, NoneShown, SkipsRight, NonePast, SeenNotBelow, Past;
      ghost var was := shown;
      if direction.Reverse? {
        direction := Forward;
        ReadyFromBehind(All(), sequence, inner.at, was);
        if !inner.IsValid() {
          inner.SeekToFirst();
        } else {
          inner.Next();
        }
        assert inner.IsValid();
      } else {
        var e := inner.Entry();
        savedKey := Some(e.k.user);
        ReadyFromShown(All(), sequence, was);
      }
      var key := savedKey;
      FindNextUserEntry(true, key);
      NextIsNext(All(), sequence, was, if valid then shown else |All()|, valid);
    }

    /** Prev: the previous shown entry. */
    method Prev()
      requires Valid() && valid
      modifies this, inner
      ensures Valid()
      ensures valid ==> shown < old(shown)
      ensures NoneShown(All(), sequence, if valid then shown + 1 else 0, old(shown))
    {
      hide MergingIterator.Valid, Sorted, NoneShown, Shown, SameUser;
      ghost var was := shown;
      if direction.Forward? {
        var e := inner.Entry();
        savedKey := Some(e.k.user);
        SameUserStart(All(), was);
        while true
          invariant inner.Valid() && inner.Positioned() && inner.IsValid() && direction.Forward? && valid && shown == was
          invariant inner.at <= was && SameUser(All(), inner.at, was) && savedKey == Some(All()[was].k.user)
          decreases inner.at
        {
          ghost var at := inner.at;
          inner.Prev();
          if !inner.IsValid() {
            SameUserUnseen(All(), sequence, 0, was);
            valid, savedKey, savedValue := false, None, [];
            return;
          }
          e := inner.Entry();
          if e.k.user < savedKey.value {
            SameUserUnseen(All(), sequence, at, was);
            break;
          }
          SameUserStep(All(), inner.at, was);
        }
        direction := Reverse;
      } else {
        BeforeUnseen(All(), sequence, inner.at, was);
      }
      ghost var end := EndOf(All(), inner.at);
      FindPrevUserEntry();
      JoinNone(All(), sequence, if valid then shown + 1 else 0, end, was);
    }

    /** Seek: the first shown entry whose key is at or after the target. */
    method Seek(target: UserKey)
      requires Valid()
      modifies this, inner
      ensures Valid() && direction.Forward?
      ensures valid ==> All()[shown].k.user >= target
      ensures forall i :: 0 <= i < (if valid then shown else |All()|) && Shown(All(), sequence, i) ==>
        All()[i].k.user < target
    {
      hide MergingIterator.Valid, Sorted, SkipsRight, NonePast;
      direction, savedValue, savedKey := Forward, [], None;
      inner.Seek(IKey(target, sequence, Kind.Value));
      ghost var at := inner.at;
      ReadyFromSeek(All(), sequence, target);
      if inner.IsValid() {
        FindNextUserEntry(false, None);
        FirstFrom(All(), sequence, at, if valid then shown else |All()|, None);
      } else {
        valid := false;
      }
    }

    method SeekToFirst()
      requires Valid()
      modifies this, inner
      ensures Valid() && direction.Forward?
      ensures NoneShown(All(), sequence, 0, if valid then shown else |All()|)
    {
      hide MergingIterator.Valid, Sorted, SkipsRight, NonePast, Shown;
      direction, savedValue := Forward, [];
      inner.SeekToFirst();
      ReadyFromStart(All(), sequence, savedKey);
      var key := savedKey;
      if inner.IsValid() {
        FindNextUserEntry(false, key);
        FirstFrom(All(), sequence, 0, if valid then shown else |All()|, key);
      } else {
        valid := false;
      }
    }

    method SeekToLast()
      requires Valid()
      modifies this, inner
      ensures Valid()
      ensures NoneShown(All(), sequence, if valid then shown + 1 else 0, |All()|)
    {
      direction, savedValue := Reverse, [];
      inner.SeekToLast();
      FindPrevUserEntry();
    }
  }

  // ---------------------------------------------------------------- forward scanning

  /** After a move backwards, the entries up to the key's own versions are invisible. */
  lemma ReadyFromBehind(all: seq<Entry>, sequence: nat, at: nat, shown: nat)
    requires Sorted(all) && shown < |all| && at <= |all| && JustBefore(all, sequence, at, shown)
    ensures var from, key := EndOf(all, at), all[shown].k.user;
      from <= shown && SeenNotBelow(all, sequence, from, key) &&
      SkipsRight(all, sequence, from, true, Some(key), true, Some(key))
  {
    var from, key := EndOf(all, at), all[shown].k.user;
    forall i | from <= i && Seen(all, sequence, i) ensures all[i].k.user >= key {
      assert i >= shown;
      assert i > shown ==> Less(all[shown].k, all[i].k);
    }
    forall i | from <= i < |all| && SeenEarlier(all, sequence, from, all[i].k.user) ensures !Past(all, i, true, Some(key)) {
      var j :| 0 <= j < from && Seen(all, sequence, j) && all[j].k.user == all[i].k.user;
      assert j < i && Less(all[j].k, all[i].k);
      assert i > shown ==> Less(all[shown].k, all[i].k);
    }
  }

  lemma ReadyFromShown(all: seq<Entry>, sequence: nat, shown: nat)
    requires Sorted(all) && Shown(all, sequence, shown)
    ensures var key := all[shown].k.user;
      SeenNotBelow(all, sequence, shown, key) && SkipsRight(all, sequence, shown, true, Some(key), true, Some(key))
  {
    var key := all[shown].k.user;
    assert forall j :: 0 <= j < shown ==> Less(all[j].k, all[shown].k);
    assert forall i :: shown < i < |all| ==> Less(all[shown].k, all[i].k);
  }

  lemma ReadyFromSeek(all: seq<Entry>, sequence: nat, target: UserKey)
    requires Sorted(all)
    ensures var at := SeekIndex(all, IKey(target, sequence, Kind.Value));
      SkipsRight(all, sequence, at, false, None, false, None) &&
      (forall i :: 0 <= i < at && Seen(all, sequence, i) ==> all[i].k.user < target) &&
      (forall i :: at <= i < |all| ==> all[i].k.user >= target)
  {
    var t := IKey(target, sequence, Kind.Value);
    var at := SeekIndex(all, t);
    forall i | at <= i < |all| ensures all[i].k.user >= target {
      assert i > at ==> Less(all[at].k, all[i].k);
    }
  }

  lemma ReadyFromStart(all: seq<Entry>, sequence: nat, skip: Option<UserKey>)
    ensures SkipsRight(all, sequence, 0, false, skip, false, skip)
  {
  }

  lemma FirstFrom(all: seq<Entry>, sequence: nat, from: nat, to: nat, skip: Option<UserKey>)
    requires from <= to <= |all| && NonePast(all, sequence, from, to, false, skip)
    ensures NoneShown(all, sequence, from, to)
  {
  }

  lemma NextIsNext(all: seq<Entry>, sequence: nat, was: nat, to: nat, valid: bool)
    requires Sorted(all) && Shown(all, sequence, was) && to <= |all| && (valid ==> to < |all|)
    requires exists from: nat :: from <= was && NonePast(all, sequence, from, to, true, Some(all[was].k.user))
    requires valid ==> Past(all, to, true, Some(all[was].k.user))
    ensures NoneShown(all, sequence, was + 1, to) && (valid ==> to > was)
  {
    var from: nat :| from <= was && NonePast(all, sequence, from, to, true, Some(all[was].k.user));
    forall i | was + 1 <= i < to ensures !Shown(all, sequence, i) {
      if Shown(all, sequence, i) {
        ShownIncrease(all, sequence, was, i);
      }
    }
  }

  ghost predicate Past(all: seq<Entry>, i: int, skipping: bool, skip: Option<UserKey>)
    requires 0 <= i < |all| && (skipping ==> skip.Some?)
  {
    skipping ==> all[i].k.user > skip.value
  }

  ghost predicate NonePast(all: seq<Entry>, sequence: nat, from: nat, to: nat, skipping: bool, skip: Option<UserKey>)
    requires to <= |all| && (skipping ==> skip.Some?)
  {
    forall i :: from <= i < to ==> !(Shown(all, sequence, i) && Past(all, i, skipping, skip))
  }

  lemma NonePastEmpty(all: seq<Entry>, sequence: nat, at: nat, skipping: bool, skip: Option<UserKey>)
    requires at <= |all| && (skipping ==> skip.Some?)
    ensures NonePast(all, sequence, at, at, skipping, skip)
  {
  }

  ghost predicate SeenNotBelow(all: seq<Entry>, sequence: nat, at: nat, k: UserKey) {
    forall i :: at <= i && Seen(all, sequence, i) ==> all[i].k.user >= k
  }

  ghost predicate SeenEarlier(all: seq<Entry>, sequence: nat, at: nat, user: UserKey)
    requires at <= |all|
  {
    exists j :: 0 <= j < at && Seen(all, sequence, j) && all[j].k.user == user
  }

  /** An entry from `at` on is skipped exactly when it was asked to be or a newer version was seen. */
  ghost predicate SkipsRight(all: seq<Entry>, sequence: nat, at: nat,
                             skipping0: bool, skip0: Option<UserKey>, skipping: bool, skip: Option<UserKey>)
    requires at <= |all| && (skipping0 ==> skip0.Some?) && (skipping ==> skip.Some?)
  {
    forall i :: at <= i < |all| ==>
      ((skipping && all[i].k.user <= skip.value) <==>
       (!Past(all, i, skipping0, skip0) || SeenEarlier(all, sequence, at, all[i].k.user)))
  }

  lemma ShownHere(all: seq<Entry>, sequence: nat, at: nat,
                  skipping0: bool, skip0: Option<UserKey>, skipping: bool, skip: Option<UserKey>)
    requires at < |all| && (skipping0 ==> skip0.Some?) && (skipping ==> skip.Some?)
    requires SkipsRight(all, sequence, at, skipping0, skip0, skipping, skip)
    requires Seen(all, sequence, at) && all[at].k.kind.Value? && !(skipping && all[at].k.user <= skip.value)
    ensures Shown(all, sequence, at) && Past(all, at, skipping0, skip0)
  {
  }

  lemma HiddenHere(all: seq<Entry>, sequence: nat, from: nat, at: nat,
                   skipping0: bool, skip0: Option<UserKey>, skipping: bool, skip: Option<UserKey>)
    requires Sorted(all) && from <= at < |all| && (skipping0 ==> skip0.Some?) && (skipping ==> skip.Some?)
    requires SkipsRight(all, sequence, at, skipping0, skip0, skipping, skip)
    requires NonePast(all, sequence, from, at, skipping0, skip0)
    requires skipping0 ==> SeenNotBelow(all, sequence, from, skip0.value)
    requires !(Seen(all, sequence, at) && all[at].k.kind.Value? && !(skipping && all[at].k.user <= skip.value))
    ensures NonePast(all, sequence, from, at + 1, skipping0, skip0)
    ensures if Seen(all, sequence, at) && all[at].k.kind.Deletion?
      then SkipsRight(all, sequence, at + 1, skipping0, skip0, true, Some(all[at].k.user))
      else SkipsRight(all, sequence, at + 1, skipping0, skip0, skipping, skip)
  {
    forall i | at < i < |all|
      ensures SeenEarlier(all, sequence, at + 1, all[i].k.user) <==>
        SeenEarlier(all, sequence, at, all[i].k.user) || (Seen(all, sequence, at) && all[at].k.user == all[i].k.user)
      ensures all[at].k.user <= all[i].k.user
    {
      assert Less(all[at].k, all[i].k);
      if Seen(all, sequence, at) && all[at].k.user == all[i].k.user {
        assert SeenEarlier(all, sequence, at + 1, all[i].k.user);
      }
    }
  }

  /** `at` is just before the versions of the key of entry `shown`: what lies between them is invisible. */
  ghost predicate JustBefore(all: seq<Entry>, sequence: nat, at: nat, shown: nat)
    requires shown < |all| && at <= |all|
  {
    (at < |all| ==> at < shown && all[at].k.user < all[shown].k.user) &&
    forall i :: (if at < |all| then at + 1 else 0) <= i < shown ==> !Seen(all, sequence, i)
  }

  // ---------------------------------------------------------------- backward scanning

  /** One past the position, which for an invalid cursor is the start. */
  ghost function EndOf(all: seq<Entry>, at: nat): nat {
    if at < |all| then at + 1 else 0
  }

  /** What a backward scan of [lo, end) knows: the earliest visible entry seen, when it is a value. */
  ghost predicate Behind(all: seq<Entry>, sequence: nat, lo: nat, end: nat, kind: Kind, m: nat,
                         key: Option<UserKey>, value: Bytes)
  {
    lo <= end <= |all| &&
    (kind.Deletion? ==> NoneShown(all, sequence, lo, end)) &&
    (kind.Value? ==>
      lo <= m < end && Seen(all, sequence, m) && all[m].k.kind.Value? &&
      key == Some(all[m].k.user) && value == all[m].v &&
      (forall i :: lo <= i < m ==> !Seen(all, sequence, i)) && NoneShown(all, sequence, m + 1, end))
  }

  lemma BehindNothing(all: seq<Entry>, sequence: nat, end: nat, key: Option<UserKey>, value: Bytes)
    requires end <= |all|
    ensures Behind(all, sequence, end, end, Kind.Deletion, 0, key, value)
  {
  }

  lemma BehindHasKey(all: seq<Entry>, sequence: nat, lo: nat, end: nat, kind: Kind, m: nat,
                     key: Option<UserKey>, value: Bytes)
    requires Behind(all, sequence, lo, end, kind, m, key, value)
    ensures kind.Value? ==> m < |all| && key == Some(all[m].k.user)
  {
  }

  lemma BehindUnseen(all: seq<Entry>, sequence: nat, at: nat, end: nat, kind: Kind, m: nat,
                     key: Option<UserKey>, value: Bytes)
    requires Behind(all, sequence, at + 1, end, kind, m, key, value) && at < |all| && !Seen(all, sequence, at)
    ensures Behind(all, sequence, at, end, kind, m, key, value)
  {
  }

  lemma BehindSeen(all: seq<Entry>, sequence: nat, at: nat, end: nat, kind: Kind, m: nat,
                   key: Option<UserKey>, value: Bytes)
    requires Sorted(all) && Behind(all, sequence, at + 1, end, kind, m, key, value) && Seen(all, sequence, at)
    requires !(kind.Value? && all[at].k.user < all[m].k.user)
    ensures all[at].k.kind.Deletion? ==> Behind(all, sequence, at, end, Kind.Deletion, m, None, [])
    ensures all[at].k.kind.Value? ==> Behind(all, sequence, at, end, Kind.Value, at, Some(all[at].k.user), all[at].v)
  {
    if kind.Value? {
      assert Less(all[at].k, all[m].k);
      assert !Shown(all, sequence, m);
    }
  }

  lemma BehindNone(all: seq<Entry>, sequence: nat, at: nat, end: nat, kind: Kind, m: nat,
                   key: Option<UserKey>, value: Bytes)
    requires Behind(all, sequence, EndOf(all, at), end, kind, m, key, value) && kind.Deletion? && at >= |all|
    ensures NoneShown(all, sequence, 0, end)
  {
  }

  lemma BehindFound(all: seq<Entry>, sequence: nat, at: nat, end: nat, kind: Kind, m: nat,
                    key: Option<UserKey>, value: Bytes)
    requires Sorted(all) && Behind(all, sequence, EndOf(all, at), end, kind, m, key, value) && kind.Value? && at <= |all|
    requires at < |all| ==> m < |all| && all[at].k.user < all[m].k.user
    ensures Shown(all, sequence, m) && m < end && NoneShown(all, sequence, m + 1, end)
    ensures key == Some(all[m].k.user) && value == all[m].v && JustBefore(all, sequence, at, m)
  {
    assert at < |all| ==> forall j :: 0 <= j < at ==> Less(all[j].k, all[at].k);
  }

  ghost predicate SameUser(all: seq<Entry>, from: nat, to: nat)
    requires to < |all|
  {
    forall i :: from <= i <= to ==> all[i].k.user == all[to].k.user
  }

  lemma SameUserStart(all: seq<Entry>, at: nat)
    requires at < |all|
    ensures SameUser(all, at, at)
  {
  }

  lemma SameUserStep(all: seq<Entry>, at: nat, to: nat)
    requires Sorted(all) && at < to < |all| && SameUser(all, at + 1, to) && all[at].k.user >= all[to].k.user
    ensures SameUser(all, at, to)
  {
    assert Less(all[at].k, all[to].k);
  }

  /** Older versions are visible whenever newer ones are, so before a shown entry its key is invisible. */
  lemma SameUserUnseen(all: seq<Entry>, sequence: nat, from: nat, shown: nat)
    requires from <= shown < |all| && Shown(all, sequence, shown) && SameUser(all, from, shown)
    ensures NoneShown(all, sequence, from, shown)
  {
  }

  lemma BeforeUnseen(all: seq<Entry>, sequence: nat, at: nat, shown: nat)
    requires shown < |all| && at <= |all| && JustBefore(all, sequence, at, shown)
    ensures EndOf(all, at) <= shown && NoneShown(all, sequence, EndOf(all, at), shown)
  {
  }

  lemma JoinNone(all: seq<Entry>, sequence: nat, from: nat, mid: nat, to: nat)
    requires from <= mid <= to && NoneShown(all, sequence, from, mid) && NoneShown(all, sequence, mid, to)
    ensures NoneShown(all, sequence, from, to)
  {
  }

  lemma MergeableSorted(it: MergingIterator)
    requires it.Valid()
    ensures Sorted(it.union)
  {
  }
}
