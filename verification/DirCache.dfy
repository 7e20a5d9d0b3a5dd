/** The cache of directory listings: its map, its eviction order and its invalidation epoch. */
module DirCache {
  import opened Bytes
  import opened Paths

  const EPOCHS: nat := 0x1_0000_0000_0000_0000

  datatype Cache<+L> = Cache(entries: map<Path, L>, order: seq<Path>, epoch: u64)

  ghost predicate Distinct(s: seq<Path>) {
    forall i, j :: 0 <= i < j < |s| ==> s[i] != s[j]
  }

  /** `order` lists the cached directories, each once, and there are at most `capacity` of them. */
  ghost predicate WellFormed<L>(c: Cache<L>, capacity: nat) {
    Distinct(c.order) && (forall p :: p in c.order <==> p in c.entries) && |c.order| <= capacity
  }

  /** `s` with every element of `drop` taken out. */
  ghost function Without(s: seq<Path>, drop: set<Path>): seq<Path> {
    if s == [] then []
    else if s[0] in drop then Without(s[1..], drop)
    else [s[0]] + Without(s[1..], drop)
  }

  lemma {:induction false} WithoutMembers(s: seq<Path>, drop: set<Path>)
    ensures forall p :: p in Without(s, drop) <==> p in s && p !in drop
    ensures |Without(s, drop)| <= |s|
  {
    if s != [] {
      WithoutMembers(s[1..], drop);
      assert forall p :: p in s <==> p == s[0] || p in s[1..];
    }
  }

  lemma {:induction false} WithoutDistinct(s: seq<Path>, drop: set<Path>)
    requires Distinct(s)
    ensures Distinct(Without(s, drop))
  {
    if s != [] {
      WithoutDistinct(s[1..], drop);
      WithoutMembers(s[1..], drop);
    }
  }

  lemma {:induction false} WithoutNone(s: seq<Path>, drop: set<Path>)
    requires forall p :: p in drop ==> p !in s
    ensures Without(s, drop) == s
  {
    if s != [] {
      WithoutNone(s[1..], drop);
      assert s == [s[0]] + s[1..];
    }
  }

  // ----- What each operation does

  ghost function Removed<L>(c: Cache<L>, drop: set<Path>): Cache<L> {
    c.(entries := c.entries - drop, order := Without(c.order, drop))
  }

  ghost function Bumped(epoch: u64): u64 {
    (epoch + 1) % EPOCHS
  }

  ghost function InvalidateSpec<L>(c: Cache<L>, path: Path): Cache<L> {
    Removed(c, {path}).(epoch := Bumped(c.epoch))
  }

  ghost function InvalidatePrefixSpec<L>(c: Cache<L>, prefix: Path): Cache<L> {
    Removed(c, set p | p in c.entries && prefix <= p).(epoch := Bumped(c.epoch))
  }

  /** The oldest directories beyond what leaves room for one more. */
  ghost function Evicted(order: seq<Path>, capacity: nat): seq<Path>
    requires capacity >= 1
  {
    if |order| >= capacity then order[..|order| - capacity + 1] else []
  }

  ghost function PutSpec<L>(c: Cache<L>, path: Path, listing: L, epoch: u64, capacity: nat): Cache<L>
    requires capacity >= 1
  {
    if c.epoch != epoch then c
    else
      var order := Without(c.order, {path});
      var evicted := Evicted(order, capacity);
      Cache((c.entries - Elements(evicted))[path := listing], order[|evicted|..] + [path], c.epoch)
  }

  lemma TailOfDistinct(s: seq<Path>, n: nat)
    requires Distinct(s) && n <= |s|
    ensures Distinct(s[n..])
    ensures forall p :: p in s[n..] <==> p in s && p !in Elements(s[..n])
  {
    assert s == s[..n] + s[n..];
  }

  lemma SnocDistinct(s: seq<Path>, p: Path)
    requires Distinct(s) && p !in s
    ensures Distinct(s + [p])
    ensures forall q :: q in s + [p] <==> q in s || q == p
  {
  }

  lemma PutKeepsWellFormed<L>(c: Cache<L>, path: Path, listing: L, epoch: u64, capacity: nat)
    requires capacity >= 1 && WellFormed(c, capacity)
    ensures WellFormed(PutSpec(c, path, listing, epoch, capacity), capacity)
  {
    var order := Without(c.order, {path});
    var n := |Evicted(order, capacity)|;
    WithoutMembers(c.order, {path});
    WithoutDistinct(c.order, {path});
    TailOfDistinct(order, n);
    SnocDistinct(order[n..], path);
  }

  lemma RemovedKeepsWellFormed<L>(c: Cache<L>, drop: set<Path>, capacity: nat)
    requires WellFormed(c, capacity)
    ensures WellFormed(Removed(c, drop), capacity)
  {
    WithoutMembers(c.order, drop);
    WithoutDistinct(c.order, drop);
  }

  lemma WhatIsEvicted(order: seq<Path>, path: Path, capacity: nat)
    requires capacity >= 1 && |order| <= capacity
    ensures Elements(Evicted(Without(order, {path}), capacity)) ==
            if path !in order && |order| == capacity then {order[0]} else {}
  {
    if path in order {
      WithoutMember(order, path);
    } else {
      WithoutNone(order, {path});
      if |order| == capacity {
        assert Evicted(order, capacity) == [order[0]];
      }
    }
  }

  /** A put onto a full cache evicts exactly the oldest directory; a re-put evicts none and moves to the back. */
  lemma PutEvictsOnlyTheOldest<L>(c: Cache<L>, path: Path, listing: L, capacity: nat)
    requires capacity >= 1 && WellFormed(c, capacity)
    ensures var r := PutSpec(c, path, listing, c.epoch, capacity);
      var kept := if path !in c.entries && |c.order| == capacity then c.entries - {c.order[0]} else c.entries;
      r.order != [] && r.order[|r.order| - 1] == path && r.entries == kept[path := listing]
  {
    WhatIsEvicted(c.order, path, capacity);
  }

  /**
    What a put does, entry by entry: nothing if the epoch has moved on; otherwise the directory goes to the back of the
    order, behind the others in the order they had, the oldest of which goes if the cache was full without this one.
  */
  lemma PutExactly<L>(c: Cache<L>, path: Path, listing: L, epoch: u64, capacity: nat)
    requires capacity >= 1 && WellFormed(c, capacity)
    ensures var r := PutSpec(c, path, listing, epoch, capacity);
      && (epoch != c.epoch ==> r == c)
      && (epoch == c.epoch && path !in c.order && |c.order| < capacity ==> r.order == c.order + [path])
      && (epoch == c.epoch && path !in c.order && |c.order| == capacity ==> r.order == c.order[1..] + [path])
      && (forall i :: 0 <= i < |c.order| && epoch == c.epoch && c.order[i] == path ==>
            r.order == c.order[..i] + c.order[i + 1..] + [path])
  {
    var order := Without(c.order, {path});
    if path !in c.order {
      WithoutNone(c.order, {path});
      assert c.order[0..] == c.order;
    }
    forall i | 0 <= i < |c.order| && epoch == c.epoch && c.order[i] == path
      ensures PutSpec(c, path, listing, epoch, capacity).order == c.order[..i] + c.order[i + 1..] + [path]
    {
      WithoutOne(c.order, i);
      assert order[0..] == order;
    }
  }

  /** Dropping listings: those go, in the order and in the map, the others stay as they were, and the epoch moves on. */
  lemma InvalidatedExactly<L>(c: Cache<L>, path: Path)
    ensures var one, all := InvalidateSpec(c, path), InvalidatePrefixSpec(c, path);
      && one.entries == c.entries - {path}
      && (forall p :: p in all.entries <==> p in c.entries && !(path <= p))
      && (forall p :: p in all.entries ==> all.entries[p] == c.entries[p])
      && one.epoch == all.epoch == (if c.epoch == 0xFFFF_FFFF_FFFF_FFFF then 0 else c.epoch + 1)
  {
  }

  /** What is taken out of an order leaves the rest in order. */
  lemma {:induction false} WithoutConcat(a: seq<Path>, b: seq<Path>, drop: set<Path>)
    ensures Without(a + b, drop) == Without(a, drop) + Without(b, drop)
  {
    if a == [] {
      assert a + b == b;
    } else {
      assert (a + b)[1..] == a[1..] + b;
      WithoutConcat(a[1..], b, drop);
    }
  }

  lemma {:induction false} WithoutMember(s: seq<Path>, path: Path)
    requires path in s
    ensures |Without(s, {path})| < |s|
  {
    if s[0] == path {
      WithoutMembers(s[1..], {path});
    } else {
      WithoutMember(s[1..], path);
    }
  }

  // ----- The cache itself

  class DirListings<L> {
    var entries: map<Path, L>
    var order: seq<Path>
    var epoch: u64
    const capacity: nat

    ghost function View(): Cache<L>
      reads this
    {
      Cache(entries, order, epoch)
    }

    ghost predicate Valid()
      reads this
    {
      capacity >= 1 && WellFormed(View(), capacity)
    }

    constructor (wanted: nat)
      ensures Valid() && View() == Cache(map[], [], 0) && capacity == if wanted < 1 then 1 else wanted
    {
      entries, order, epoch := map[], [], 0;
      capacity := if wanted < 1 then 1 else wanted;
    }

    /** `expired`: the clock says the entry has outlived its TTL. */
    method Get(path: Path, expired: bool) returns (hit: Option<L>)
      requires Valid()
      modifies this
      ensures Valid()
      ensures hit == if path in old(entries) && !expired then Some(old(entries)[path]) else None
      ensures View() == if expired && path in old(entries) then Removed(old(View()), {path}) else old(View())
    {
      if path !in entries {
        return None;
      }
      if !expired {
        return Some(entries[path]);
      }
      RemovedKeepsWellFormed(View(), {path}, capacity);
      RemoveEntry(path);
      hit := None;
    }

    method RemoveEntry(path: Path)
      modifies this`entries, this`order
      ensures View() == Removed(old(View()), {path})
    {
      entries := entries - {path};
      order := Retain(order, {path});
    }

    method Put(path: Path, listing: L, fetchedAt: u64)
      requires Valid()
      modifies this
      ensures Valid()
      ensures View() == PutSpec(old(View()), path, listing, fetchedAt, capacity)
    {
      if epoch != fetchedAt {
        return;
      }
      ghost var c := View();
      PutKeepsWellFormed(c, path, listing, fetchedAt, capacity);
      // at most one position holds the path, so dropping the first is dropping all
      order := RemoveFirst(order, path);
      Evict();
      order := order + [path];
      entries := entries[path := listing];
    }

    /** The eviction loop: make room for one more. */
    method Evict()
      requires capacity >= 1
      modifies this`entries, this`order
      ensures var out := Evicted(old(order), capacity);
        entries == old(entries) - Elements(out) && order == old(order)[|out|..]
    {
      ghost var base, gone := order, 0;
      while |order| >= capacity
        invariant gone <= |Evicted(base, capacity)| && order == base[gone..]
        invariant entries == old(entries) - Elements(base[..gone])
      {
        var oldest := order[0];
        order := order[1..];
        entries := entries - {oldest};
        assert Elements(base[..gone + 1]) == Elements(base[..gone]) + {oldest};
        gone := gone + 1;
      }
      assert base[..gone] == Evicted(base, capacity);
    }

    method Invalidate(path: Path)
      requires Valid()
      modifies this
      ensures Valid() && View() == InvalidateSpec(old(View()), path)
    {
      RemovedKeepsWellFormed(View(), {path}, capacity);
      epoch := (epoch + 1) % EPOCHS;
      RemoveEntry(path);
    }

    method DropAll(dropped: set<Path>)
      modifies this`entries
      ensures entries == old(entries) - dropped
    {
      var todo := dropped;
      while todo != {}
        invariant todo <= dropped && entries == old(entries) - (dropped - todo)
      {
        var path :| path in todo;
        todo := todo - {path};
        entries := entries - {path};
      }
    }

    method InvalidatePrefix(prefix: Path)
      requires Valid()
      modifies this
      ensures Valid() && View() == InvalidatePrefixSpec(old(View()), prefix)
    {
      epoch := (epoch + 1) % EPOCHS;
      var dropped := set p | p in entries && prefix <= p;
      RemovedKeepsWellFormed(View(), dropped, capacity);
      DropAll(dropped);
      order := Retain(order, dropped);
    }
  }

  /** `retain(|k| !drop.contains(k))`. */
  method Retain(s: seq<Path>, drop: set<Path>) returns (r: seq<Path>)
    ensures r == Without(s, drop)
  {
    r := [];
    for i := 0 to |s|
      invariant r == Without(s[..i], drop)
    {
      WithoutSnoc(s[..i], s[i], drop);
      assert s[..i + 1] == s[..i] + [s[i]];
      if s[i] !in drop {
        r := r + [s[i]];
      }
    }
    assert s[..|s|] == s;
  }

  lemma {:induction false} WithoutSnoc(s: seq<Path>, p: Path, drop: set<Path>)
    ensures Without(s + [p], drop) == if p in drop then Without(s, drop) else Without(s, drop) + [p]
  {
    if s == [] {
      assert [p][1..] == [];
    } else {
      WithoutSnoc(s[1..], p, drop);
      assert (s + [p])[1..] == s[1..] + [p];
    }
  }

  /** `order.iter().position(..)` and, if found, `order.remove(pos)`. */
  method RemoveFirst(s: seq<Path>, path: Path) returns (r: seq<Path>)
    requires Distinct(s)
    ensures r == Without(s, {path})
  {
    for i := 0 to |s|
      invariant path !in s[..i]
    {
      if s[i] == path {
        WithoutOne(s, i);
        return s[..i] + s[i + 1..];
      }
    }
    WithoutNone(s, {path});
    return s;
  }

  lemma {:induction false} WithoutOne(s: seq<Path>, i: nat)
    requires Distinct(s) && i < |s|
    ensures Without(s, {s[i]}) == s[..i] + s[i + 1..]
  {
    if i == 0 {
      WithoutNone(s[1..], {s[0]});
    } else {
      WithoutOne(s[1..], i - 1);
      assert s[1..][i - 1] == s[i] && s[..i] == [s[0]] + s[1..][..i - 1] && s[1..][i..] == s[i + 1..];
    }
  }
}
