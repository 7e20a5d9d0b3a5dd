/**
  The directory cache against the history of the device: concurrent `readdir` fetches, mutating callbacks and expiry,
  step by step. A mutating callback changes the device, then drops cached listings one lock at a time, then replies.
*/
module DirCacheHistory {
  import opened Bytes
  import opened Paths
  import opened DirCache
  import opened ProxyLimits

  // ----- The device

  datatype Node = Dir | File(size: nat) | Link

  type Fs = map<Path, Node>

  type Listing = map<Path, Node>

  predicate ChildOf(p: Path, d: Path) {
    p != [] && Parent(p) == d
  }

  /** What listing `d` answers: its entries, or an error if `d` is no directory. */
  ghost function List(fs: Fs, d: Path): Option<Listing> {
    if d in fs && fs[d].Dir? then Some(map p | p in fs && ChildOf(p, d) :: fs[p]) else None
  }

  /** `Store`: create, mkdir, symlink, write, truncate. */
  datatype Op = Store(p: Path, n: Node) | Unlink(p: Path) | Rmdir(p: Path) | Rename(src: Path, dst: Path)

  /** When the device carries the operation out. */
  ghost predicate Legal(fs: Fs, op: Op) {
    match op
    case Store(p, n) => p != [] && (p in fs ==> !fs[p].Dir? && !n.Dir?)
    case Unlink(p) => p != [] && p in fs && !fs[p].Dir?
    case Rmdir(p) => p != [] && p in fs && fs[p].Dir? && forall q :: q in fs && p <= q ==> q == p
    case Rename(src, dst) =>
      && src != [] && dst != [] && src in fs
      && (src != dst ==> !(src <= dst) && forall q :: q in fs && dst <= q ==> q == dst)
      && (dst in fs ==> fs[dst].Dir? == fs[src].Dir?)
  }

  ghost function Effect(fs: Fs, op: Op): Fs
    requires Legal(fs, op)
  {
    match op
    case Store(p, n) => fs[p := n]
    case Unlink(p) => fs - {p}
    case Rmdir(p) => fs - {p}
    case Rename(src, dst) =>
      if src == dst then fs
      else if !fs[src].Dir? then (fs - {src})[dst := fs[src]]
      else
        map q | q in fs.Keys + (set p | p in fs && src <= p :: Rebase(p, src, dst)) &&
                (if dst <= q then Rebase(q, dst, src) in fs else q in fs && !(src <= q)) ::
          if dst <= q then fs[Rebase(q, dst, src)] else fs[q]
  }

  // ----- What the callbacks invalidate

  datatype Inval = One(p: Path) | Under(p: Path)

  predicate Hits(i: Inval, d: Path) {
    match i
    case One(p) => p == d
    case Under(p) => p <= d
  }

  /** The listings a callback drops, in order. `isDir` is what the rename handler took `src` for. */
  function Invals(op: Op, isDir: bool): seq<Inval> {
    match op
    case Store(p, _) => if p == [] then [] else [One(Parent(p))]
    case Unlink(p) => if p == [] then [] else [One(Parent(p))]
    case Rmdir(p) => if p == [] then [One(p)] else [One(p), One(Parent(p))]
    case Rename(src, dst) =>
      (if src == [] then [] else [One(Parent(src))]) + (if dst == [] then [] else [One(Parent(dst))]) +
      (if isDir then [Under(src), Under(dst)] else [])
  }

  predicate HitsAny(todo: seq<Inval>, d: Path) {
    exists k :: 0 <= k < |todo| && Hits(todo[k], d)
  }

  predicate Covers(op: Op, isDir: bool, d: Path) {
    HitsAny(Invals(op, isDir), d)
  }

  /** Which listings a callback drops, and no others. */
  lemma CoversIff(op: Op, isDir: bool, d: Path)
    ensures Covers(op, isDir, d) <==>
      match op {
        case Store(p, _) => p != [] && d == p[..|p| - 1]
        case Unlink(p) => p != [] && d == p[..|p| - 1]
        case Rmdir(p) => d == p || (p != [] && d == p[..|p| - 1])
        case Rename(src, dst) =>
          || (src != [] && d == src[..|src| - 1]) || (dst != [] && d == dst[..|dst| - 1])
          || (isDir && (src <= d || dst <= d))
      }
  {
    match op
    case Store(p, _) =>
      if p != [] { HitsOne(One(p[..|p| - 1]), d); }
    case Unlink(p) =>
      if p != [] { HitsOne(One(p[..|p| - 1]), d); }
    case Rmdir(p) =>
      HitsOne(One(p), d);
      if p != [] {
        HitsOne(One(p[..|p| - 1]), d);
        HitsEither([One(p)], [One(p[..|p| - 1])], d);
        assert Invals(op, isDir) == [One(p)] + [One(p[..|p| - 1])];
      }
    case Rename(src, dst) =>
      RenameCoversIff(src, dst, isDir, d);
  }

  lemma RenameCoversIff(src: Path, dst: Path, isDir: bool, d: Path)
    ensures Covers(Rename(src, dst), isDir, d) <==>
      || (src != [] && d == src[..|src| - 1]) || (dst != [] && d == dst[..|dst| - 1])
      || (isDir && (src <= d || dst <= d))
  {
    var a: seq<Inval> := if src == [] then [] else [One(Parent(src))];
    var b: seq<Inval> := if dst == [] then [] else [One(Parent(dst))];
    var c: seq<Inval> := if isDir then [Under(src), Under(dst)] else [];
    HitsEither(a + b, c, d);
    HitsEither(a, b, d);
    HitsEither([Under(src)], [Under(dst)], d);
    HitsOne(Under(src), d);
    HitsOne(Under(dst), d);
    assert [Under(src)] + [Under(dst)] == [Under(src), Under(dst)];
    if src != [] { HitsOne(One(Parent(src)), d); }
    if dst != [] { HitsOne(One(Parent(dst)), d); }
  }

  lemma HitsOne(i: Inval, d: Path)
    ensures HitsAny([i], d) <==> Hits(i, d)
  {
    assert [i][0] == i;
  }

  lemma HitsEither(a: seq<Inval>, b: seq<Inval>, d: Path)
    ensures HitsAny(a + b, d) <==> HitsAny(a, d) || HitsAny(b, d)
  {
    forall k | 0 <= k < |b|
      ensures (a + b)[|a| + k] == b[k]
    {
    }
    if HitsAny(a, d) {
      var k :| 0 <= k < |a| && Hits(a[k], d);
      assert Hits((a + b)[k], d);
    } else if HitsAny(b, d) {
      var k :| 0 <= k < |b| && Hits(b[k], d);
      assert Hits((a + b)[|a| + k], d);
    }
  }

  /** The rename handler recognised a directory as one. */
  ghost predicate Judged(fs: Fs, op: Op, isDir: bool) {
    op.Rename? && op.src in fs && fs[op.src].Dir? ==> isDir
  }

  lemma RenameCovers(src: Path, dst: Path, isDir: bool, d: Path)
    requires src != [] && dst != [] && !Covers(Rename(src, dst), isDir, d)
    ensures d != Parent(src) && d != Parent(dst)
    ensures isDir ==> !(src <= d) && !(dst <= d)
  {
    var inv := Invals(Rename(src, dst), isDir);
    assert inv[0] == One(Parent(src)) && inv[1] == One(Parent(dst));
    assert isDir ==> inv[2] == Under(src) && inv[3] == Under(dst);
  }

  lemma ChildUnder(p: Path, d: Path, top: Path)
    requires ChildOf(p, d) && top <= p && !(top <= d)
    ensures p == top
  {
  }

  /** A directory whose listing is not covered by an operation's invalidations lists the same after it. */
  lemma UncoveredListingKept(fs: Fs, op: Op, isDir: bool, d: Path)
    requires Legal(fs, op) && Judged(fs, op, isDir) && !Covers(op, isDir, d) && List(fs, d).Some?
    ensures List(Effect(fs, op), d) == List(fs, d)
  {
    var after := Effect(fs, op);
    match op
    case Store(p, n) =>
      assert Invals(op, isDir)[0] == One(Parent(p));
      assert List(after, d).value == List(fs, d).value;
    case Unlink(p) =>
      assert Invals(op, isDir)[0] == One(Parent(p));
      assert List(after, d).value == List(fs, d).value;
    case Rmdir(p) =>
      assert Invals(op, isDir)[0] == One(p) && Invals(op, isDir)[1] == One(Parent(p));
      assert List(after, d).value == List(fs, d).value;
    case Rename(src, dst) =>
      RenameCovers(src, dst, isDir, d);
      if src != dst {
        RenameListingKept(fs, src, dst, isDir, d);
      }
  }

  lemma RenameListingKept(fs: Fs, src: Path, dst: Path, isDir: bool, d: Path)
    requires Legal(fs, Rename(src, dst)) && src != dst && (fs[src].Dir? ==> isDir) && List(fs, d).Some?
    requires d != Parent(src) && d != Parent(dst) && (isDir ==> !(src <= d) && !(dst <= d))
    ensures List(Effect(fs, Rename(src, dst)), d) == List(fs, d)
  {
    var after := Effect(fs, Rename(src, dst));
    if fs[src].Dir? {
      forall p | ChildOf(p, d)
        ensures !(src <= p) && !(dst <= p)
      {
        if src <= p { ChildUnder(p, d, src); }
        if dst <= p { ChildUnder(p, d, dst); }
      }
      assert d in after && after[d] == fs[d];
      assert List(after, d).value == List(fs, d).value;
    } else {
      assert d != dst;
      assert List(after, d).value == List(fs, d).value;
    }
  }

  /** A rename's invalidations cover every listing it changes exactly when the handler judged a directory as one. */
  lemma RenameCoverageIff(fs: Fs, src: Path, dst: Path, isDir: bool)
    requires Legal(fs, Rename(src, dst)) && src != dst
    ensures var op := Rename(src, dst);
      (forall d :: List(fs, d).Some? && !Covers(op, isDir, d) ==> List(Effect(fs, op), d) == List(fs, d)) <==>
      Judged(fs, op, isDir)
  {
    var op := Rename(src, dst);
    if Judged(fs, op, isDir) {
      forall d | List(fs, d).Some? && !Covers(op, isDir, d)
        ensures List(Effect(fs, op), d) == List(fs, d)
      {
        UncoveredListingKept(fs, op, isDir, d);
      }
    } else {
      assert !Covers(op, isDir, src);
      assert !(dst <= src);
      assert List(fs, src).Some? && List(Effect(fs, op), src).None?;
    }
  }

  // ----- Runs

  datatype Status = Open | Replied | Failed

  /** A mutation the device has carried out; its callback has done the first `done` of the invalidations `all`. */
  datatype Applied = Applied(op: Op, isDir: bool, all: seq<Inval>, done: nat, status: Status)
  {
    predicate Affects(d: Path) { HitsAny(all, d) }
  }

  type Entry = (Path, Node)

  /** The order in which the device enumerates a directory, a function of what is in it. */
  type Enumeration = Listing -> seq<Entry>

  /**
    A listing with, as history, how many mutations the device had carried out when the epoch was read, when the first
    page was taken and when the last one was.
  */
  datatype Fetched = Fetched(listing: seq<Entry>, asOf: nat, first: nat, last: nat)

  /**
    A `readdir` that missed, the pages it has got so far and whether the last was short. `bumps`, `start`, `first` and
    `last` are history: invalidations and mutations at the epoch read, mutations at the first and the last page.
  */
  datatype Fetch = Fetch(
    d: Path, epoch: u64, bumps: nat, start: nat, got: seq<Entry>, pages: nat, whole: bool, first: nat, last: nat)

  datatype State = State(
    fs0: Fs, order: Enumeration, capacity: nat, cache: Cache<Fetched>, bumps: nat, log: seq<Applied>,
    fetches: map<nat, Fetch>)

  /** The log is a possible history of the device. */
  ghost predicate Possible(fs0: Fs, log: seq<Applied>)
    decreases |log|, 0
  {
    log == [] || (Possible(fs0, log[..|log| - 1]) && Legal(FsAfter(fs0, log[..|log| - 1]), log[|log| - 1].op))
  }

  ghost function FsAfter(fs0: Fs, log: seq<Applied>): Fs
    requires Possible(fs0, log)
    decreases |log|, 1
  {
    if log == [] then fs0 else Effect(FsAfter(fs0, log[..|log| - 1]), log[|log| - 1].op)
  }

  ghost predicate Init(s: State) {
    s.capacity >= 1 && s.cache == Cache(map[], [], 0) && s.bumps == 0 && s.log == [] && s.fetches == map[]
  }

  datatype Step =
    | Mutate(op: Op, isDir: bool)   // the device carries the operation out
    | Drop(k: nat)                  // callback k drops its next listing
    | Reply(k: nat)                 // callback k has dropped all of them and replies
    | Fail(k: nat)                  // the proxy reported an error although the device did it: no listing is dropped
    | ReadEpoch(t: nat, d: Path)    // readdir t missed the cache
    | ReadPage(t: nat)              // one page of the listing, from the device as it is then
    | PutListing(t: nat)
    | GiveUp(t: nat)                // the listing failed
    | Expire(d: Path)

  /** What the device answers for `d` after its first `j` mutations. */
  ghost function ListAt(s: State, j: nat, d: Path): Option<Listing>
    requires j <= |s.log|
  {
    if Possible(s.fs0, s.log[..j]) then List(FsAfter(s.fs0, s.log[..j]), d) else None
  }

  /** The page behind the first `n` entries. */
  ghost function PageOf(all: seq<Entry>, n: nat): seq<Entry> {
    if |all| <= n then [] else if |all| <= n + LISTDIR_PAGE then all[n..] else all[n..n + LISTDIR_PAGE]
  }

  ghost predicate Enabled(s: State, st: Step) {
    match st
    case Mutate(op, isDir) => Possible(s.fs0, s.log) && Legal(FsAfter(s.fs0, s.log), op)
    case Drop(k) => k < |s.log| && s.log[k].status.Open? && s.log[k].done < |s.log[k].all|
    case Reply(k) => k < |s.log| && s.log[k].status.Open? && s.log[k].done == |s.log[k].all|
    case Fail(k) => k < |s.log| && s.log[k].status.Open? && s.log[k].done == 0
    case ReadEpoch(t, d) => t !in s.fetches
    case ReadPage(t) => t in s.fetches && !s.fetches[t].whole && ListAt(s, |s.log|, s.fetches[t].d).Some?
    case PutListing(t) => t in s.fetches && s.fetches[t].whole && s.capacity >= 1
    case GiveUp(t) => t in s.fetches
    case Expire(d) => d in s.cache.entries
  }

  ghost function Dropped(c: Cache<Fetched>, i: Inval): Cache<Fetched> {
    match i
    case One(p) => InvalidateSpec(c, p)
    case Under(p) => InvalidatePrefixSpec(c, p)
  }

  ghost function WithPage(s: State, f: Fetch): Fetch
    requires ListAt(s, |s.log|, f.d).Some?
  {
    var page := PageOf(s.order(ListAt(s, |s.log|, f.d).value), |f.got|);
    f.(got := f.got + page, pages := f.pages + 1, whole := |page| < LISTDIR_PAGE, last := |s.log|,
       first := if f.pages == 0 then |s.log| else f.first)
  }

  ghost function Apply(s: State, st: Step): State
    requires Enabled(s, st)
  {
    match st
    case Mutate(op, isDir) => s.(log := s.log + [Applied(op, isDir, Invals(op, isDir), 0, Open)])
    case Drop(k) =>
      var a := s.log[k];
      s.(log := s.log[k := a.(done := a.done + 1)], cache := Dropped(s.cache, a.all[a.done]), bumps := s.bumps + 1)
    case Reply(k) => s.(log := s.log[k := s.log[k].(status := Replied)])
    case Fail(k) => s.(log := s.log[k := s.log[k].(status := Failed)])
    case ReadEpoch(t, d) =>
      s.(fetches := s.fetches[t := Fetch(d, s.cache.epoch, s.bumps, |s.log|, [], 0, false, |s.log|, |s.log|)])
    case ReadPage(t) => s.(fetches := s.fetches[t := WithPage(s, s.fetches[t])])
    case PutListing(t) =>
      var f := s.fetches[t];
      var x := Fetched(f.got, f.start, f.first, f.last);
      s.(cache := PutSpec(s.cache, f.d, x, f.epoch, s.capacity), fetches := s.fetches - {t})
    case GiveUp(t) => s.(fetches := s.fetches - {t})
    case Expire(d) => s.(cache := Removed(s.cache, {d}))
  }

  /** Fewer than 2^64 invalidations lie between a fetch's epoch read and its put. */
  ghost predicate NoWrap(s: State, st: Step)
    requires Enabled(s, st)
  {
    st.PutListing? ==> s.bumps < s.fetches[st.t].bumps + EPOCHS
  }

  // ----- Invariant

  /** From the `lo`th to the `hi`th mutation the listing of `d` stayed the same. */
  ghost predicate Steady(s: State, d: Path, lo: nat, hi: nat)
    requires lo <= hi <= |s.log|
  {
    forall j :: lo <= j <= hi ==> ListAt(s, j, d) == ListAt(s, lo, d)
  }

  /** If the listing of `d` did not change while the pages of `x` were taken, `x` is that listing. */
  ghost predicate Genuine(s: State, d: Path, x: Fetched) {
    && x.asOf <= x.first <= x.last <= |s.log| && ListAt(s, x.first, d).Some?
    && (Steady(s, d, x.first, x.last) ==> x.listing == s.order(ListAt(s, x.first, d).value))
  }

  /** A later mutation covering `d` has not dropped `d` yet, or failed and never will. */
  ghost predicate StillDue(a: Applied, d: Path) {
    a.status.Failed? || exists k :: a.done <= k < |a.all| && Hits(a.all[k], d)
  }

  ghost predicate Recent(s: State, d: Path, x: Fetched) {
    forall k :: x.asOf <= k < |s.log| && s.log[k].Affects(d) ==> StillDue(s.log[k], d)
  }

  ghost predicate LogOk(a: Applied) {
    a.all == Invals(a.op, a.isDir) && a.done <= |a.all| && (a.status.Replied? ==> a.done == |a.all|)
  }

  ghost predicate FetchOk(s: State, f: Fetch) {
    && f.epoch == f.bumps % EPOCHS && f.bumps <= s.bumps && f.start <= |s.log|
    && (forall k :: f.start <= k < |s.log| && s.log[k].done > 0 ==> f.bumps < s.bumps)
    && f.start <= f.first <= f.last <= |s.log| && (if f.pages == 0 then f.got == [] && !f.whole else PagesOk(s, f))
  }

  /** The same for the pages got so far: they are the front of the listing, and all of it once a page was short. */
  ghost predicate PagesOk(s: State, f: Fetch)
    requires f.first <= f.last <= |s.log|
  {
    && ListAt(s, f.first, f.d).Some?
    && (Steady(s, f.d, f.first, f.last) ==>
          var all := s.order(ListAt(s, f.first, f.d).value); f.got <= all && (f.whole ==> f.got == all))
  }

  ghost predicate Inv(s: State) {
    && s.capacity >= 1 && WellFormed(s.cache, s.capacity) && s.cache.epoch == s.bumps % EPOCHS
    && Possible(s.fs0, s.log)
    && (forall k :: 0 <= k < |s.log| ==> LogOk(s.log[k]))
    && (forall t :: t in s.fetches ==> FetchOk(s, s.fetches[t]))
    && (forall d :: d in s.cache.entries ==> Genuine(s, d, s.cache.entries[d]) && Recent(s, d, s.cache.entries[d]))
  }

  /** What the device did depends on the operations of the log only, not on how far the callbacks are. */
  ghost predicate SameOps(a: seq<Applied>, b: seq<Applied>) {
    |a| <= |b| && forall k :: 0 <= k < |a| ==> a[k].op == b[k].op && a[k].isDir == b[k].isDir && a[k].all == b[k].all
  }

  lemma {:induction false} SameHistory(fs0: Fs, a: seq<Applied>, b: seq<Applied>)
    requires SameOps(a, b) && |a| == |b| && Possible(fs0, a)
    ensures Possible(fs0, b) && FsAfter(fs0, b) == FsAfter(fs0, a)
  {
    if a != [] {
      SameHistory(fs0, a[..|a| - 1], b[..|b| - 1]);
    }
  }

  lemma ListAtKept(s: State, s': State, j: nat, d: Path)
    requires s'.fs0 == s.fs0 && SameOps(s.log, s'.log) && j <= |s.log|
    ensures ListAt(s', j, d) == ListAt(s, j, d)
  {
    if Possible(s.fs0, s.log[..j]) {
      SameHistory(s.fs0, s.log[..j], s'.log[..j]);
    } else if Possible(s.fs0, s'.log[..j]) {
      SameHistory(s.fs0, s'.log[..j], s.log[..j]);
    }
  }

  lemma SteadyKept(s: State, s': State, d: Path, lo: nat, hi: nat)
    requires s'.fs0 == s.fs0 && SameOps(s.log, s'.log) && lo <= hi <= |s.log|
    ensures Steady(s', d, lo, hi) <==> Steady(s, d, lo, hi)
  {
    forall j | lo <= j <= hi
      ensures ListAt(s', j, d) == ListAt(s, j, d)
    {
      ListAtKept(s, s', j, d);
    }
  }

  lemma GenuineKept(s: State, s': State, d: Path, x: Fetched)
    requires Genuine(s, d, x) && s'.fs0 == s.fs0 && s'.order == s.order && SameOps(s.log, s'.log)
    ensures Genuine(s', d, x)
  {
    ListAtKept(s, s', x.first, d);
    SteadyKept(s, s', d, x.first, x.last);
  }

  lemma PagesKept(s: State, s': State, f: Fetch)
    requires s'.fs0 == s.fs0 && s'.order == s.order && SameOps(s.log, s'.log)
    requires f.first <= f.last <= |s.log| && PagesOk(s, f)
    ensures PagesOk(s', f)
  {
    ListAtKept(s, s', f.first, f.d);
    SteadyKept(s, s', f.d, f.first, f.last);
  }

  /** `s'` differs from `s` in how far callback `k` is, in listings dropped and in invalidations counted. */
  ghost predicate Advances(s: State, s': State, k: nat) {
    && k < |s.log| == |s'.log| && s'.log == s.log[k := s'.log[k]]
    && s'.fs0 == s.fs0 && s'.order == s.order && s'.capacity == s.capacity
    && s'.fetches == s.fetches && s.bumps <= s'.bumps
    && s'.log[k].op == s.log[k].op && s'.log[k].isDir == s.log[k].isDir && s'.log[k].all == s.log[k].all
    && LogOk(s'.log[k])
    && (s'.log[k].done > s.log[k].done ==> s.bumps < s'.bumps)
    && WellFormed(s'.cache, s.capacity) && s'.cache.epoch == s'.bumps % EPOCHS
    && (forall d :: d in s'.cache.entries ==> d in s.cache.entries && s'.cache.entries[d] == s.cache.entries[d])
    && (forall d :: d in s'.cache.entries && StillDue(s.log[k], d) ==> StillDue(s'.log[k], d))
  }

  lemma AdvanceKeepsFetches(s: State, s': State, k: nat, f: Fetch)
    requires Advances(s, s', k) && FetchOk(s, f)
    ensures FetchOk(s', f)
  {
    if f.pages > 0 {
      PagesKept(s, s', f);
    }
  }

  lemma AdvanceKeepsEntries(s: State, s': State, k: nat, d: Path, x: Fetched)
    requires Advances(s, s', k) && d in s'.cache.entries && x == s'.cache.entries[d]
    requires Genuine(s, d, x) && Recent(s, d, x)
    ensures Genuine(s', d, x) && Recent(s', d, x)
  {
    GenuineKept(s, s', d, x);
  }

  lemma AdvanceKeepsInv(s: State, s': State, k: nat)
    requires Inv(s) && Advances(s, s', k)
    ensures Inv(s')
  {
    SameHistory(s.fs0, s.log, s'.log);
    forall t | t in s'.fetches
      ensures FetchOk(s', s'.fetches[t])
    {
      AdvanceKeepsFetches(s, s', k, s.fetches[t]);
    }
    forall d | d in s'.cache.entries
      ensures Genuine(s', d, s'.cache.entries[d]) && Recent(s', d, s'.cache.entries[d])
    {
      AdvanceKeepsEntries(s, s', k, d, s.cache.entries[d]);
    }
  }

  /** Dropping takes out exactly the listings the invalidation hits and bumps the epoch. */
  lemma DroppedEffect(c: Cache<Fetched>, i: Inval, capacity: nat)
    requires WellFormed(c, capacity)
    ensures WellFormed(Dropped(c, i), capacity) && Dropped(c, i).epoch == Bumped(c.epoch)
    ensures forall d :: d in Dropped(c, i).entries <==> d in c.entries && !Hits(i, d)
    ensures forall d :: d in Dropped(c, i).entries ==> Dropped(c, i).entries[d] == c.entries[d]
  {
    var gone := match i case One(p) => {p} case Under(p) => set q | q in c.entries && p <= q;
    RemovedKeepsWellFormed(c, gone, capacity);
    assert Dropped(c, i) == Removed(c, gone).(epoch := Bumped(c.epoch));
  }

  lemma NextEpoch(bumps: nat)
    ensures (bumps % EPOCHS + 1) % EPOCHS == (bumps + 1) % EPOCHS
  {
  }

  lemma ShrinkAdvances(s: State, s': State, k: nat, a: Applied, c: Cache<Fetched>)
    requires k < |s.log| && a == s.log[k] && LogOk(a) && a.done < |a.all|
    requires s' == s.(log := s.log[k := a.(done := a.done + 1)], cache := c, bumps := s.bumps + 1)
    requires WellFormed(c, s.capacity) && c.epoch == (s.bumps + 1) % EPOCHS && !a.status.Replied?
    requires forall d :: d in c.entries ==>
      d in s.cache.entries && c.entries[d] == s.cache.entries[d] && !Hits(a.all[a.done], d)
    ensures Advances(s, s', k)
  {
  }

  lemma DropAdvances(s: State, k: nat)
    requires Enabled(s, Drop(k)) && LogOk(s.log[k])
    requires WellFormed(s.cache, s.capacity) && s.cache.epoch == s.bumps % EPOCHS
    ensures Advances(s, Apply(s, Drop(k)), k)
  {
    var a := s.log[k];
    DroppedEffect(s.cache, a.all[a.done], s.capacity);
    NextEpoch(s.bumps);
    ShrinkAdvances(s, Apply(s, Drop(k)), k, a, Dropped(s.cache, a.all[a.done]));
  }

  lemma ReplyOrFailAdvances(s: State, st: Step)
    requires Enabled(s, st) && (st.Reply? || st.Fail?)
    requires LogOk(s.log[st.k]) && WellFormed(s.cache, s.capacity) && s.cache.epoch == s.bumps % EPOCHS
    ensures Advances(s, Apply(s, st), st.k)
  {
  }

  lemma CallbackKeepsInv(s: State, st: Step)
    requires Inv(s) && Enabled(s, st) && (st.Drop? || st.Reply? || st.Fail?)
    ensures Inv(Apply(s, st))
  {
    assert LogOk(s.log[st.k]);
    if st.Drop? {
      DropAdvances(s, st.k);
    } else {
      ReplyOrFailAdvances(s, st);
    }
    AdvanceKeepsInv(s, Apply(s, st), st.k);
  }

  /** A new mutation, none of whose invalidations is done, at the end of the log. */
  ghost predicate Extends(s: State, s': State) {
    && |s'.log| == |s.log| + 1 && s'.log == s.log + [s'.log[|s.log|]] && s' == s.(log := s'.log)
    && LogOk(s'.log[|s.log|]) && s'.log[|s.log|].done == 0
  }

  lemma ExtendKeepsFetches(s: State, s': State, f: Fetch)
    requires Extends(s, s') && FetchOk(s, f)
    ensures FetchOk(s', f)
  {
    if f.pages > 0 {
      PagesKept(s, s', f);
    }
  }

  lemma ExtendKeepsEntries(s: State, s': State, d: Path, x: Fetched)
    requires Extends(s, s') && Genuine(s, d, x) && Recent(s, d, x)
    ensures Genuine(s', d, x) && Recent(s', d, x)
  {
    GenuineKept(s, s', d, x);
    if s'.log[|s.log|].Affects(d) {
      AllDue(s'.log[|s.log|], d);
    }
  }

  lemma MutateKeepsInv(s: State, st: Step)
    requires Inv(s) && Enabled(s, st) && st.Mutate?
    ensures Inv(Apply(s, st))
  {
    var s' := Apply(s, st);
    assert s'.log[..|s'.log| - 1] == s.log;
    assert Extends(s, s');
    forall t | t in s'.fetches
      ensures FetchOk(s', s'.fetches[t])
    {
      ExtendKeepsFetches(s, s', s.fetches[t]);
    }
    forall d | d in s'.cache.entries
      ensures Genuine(s', d, s'.cache.entries[d]) && Recent(s', d, s'.cache.entries[d])
    {
      ExtendKeepsEntries(s, s', d, s.cache.entries[d]);
    }
  }

  /** The heart of the epoch check: an accepted put stores a listing no later invalidation has passed by. */
  lemma AcceptedPutIsRecent(s: State, t: nat)
    requires Inv(s) && Enabled(s, PutListing(t)) && NoWrap(s, PutListing(t))
    requires s.cache.epoch == s.fetches[t].epoch
    ensures var f := s.fetches[t]; Recent(s, f.d, Fetched(f.got, f.start, f.first, f.last))
  {
    var f := s.fetches[t];
    assert FetchOk(s, f);
    NoBumpBetween(f.bumps, s.bumps);
    forall k | f.start <= k < |s.log| && s.log[k].Affects(f.d)
      ensures StillDue(s.log[k], f.d)
    {
      AllDue(s.log[k], f.d);
    }
  }

  lemma NoBumpBetween(a: nat, b: nat)
    requires a <= b < a + EPOCHS && a % EPOCHS == b % EPOCHS
    ensures a == b
  {
    SameEpoch(a, b);
  }

  lemma AllDue(a: Applied, d: Path)
    requires a.done == 0 && a.Affects(d)
    ensures StillDue(a, d)
  {
  }

  /** The 64-bit epochs of two invalidation counts agree exactly when the counts are a multiple of 2^64 apart. */
  lemma SameEpoch(a: nat, b: nat)
    requires a <= b
    ensures a % EPOCHS == b % EPOCHS <==> (b - a) % EPOCHS == 0
  {
  }

  lemma PutKeepsInv(s: State, t: nat)
    requires Inv(s) && Enabled(s, PutListing(t)) && NoWrap(s, PutListing(t))
    ensures Inv(Apply(s, PutListing(t)))
  {
    var f, s' := s.fetches[t], Apply(s, PutListing(t));
    var x := Fetched(f.got, f.start, f.first, f.last);
    PutKeepsWellFormed(s.cache, f.d, x, f.epoch, s.capacity);
    assert FetchOk(s, f);
    if s.cache.epoch == f.epoch {
      AcceptedPutIsRecent(s, t);
    }
    forall d | d in s'.cache.entries
      ensures Genuine(s', d, s'.cache.entries[d]) && Recent(s', d, s'.cache.entries[d])
    {
      assert Genuine(s, d, s'.cache.entries[d]) && Recent(s, d, s'.cache.entries[d]);
      GenuineKept(s, s', d, s'.cache.entries[d]);
    }
    forall u | u in s'.fetches
      ensures FetchOk(s', s'.fetches[u])
    {
      FetchKept(s, s', s.fetches[u]);
    }
  }

  lemma FetchKept(s: State, s': State, f: Fetch)
    requires FetchOk(s, f) && s'.fs0 == s.fs0 && s'.order == s.order && s'.log == s.log && s'.bumps == s.bumps
    ensures FetchOk(s', f)
  {
    if f.pages > 0 {
      PagesKept(s, s', f);
    }
  }

  /** A further page extends the front of the listing, if that has not changed meanwhile. */
  lemma PageExtends(s: State, f: Fetch)
    requires FetchOk(s, f) && !f.whole && ListAt(s, |s.log|, f.d).Some?
    ensures FetchOk(s, WithPage(s, f))
  {
    var f' := WithPage(s, f);
    if f.pages > 0 && Steady(s, f.d, f.first, |s.log|) {
      assert Steady(s, f.d, f.first, f.last);
      assert ListAt(s, |s.log|, f.d) == ListAt(s, f.first, f.d);
    }
  }

  predicate ByReader(st: Step) {
    st.ReadEpoch? || st.ReadPage? || st.GiveUp? || st.Expire?
  }

  lemma ReaderKeepsFetch(s: State, st: Step, t: nat)
    requires Inv(s) && Enabled(s, st) && ByReader(st) && t in Apply(s, st).fetches
    ensures FetchOk(Apply(s, st), Apply(s, st).fetches[t])
  {
    var s' := Apply(s, st);
    if t in s.fetches && s'.fetches[t] == s.fetches[t] {
      FetchKept(s, s', s.fetches[t]);
    } else if st.ReadPage? {
      PageExtends(s, s.fetches[t]);
      FetchKept(s, s', s'.fetches[t]);
    }
  }

  lemma ReaderKeepsEntry(s: State, st: Step, d: Path)
    requires Inv(s) && Enabled(s, st) && ByReader(st) && d in Apply(s, st).cache.entries
    ensures var (s', x) := (Apply(s, st), Apply(s, st).cache.entries[d]); Genuine(s', d, x) && Recent(s', d, x)
  {
    GenuineKept(s, Apply(s, st), d, s.cache.entries[d]);
    assert Recent(s, d, s.cache.entries[d]);
  }

  lemma ReaderKeepsInv(s: State, st: Step)
    requires Inv(s) && Enabled(s, st) && ByReader(st)
    ensures Inv(Apply(s, st))
  {
    if st.Expire? {
      RemovedKeepsWellFormed(s.cache, {st.d}, s.capacity);
    }
    forall t | t in Apply(s, st).fetches
      ensures FetchOk(Apply(s, st), Apply(s, st).fetches[t])
    {
      ReaderKeepsFetch(s, st, t);
    }
    forall d | d in Apply(s, st).cache.entries
      ensures Genuine(Apply(s, st), d, Apply(s, st).cache.entries[d])
      ensures Recent(Apply(s, st), d, Apply(s, st).cache.entries[d])
    {
      ReaderKeepsEntry(s, st, d);
    }
  }

  // ----- Whole runs

  ghost predicate StepAt(tr: seq<State>, steps: seq<Step>, i: nat)
    requires i + 1 < |tr| && |tr| == |steps| + 1
  {
    Enabled(tr[i], steps[i]) && tr[i + 1] == Apply(tr[i], steps[i]) && NoWrap(tr[i], steps[i])
  }

  ghost predicate Run(tr: seq<State>, steps: seq<Step>) {
    |tr| == |steps| + 1 && Init(tr[0]) && forall i :: 0 <= i < |steps| ==> StepAt(tr, steps, i)
  }

  /** The mutations the device has carried out, with what the callback took the source of a rename for. */
  ghost function Mutations(steps: seq<Step>): seq<(Op, bool)> {
    if steps == [] then []
    else
      var st := steps[|steps| - 1];
      Mutations(steps[..|steps| - 1]) + if st.Mutate? then [(st.op, st.isDir)] else []
  }

  ghost function Logged(log: seq<Applied>): seq<(Op, bool)> {
    seq(|log|, k requires 0 <= k < |log| => (log[k].op, log[k].isDir))
  }

  lemma StepLogs(s: State, st: Step)
    requires Enabled(s, st)
    ensures Logged(Apply(s, st).log) == Logged(s.log) + if st.Mutate? then [(st.op, st.isDir)] else []
    ensures forall k :: 0 <= k < |s.log| ==>
      && (Apply(s, st).log[k].status.Replied? <==> s.log[k].status.Replied? || st == Reply(k))
      && (Apply(s, st).log[k].status.Failed? <==> s.log[k].status.Failed? || st == Fail(k))
    ensures forall k :: |s.log| <= k < |Apply(s, st).log| ==> Apply(s, st).log[k].status.Open?
  {
  }

  /** The log says what the device did, in order, and which callbacks have replied or failed. */
  lemma {:induction false} LogTells(tr: seq<State>, steps: seq<Step>, n: nat)
    requires Run(tr, steps) && n < |tr|
    ensures Logged(tr[n].log) == Mutations(steps[..n])
    ensures forall k :: 0 <= k < |tr[n].log| ==> (tr[n].log[k].status.Replied? <==> Reply(k) in steps[..n])
    ensures forall k :: 0 <= k < |tr[n].log| ==> (tr[n].log[k].status.Failed? <==> Fail(k) in steps[..n])
    ensures forall k: nat :: k >= |tr[n].log| ==> Reply(k) !in steps[..n] && Fail(k) !in steps[..n]
  {
    if n > 0 {
      LogTells(tr, steps, n - 1);
      assert StepAt(tr, steps, n - 1);
      assert steps[..n] == steps[..n - 1] + [steps[n - 1]] && steps[..n][..n - 1] == steps[..n - 1];
      StepLogs(tr[n - 1], steps[n - 1]);
      assert |Logged(tr[n].log)| >= |Logged(tr[n - 1].log)|;
    }
  }

  lemma StepKeepsInv(s: State, st: Step)
    requires Inv(s) && Enabled(s, st) && NoWrap(s, st)
    ensures Inv(Apply(s, st))
  {
    if st.Mutate? {
      MutateKeepsInv(s, st);
    } else if st.Drop? || st.Reply? || st.Fail? {
      CallbackKeepsInv(s, st);
    } else if st.PutListing? {
      PutKeepsInv(s, st.t);
    } else {
      ReaderKeepsInv(s, st);
    }
  }

  lemma {:induction false} RunKeepsInv(tr: seq<State>, steps: seq<Step>, n: nat)
    requires Run(tr, steps) && n < |tr|
    ensures Inv(tr[n])
  {
    if n > 0 {
      RunKeepsInv(tr, steps, n - 1);
      assert StepAt(tr, steps, n - 1);
      StepKeepsInv(tr[n - 1], steps[n - 1]);
    }
  }

  /** In every run a cached listing of `d` was taken after every mutation covering `d` whose callback has replied. */
  lemma CachedAfterEveryReply(tr: seq<State>, steps: seq<Step>, n: nat, d: Path, k: nat)
    requires Run(tr, steps) && n < |tr| && d in tr[n].cache.entries
    requires k < |tr[n].log| && tr[n].log[k].status.Replied? && tr[n].log[k].Affects(d)
    ensures k < tr[n].cache.entries[d].asOf
  {
    RunKeepsInv(tr, steps, n);
    var s := tr[n];
    assert Recent(s, d, s.cache.entries[d]) && LogOk(s.log[k]);
  }

  /** Capacity and the agreement of `order` with the map, in every run. */
  lemma CacheBounded(tr: seq<State>, steps: seq<Step>, n: nat)
    requires Run(tr, steps) && n < |tr|
    ensures WellFormed(tr[n].cache, tr[n].capacity)
  {
    RunKeepsInv(tr, steps, n);
  }

  /** The callback of mutation `k` judged what it renamed rightly, on the device as it was then. */
  ghost predicate JudgedAt(s: State, k: nat)
    requires k < |s.log|
  {
    Possible(s.fs0, s.log[..k]) && Judged(FsAfter(s.fs0, s.log[..k]), s.log[k].op, s.log[k].isDir)
  }

  /** Mutations that do not cover `d` leave its listing as it was. */
  lemma {:induction false} ListingStands(s: State, d: Path, lo: nat, hi: nat)
    requires Possible(s.fs0, s.log) && lo <= hi <= |s.log| && ListAt(s, lo, d).Some?
    requires forall k :: lo <= k < hi ==> LogOk(s.log[k]) && !s.log[k].Affects(d) && JudgedAt(s, k)
    ensures ListAt(s, hi, d) == ListAt(s, lo, d)
    decreases hi
  {
    if lo < hi {
      ListingStands(s, d, lo, hi - 1);
      PrefixPossible(s.fs0, s.log, hi);
      assert s.log[..hi][..hi - 1] == s.log[..hi - 1] && JudgedAt(s, hi - 1);
      UncoveredListingKept(FsAfter(s.fs0, s.log[..hi - 1]), s.log[hi - 1].op, s.log[hi - 1].isDir, d);
    }
  }

  lemma {:induction false} PrefixPossible(fs0: Fs, log: seq<Applied>, n: nat)
    requires Possible(fs0, log) && n <= |log|
    ensures Possible(fs0, log[..n])
  {
    if n == |log| {
      assert log[..n] == log;
    } else {
      PrefixPossible(fs0, log[..|log| - 1], n);
      assert log[..|log| - 1][..n] == log[..n];
    }
  }

  /**
    What the cache shows, in every run: as long as no mutation since the first page covers the directory, the entry is
    its listing.
  */
  lemma CachedShows(tr: seq<State>, steps: seq<Step>, n: nat, d: Path, m: nat)
    requires Run(tr, steps) && n < |tr| && d in tr[n].cache.entries
    requires tr[n].cache.entries[d].last <= m <= |tr[n].log|
    requires forall k :: tr[n].cache.entries[d].first <= k < m ==> !tr[n].log[k].Affects(d) && JudgedAt(tr[n], k)
    ensures ListAt(tr[n], m, d).Some? && tr[n].cache.entries[d].listing == tr[n].order(ListAt(tr[n], m, d).value)
  {
    RunKeepsInv(tr, steps, n);
    var s := tr[n];
    var x := s.cache.entries[d];
    assert Genuine(s, d, x);
    assert forall k :: 0 <= k < |s.log| ==> LogOk(s.log[k]);
    forall j | x.first <= j <= m
      ensures ListAt(s, j, d) == ListAt(s, x.first, d)
    {
      ListingStands(s, d, x.first, j);
    }
  }

  /** A covering mutation at or after the epoch read has not dropped the entry, so its callback is open or failed. */
  lemma CoveringIsOpenOrFailed(tr: seq<State>, steps: seq<Step>, n: nat, d: Path, k: nat)
    requires Run(tr, steps) && n < |tr| && d in tr[n].cache.entries
    requires tr[n].cache.entries[d].asOf <= k < |tr[n].log| && tr[n].log[k].Affects(d)
    ensures tr[n].log[k].status.Open? || tr[n].log[k].status.Failed?
  {
    if tr[n].log[k].status.Replied? {
      CachedAfterEveryReply(tr, steps, n, d, k);
    }
  }

  /**
    With no covering callback open, the entry is the listing just before the first covering mutation, which failed, or
    the current one if there is none.
  */
  lemma CachedUntilFirstFailure(tr: seq<State>, steps: seq<Step>, n: nat, d: Path, f: nat)
    requires Run(tr, steps) && n < |tr| && d in tr[n].cache.entries
    requires forall k :: tr[n].cache.entries[d].first <= k < |tr[n].log| && tr[n].log[k].Affects(d) ==>
               !tr[n].log[k].status.Open?
    requires tr[n].cache.entries[d].last <= f <= |tr[n].log| && (f < |tr[n].log| ==> tr[n].log[f].Affects(d))
    requires forall k :: tr[n].cache.entries[d].first <= k < f ==> !tr[n].log[k].Affects(d) && JudgedAt(tr[n], k)
    ensures f < |tr[n].log| ==> tr[n].log[f].status.Failed?
    ensures ListAt(tr[n], f, d).Some? && tr[n].cache.entries[d].listing == tr[n].order(ListAt(tr[n], f, d).value)
  {
    RunKeepsInv(tr, steps, n);
    assert Genuine(tr[n], d, tr[n].cache.entries[d]);
    if f < |tr[n].log| {
      CoveringIsOpenOrFailed(tr, steps, n, d, f);
    }
    CachedShows(tr, steps, n, d, f);
  }

  /**
    In every run a cached listing is what the device would list now, as long as no mutation since its first page covers
    the directory with an open or a failed callback and directories renamed since were recognised as such.
  */
  lemma CachedIsCurrent(tr: seq<State>, steps: seq<Step>, n: nat, d: Path)
    requires Run(tr, steps) && n < |tr| && d in tr[n].cache.entries
    requires forall k :: tr[n].cache.entries[d].first <= k < |tr[n].log| && tr[n].log[k].Affects(d) ==>
               tr[n].log[k].status.Replied?
    requires forall k :: tr[n].cache.entries[d].first <= k < |tr[n].log| ==> JudgedAt(tr[n], k)
    ensures var s := tr[n];
      && Possible(s.fs0, s.log) && List(FsAfter(s.fs0, s.log), d).Some?
      && s.cache.entries[d].listing == s.order(List(FsAfter(s.fs0, s.log), d).value)
  {
    RunKeepsInv(tr, steps, n);
    var s := tr[n];
    assert Genuine(s, d, s.cache.entries[d]);
    forall k | s.cache.entries[d].first <= k < |s.log|
      ensures !s.log[k].Affects(d)
    {
      if s.log[k].Affects(d) {
        CoveringIsOpenOrFailed(tr, steps, n, d, k);
      }
    }
    CachedShows(tr, steps, n, d, |s.log|);
    assert s.log[..|s.log|] == s.log;
  }

  // ----- A stale entry

  /** Some run leads from `s` to `s'`. */
  ghost predicate Reaches(s: State, s': State) {
    exists tr, steps :: Run(tr, steps) && tr[0] == s && tr[|tr| - 1] == s'
  }

  lemma ReachesMore(s: State, s': State, st: Step)
    requires Reaches(s, s') && Enabled(s', st) && NoWrap(s', st)
    ensures Reaches(s, Apply(s', st))
  {
    var tr, steps :| Run(tr, steps) && tr[0] == s && tr[|tr| - 1] == s';
    var tr', steps' := tr + [Apply(s', st)], steps + [st];
    forall i | 0 <= i < |steps'|
      ensures StepAt(tr', steps', i)
    {
      if i < |steps| {
        assert StepAt(tr, steps, i);
      }
    }
    assert Run(tr', steps');
  }

  /** "/" holds one file, /a. */
  const OneFile: Fs := map[[] := Dir, ["a"] := File(0)]

  /**
    A cached listing can be stale: "/" is listed and cached, /a is removed on the device, and the proxy reports an error
    for the removal. No listing is dropped, and the cache goes on showing /a.
  */
  lemma StaleAfterFailure(s0: State) returns (s: State)
    requires Init(s0) && s0.fs0 == OneFile
    requires forall l :: |s0.order(l)| == |l|
    ensures Reaches(s0, s) && [] in s.cache.entries && |s.log| == 1
    ensures ListAt(s, 1, []).Some? && s.cache.entries[[]].listing != s.order(ListAt(s, 1, []).value)
  {
    s := CachedListing(s0);
    var op := Unlink(["a"]);
    assert s.log == [] && FsAfter(s.fs0, s.log) == OneFile;
    ReachesMore(s0, s, Mutate(op, false));
    s := Apply(s, Mutate(op, false));
    ReachesMore(s0, s, Fail(0));
    s := Apply(s, Fail(0));
    AfterUnlink(s);
  }

  lemma AfterUnlink(s: State)
    requires s.fs0 == OneFile && |s.log| == 1 && s.log[0].op == Unlink(["a"])
    ensures ListAt(s, 1, []) == Some(map[])
  {
    var log := s.log[..1];
    assert log[..0] == [] && Possible(s.fs0, []) && FsAfter(s.fs0, []) == OneFile;
    assert Possible(s.fs0, log) && FsAfter(s.fs0, log) == OneFile - {["a"]};
    assert OneFile - {["a"]} == map[[] := Dir];
    assert List(map[[] := Dir], []).value == map[];
  }

  /** The first three steps: epoch, one page, put. */
  lemma CachedListing(s0: State) returns (s: State)
    requires Init(s0) && s0.fs0 == OneFile
    requires forall l :: |s0.order(l)| == |l|
    ensures Reaches(s0, s) && s.fs0 == OneFile && s.order == s0.order && s.log == []
    ensures [] in s.cache.entries && |s.cache.entries[[]].listing| == 1
  {
    var all := List(OneFile, []).value;
    OneChild();
    assert Reaches(s0, s0) by { assert Run([s0], []); }
    ReachesMore(s0, s0, ReadEpoch(0, []));
    s := Apply(s0, ReadEpoch(0, []));
    assert s.log[..0] == [] && ListAt(s, 0, []) == Some(all);
    ReachesMore(s0, s, ReadPage(0));
    s := Apply(s, ReadPage(0));
    assert PageOf(s.order(all), 0) == s.order(all) && [] + s.order(all) == s.order(all);
    ReachesMore(s0, s, PutListing(0));
    s := Apply(s, PutListing(0));
  }

  lemma OneChild()
    ensures List(OneFile, []) == Some(map[["a"] := File(0)])
  {
    assert ChildOf(["a"], []) && List(OneFile, []).Some?;
    assert List(OneFile, []).value == map[["a"] := File(0)];
  }
}
