/** `enqueue_tree_pull`: the explicit-stack walk of a device folder, with its caps, against recursive enumeration. */
module TreePull {
  import opened Bytes
  import opened DevicePaths
  import DirPages
  import ProxyLimits

  const TREE_MAX_DEPTH: nat := 32
  const TREE_MAX_FILES: nat := 10_000

  /** An entry of a listing, its name decoded. */
  datatype Item = Item(name: Name, mode: u32)

  predicate IsLink(mode: u32) {
    mode / 0x1000 % 16 == 10
  }

  predicate IsDir(mode: u32) {
    mode / 0x1000 % 16 == 4
  }

  /** The file types of POSIX, with any permission bits: links, directories, and regular files, which are neither. */
  lemma ModesSpelled(bits: nat)
    requires bits < 0x1000
    ensures IsLink(0xA000 + bits) && !IsDir(0xA000 + bits)
    ensures IsDir(0x4000 + bits) && !IsLink(0x4000 + bits)
    ensures !IsLink(0x8000 + bits) && !IsDir(0x8000 + bits)
  {
  }

  /** What a walk makes of each: 0o120000, 0o040000 and 0o100000 are these numbers. */
  lemma TypesHandled(w: World, name: Name, bits: nat, rel: Path)
    requires bits < 0x1000 && |rel| < TREE_MAX_DEPTH
    ensures var here := rel + [name];
      && One(w, Item(name, 0xA000 + bits), rel) == Tally(multiset{}, 0, 0, 0)
      && One(w, Item(name, 0x8000 + bits), rel) == Tally(multiset{PullAt(w, here)}, 0, 0, 0)
      && (w.made(w.top + here) ==> One(w, Item(name, 0x4000 + bits), rel) == Folder(w, here))
  {
    ModesSpelled(bits);
    PlusNothing(Folder(w, rel + [name]));
  }

  /** What is pulled from and to, what listing a remote path answers, and which local directories can be made. */
  datatype World = World(base: Text, top: Path, list: Text -> Option<seq<Item>>, made: Path -> bool)

  /** A queued job: what to pull and where to. */
  type Pull = (Text, Path)

  /** Remote and local path share the relative path. */
  function PullAt(w: World, rel: Path): Pull {
    (RemoteAt(w.base, rel), w.top + rel)
  }

  // ----- The reference: recursive enumeration of what the listings show

  /** Files found, folders left out as too deep, folders to visit, and folders that cannot be listed or made. */
  datatype Tally = Tally(files: multiset<Pull>, tooDeep: nat, folders: nat, blocked: nat)

  const NOTHING := Tally(multiset{}, 0, 0, 0)

  ghost function Plus(a: Tally, b: Tally): Tally {
    Tally(a.files + b.files, a.tooDeep + b.tooDeep, a.folders + b.folders, a.blocked + b.blocked)
  }

  lemma PlusNothing(a: Tally)
    ensures Plus(a, NOTHING) == a && Plus(NOTHING, a) == a
  {
  }

  ghost function LevelsLeft(rel: Path): nat {
    if |rel| < TREE_MAX_DEPTH then TREE_MAX_DEPTH - |rel| else 0
  }

  /** The folder at `rel` and all below. */
  ghost function Folder(w: World, rel: Path): Tally
    decreases LevelsLeft(rel), 1, 0
  {
    if |rel| >= TREE_MAX_DEPTH then Tally(multiset{}, 1, 1, 0)
    else
      match w.list(RemoteAt(w.base, rel))
      case None => Tally(multiset{}, 0, 1, 1)
      case Some(items) => Plus(Tally(multiset{}, 0, 1, 0), Entries(w, items, rel))
  }

  /** A folder 32 levels down is left out with an error, one 31 levels down is not. */
  lemma DepthCap(w: World, rel: Path)
    requires w.list(RemoteAt(w.base, rel)) == Some([])
    ensures |rel| >= 32 ==> Folder(w, rel) == Tally(multiset{}, 1, 1, 0)
    ensures |rel| < 32 ==> Folder(w, rel) == Tally(multiset{}, 0, 1, 0)
  {
    if |rel| < 32 {
      assert Entries(w, [], rel) == NOTHING;
      FolderListed(w, rel, []);
      PlusNothing(Tally(multiset{}, 0, 1, 0));
    }
  }

  ghost function Entries(w: World, items: seq<Item>, rel: Path): Tally
    requires |rel| < TREE_MAX_DEPTH
    decreases LevelsLeft(rel), 0, |items|
  {
    if items == [] then NOTHING else Plus(One(w, items[0], rel), Entries(w, items[1..], rel))
  }

  ghost function One(w: World, item: Item, rel: Path): Tally
    requires |rel| < TREE_MAX_DEPTH
    decreases LevelsLeft(rel), 0, 0
  {
    var here := rel + [item.name];
    if IsLink(item.mode) then NOTHING
    else if !IsDir(item.mode) then Tally(multiset{PullAt(w, here)}, 0, 0, 0)
    else Plus(Tally(multiset{}, 0, 0, if w.made(w.top + here) then 0 else 1), Folder(w, here))
  }

  // ----- The walk

  datatype TreeError = TooDeep(path: Text) | TooManyFiles

  /** `enqueued` are the jobs submitted; they stay queued when the walk fails. */
  datatype Outcome = Failed(enqueued: seq<Pull>) | Finished(enqueued: seq<Pull>, errors: seq<TreeError>)

  /** One stack entry. `rel` is history: the relative path its remote and local paths share. */
  datatype Frame = Frame(remote: Text, local: Path, depth: nat, rel: Path)

  ghost predicate FrameOk(f: Frame, w: World) {
    (f.remote, f.local) == PullAt(w, f.rel) && f.depth == |f.rel|
  }

  ghost predicate FramesOk(stack: seq<Frame>, w: World) {
    forall i :: 0 <= i < |stack| ==> FrameOk(stack[i], w)
  }

  /** What popping every frame will contribute. */
  ghost function Stacked(w: World, stack: seq<Frame>): Tally {
    if stack == [] then NOTHING else Plus(Stacked(w, stack[..|stack| - 1]), Folder(w, stack[|stack| - 1].rel))
  }

  lemma Pushed(w: World, stack: seq<Frame>, f: Frame)
    ensures Stacked(w, stack + [f]) == Plus(Stacked(w, stack), Folder(w, f.rel))
  {
    assert (stack + [f])[..|stack|] == stack;
  }

  ghost function AddUp(done: multiset<Pull>, stacked: Tally, left: Tally): Tally {
    Tally(done + stacked.files + left.files, stacked.tooDeep + left.tooDeep, stacked.folders + left.folders,
          stacked.blocked + left.blocked)
  }

  /** What is enqueued, what the stack holds and what is left of a folder, added up. */
  ghost function TallyOf(w: World, enqueued: seq<Pull>, stack: seq<Frame>, left: Tally): Tally {
    AddUp(multiset(enqueued), Stacked(w, stack), left)
  }

  /** `total` is what is enqueued, stacked and left of a folder, for invariants. */
  ghost predicate Adds(w: World, enqueued: seq<Pull>, stack: seq<Frame>, left: Tally, total: Tally) {
    TallyOf(w, enqueued, stack, left) == total
  }

  lemma AfterLink(w: World, enqueued: seq<Pull>, stack: seq<Frame>, items: seq<Item>, k: nat, rel: Path, total: Tally)
    requires k < |items| && |rel| < TREE_MAX_DEPTH && IsLink(items[k].mode)
    requires Adds(w, enqueued, stack, Entries(w, items[k..], rel), total)
    ensures Adds(w, enqueued, stack, Entries(w, items[k + 1..], rel), total)
  {
    NextEntry(w, items, k, rel);
    PlusNothing(Entries(w, items[k + 1..], rel));
  }

  lemma AfterFile(w: World, enqueued: seq<Pull>, stack: seq<Frame>, items: seq<Item>, k: nat, rel: Path, total: Tally)
    requires k < |items| && |rel| < TREE_MAX_DEPTH && !IsLink(items[k].mode) && !IsDir(items[k].mode)
    requires Adds(w, enqueued, stack, Entries(w, items[k..], rel), total)
    ensures Adds(w, enqueued + [PullAt(w, rel + [items[k].name])], stack, Entries(w, items[k + 1..], rel), total)
  {
    NextEntry(w, items, k, rel);
    var p := PullAt(w, rel + [items[k].name]);
    assert multiset(enqueued + [p]) == multiset(enqueued) + multiset{p};
  }

  lemma AfterFolder(w: World, enqueued: seq<Pull>, stack: seq<Frame>, items: seq<Item>, k: nat, rel: Path, total: Tally,
                    g: Frame)
    requires k < |items| && |rel| < TREE_MAX_DEPTH && !IsLink(items[k].mode) && IsDir(items[k].mode)
    requires Adds(w, enqueued, stack, Entries(w, items[k..], rel), total) && g.rel == rel + [items[k].name]
    ensures w.made(w.top + g.rel) ==> Adds(w, enqueued, stack + [g], Entries(w, items[k + 1..], rel), total)
    ensures !w.made(w.top + g.rel) ==> total.blocked > 0
  {
    NextEntry(w, items, k, rel);
    Pushed(w, stack, g);
  }

  lemma Enough(w: World, enqueued: seq<Pull>, stack: seq<Frame>, left: Tally, total: Tally)
    requires Adds(w, enqueued, stack, left, total)
    ensures multiset(enqueued) <= total.files
  {
  }

  lemma NextEntry(w: World, items: seq<Item>, k: nat, rel: Path)
    requires k < |items| && |rel| < TREE_MAX_DEPTH
    ensures Entries(w, items[k..], rel) == Plus(One(w, items[k], rel), Entries(w, items[k + 1..], rel))
  {
    assert items[k..][1..] == items[k + 1..] && items[k..][0] == items[k];
  }

  datatype Visit = GoOn | LeftOut | CapHit | Blocked

  lemma OneMoreFrame(w: World, stack: seq<Frame>, g: Frame)
    requires FramesOk(stack, w) && FrameOk(g, w)
    ensures FramesOk(stack + [g], w)
  {
  }

  /** One entry: a file is enqueued, a folder made and pushed, a symlink skipped. */
  method VisitEntry(w: World, f: Frame, items: seq<Item>, k: nat, stack0: seq<Frame>, enqueued0: seq<Pull>,
                    ghost total: Tally)
    returns (stack: seq<Frame>, enqueued: seq<Pull>, ok: bool)
    requires FrameOk(f, w) && f.depth < TREE_MAX_DEPTH && FramesOk(stack0, w) && k < |items|
    requires Adds(w, enqueued0, stack0, Entries(w, items[k..], f.rel), total)
    ensures FramesOk(stack, w) && |enqueued0| <= |enqueued| <= |enqueued0| + 1
    ensures ok ==> Adds(w, enqueued, stack, Entries(w, items[k + 1..], f.rel), total)
    ensures !ok ==> enqueued == enqueued0 && total.blocked > 0
  {
    stack, enqueued, ok := stack0, enqueued0, true;
    var entry := items[k];
    if IsLink(entry.mode) {
      AfterLink(w, enqueued, stack, items, k, f.rel, total);
      return;
    }
    var remoteChild, localChild := ChildPath(f.remote, entry.name), f.local + [entry.name];
    SharedRelative(f, w, entry.name);
    if IsDir(entry.mode) {
      var g := Frame(remoteChild, localChild, f.depth + 1, f.rel + [entry.name]);
      AfterFolder(w, enqueued, stack, items, k, f.rel, total, g);
      OneMoreFrame(w, stack, g);
      ok := w.made(localChild);
      if ok {
        stack := stack + [g];
      }
    } else {
      AfterFile(w, enqueued, stack, items, k, f.rel, total);
      enqueued := enqueued + [(remoteChild, localChild)];
    }
  }

  /** The entries of one listed folder, until the file cap is hit or a folder cannot be made. */
  method VisitEntries(w: World, f: Frame, items: seq<Item>, stack0: seq<Frame>, enqueued0: seq<Pull>,
                      ghost total: Tally)
    returns (stack: seq<Frame>, enqueued: seq<Pull>, visit: Visit)
    requires FrameOk(f, w) && f.depth < TREE_MAX_DEPTH && FramesOk(stack0, w) && |enqueued0| <= TREE_MAX_FILES
    requires Adds(w, enqueued0, stack0, Entries(w, items, f.rel), total)
    ensures FramesOk(stack, w) && |enqueued| <= TREE_MAX_FILES && multiset(enqueued) <= total.files
    ensures !visit.LeftOut? && (visit.CapHit? ==> |enqueued| == TREE_MAX_FILES)
    ensures visit.GoOn? ==> Adds(w, enqueued, stack, NOTHING, total)
    ensures visit.Blocked? ==> total.blocked > 0
  {
    stack, enqueued, visit := stack0, enqueued0, GoOn;
    assert items[0..] == items;
    for k := 0 to |items|
      invariant FramesOk(stack, w) && |enqueued| <= TREE_MAX_FILES
      invariant Adds(w, enqueued, stack, Entries(w, items[k..], f.rel), total)
    {
      Enough(w, enqueued, stack, Entries(w, items[k..], f.rel), total);
      if |enqueued| >= TREE_MAX_FILES {
        return stack, enqueued, CapHit;
      }
      var ok: bool;
      stack, enqueued, ok := VisitEntry(w, f, items, k, stack, enqueued, total);
      if !ok {
        return stack, enqueued, Blocked;
      }
    }
    assert items[|items|..] == [];
    Enough(w, enqueued, stack, NOTHING, total);
  }

  lemma SharedRelative(f: Frame, w: World, name: Name)
    requires FrameOk(f, w)
    ensures (ChildPath(f.remote, name), f.local + [name]) == PullAt(w, f.rel + [name])
  {
    var rel := f.rel + [name];
    assert Above(rel) == f.rel && Last(rel) == name;
    assert f.local + [name] == w.top + rel;
  }

  /**
    The walk refines recursive enumeration. However it ends, it has enqueued no more than the cap and nothing that the
    listings do not show as a file. Unless it fails or the file cap stops it, it has enqueued exactly what they show
    above the depth cap, as often as they show it, and reports one error per folder left out. It fails only if a folder
    cannot be listed or made.
  */
  method EnqueueTreePull(w: World) returns (out: Outcome)
    ensures var total := Folder(w, []);
      && |out.enqueued| <= 10_000 && multiset(out.enqueued) <= total.files
      && (out.Finished? && TooManyFiles !in out.errors ==>
            multiset(out.enqueued) == total.files && |out.errors| == total.tooDeep)
      && (out.Finished? && |total.files| < 10_000 ==> TooManyFiles !in out.errors)
      && (w.made(w.top) && total.blocked == 0 ==> out.Finished?)
  {
    if !w.made(w.top) {
      return Failed([]);
    }
    var stack := [Frame(w.base, w.top, 0, [])];
    ghost var total := Folder(w, []);
    Start(w, stack, total);
    out := Walk(w, stack, total);
  }

  method Walk(w: World, stack0: seq<Frame>, ghost total: Tally) returns (out: Outcome)
    requires FramesOk(stack0, w) && Adds(w, [], stack0, NOTHING, total)
    ensures |out.enqueued| <= TREE_MAX_FILES && multiset(out.enqueued) <= total.files
    ensures out.Finished? && TooManyFiles !in out.errors ==>
      multiset(out.enqueued) == total.files && |out.errors| == total.tooDeep
    ensures out.Finished? && |total.files| < TREE_MAX_FILES ==> TooManyFiles !in out.errors
    ensures total.blocked == 0 ==> out.Finished?
  {
    var stack, enqueued: seq<Pull>, errors: seq<TreeError> := stack0, [], [];
    ghost var rest := total;
    while stack != []
      invariant FramesOk(stack, w) && |enqueued| <= TREE_MAX_FILES && TooManyFiles !in errors
      invariant Adds(w, enqueued, stack, NOTHING, rest)
      invariant rest.files == total.files && rest.blocked == total.blocked && |errors| + rest.tooDeep == total.tooDeep
      decreases rest.folders
    {
      var f, visit := stack[|stack| - 1], GoOn;
      stack, enqueued, visit, rest := PopFolder(w, stack, enqueued, rest);
      match visit {
        case GoOn =>
        case LeftOut =>
          errors := errors + [TooDeep(f.remote)];
        case CapHit =>
          WithinAll(enqueued, total.files);
          return Finished(enqueued, errors + [TooManyFiles]);
        case Blocked =>
          return Failed(enqueued);
      }
    }
    AllAdded(w, enqueued, rest);
    return Finished(enqueued, errors);
  }

  /** One turn of the loop. */
  method PopFolder(w: World, stack0: seq<Frame>, enqueued0: seq<Pull>, ghost rest0: Tally)
    returns (stack: seq<Frame>, enqueued: seq<Pull>, visit: Visit, ghost rest: Tally)
    requires stack0 != [] && FramesOk(stack0, w) && |enqueued0| <= TREE_MAX_FILES
    requires Adds(w, enqueued0, stack0, NOTHING, rest0)
    ensures FramesOk(stack, w) && |enqueued| <= TREE_MAX_FILES && multiset(enqueued) <= rest0.files
    ensures visit.CapHit? ==> |enqueued| == TREE_MAX_FILES
    ensures visit.Blocked? ==> rest0.blocked > 0
    ensures rest.files == rest0.files && rest.blocked == rest0.blocked
    ensures visit.GoOn? || visit.LeftOut? ==>
      && Adds(w, enqueued, stack, NOTHING, rest) && rest.folders < rest0.folders
      && rest0.tooDeep == rest.tooDeep + if visit.LeftOut? then 1 else 0
  {
    var f, less := stack0[|stack0| - 1], stack0[..|stack0| - 1];
    assert stack0 == less + [f] && FrameOk(f, w);
    stack, enqueued, visit, rest := VisitFolder(w, less, f, enqueued0, rest0);
  }

  /** The frame `f` just popped. */
  method VisitFolder(w: World, less: seq<Frame>, f: Frame, enqueued0: seq<Pull>, ghost rest0: Tally)
    returns (stack: seq<Frame>, enqueued: seq<Pull>, visit: Visit, ghost rest: Tally)
    requires FramesOk(less, w) && FrameOk(f, w) && |enqueued0| <= TREE_MAX_FILES
    requires Adds(w, enqueued0, less + [f], NOTHING, rest0)
    ensures FramesOk(stack, w) && |enqueued| <= TREE_MAX_FILES && multiset(enqueued) <= rest0.files
    ensures visit.CapHit? ==> |enqueued| == TREE_MAX_FILES
    ensures visit.Blocked? ==> rest0.blocked > 0
    ensures rest.files == rest0.files && rest.blocked == rest0.blocked
    ensures visit.GoOn? || visit.LeftOut? ==>
      && Adds(w, enqueued, stack, NOTHING, rest) && rest.folders < rest0.folders
      && rest0.tooDeep == rest.tooDeep + if visit.LeftOut? then 1 else 0
  {
    stack, enqueued, rest := less, enqueued0, rest0;
    Enough(w, enqueued, less + [f], NOTHING, rest0);
    if f.depth >= TREE_MAX_DEPTH {
      PoppedTooDeep(w, enqueued, stack, f, rest);
      rest := rest.(tooDeep := rest.tooDeep - 1, folders := rest.folders - 1);
      return stack, enqueued, LeftOut, rest;
    }
    var listed := w.list(f.remote);
    if listed.None? {
      PoppedBlocked(w, enqueued, stack, f, rest);
      return stack, enqueued, Blocked, rest;
    }
    Popped(w, enqueued, stack, f, listed.value, rest);
    rest := rest.(folders := rest.folders - 1);
    stack, enqueued, visit := VisitEntries(w, f, listed.value, stack, enqueued, rest);
  }

  lemma AllAdded(w: World, enqueued: seq<Pull>, total: Tally)
    requires Adds(w, enqueued, [], NOTHING, total)
    ensures multiset(enqueued) == total.files && total.tooDeep == 0
  {
    PlusNothing(Tally(multiset(enqueued), 0, 0, 0));
  }

  /** What taking the top frame off leaves to account for. */
  lemma Popped(w: World, enqueued: seq<Pull>, less: seq<Frame>, f: Frame, items: seq<Item>, rest: Tally)
    requires FrameOk(f, w) && f.depth < TREE_MAX_DEPTH && w.list(f.remote) == Some(items)
    requires Adds(w, enqueued, less + [f], NOTHING, rest)
    ensures rest.folders > 0
    ensures Adds(w, enqueued, less, Entries(w, items, f.rel), rest.(folders := rest.folders - 1))
  {
    Pushed(w, less, f);
    FolderListed(w, f.rel, items);
    Regroup(multiset(enqueued), Stacked(w, less), Folder(w, f.rel), Entries(w, items, f.rel), rest);
  }

  lemma FolderListed(w: World, rel: Path, items: seq<Item>)
    requires |rel| < TREE_MAX_DEPTH && w.list(RemoteAt(w.base, rel)) == Some(items)
    ensures Folder(w, rel) == Plus(Tally(multiset{}, 0, 1, 0), Entries(w, items, rel))
  {
  }

  lemma Regroup(done: multiset<Pull>, stacked: Tally, folder: Tally, e: Tally, all: Tally)
    requires folder == Plus(Tally(multiset{}, 0, 1, 0), e) && all == AddUp(done, Plus(stacked, folder), NOTHING)
    ensures all.folders > 0 && AddUp(done, stacked, e) == all.(folders := all.folders - 1)
  {
    assert all.files == done + stacked.files + e.files;
  }

  lemma PoppedBlocked(w: World, enqueued: seq<Pull>, less: seq<Frame>, f: Frame, rest: Tally)
    requires FrameOk(f, w) && f.depth < TREE_MAX_DEPTH && w.list(f.remote).None?
    requires Adds(w, enqueued, less + [f], NOTHING, rest)
    ensures rest.blocked > 0
  {
    Pushed(w, less, f);
  }

  lemma PoppedTooDeep(w: World, enqueued: seq<Pull>, less: seq<Frame>, f: Frame, rest: Tally)
    requires FrameOk(f, w) && f.depth >= TREE_MAX_DEPTH && Adds(w, enqueued, less + [f], NOTHING, rest)
    ensures rest.folders > 0 && rest.tooDeep > 0
    ensures Adds(w, enqueued, less, NOTHING, rest.(tooDeep := rest.tooDeep - 1, folders := rest.folders - 1))
  {
    Pushed(w, less, f);
    assert Folder(w, f.rel) == Tally(multiset{}, 1, 1, 0);
    LeaveOut(multiset(enqueued), Stacked(w, less), Folder(w, f.rel), rest);
  }

  lemma LeaveOut(done: multiset<Pull>, stacked: Tally, folder: Tally, all: Tally)
    requires folder == Tally(multiset{}, 1, 1, 0) && all == AddUp(done, Plus(stacked, folder), NOTHING)
    ensures all.tooDeep > 0 && all.folders > 0
    ensures AddUp(done, stacked, NOTHING) == all.(tooDeep := all.tooDeep - 1, folders := all.folders - 1)
  {
    assert all.files == done + stacked.files + NOTHING.files;
  }

  lemma Start(w: World, stack: seq<Frame>, total: Tally)
    requires stack == [Frame(w.base, w.top, 0, [])] && total == Folder(w, [])
    ensures FramesOk(stack, w) && Adds(w, [], stack, NOTHING, total)
  {
    assert w.top + [] == w.top && [] + [stack[0]] == stack;
    Pushed(w, [], stack[0]);
  }

  lemma WithinAll(s: seq<Pull>, all: multiset<Pull>)
    requires multiset(s) <= all
    ensures |s| <= |all|
  {
    assert all == multiset(s) + (all - multiset(s));
  }

  // ----- The folder itself

  /** An entry of a folder as the device has it, with the entries below when it is a folder. */
  datatype Child = Child(raw: DirPages.Raw, below: seq<Child>)

  predicate IsFolder(c: Child) {
    c.raw.stat.Some? && IsDir(c.raw.stat.value.mode)
  }

  function Raws(cs: seq<Child>): (rs: seq<DirPages.Raw>)
    ensures |rs| == |cs|
  {
    seq(|cs|, i requires 0 <= i < |cs| => cs[i].raw)
  }

  function Items(decode: Name -> Name, es: seq<DirPages.Entry>): (items: seq<Item>)
    ensures |items| == |es|
  {
    seq(|es|, i requires 0 <= i < |es| => Item(decode(es[i].name), es[i].stat.mode))
  }

  /** Listing the folder, and every folder below by its own name, answers the pages of its entries, names decoded. */
  ghost predicate Serves(w: World, decode: Name -> Name, cs: seq<Child>, rel: Path)
    decreases cs, 1
  {
    && w.list(RemoteAt(w.base, rel)) == Some(Items(decode, DirPages.Pages(Raws(cs), 0)))
    && ServesBelow(w, decode, cs, rel)
  }

  ghost predicate ServesBelow(w: World, decode: Name -> Name, cs: seq<Child>, rel: Path)
    decreases cs, 0
  {
    forall i :: 0 <= i < |cs| && IsFolder(cs[i]) ==> Serves(w, decode, cs[i].below, rel + [cs[i].raw.name])
  }

  /** In every folder, failing `lstat`s fall on the last page only, and the names of the others decode to themselves. */
  ghost predicate ToldOnce(decode: Name -> Name, cs: seq<Child>)
    decreases cs, 1
  {
    DirPages.FailuresOnLastPage(Raws(cs), 0) && Told(decode, cs)
  }

  ghost predicate Told(decode: Name -> Name, cs: seq<Child>)
    decreases cs, 0
  {
    forall i :: 0 <= i < |cs| && cs[i].raw.stat.Some? ==>
      decode(cs[i].raw.name) == cs[i].raw.name && (IsFolder(cs[i]) ==> ToldOnce(decode, cs[i].below))
  }

  /** Every file below that can be stat-ed, symlinks skipped. */
  ghost function AllFiles(w: World, cs: seq<Child>, rel: Path): multiset<Pull>
    decreases cs
  {
    if cs == [] then multiset{}
    else
      var last := cs[|cs| - 1];
      AllFiles(w, cs[..|cs| - 1], rel) + (if last.raw.stat.None? then multiset{} else FilesAt(w, last, rel))
  }

  ghost function FilesAt(w: World, c: Child, rel: Path): multiset<Pull>
    requires c.raw.stat.Some?
    decreases c
  {
    var here := rel + [c.raw.name];
    if IsLink(c.raw.stat.value.mode) then multiset{}
    else if !IsFolder(c) then multiset{PullAt(w, here)}
    else AllFiles(w, c.below, here)
  }

  lemma {:induction false} EntriesConcat(w: World, a: seq<Item>, b: seq<Item>, rel: Path)
    requires |rel| < TREE_MAX_DEPTH
    ensures Entries(w, a + b, rel) == Plus(Entries(w, a, rel), Entries(w, b, rel))
  {
    if a == [] {
      assert a + b == b;
      PlusNothing(Entries(w, b, rel));
    } else {
      assert (a + b)[1..] == a[1..] + b;
      EntriesConcat(w, a[1..], b, rel);
      PlusAssoc(One(w, a[0], rel), Entries(w, a[1..], rel), Entries(w, b, rel));
    }
  }

  lemma PlusAssoc(a: Tally, b: Tally, c: Tally)
    ensures Plus(a, Plus(b, c)) == Plus(Plus(a, b), c)
  {
    assert a.files + (b.files + c.files) == a.files + b.files + c.files;
  }

  lemma EntriesSnoc(w: World, a: seq<Item>, item: Item, rel: Path)
    requires |rel| < TREE_MAX_DEPTH
    ensures Entries(w, a + [item], rel) == Plus(Entries(w, a, rel), One(w, item, rel))
  {
    EntriesConcat(w, a, [item], rel);
    assert [item][1..] == [] && Entries(w, [], rel) == NOTHING;
    PlusNothing(One(w, item, rel));
  }

  /** What a stat-able entry adds to a listing. */
  lemma ShownSnoc(decode: Name -> Name, cs: seq<Child>)
    requires cs != []
    ensures var shown, c := Items(decode, DirPages.Statable(Raws(cs[..|cs| - 1]))), cs[|cs| - 1];
      Items(decode, DirPages.Statable(Raws(cs))) ==
      if c.raw.stat.None? then shown else shown + [Item(decode(c.raw.name), c.raw.stat.value.mode)]
  {
    var less, c := cs[..|cs| - 1], cs[|cs| - 1];
    assert Raws(cs)[..|cs| - 1] == Raws(less) && Raws(cs)[|cs| - 1] == c.raw;
  }

  /** `t` finds nothing but the files `all`, and all of them unless it leaves a folder out. */
  ghost predicate Finds(t: Tally, all: multiset<Pull>) {
    t.files <= all && (t.tooDeep == 0 ==> t.files == all)
  }

  lemma FindsBoth(a: Tally, as_: multiset<Pull>, b: Tally, bs: multiset<Pull>)
    requires Finds(a, as_) && Finds(b, bs)
    ensures Finds(Plus(a, b), as_ + bs)
  {
  }

  /** If all names are told and failing `lstat`s fall on last pages, the enumeration finds the folder's files. */
  lemma {:induction false} FindsFolder(w: World, decode: Name -> Name, cs: seq<Child>, rel: Path)
    requires Serves(w, decode, cs, rel) && ToldOnce(decode, cs)
    ensures Finds(Folder(w, rel), AllFiles(w, cs, rel))
    decreases cs, 1
  {
    if |rel| < TREE_MAX_DEPTH {
      var es := Raws(cs);
      DirPages.ExactlyOnceIff(es, 0);
      assert es[0..] == es;
      FindsEntries(w, decode, cs, rel);
      FolderListed(w, rel, Items(decode, DirPages.Statable(es)));
    }
  }

  lemma {:induction false} FindsEntries(w: World, decode: Name -> Name, cs: seq<Child>, rel: Path)
    requires |rel| < TREE_MAX_DEPTH && ServesBelow(w, decode, cs, rel) && Told(decode, cs)
    ensures Finds(Entries(w, Items(decode, DirPages.Statable(Raws(cs))), rel), AllFiles(w, cs, rel))
    decreases cs, 0
  {
    if cs != [] {
      var less, c := cs[..|cs| - 1], cs[|cs| - 1];
      FindsEntries(w, decode, less, rel);
      ShownSnoc(decode, cs);
      if c.raw.stat.Some? {
        var shown, item := Items(decode, DirPages.Statable(Raws(less))), Item(c.raw.name, c.raw.stat.value.mode);
        EntriesSnoc(w, shown, item, rel);
        if IsFolder(c) {
          FindsFolder(w, decode, c.below, rel + [c.raw.name]);
        }
        FindsOne(w, c, item, rel);
        FindsBoth(Entries(w, shown, rel), AllFiles(w, less, rel), One(w, item, rel), FilesAt(w, c, rel));
      }
    }
  }

  lemma FindsOne(w: World, c: Child, item: Item, rel: Path)
    requires |rel| < TREE_MAX_DEPTH && c.raw.stat.Some? && item == Item(c.raw.name, c.raw.stat.value.mode)
    requires IsFolder(c) ==> Finds(Folder(w, rel + [c.raw.name]), AllFiles(w, c.below, rel + [c.raw.name]))
    ensures Finds(One(w, item, rel), FilesAt(w, c, rel))
  {
  }

  // ----- Once each

  ghost function Names(cs: seq<Child>): set<Name> {
    set k | 0 <= k < |cs| :: cs[k].raw.name
  }

  /** As a file system has it: no two entries of a folder share a name. */
  ghost predicate Tidy(cs: seq<Child>) {
    cs == [] ||
    var less, c := cs[..|cs| - 1], cs[|cs| - 1];
    c.raw.name !in Names(less) && (IsFolder(c) ==> Tidy(c.below)) && Tidy(less)
  }

  /** A file's local path goes through the folder at `at` and then one of its entries. */
  ghost predicate Through(p: Pull, at: Path, names: set<Name>) {
    |at| < |p.1| && at <= p.1 && p.1[|at|] in names
  }

  lemma NamesSnoc(cs: seq<Child>)
    requires cs != []
    ensures Names(cs) == Names(cs[..|cs| - 1]) + {cs[|cs| - 1].raw.name}
  {
    var less := cs[..|cs| - 1];
    forall k | 0 <= k < |cs|
      ensures cs[k].raw.name in Names(less) + {cs[|cs| - 1].raw.name}
    {
      assert k < |less| ==> less[k] == cs[k];
    }
    forall k | 0 <= k < |less|
      ensures less[k].raw.name in Names(cs)
    {
      assert less[k] == cs[k];
    }
  }

  lemma {:induction false} Located(w: World, cs: seq<Child>, rel: Path, p: Pull)
    requires p in AllFiles(w, cs, rel)
    ensures Through(p, w.top + rel, Names(cs))
    decreases cs, 1
  {
    var less, c := cs[..|cs| - 1], cs[|cs| - 1];
    NamesSnoc(cs);
    if p in AllFiles(w, less, rel) {
      Located(w, less, rel, p);
    } else {
      LocatedAt(w, c, rel, p);
    }
  }

  lemma {:induction false} LocatedAt(w: World, c: Child, rel: Path, p: Pull)
    requires c.raw.stat.Some? && p in FilesAt(w, c, rel)
    ensures Through(p, w.top + rel, {c.raw.name})
    decreases c, 0
  {
    var here, at := rel + [c.raw.name], w.top + rel;
    assert (w.top + here)[..|at|] == at && (w.top + here)[|at|] == c.raw.name;
    if IsFolder(c) {
      Located(w, c.below, here, p);
      assert p.1[..|at|] == p.1[..|w.top + here|][..|at|];
    }
  }

  /** Each file occurs once. */
  lemma {:induction false} OnceEach(w: World, cs: seq<Child>, rel: Path, p: Pull)
    requires Tidy(cs)
    ensures AllFiles(w, cs, rel)[p] <= 1
    decreases cs
  {
    if cs != [] {
      var less, c := cs[..|cs| - 1], cs[|cs| - 1];
      OnceEach(w, less, rel, p);
      if c.raw.stat.Some? {
        if IsFolder(c) {
          OnceEach(w, c.below, rel + [c.raw.name], p);
        }
        if p in AllFiles(w, less, rel) && p in FilesAt(w, c, rel) {
          Located(w, less, rel, p);
          LocatedAt(w, c, rel, p);
        }
      }
    }
  }

  /**
    When every folder tells its entries once and by name, a walk that ends without an error has enqueued each file of
    the folder that can be stat-ed exactly once, and nothing else.
  */
  lemma WholeFolderOnce(w: World, decode: Name -> Name, cs: seq<Child>, out: Outcome)
    requires Serves(w, decode, cs, []) && ToldOnce(decode, cs) && Tidy(cs)
    requires out.Finished? && out.errors == []
    requires multiset(out.enqueued) == Folder(w, []).files && |out.errors| == Folder(w, []).tooDeep
    ensures multiset(out.enqueued) == AllFiles(w, cs, [])
    ensures forall p :: p in out.enqueued ==> multiset(out.enqueued)[p] == 1
  {
    FindsFolder(w, decode, cs, []);
    forall p | p in out.enqueued
      ensures multiset(out.enqueued)[p] == 1
    {
      OnceEach(w, cs, [], p);
    }
  }

  lemma {:induction false} OnlyLinks(w: World, items: seq<Item>, rel: Path)
    requires |rel| < TREE_MAX_DEPTH && forall i :: 0 <= i < |items| ==> IsLink(items[i].mode)
    ensures Entries(w, items, rel) == NOTHING
  {
    if items != [] {
      OnlyLinks(w, items[1..], rel);
      PlusNothing(NOTHING);
    }
  }

  /**
    A folder one entry longer than a page whose first entry cannot be stat-ed, all others being links but for a file at
    the end: the file is enqueued twice, and no error is reported.
  */
  lemma FileTwice(w: World, decode: Name -> Name, cs: seq<Child>)
    requires Serves(w, decode, cs, []) && |cs| == 16_385 && cs[0].raw.stat.None?
    requires forall i :: 1 <= i < |cs| ==> cs[i].raw.stat.Some?
    requires forall i :: 1 <= i < |cs| - 1 ==> IsLink(cs[i].raw.stat.value.mode)
    requires var mode := cs[|cs| - 1].raw.stat.value.mode; !IsLink(mode) && !IsDir(mode)
    ensures var p := PullAt(w, [decode(cs[|cs| - 1].raw.name)]);
      Folder(w, []) == Tally(multiset{p, p}, 0, 1, 0)
  {
    var last := cs[|cs| - 1].raw;
    var item := Item(decode(last.name), last.stat.value.mode);
    var links := LastShownTwice(decode, cs, item);
    TwiceBehindLinks(w, links, item);
    FolderListed(w, [], links + [item] + [item]);
  }

  lemma LastShownTwice(decode: Name -> Name, cs: seq<Child>, item: Item) returns (links: seq<Item>)
    requires |cs| == ProxyLimits.LISTDIR_PAGE + 1 && cs[0].raw.stat.None?
    requires forall i :: 1 <= i < |cs| ==> cs[i].raw.stat.Some?
    requires forall i :: 1 <= i < |cs| - 1 ==> IsLink(cs[i].raw.stat.value.mode)
    requires item == Item(decode(cs[|cs| - 1].raw.name), cs[|cs| - 1].raw.stat.value.mode)
    ensures Items(decode, DirPages.Pages(Raws(cs), 0)) == links + [item] + [item]
    ensures forall i :: 0 <= i < |links| ==> IsLink(links[i].mode)
  {
    links := Items(decode, DirPages.Statable(Raws(cs[..|cs| - 1])));
    LinksShown(decode, cs[..|cs| - 1]);
    ShownSnoc(decode, cs);
    DirPages.LastEntryTwice(Raws(cs));
  }

  lemma TwiceBehindLinks(w: World, links: seq<Item>, item: Item)
    requires forall i :: 0 <= i < |links| ==> IsLink(links[i].mode)
    requires !IsLink(item.mode) && !IsDir(item.mode)
    ensures var p := PullAt(w, [item.name]);
      Entries(w, links + [item] + [item], []) == Tally(multiset{p, p}, 0, 0, 0)
  {
    OnlyLinks(w, links, []);
    EntriesSnoc(w, links, item, []);
    EntriesSnoc(w, links + [item], item, []);
    OneFile(w, item);
    AddedTwice(PullAt(w, [item.name]));
  }

  lemma OneFile(w: World, item: Item)
    requires !IsLink(item.mode) && !IsDir(item.mode)
    ensures One(w, item, []) == Tally(multiset{PullAt(w, [item.name])}, 0, 0, 0)
  {
    assert [] + [item.name] == [item.name];
  }

  lemma AddedTwice(p: Pull)
    ensures var one := Tally(multiset{p}, 0, 0, 0);
      Plus(Plus(NOTHING, one), one) == Tally(multiset{p, p}, 0, 0, 0)
  {
    assert multiset{} + multiset{p} + multiset{p} == multiset{p, p};
  }

  lemma LinksShown(decode: Name -> Name, cs: seq<Child>)
    requires cs != [] && cs[0].raw.stat.None?
    requires forall i :: 1 <= i < |cs| ==> cs[i].raw.stat.Some? && IsLink(cs[i].raw.stat.value.mode)
    ensures var links := Items(decode, DirPages.Statable(Raws(cs)));
      forall i :: 0 <= i < |links| ==> IsLink(links[i].mode)
  {
    if |cs| > 1 {
      var less := cs[..|cs| - 1];
      LinksShown(decode, less);
      ShownSnoc(decode, cs);
    } else {
      ShownSnoc(decode, cs);
      assert Raws(cs[..0]) == [];
    }
  }

  /** A file whose name does not decode to itself is enqueued under a path that is not its own. */
  lemma OtherPath(w: World, decode: Name -> Name, name: Name, rel: Path)
    requires decode(name) != name
    ensures PullAt(w, rel + [decode(name)]).0 != PullAt(w, rel + [name]).0
  {
    var a, b := rel + [decode(name)], rel + [name];
    assert Above(a) == rel && Above(b) == rel;
    var k := |TrimSlashes(RemoteAt(w.base, rel))| + 1;
    assert RemoteAt(w.base, a)[k..] == decode(name) && RemoteAt(w.base, b)[k..] == name;
  }
}
