/** `delete` and `delete_recursive` against a device that resolves symlinks in paths and whose operations may fail. */
module DeleteTree {
  import opened Bytes
  import opened DevicePaths
  import DirPages

  /** A link's target is written out from "/". */
  datatype Node = File | Link(target: Path) | Dir

  /** Nodes by where they really are: no link among the proper ancestors. */
  type Fs = map<Path, Node>

  datatype Op = Lstat | Unlink | Listdir | Rmdir

  /**
    What the device and the connection decide. `cwd`: where relative paths start. `faults`: which operations fail, by
    the path asked for. `hidden`: which entries of a listed directory the device cannot stat. `decode`: what becomes
    of a listed name when its bytes are read as UTF-8.
  */
  datatype Setting = Setting(cwd: Path, faults: (Op, Text) -> bool, hidden: (Text, Name) -> bool, decode: Name -> Name)

  const DELETE_MAX_DEPTH: nat := 64

  /** The most links the device follows in one path. */
  const MAX_LINKS: nat := 40

  /** The longest path its system calls take. */
  const PATH_LIMIT: nat := 4095

  /** "/" is a directory, everything above a node exists and is a directory, and names are names. */
  ghost predicate WellFormed(fs: Fs) {
    && [] in fs && fs[[]].Dir?
    && (forall q, k :: q in fs && 0 <= k < |q| ==> q[..k] in fs && fs[q[..k]].Dir?)
    && (forall q, k :: q in fs && 0 <= k < |q| ==> Plain(q[k]))
  }

  /** Lossy decoding: what it gives decodes to itself, and a name stays a name. */
  ghost predicate Decoder(decode: Name -> Name) {
    && (forall n {:trigger decode(decode(n))} :: decode(decode(n)) == decode(n))
    && (forall n :: Plain(n) ==> Plain(decode(n)))
  }

  // ----- Path resolution

  predicate IsDir(fs: Fs, p: Path) {
    p in fs && fs[p].Dir?
  }

  /** Looks `rest` up from the directory `at`, following every link met on the way, the last one included. */
  function Walk(fs: Fs, at: Path, rest: Path, links: nat): Option<Path>
    decreases links, |rest|
  {
    if rest == [] then Some(at)
    else
      var next := at + [rest[0]];
      if !IsDir(fs, at) || next !in fs then None
      else if !fs[next].Link? then Walk(fs, next, rest[1..], links)
      else if links == 0 then None
      else Walk(fs, [], fs[next].target + rest[1..], links - 1)
  }

  /** The nodes such a lookup goes through. */
  ghost function Trail(fs: Fs, at: Path, rest: Path, links: nat): set<Path>
    decreases links, |rest|
  {
    if rest == [] then {}
    else
      var next := at + [rest[0]];
      {at, next} +
      (if !IsDir(fs, at) || next !in fs then {}
       else if !fs[next].Link? then Trail(fs, next, rest[1..], links)
       else if links == 0 then {}
       else Trail(fs, [], fs[next].target + rest[1..], links - 1))
  }

  /** What `opendir` opens: every component is followed. */
  function Opened(fs: Fs, a: Asked): Option<Path> {
    Walk(fs, a.start, a.comps, MAX_LINKS)
  }

  /** Where the last component itself is: all components but it are followed. */
  function Place(fs: Fs, a: Asked): Option<Path>
    requires a.comps != []
  {
    match Walk(fs, a.start, Above(a.comps), MAX_LINKS)
    case Some(d) => if IsDir(fs, d) then Some(d + [Last(a.comps)]) else None
    case None => None
  }

  /** The node `lstat` speaks of: behind a closing "/" or "." the last component is followed, to a directory. */
  function Seen(fs: Fs, a: Asked): Option<Path>
    requires a.comps != []
  {
    if a.ending.Bare? then Place(fs, a)
    else
      match Opened(fs, a)
      case Some(d) => if IsDir(fs, d) then Some(d) else None
      case None => None
  }

  ghost predicate Submap(a: Fs, b: Fs) {
    forall q :: q in a ==> q in b && a[q] == b[q]
  }

  /** What resolves after some nodes are gone resolved the same way before, and through nodes still there. */
  lemma {:induction false} WalkShrinks(less: Fs, fs: Fs, at: Path, rest: Path, links: nat)
    requires Submap(less, fs) && Walk(less, at, rest, links).Some?
    ensures Walk(fs, at, rest, links) == Walk(less, at, rest, links)
    ensures Trail(fs, at, rest, links) <= less.Keys
    decreases links, |rest|
  {
    if rest != [] {
      var next := at + [rest[0]];
      if !fs[next].Link? {
        WalkShrinks(less, fs, next, rest[1..], links);
      } else {
        WalkShrinks(less, fs, [], fs[next].target + rest[1..], links - 1);
      }
    }
  }

  /** As long as the nodes a lookup goes through are still there, it ends where it did. */
  lemma {:induction false} WalkKeeps(less: Fs, fs: Fs, at: Path, rest: Path, links: nat)
    requires Submap(less, fs) && Trail(fs, at, rest, links) <= less.Keys
    ensures Walk(less, at, rest, links) == Walk(fs, at, rest, links)
    ensures Trail(less, at, rest, links) == Trail(fs, at, rest, links)
    decreases links, |rest|
  {
    if rest != [] {
      var next := at + [rest[0]];
      assert at in Trail(fs, at, rest, links) && next in Trail(fs, at, rest, links);
      if IsDir(fs, at) {
        if !fs[next].Link? {
          WalkKeeps(less, fs, next, rest[1..], links);
        } else if links > 0 {
          WalkKeeps(less, fs, [], fs[next].target + rest[1..], links - 1);
        }
      }
    }
  }

  /** One more component that is no link is looked up where the path so far ends. */
  lemma {:induction false} WalkSnoc(fs: Fs, at: Path, rest: Path, name: Name, links: nat)
    requires Walk(fs, at, rest, links).Some? && IsDir(fs, Walk(fs, at, rest, links).value)
    requires var q := Walk(fs, at, rest, links).value + [name]; q in fs && !fs[q].Link?
    ensures var d := Walk(fs, at, rest, links).value;
      && Walk(fs, at, rest + [name], links) == Some(d + [name])
      && Trail(fs, at, rest + [name], links) == Trail(fs, at, rest, links) + {d, d + [name]}
    decreases links, |rest|
  {
    if rest == [] {
      assert rest + [name] == [name] && [name][1..] == [];
    } else {
      var next := at + [rest[0]];
      assert (rest + [name])[1..] == rest[1..] + [name];
      if !fs[next].Link? {
        WalkSnoc(fs, next, rest[1..], name, links);
      } else {
        var target := fs[next].target;
        ConcatAssoc(target, rest[1..], [name]);
        WalkSnoc(fs, [], target + rest[1..], name, links - 1);
      }
    }
  }

  // ----- The device

  /** The components a handler hands on: some, and no "..". */
  predicate Accepted(path: Text) {
    Comps(path) != [] && DOT_DOT !in Comps(path)
  }

  predicate Fails(env: Setting, op: Op, path: Text) {
    |path| > PATH_LIMIT || env.faults(op, path)
  }

  /** The path by which the device stats an entry it lists. */
  function EntryPath(path: Text, n: Name): Text {
    (if path != [] && path[|path| - 1] == SLASH then path else path + [SLASH]) + n
  }

  predicate CannotStat(env: Setting, path: Text, n: Name) {
    |EntryPath(path, n)| > PATH_LIMIT || env.hidden(path, n)
  }

  ghost predicate Shown(fs: Fs, dir: Path, path: Text, env: Setting, n: Name) {
    dir + [n] in fs && !CannotStat(env, path, n)
  }

  ghost predicate NameShown(fs: Fs, dir: Path, path: Text, env: Setting, name: Name) {
    exists n :: Shown(fs, dir, path, env, n) && env.decode(n) == name
  }

  ghost predicate AllTold(fs: Fs, dir: Path, path: Text, env: Setting) {
    forall n {:trigger env.decode(n)} :: dir + [n] in fs ==> Shown(fs, dir, path, env, n) && env.decode(n) == n
  }

  ghost predicate Distinct(names: seq<Name>) {
    forall i, j :: 0 <= i < j < |names| ==> names[i] != names[j]
  }

  /**
    The names `listdir` of `path`, which opened `dir`, answers: the decoded names of the entries that can be stat-ed.
    A name may come more than once, by decoding or by paging, unless every entry can be stat-ed and told by its name.
  */
  ghost predicate Listed(fs: Fs, dir: Path, path: Text, env: Setting, names: seq<Name>) {
    && (forall i :: 0 <= i < |names| ==> NameShown(fs, dir, path, env, names[i]))
    && (forall n :: Shown(fs, dir, path, env, n) ==> env.decode(n) in names)
    && (AllTold(fs, dir, path, env) ==> Distinct(names))
  }

  ghost predicate Below(top: Path, q: Path) {
    top <= q && top != q
  }

  class Device {
    var fs: Fs
    const env: Setting

    constructor (initial: Fs, e: Setting)
      ensures fs == initial && env == e
    {
      fs, env := initial, e;
    }

    method DoLstat(path: Text) returns (ok: bool, node: Node)
      requires Accepted(path)
      ensures var seen := Seen(fs, Ask(env.cwd, path));
        && ok == (seen.Some? && seen.value in fs && !Fails(env, Lstat, path))
        && (ok ==> node == fs[seen.value])
    {
      ok, node := false, File;
      var seen := Seen(fs, Ask(env.cwd, path));
      if seen.Some? && seen.value in fs && !Fails(env, Lstat, path) {
        ok, node := true, fs[seen.value];
      }
    }

    /** Refuses directories, and everything behind a closing "/" or ".". */
    method DoUnlink(path: Text) returns (ok: bool)
      requires Accepted(path)
      modifies this
      ensures var a := Ask(env.cwd, path);
        var place := Place(old(fs), a);
        && ok == (&& a.ending.Bare? && place.Some? && place.value in old(fs) && !old(fs)[place.value].Dir?
                  && !Fails(env, Unlink, path))
        && fs == if ok then old(fs) - {place.value} else old(fs)
    {
      var a := Ask(env.cwd, path);
      var place := Place(fs, a);
      ok := a.ending.Bare? && place.Some? && place.value in fs && !fs[place.value].Dir? && !Fails(env, Unlink, path);
      if ok {
        fs := fs - {place.value};
      }
    }

    /** Follows the last component too. The order of the names is the device's. */
    method DoListdir(path: Text) returns (ok: bool, names: seq<Name>)
      requires Accepted(path)
      ensures var dir := Opened(fs, Ask(env.cwd, path));
        && ok == (dir.Some? && IsDir(fs, dir.value) && !Fails(env, Listdir, path))
        && (ok ==> Listed(fs, dir.value, path, env, names))
    {
      ok, names := false, [];
      var dir := Opened(fs, Ask(env.cwd, path));
      if dir.Some? && IsDir(fs, dir.value) && !Fails(env, Listdir, path) {
        ok := true;
        var d := dir.value;
        var left := set q | q in fs && |q| == |d| + 1 && d <= q && !CannotStat(env, path, q[|d|]) :: q[|d|];
        Entries(fs, d, path, env, left);
        ghost var raws: seq<Name>;
        names, raws := InSomeOrder(left, env.decode);
        ListedInOrder(fs, d, path, env, raws, names);
      }
    }

    /** Refuses a link as last component, with or without a closing "/", and any path ending in ".". */
    method DoRmdir(path: Text) returns (ok: bool)
      requires Accepted(path)
      modifies this
      ensures var a := Ask(env.cwd, path);
        && ok == (!Fails(env, Rmdir, path) && RmdirWorks(old(fs), a))
        && fs == if ok then old(fs) - {Place(old(fs), a).value} else old(fs)
    {
      var a := Ask(env.cwd, path);
      var place := Place(fs, a);
      ok := !a.ending.Dot? && place.Some? && IsDir(fs, place.value) && !Fails(env, Rmdir, path) &&
            forall q :: q in fs ==> !(place.value <= q && place.value != q);
      assert place.Some? ==> forall q :: Below(place.value, q) <==> place.value <= q && place.value != q;
      if ok {
        fs := fs - {place.value};
      }
    }
  }

  ghost predicate RmdirWorks(fs: Fs, a: Asked)
    requires a.comps != []
  {
    && !a.ending.Dot? && Place(fs, a).Some? && IsDir(fs, Place(fs, a).value)
    && forall q :: q in fs ==> !Below(Place(fs, a).value, q)
  }

  /** Each name once, decoded, in any order. */
  method InSomeOrder(all: set<Name>, decode: Name -> Name) returns (names: seq<Name>, ghost raws: seq<Name>)
    ensures Distinct(raws) && (forall n :: n in raws <==> n in all)
    ensures |names| == |raws| && forall i :: 0 <= i < |raws| ==> names[i] == decode(raws[i])
  {
    var left := all;
    names, raws := [], [];
    while left != {}
      invariant left <= all && (forall n :: n in raws <==> n in all && n !in left)
      invariant Distinct(raws) && |names| == |raws|
      invariant forall i :: 0 <= i < |raws| ==> names[i] == decode(raws[i])
    {
      var n :| n in left;
      left := left - {n};
      raws, names := raws + [n], names + [decode(n)];
    }
  }

  lemma ListedInOrder(fs: Fs, d: Path, path: Text, env: Setting, raws: seq<Name>, names: seq<Name>)
    requires Distinct(raws) && forall n :: n in raws <==> Shown(fs, d, path, env, n)
    requires |names| == |raws| && forall i :: 0 <= i < |raws| ==> names[i] == env.decode(raws[i])
    ensures Listed(fs, d, path, env, names)
  {
    forall i | 0 <= i < |names|
      ensures Shown(fs, d, path, env, raws[i])
      ensures NameShown(fs, d, path, env, names[i])
    {
      assert raws[i] in raws;
    }
    forall n | Shown(fs, d, path, env, n)
      ensures env.decode(n) in names
    {
      var i :| 0 <= i < |raws| && raws[i] == n;
      assert names[i] == env.decode(n);
    }
    if AllTold(fs, d, path, env) {
      forall i | 0 <= i < |names|
        ensures names[i] == raws[i]
      {
        assert env.decode(raws[i]) == names[i];
      }
    }
  }

  lemma Entries(fs: Fs, d: Path, path: Text, env: Setting, names: set<Name>)
    requires names == set q | q in fs && |q| == |d| + 1 && d <= q && !CannotStat(env, path, q[|d|]) :: q[|d|]
    ensures forall n :: n in names <==> Shown(fs, d, path, env, n)
  {
    forall n
      ensures n in names <==> Shown(fs, d, path, env, n)
    {
      if n in names {
        var q :| q in fs && |q| == |d| + 1 && d <= q && !CannotStat(env, path, q[|d|]) && q[|d|] == n;
        assert q == d + [n];
      } else {
        assert (d + [n])[|d|] == n;
      }
    }
  }

  /** The raw entries `es` are those of `dir`, each once, and the ones that can be stat-ed carry their stat. */
  ghost predicate Enumerates(es: seq<DirPages.Raw>, fs: Fs, dir: Path, path: Text, env: Setting) {
    && (forall i, j :: 0 <= i < j < |es| ==> es[i].name != es[j].name)
    && (forall i :: 0 <= i < |es| ==> dir + [es[i].name] in fs)
    && (forall i :: 0 <= i < |es| ==> (es[i].stat.None? <==> CannotStat(env, path, es[i].name)))
    && (forall n :: dir + [n] in fs ==> exists i :: 0 <= i < |es| && es[i].name == n)
  }

  /** What the paged listing answers, names decoded, is a listing in this sense. */
  lemma PagesAreListed(fs: Fs, dir: Path, path: Text, env: Setting, es: seq<DirPages.Raw>, names: seq<Name>)
    requires Enumerates(es, fs, dir, path, env)
    requires var page := DirPages.Pages(es, 0);
      |names| == |page| && forall i :: 0 <= i < |page| ==> names[i] == env.decode(page[i].name)
    ensures Listed(fs, dir, path, env, names)
  {
    var page := DirPages.Pages(es, 0);
    assert es[0..] == es;
    forall i | 0 <= i < |names|
      ensures NameShown(fs, dir, path, env, names[i])
    {
      DirPages.AtLeastOnce(es, 0, page[i]);
      DirPages.StatableFrom(es, page[i]);
      assert Shown(fs, dir, path, env, page[i].name);
    }
    forall n | Shown(fs, dir, path, env, n)
      ensures env.decode(n) in names
    {
      var i :| 0 <= i < |es| && es[i].name == n;
      var e := DirPages.Entry(n, es[i].stat.value);
      DirPages.StatableFrom(es, e);
      DirPages.AtLeastOnce(es, 0, e);
      var k :| 0 <= k < |page| && page[k] == e;
      assert names[k] == env.decode(n);
    }
    if AllTold(fs, dir, path, env) {
      ToldOnceEach(fs, dir, path, env, es, names);
    }
  }

  lemma ToldOnceEach(fs: Fs, dir: Path, path: Text, env: Setting, es: seq<DirPages.Raw>, names: seq<Name>)
    requires Enumerates(es, fs, dir, path, env) && AllTold(fs, dir, path, env)
    requires var page := DirPages.Pages(es, 0);
      |names| == |page| && forall i :: 0 <= i < |page| ==> names[i] == env.decode(page[i].name)
    ensures Distinct(names)
  {
    forall i | 0 <= i < |es|
      ensures es[i].stat.Some? && env.decode(es[i].name) == es[i].name
    {
      assert env.decode(es[i].name) == es[i].name;
    }
    assert es[0..] == es;
    DirPages.NoFailureExactlyOnce(es, 0);
    DirPages.ExactlyOnceIff(es, 0);
    DirPages.AllStatable(es);
  }

  // ----- What a delete may do

  /** `fs` without the subtree at `top`. */
  ghost function Pruned(fs: Fs, top: Path): Fs {
    map q | q in fs && !(top <= q) :: fs[q]
  }

  /** `fs` with the directory at `top` emptied. */
  ghost function Emptied(fs: Fs, top: Path): Fs {
    map q | q in fs && !Below(top, q) :: fs[q]
  }

  /** Nothing outside the subtree at `top` differs, and nothing has been added. */
  ghost predicate OnlyPruned(fs: Fs, fs': Fs, top: Path) {
    && (forall q :: q in fs' ==> q in fs && fs'[q] == fs[q])
    && (forall q :: q in fs && !(top <= q) ==> q in fs')
  }

  /** No node of the subtree lies deeper than the cap, counting `top` itself as level `depth`. */
  ghost predicate Shallow(fs: Fs, top: Path, depth: nat) {
    forall q :: q in fs && top <= q ==> depth + |q| - |top| <= DELETE_MAX_DEPTH
  }

  /** Deleting a tree reaches exactly 64 levels below the path asked for. */
  lemma ShallowIff(fs: Fs, top: Path)
    ensures Shallow(fs, top, 0) <==> forall q :: q in fs && top <= q ==> |q| <= |top| + 64
  {
  }

  /** Every name below `top` decodes to itself. */
  ghost predicate Tellable(fs: Fs, top: Path, decode: Name -> Name) {
    forall q, k :: q in fs && top <= q && |top| <= k < |q| ==> decode(q[k]) == q[k]
  }

  /** The paths of everything below `top`, as the listing and the recursion build them, are not too long. */
  ghost predicate Fits(fs: Fs, top: Path, path: Text) {
    forall q :: q in fs && Below(top, q) ==>
      |EntryPath(path, q[|top|])| <= PATH_LIMIT && |RemoteAt(path, q[|top|..])| <= PATH_LIMIT
  }

  /** What the path is resolved through on the way to the node that is seen. */
  ghost function Road(fs: Fs, a: Asked): set<Path>
    requires a.comps != []
  {
    Trail(fs, a.start, if a.ending.Bare? then Above(a.comps) else a.comps, MAX_LINKS)
  }

  /** Resolving the path does not lead through the subtree it names, so it still resolves with that subtree emptied. */
  ghost predicate Apart(fs: Fs, a: Asked)
    requires a.comps != [] && Seen(fs, a).Some?
  {
    forall q :: q in Road(fs, a) ==> !Below(Seen(fs, a).value, q)
  }

  /** Everything below the node that is seen can be removed. */
  ghost predicate Clearable(fs: Fs, a: Asked, path: Text, depth: nat, decode: Name -> Name)
    requires a.comps != []
  {
    && |path| <= PATH_LIMIT
    && Seen(fs, a).Some? && Seen(fs, a).value in fs && Apart(fs, a)
    && Shallow(fs, Seen(fs, a).value, depth) && Tellable(fs, Seen(fs, a).value, decode)
    && Fits(fs, Seen(fs, a).value, path)
  }

  /** The node can be: behind a closing "/" it must be a directory itself, and no "." may close the path. */
  ghost predicate Removable(fs: Fs, a: Asked)
    requires a.comps != []
  {
    && !a.ending.Dot?
    && (a.ending.Slash? ==> Place(fs, a).Some? && IsDir(fs, Place(fs, a).value))
  }

  ghost predicate Deletable(fs: Fs, a: Asked, path: Text, depth: nat, decode: Name -> Name)
    requires a.comps != []
  {
    Clearable(fs, a, path, depth, decode) && Removable(fs, a)
  }

  ghost predicate NoFaults(env: Setting) {
    && (forall op, p :: !env.faults(op, p))
    && (forall p, n :: !env.hidden(p, n))
  }

  // ----- The recursion

  /** `fs` without the subtrees at the children `names` of `top`. */
  ghost function PrunedKids(fs: Fs, top: Path, names: seq<Name>): Fs {
    map q | q in fs && !(|top| < |q| && top <= q && q[|top|] in names) :: fs[q]
  }

  lemma UnderChild(path: Path, name: Name, q: Path)
    ensures path + [name] <= q <==> |path| < |q| && path <= q && q[|path|] == name
  {
    var c := path + [name];
    assert c[..|path|] == path;
    if |path| < |q| && path <= q && q[|path|] == name {
      assert q[..|path| + 1] == c;
    }
    if c <= q {
      assert q[..|path|] == c[..|path|];
    }
  }

  lemma PruneNextKid(fs: Fs, top: Path, names: seq<Name>, k: nat)
    requires k < |names|
    ensures Pruned(PrunedKids(fs, top, names[..k]), top + [names[k]]) == PrunedKids(fs, top, names[..k + 1])
  {
    forall q
      ensures top + [names[k]] <= q <==> |top| < |q| && top <= q && q[|top|] == names[k]
    {
      UnderChild(top, names[k], q);
    }
    assert names[..k + 1] == names[..k] + [names[k]];
  }

  lemma PrunedWellFormed(fs: Fs, top: Path)
    requires WellFormed(fs) && top != []
    ensures WellFormed(Pruned(fs, top))
  {
    forall q, k | q in Pruned(fs, top) && 0 <= k < |q|
      ensures q[..k] in Pruned(fs, top)
    {
      assert q[..k] in fs;
    }
  }

  /** A directory is opened where it is placed: no link is left to follow. */
  lemma DirectoryOpensInPlace(fs: Fs, a: Asked)
    requires a.comps != [] && Place(fs, a).Some? && IsDir(fs, Place(fs, a).value)
    ensures Opened(fs, a) == Place(fs, a)
    ensures var top := Place(fs, a).value;
      && top != []
      && Trail(fs, a.start, a.comps, MAX_LINKS) ==
         Trail(fs, a.start, Above(a.comps), MAX_LINKS) + {Above(top), top}
  {
    var d, name := Walk(fs, a.start, Above(a.comps), MAX_LINKS).value, Last(a.comps);
    WalkSnoc(fs, a.start, Above(a.comps), name, MAX_LINKS);
    assert Above(a.comps) + [name] == a.comps && Above(d + [name]) == d;
  }

  /** However the path ends, a directory that is seen is the one that is opened. */
  lemma SeenIsOpened(fs: Fs, a: Asked)
    requires a.comps != [] && Seen(fs, a).Some? && IsDir(fs, Seen(fs, a).value)
    ensures Opened(fs, a) == Seen(fs, a)
    ensures Apart(fs, a) <==>
      forall q :: q in Trail(fs, a.start, a.comps, MAX_LINKS) ==> !Below(Seen(fs, a).value, q)
  {
    if a.ending.Bare? {
      DirectoryOpensInPlace(fs, a);
      var top := Seen(fs, a).value;
      assert |Above(top)| < |top|;
    }
  }

  /** What is left resolves the path, if at all, to the place it had, and through nodes still there. */
  lemma SamePlace(less: Fs, fs: Fs, a: Asked)
    requires a.comps != [] && Submap(less, fs) && Place(less, a).Some?
    ensures Place(fs, a) == Place(less, a)
    ensures Trail(fs, a.start, Above(a.comps), MAX_LINKS) <= less.Keys
  {
    WalkShrinks(less, fs, a.start, Above(a.comps), MAX_LINKS);
  }

  /** A child's path is placed under the directory that is seen, if it resolves at all. */
  lemma KidPlaced(cur: Fs, fs: Fs, a: Asked, name: Name)
    requires a.comps != [] && Submap(cur, fs) && Seen(fs, a).Some? && IsDir(fs, Seen(fs, a).value)
    requires Seen(cur, Kid(a, name)).Some?
    ensures Seen(cur, Kid(a, name)) == Some(Seen(fs, a).value + [name])
  {
    assert Above(Kid(a, name).comps) == a.comps;
    SeenIsOpened(fs, a);
    WalkShrinks(cur, fs, a.start, a.comps, MAX_LINKS);
  }

  /** And it does resolve, apart from its own subtree, if the directory's subtree is apart. */
  lemma KidApart(cur: Fs, fs: Fs, a: Asked, name: Name)
    requires a.comps != [] && Submap(cur, fs) && Seen(fs, a).Some? && IsDir(fs, Seen(fs, a).value) && Apart(fs, a)
    requires forall q :: q in fs && !Below(Seen(fs, a).value, q) ==> q in cur
    ensures Seen(cur, Kid(a, name)) == Some(Seen(fs, a).value + [name]) && Apart(cur, Kid(a, name))
  {
    var top, child := Seen(fs, a).value, Kid(a, name);
    assert Above(child.comps) == a.comps;
    SeenIsOpened(fs, a);
    WalkShrinks(fs, fs, a.start, a.comps, MAX_LINKS);
    WalkKeeps(cur, fs, a.start, a.comps, MAX_LINKS);
    forall q | q in Road(cur, child)
      ensures !Below(top + [name], q)
    {
      UnderChild(top, name, q);
    }
  }

  /** What a child's path asks for. */
  function Kid(a: Asked, name: Name): Asked {
    Asked(a.start, a.comps + [name], Bare)
  }

  /** A child not deleted yet is there with all its subtree, as when the directory was listed. */
  lemma KidUntouched(fs: Fs, top: Path, names: seq<Name>, k: nat, path: Text, depth: nat, decode: Name -> Name)
    requires k < |names| && names[k] !in names[..k]
    ensures var cur, kid := PrunedKids(fs, top, names[..k]), top + [names[k]];
      && (kid in cur <==> kid in fs) && (Shallow(cur, kid, depth) <==> Shallow(fs, kid, depth))
      && (Tellable(cur, kid, decode) <==> Tellable(fs, kid, decode)) && (Fits(cur, kid, path) <==> Fits(fs, kid, path))
  {
    var cur, kid := PrunedKids(fs, top, names[..k]), top + [names[k]];
    forall q | kid <= q
      ensures q in cur <==> q in fs
    {
      UnderChild(top, names[k], q);
    }
  }

  /** What a failed delete of a child leaves is within what a failed delete of the directory may leave. */
  lemma KidWithin(fs: Fs, before: Fs, after: Fs, top: Path, name: Name)
    requires OnlyPruned(fs, before, top) && OnlyPruned(before, after, top + [name])
    ensures OnlyPruned(fs, after, top)
  {
    forall q | q in before && top + [name] <= q
      ensures top <= q
    {
      UnderChild(top, name, q);
    }
  }

  lemma AtOrBelowKid(top: Path, name: Name, q: Path)
    requires top + [name] <= q
    ensures Below(top, q) && q[|top|] == name && q[|top|..] == [name] + q[|top| + 1..]
    ensures |q| == |top| + 1 ==> q == top + [name] && q[|top| + 1..] == []
  {
    UnderChild(top, name, q);
    assert q[..|top| + 1] == top + [name];
  }

  lemma KidFits(fs: Fs, top: Path, name: Name, path: Text)
    requires WellFormed(fs) && Plain(name) && top + [name] in fs && Fits(fs, top, path)
    ensures |ChildPath(path, name)| <= PATH_LIMIT && Fits(fs, top + [name], ChildPath(path, name))
  {
    var kid, child := top + [name], ChildPath(path, name);
    AtOrBelowKid(top, name, kid);
    RemoteFromChild(path, name, []);
    forall q | q in fs && Below(kid, q)
      ensures |EntryPath(child, q[|kid|])| <= PATH_LIMIT && |RemoteAt(child, q[|kid|..])| <= PATH_LIMIT
    {
      AtOrBelowKid(top, name, q);
      RemoteFromChild(path, name, q[|kid|..]);
      GrandkidFits(fs, top, name, path, q);
    }
  }

  lemma GrandkidFits(fs: Fs, top: Path, name: Name, path: Text, q: Path)
    requires WellFormed(fs) && Plain(name) && Fits(fs, top, path) && q in fs && Below(top + [name], q)
    ensures |EntryPath(ChildPath(path, name), q[|top| + 1])| <= PATH_LIMIT
  {
    var kid, n := top + [name], q[|top| + 1];
    var c := q[..|kid| + 1];
    assert c == q || c in fs;
    assert c == kid + [n] && c[|kid|..] == [n];
    AtOrBelowKid(top, name, c);
    RemoteFromChild(path, name, [n]);
    NoSlashToTrim(path, name, n);
  }

  lemma NoSlashToTrim(path: Text, name: Name, n: Name)
    requires Plain(name)
    ensures RemoteAt(ChildPath(path, name), [n]) == EntryPath(ChildPath(path, name), n)
  {
    var child := ChildPath(path, name);
    assert name[|name| - 1] in name && child[|child| - 1] == name[|name| - 1];
    assert Above([n]) == [] && Last([n]) == n && TrimSlashes(child) == child;
  }

  lemma KidNoDeeper(fs: Fs, top: Path, name: Name, depth: nat, decode: Name -> Name)
    ensures Shallow(fs, top, depth) ==> Shallow(fs, top + [name], depth + 1)
    ensures Tellable(fs, top, decode) ==> Tellable(fs, top + [name], decode)
  {
    forall q | q in fs && top + [name] <= q
      ensures top <= q
    {
      UnderChild(top, name, q);
    }
  }

  /** With nothing left below it, removing the directory itself completes the pruning. */
  lemma OnlyTopLeft(fs: Fs, top: Path, path: Text, names: seq<Name>, depth: nat, decode: Name -> Name)
    requires WellFormed(fs) && top in fs && depth <= DELETE_MAX_DEPTH
    requires forall q :: q in PrunedKids(fs, top, names) ==> !Below(top, q)
    requires KidsDone(fs, top, path, names, |names|, depth, decode)
    ensures PrunedKids(fs, top, names) - {top} == Pruned(fs, top)
    ensures Shallow(fs, top, depth) && Tellable(fs, top, decode)
  {
    forall q | q in fs && Below(top, q)
      ensures |top| < |q| && q[|top|] in names && depth + |q| - |top| <= DELETE_MAX_DEPTH
      ensures forall k :: |top| <= k < |q| ==> decode(q[k]) == q[k]
    {
      assert |top| < |q|;
      assert q !in PrunedKids(fs, top, names);
      var j :| 0 <= j < |names| && names[j] == q[|top|];
      assert KidDone(fs, top, path, names[j], depth, decode);
      UnderChild(top, q[|top|], q);
    }
  }

  /** And then every entry was listed by its own name, so all paths below were short enough. */
  lemma AllFitted(fs: Fs, top: Path, path: Text, env: Setting, names: seq<Name>, depth: nat)
    requires WellFormed(fs) && Listed(fs, top, path, env, names)
    requires forall q :: q in PrunedKids(fs, top, names) ==> !Below(top, q)
    requires KidsDone(fs, top, path, names, |names|, depth, env.decode)
    ensures Fits(fs, top, path)
  {
    forall q | q in fs && Below(top, q)
      ensures |EntryPath(path, q[|top|])| <= PATH_LIMIT && |RemoteAt(path, q[|top|..])| <= PATH_LIMIT
    {
      var name := q[|top|];
      assert q !in PrunedKids(fs, top, names);
      ListedByOwnName(fs, top, path, env, names, depth, name);
      UnderChild(top, name, q);
      AtOrBelowKid(top, name, q);
      RemoteFromChild(path, name, q[|top| + 1..]);
    }
  }

  lemma ListedByOwnName(fs: Fs, top: Path, path: Text, env: Setting, names: seq<Name>, depth: nat, name: Name)
    requires Listed(fs, top, path, env, names) && name in names
    requires forall q :: q in PrunedKids(fs, top, names) ==> !Below(top, q)
    requires KidsDone(fs, top, path, names, |names|, depth, env.decode)
    ensures Shown(fs, top, path, env, name) && KidDone(fs, top, path, name, depth, env.decode)
  {
    var i :| 0 <= i < |names| && names[i] == name;
    assert NameShown(fs, top, path, env, names[i]);
    var n :| Shown(fs, top, path, env, n) && env.decode(n) == name;
    var c := top + [n];
    assert Below(top, c) && c[|top|] == n;
    assert c !in PrunedKids(fs, top, names);
    var j :| 0 <= j < |names| && names[j] == n;
    assert KidDone(fs, top, path, names[j], depth, env.decode);
  }

  /** What is known of a child that has been deleted. */
  ghost predicate KidDone(fs: Fs, top: Path, path: Text, name: Name, depth: nat, decode: Name -> Name) {
    && Shallow(fs, top + [name], depth + 1) && Tellable(fs, top + [name], decode) && decode(name) == name
    && |ChildPath(path, name)| <= PATH_LIMIT && Fits(fs, top + [name], ChildPath(path, name))
  }

  ghost predicate KidsDone(fs: Fs, top: Path, path: Text, names: seq<Name>, k: nat, depth: nat, decode: Name -> Name)
    requires k <= |names|
  {
    forall j :: 0 <= j < k ==> KidDone(fs, top, path, names[j], depth, decode)
  }

  lemma OneMoreDone(fs: Fs, top: Path, path: Text, names: seq<Name>, k: nat, depth: nat, decode: Name -> Name)
    requires k < |names| && KidsDone(fs, top, path, names, k, depth, decode)
    requires KidDone(fs, top, path, names[k], depth, decode)
    ensures KidsDone(fs, top, path, names, k + 1, depth, decode)
  {
  }

  /** When every entry was listed and told by its name, deleting the listed children empties the directory. */
  lemma AllKidsGone(fs: Fs, top: Path, path: Text, env: Setting, names: seq<Name>)
    requires WellFormed(fs) && Listed(fs, top, path, env, names) && AllTold(fs, top, path, env)
    ensures PrunedKids(fs, top, names) == Emptied(fs, top)
  {
    forall q | q in fs && Below(top, q)
      ensures |top| < |q| && q[|top|] in names
    {
      assert |top| < |q|;
      var c := q[..|top| + 1];
      assert c == top + [q[|top|]] && (c == q || c in fs);
      assert env.decode(q[|top|]) == q[|top|] && Shown(fs, top, path, env, q[|top|]);
    }
  }

  lemma ToldWhenTellable(fs: Fs, top: Path, path: Text, env: Setting)
    requires NoFaults(env) && Tellable(fs, top, env.decode) && Fits(fs, top, path)
    ensures AllTold(fs, top, path, env)
  {
    forall n | top + [n] in fs
      ensures env.decode(n) == n && Shown(fs, top, path, env, n)
    {
      assert (top + [n])[|top|] == n && Below(top, top + [n]);
    }
  }

  lemma LeafIsWholeSubtree(fs: Fs, path: Path)
    requires WellFormed(fs) && path in fs && !fs[path].Dir?
    ensures fs - {path} == Pruned(fs, path)
    ensures forall q :: q in fs && path <= q ==> q == path
    ensures WellFormed(fs - {path})
  {
    forall q | q in fs && path <= q
      ensures q == path
    {
      assert q[..|path|] == path;
    }
    PrunedWellFormed(fs, path);
  }

  /** What may have changed, however the delete ends. */
  ghost predicate Within(fs: Fs, fs': Fs, a: Asked)
    requires a.comps != []
  {
    if Seen(fs, a).None? then fs' == fs else OnlyPruned(fs, fs', Seen(fs, a).value)
  }

  /**
    What a delete has done. Success removes exactly the subtree at the node the path names, links themselves and
    nothing they point to. Whatever fails, nothing outside the subtree that `lstat` sees changes. With no failing
    operation the delete succeeds exactly when that node exists, nothing below it is too deep, has too long a path or
    an undecodable name, it is not resolved through its own subtree, and it is neither a link with a "/" behind it nor
    anything with a "." behind it. In those two cases what is seen is emptied before the delete fails.
  */
  ghost predicate Outcome(fs: Fs, fs': Fs, env: Setting, a: Asked, path: Text, depth: nat, ok: bool)
    requires a.comps != []
  {
    && Within(fs, fs', a)
    && (ok ==> Deletable(fs, a, path, depth, env.decode) && fs' == Pruned(fs, Seen(fs, a).value))
    && (NoFaults(env) && Deletable(fs, a, path, depth, env.decode) ==> ok)
    && (NoFaults(env) && Clearable(fs, a, path, depth, env.decode) && !Removable(fs, a) ==>
          !ok && fs' == Emptied(fs, Seen(fs, a).value))
  }

  method DeleteRecursive(dev: Device, path: Text, depth: nat) returns (ok: bool)
    requires WellFormed(dev.fs) && Decoder(dev.env.decode) && Accepted(path)
    modifies dev
    ensures WellFormed(dev.fs)
    ensures Outcome(old(dev.fs), dev.fs, dev.env, Ask(dev.env.cwd, path), path, depth, ok)
    decreases DELETE_MAX_DEPTH + 1 - depth
  {
    ghost var fs0, a := dev.fs, Ask(dev.env.cwd, path);
    if depth > DELETE_MAX_DEPTH {
      return false;
    }
    var found, node := dev.DoLstat(path);
    if !found {
      return false;
    }
    ghost var top := Seen(fs0, a).value;
    if node.Link? || !node.Dir? {
      LeafDeleted(fs0, a, path, depth, dev.env.decode);
      ok := dev.DoUnlink(path);
      return;
    }
    SeenIsOpened(fs0, a);
    var listed, names := dev.DoListdir(path);
    if !listed {
      return false;
    }
    for k := 0 to |names|
      invariant dev.fs == PrunedKids(fs0, top, names[..k]) && WellFormed(dev.fs)
      invariant KidsDone(fs0, top, path, names, k, depth, dev.env.decode)
    {
      ghost var before := dev.fs;
      NextKid(fs0, a, depth, dev.env, path, names, k);
      ChildAsked(dev.env.cwd, path, names[k]);
      ok := DeleteRecursive(dev, ChildPath(path, names[k]), depth + 1);
      if !ok {
        KidFailed(fs0, before, dev.fs, a, names, k);
        return false;
      }
      PruneNextKid(fs0, top, names, k);
      OneMoreDone(fs0, top, path, names, k, depth, dev.env.decode);
    }
    assert names[..|names|] == names;
    LastStep(fs0, a, depth, dev.env, path, names);
    ok := dev.DoRmdir(path);
  }

  lemma LeafDeleted(fs: Fs, a: Asked, path: Text, depth: nat, decode: Name -> Name)
    requires WellFormed(fs) && |path| <= PATH_LIMIT && depth <= DELETE_MAX_DEPTH && a.comps != []
    requires Seen(fs, a).Some? && Seen(fs, a).value in fs && !fs[Seen(fs, a).value].Dir?
    ensures a.ending.Bare?
    ensures var top := Seen(fs, a).value;
      fs - {top} == Pruned(fs, top) && WellFormed(fs - {top}) && OnlyPruned(fs, fs - {top}, top)
    ensures Deletable(fs, a, path, depth, decode)
  {
    LeafIsWholeSubtree(fs, Seen(fs, a).value);
    WalkShrinks(fs, fs, a.start, Above(a.comps), MAX_LINKS);
  }

  /** What the next call of the recursion starts from. A name that comes again finds nothing. */
  lemma NextKid(fs: Fs, a: Asked, depth: nat, env: Setting, path: Text, names: seq<Name>, k: nat)
    requires WellFormed(fs) && Decoder(env.decode) && a.comps != [] && k < |names|
    requires Seen(fs, a).Some? && IsDir(fs, Seen(fs, a).value) && Listed(fs, Seen(fs, a).value, path, env, names)
    ensures Plain(names[k])
    ensures var top := Seen(fs, a).value;
      var cur, child, kid := PrunedKids(fs, top, names[..k]), Kid(a, names[k]), top + [names[k]];
      && (Seen(cur, child).Some? ==> Seen(cur, child) == Some(kid))
      && (Deletable(cur, child, ChildPath(path, names[k]), depth + 1, env.decode) ==>
            KidDone(fs, top, path, names[k], depth, env.decode))
      && (NoFaults(env) && Clearable(fs, a, path, depth, env.decode) ==>
            Deletable(cur, child, ChildPath(path, names[k]), depth + 1, env.decode))
  {
    var top := Seen(fs, a).value;
    var cur, kid := PrunedKids(fs, top, names[..k]), top + [names[k]];
    assert NameShown(fs, top, path, env, names[k]);
    var n :| Shown(fs, top, path, env, n) && env.decode(n) == names[k];
    assert (top + [n])[|top|] == n;
    assert env.decode(env.decode(n)) == env.decode(n);
    if Seen(cur, Kid(a, names[k])).Some? {
      KidPlaced(cur, fs, a, names[k]);
    }
    if names[k] !in names[..k] {
      KidUntouched(fs, top, names, k, ChildPath(path, names[k]), depth + 1, env.decode);
    } else {
      assert kid[|top|] == names[k] && kid[..|top|] == top;
      assert kid !in cur;
    }
    if NoFaults(env) && Clearable(fs, a, path, depth, env.decode) {
      ToldWhenTellable(fs, top, path, env);
      assert env.decode(n) == n && names[k] !in names[..k];
      KidApart(cur, fs, a, names[k]);
      KidNoDeeper(fs, top, names[k], depth, env.decode);
      KidFits(fs, top, names[k], path);
    }
  }

  lemma KidFailed(fs: Fs, before: Fs, after: Fs, a: Asked, names: seq<Name>, k: nat)
    requires a.comps != [] && Seen(fs, a).Some? && k < |names|
    requires before == PrunedKids(fs, Seen(fs, a).value, names[..k]) && Within(before, after, Kid(a, names[k]))
    requires var child := Seen(before, Kid(a, names[k])); child.Some? ==> child == Some(Seen(fs, a).value + [names[k]])
    ensures OnlyPruned(fs, after, Seen(fs, a).value)
  {
    if Seen(before, Kid(a, names[k])).Some? {
      KidWithin(fs, before, after, Seen(fs, a).value, names[k]);
    }
  }

  /** What the closing `rmdir` meets, and what it completes. */
  lemma LastStep(fs: Fs, a: Asked, depth: nat, env: Setting, path: Text, names: seq<Name>)
    requires WellFormed(fs) && a.comps != [] && |path| <= PATH_LIMIT && depth <= DELETE_MAX_DEPTH
    requires Seen(fs, a).Some? && IsDir(fs, Seen(fs, a).value) && Listed(fs, Seen(fs, a).value, path, env, names)
    requires KidsDone(fs, Seen(fs, a).value, path, names, |names|, depth, env.decode)
    ensures var top := Seen(fs, a).value;
      var cur := PrunedKids(fs, top, names);
      && OnlyPruned(fs, cur, top)
      && (RmdirWorks(cur, a) ==>
            && Place(cur, a) == Some(top) && Deletable(fs, a, path, depth, env.decode)
            && cur - {top} == Pruned(fs, top) && WellFormed(cur - {top}))
      && (NoFaults(env) && Clearable(fs, a, path, depth, env.decode) ==>
            cur == Emptied(fs, top) && (Removable(fs, a) ==> RmdirWorks(cur, a)))
  {
    var top := Seen(fs, a).value;
    var cur := PrunedKids(fs, top, names);
    if RmdirWorks(cur, a) {
      Completes(fs, a, depth, env, path, names);
    }
    if NoFaults(env) && Clearable(fs, a, path, depth, env.decode) {
      ToldWhenTellable(fs, top, path, env);
      AllKidsGone(fs, top, path, env, names);
      if Removable(fs, a) {
        StillPlaced(fs, a);
      }
    }
  }

  lemma Completes(fs: Fs, a: Asked, depth: nat, env: Setting, path: Text, names: seq<Name>)
    requires WellFormed(fs) && a.comps != [] && |path| <= PATH_LIMIT && depth <= DELETE_MAX_DEPTH
    requires Seen(fs, a).Some? && IsDir(fs, Seen(fs, a).value) && Listed(fs, Seen(fs, a).value, path, env, names)
    requires KidsDone(fs, Seen(fs, a).value, path, names, |names|, depth, env.decode)
    requires RmdirWorks(PrunedKids(fs, Seen(fs, a).value, names), a)
    ensures var top := Seen(fs, a).value;
      var cur := PrunedKids(fs, top, names);
      && Place(cur, a) == Some(top) && Deletable(fs, a, path, depth, env.decode)
      && cur - {top} == Pruned(fs, top) && WellFormed(cur - {top})
  {
    var top := Seen(fs, a).value;
    var cur := PrunedKids(fs, top, names);
    SamePlace(cur, fs, a);
    DirectoryOpensInPlace(fs, a);
    SeenIsOpened(fs, a);
    assert |Above(top)| < |top|;
    OnlyTopLeft(fs, top, path, names, depth, env.decode);
    AllFitted(fs, top, path, env, names, depth);
    PrunedWellFormed(fs, top);
  }

  /** Emptying a directory that is apart and may be removed leaves the path where it was. */
  lemma StillPlaced(fs: Fs, a: Asked)
    requires WellFormed(fs) && a.comps != [] && Seen(fs, a).Some? && IsDir(fs, Seen(fs, a).value)
    requires Apart(fs, a) && Removable(fs, a)
    ensures RmdirWorks(Emptied(fs, Seen(fs, a).value), a)
  {
    var top := Seen(fs, a).value;
    var cur := Emptied(fs, top);
    DirectoryOpensInPlace(fs, a);
    SeenIsOpened(fs, a);
    WalkShrinks(fs, fs, a.start, Above(a.comps), MAX_LINKS);
    WalkKeeps(cur, fs, a.start, Above(a.comps), MAX_LINKS);
    assert |Above(top)| < |top|;
  }

  /** The handler: refuses what names no component, or "..", and otherwise passes the path on as it came. */
  method Delete(dev: Device, path: Text) returns (ok: bool)
    requires WellFormed(dev.fs) && Decoder(dev.env.decode)
    modifies dev
    ensures WellFormed(dev.fs)
    ensures !Accepted(path) ==> !ok && dev.fs == old(dev.fs)
    ensures Comps(path) == [] || [46, 46] in Comps(path) ==> !ok && dev.fs == old(dev.fs)
    ensures Accepted(path) ==> Outcome(old(dev.fs), dev.fs, dev.env, Ask(dev.env.cwd, path), path, 0, ok)
  {
    var normalized := Comps(path);
    if normalized == [] || DOT_DOT in normalized {
      return false;
    }
    ok := DeleteRecursive(dev, path, 0);
  }

  // ----- Links

  /** A delete behind a link, such as a path under /sdcard, removes what the link leads to and not the link. */
  lemma BehindLink(fs: Fs, l: Name, target: Path, name: Name)
    requires WellFormed(fs) && [l] in fs && fs[[l]] == Link(target)
    requires Walk(fs, [], target, MAX_LINKS - 1) == Some(target) && IsDir(fs, target)
    ensures Seen(fs, Asked([], [l, name], Bare)) == Some(target + [name])
    ensures target + [name] != [l] ==> [l] in Pruned(fs, target + [name])
  {
    assert Above([l, name]) == [l] && [] + [l] == [l] && target + [l][1..] == target;
    assert [l, name][1] == name;
    assert target + [name] <= [l] ==> |target| == 0;
  }

  /**
    "/l/" and "/l/." are accepted, and name what the link `l` leads to, where "/l" names the link. That cannot be
    removed under this path, only emptied; and it can be "/" itself.
  */
  lemma BehindClosingSlash(fs: Fs, l: Name, target: Path, ending: Ending)
    requires WellFormed(fs) && [l] in fs && fs[[l]] == Link(target) && !ending.Bare?
    requires Walk(fs, [], target, MAX_LINKS - 1) == Some(target) && IsDir(fs, target)
    ensures Seen(fs, Asked([], [l], ending)) == Some(target) && !Removable(fs, Asked([], [l], ending))
    ensures Road(fs, Asked([], [l], ending)) == {[], [l]} + Trail(fs, [], target, MAX_LINKS - 1)
    ensures Seen(fs, Asked([], [l], Bare)) == Some([l])
  {
    assert Above([l]) == [] && [] + [l] == [l] && target + [l][1..] == target;
  }

  /** "/l/" with /l leading to /t: /t/x is gone, /t and the link stay, and the delete has failed. */
  lemma TargetEmptied(fs: Fs, path: Text, l: Name, t: Name, x: Name, decode: Name -> Name)
    requires Plain(l) && Plain(t) && Plain(x) && l != t && |path| + |x| < PATH_LIMIT && decode(x) == x
    requires fs == map[[] := Dir, [l] := Link([t]), [t] := Dir, [t, x] := File]
    ensures var a := Asked([], [l], Slash);
      && WellFormed(fs) && Clearable(fs, a, path, 0, decode) && !Removable(fs, a)
      && Emptied(fs, Seen(fs, a).value) == map[[] := Dir, [l] := Link([t]), [t] := Dir]
  {
    SmallTree(fs, l, t, x);
    BehindClosingSlash(fs, l, [t], Slash);
    OneFileInside(fs, t, x, path, decode);
    WithoutIt(fs, [t], [t, x]);
  }

  lemma WithoutIt(fs: Fs, top: Path, only: Path)
    requires forall q :: q in fs && Below(top, q) <==> q == only
    ensures Emptied(fs, top) == fs - {only}
  {
  }

  lemma OneFileInside(fs: Fs, t: Name, x: Name, path: Text, decode: Name -> Name)
    requires |path| + |x| < PATH_LIMIT && decode(x) == x
    requires forall q :: q in fs && Below([t], q) ==> q == [t, x]
    ensures Shallow(fs, [t], 0) && Tellable(fs, [t], decode) && Fits(fs, [t], path)
  {
    assert forall q :: q in fs && [t] <= q ==> q == [t] || Below([t], q);
    assert [t, x][1..] == [x] && Above([x]) == [] && Last([x]) == x;
    assert RemoteAt(path, [x]) == ChildPath(path, x);
    TrimKeeps(path);
  }

  lemma SmallTree(fs: Fs, l: Name, t: Name, x: Name)
    requires Plain(l) && Plain(t) && Plain(x) && l != t
    requires fs == map[[] := Dir, [l] := Link([t]), [t] := Dir, [t, x] := File]
    ensures WellFormed(fs) && Walk(fs, [], [t], MAX_LINKS - 1) == Some([t])
    ensures Trail(fs, [], [t], MAX_LINKS - 1) == {[], [t]}
    ensures forall q :: q in fs && Below([t], q) <==> q == [t, x]
  {
    assert [] + [t] == [t] && [t][1..] == [] && [t, x][..1] == [t];
    assert [l][..0] == [] && [t][..0] == [] && [t, x][..0] == [];
    assert [l][0] == l && [t][0] == t && [t, x][1] == x;
  }

  /** Why names must decode to themselves: a directory with one that does not is never deletable. */
  lemma UndecodableName(fs: Fs, a: Asked, path: Text, depth: nat, decode: Name -> Name, n: Name)
    requires a.comps != [] && Seen(fs, a).Some? && Seen(fs, a).value + [n] in fs && decode(n) != n
    ensures !Clearable(fs, a, path, depth, decode)
  {
    assert (Seen(fs, a).value + [n])[|Seen(fs, a).value|] == n;
  }

  /**
    Why "apart" is needed: a directory reached through a link of its own, /d/l/d with /d/l leading to "/", loses that
    link before it is empty, and the closing `rmdir` no longer finds it.
  */
  lemma ThroughItself(fs: Fs, d: Name, l: Name)
    requires Plain(d) && Plain(l) && fs == map[[] := Dir, [d] := Dir, [d, l] := Link([])]
    ensures WellFormed(fs) && Seen(fs, Asked([], [d, l, d], Bare)) == Some([d])
    ensures !Apart(fs, Asked([], [d, l, d], Bare)) && Seen(fs, Asked([], [d], Bare)) == Some([d])
    ensures Apart(fs, Asked([], [d], Bare))
  {
    var path := [d, l, d];
    assert Above(path) == [d, l] && path[2] == d;
    assert [] + [d] == [d] && [d, l][1..] == [l] && [l][1..] == [] && [d] + [l] == [d, l];
    assert Walk(fs, [d], [l], MAX_LINKS) == Walk(fs, [], [], MAX_LINKS - 1);
    assert Walk(fs, [], [d, l], MAX_LINKS) == Some([]);
    assert [d, l] in Trail(fs, [d], [l], MAX_LINKS);
    assert Below([d], [d, l]);
    assert Above([d]) == [];
  }
}
