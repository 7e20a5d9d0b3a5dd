/** The inode tables of the FUSE layer. */
module InodeMaps {
  import opened Paths

  type Ino = nat

  const ROOT: Ino := 1

  datatype Maps = Maps(p2i: map<Path, Ino>, i2p: map<Ino, Path>, next: nat)

  const Initial := Maps(map[[] := ROOT], map[ROOT := []], 100)

  // ----- What the tables promise

  /** Each path->inode entry agrees with inode->path. */
  ghost predicate Agree(m: Maps) {
    forall p :: p in m.p2i ==> m.p2i[p] in m.i2p && m.i2p[m.p2i[p]] == p
  }

  /** And the other way round: no inode is left behind by a path that now belongs to another. */
  ghost predicate NoneStale(m: Maps) {
    forall i :: i in m.i2p ==> m.i2p[i] in m.p2i && m.p2i[m.i2p[i]] == i
  }

  ghost predicate Inverse(m: Maps) {
    Agree(m) && NoneStale(m)
  }

  ghost predicate RootBound(m: Maps) {
    && [] in m.p2i && m.p2i[[]] == ROOT
    && ROOT in m.i2p && m.i2p[ROOT] == []
    && (forall i :: i in m.i2p && m.i2p[i] == [] ==> i == ROOT)
  }

  /** Numbers from `next` on have never been handed out. */
  ghost predicate Fresh(m: Maps) {
    && ROOT < m.next
    && (forall i :: i in m.i2p ==> i < m.next)
    && (forall p :: p in m.p2i ==> m.p2i[p] < m.next)
  }

  ghost predicate Inv(m: Maps) {
    Agree(m) && RootBound(m) && Fresh(m)
  }

  // ----- ino_for and forget_ino

  ghost function InoForMaps(m: Maps, path: Path): Maps {
    if path in m.p2i then m else Maps(m.p2i[path := m.next], m.i2p[m.next := path], m.next + 1)
  }

  ghost function InoForResult(m: Maps, path: Path): Ino {
    if path in m.p2i then m.p2i[path] else m.next
  }

  ghost function ForgetMaps(m: Maps, ino: Ino): Maps {
    if ino == ROOT || ino !in m.i2p then m else m.(i2p := m.i2p - {ino}, p2i := m.p2i - {m.i2p[ino]})
  }

  /** A tracked path keeps its number and nothing changes; any other gets the next number, and nothing else changes. */
  lemma InoForExactly(m: Maps, path: Path)
    ensures path in m.p2i ==> InoForResult(m, path) == m.p2i[path] && InoForMaps(m, path) == m
    ensures path !in m.p2i ==>
      var m', ino := InoForMaps(m, path), InoForResult(m, path);
      && ino == m.next && m'.next == m.next + 1
      && m'.p2i.Keys == m.p2i.Keys + {path} && m'.p2i[path] == ino && m'.i2p.Keys == m.i2p.Keys + {ino}
      && m'.i2p[ino] == path && (forall p :: p in m.p2i ==> m'.p2i[p] == m.p2i[p])
      && (forall i :: i in m.i2p && i != ino ==> m'.i2p[i] == m.i2p[i])
  {
  }

  /** Forgetting an inode drops it and its path, and nothing else; the root and unknown numbers are ignored. */
  lemma ForgetExactly(m: Maps, ino: Ino)
    ensures var m' := ForgetMaps(m, ino);
      && m'.next == m.next
      && (forall i :: i in m'.i2p <==> i in m.i2p && (i != ino || ino == ROOT))
      && (forall i :: i in m'.i2p ==> m'.i2p[i] == m.i2p[i])
      && (forall p :: p in m'.p2i <==> p in m.p2i && !(ino != ROOT && ino in m.i2p && p == m.i2p[ino]))
      && (forall p :: p in m'.p2i ==> m'.p2i[p] == m.p2i[p])
  {
  }

  // ----- rename

  ghost predicate Moves(p: Path, src: Path, isDir: bool) {
    p == src || (isDir && src <= p)
  }

  /** The tracked paths a rename rewrites: `src`, and for a directory everything under it, but not `dst` itself. */
  ghost function Moved(m: Maps, src: Path, dst: Path, isDir: bool): set<Path> {
    set p | p in m.p2i && p != dst && Moves(p, src, isDir)
  }

  /** Tracked paths at or under `src`. */
  ghost predicate Under(m: Maps, src: Path, ps: set<Path>) {
    forall p :: p in ps ==> p in m.p2i && src <= p
  }

  /** Some path of `done` arrives at `q`. */
  ghost predicate Landed(done: set<Path>, src: Path, dst: Path, q: Path) {
    dst <= q && Rebase(q, dst, src) in done
  }

  /** path -> inode with `moved` and `dst` taken out and the paths of `done` put in at their new place. */
  ghost function Relocated(m: Maps, src: Path, dst: Path, moved: set<Path>, done: set<Path>): map<Path, Ino>
    requires Under(m, src, moved) && done <= moved
  {
    map q | q in m.p2i.Keys + (set p | p in done :: Rebase(p, src, dst)) &&
            (Landed(done, src, dst, q) || (q in m.p2i && q != dst && q !in moved)) ::
      if Landed(done, src, dst, q) then m.p2i[Rebase(q, dst, src)] else m.p2i[q]
  }

  /** inode -> path with the inode at `dst` dropped and the inodes of `done` moved. */
  ghost function Renumbered(m: Maps, src: Path, dst: Path, done: set<Path>): map<Ino, Path>
    requires Under(m, src, done)
  {
    map i | i in m.i2p && !(dst in m.p2i && i == m.p2i[dst]) ::
      if m.i2p[i] in done && m.p2i[m.i2p[i]] == i then Rebase(m.i2p[i], src, dst) else m.i2p[i]
  }

  /** A rename: the overwritten inode goes, moved inodes keep their number, moved paths win over what they land on. */
  ghost function RenameMaps(m: Maps, src: Path, dst: Path, isDir: bool): Maps {
    var moved := Moved(m, src, dst, isDir);
    Maps(Relocated(m, src, dst, moved, moved), Renumbered(m, src, dst, moved), m.next)
  }

  // ----- The tables as the callbacks change them

  lemma RelocateOne(m: Maps, src: Path, dst: Path, moved: set<Path>, done: set<Path>, p: Path)
    requires Under(m, src, moved) && done <= moved && p in moved
    ensures Relocated(m, src, dst, moved, done + {p}) ==
            Relocated(m, src, dst, moved, done)[Rebase(p, src, dst) := m.p2i[p]]
  {
    RebaseBack(p, src, dst);
    var a := Relocated(m, src, dst, moved, done + {p});
    var b := Relocated(m, src, dst, moved, done)[Rebase(p, src, dst) := m.p2i[p]];
    forall q
      ensures Landed(done + {p}, src, dst, q) <==> Landed(done, src, dst, q) || q == Rebase(p, src, dst)
    {
      if dst <= q {
        RebaseBack(q, dst, src);
      }
    }
    LandedIsRebased(m, src, dst, moved, done);
    LandedIsRebased(m, src, dst, moved, done + {p});
    assert a.Keys == b.Keys;
  }

  lemma LandedIsRebased(m: Maps, src: Path, dst: Path, moved: set<Path>, done: set<Path>)
    requires Under(m, src, moved) && done <= moved
    ensures forall q :: q in Relocated(m, src, dst, moved, done) <==>
              Landed(done, src, dst, q) || (q in m.p2i && q != dst && q !in moved)
  {
    forall q | Landed(done, src, dst, q)
      ensures q in set p | p in done :: Rebase(p, src, dst)
    {
      RebaseBack(q, dst, src);
    }
  }

  lemma RenumberOne(m: Maps, src: Path, dst: Path, done: set<Path>, p: Path)
    requires Agree(m) && Under(m, src, done + {p}) && p != dst
    ensures Renumbered(m, src, dst, done + {p}) == Renumbered(m, src, dst, done)[m.p2i[p] := Rebase(p, src, dst)]
  {
  }

  lemma NothingPutBack(m: Maps, src: Path, dst: Path, moved: set<Path>)
    requires Under(m, src, moved)
    ensures Relocated(m, src, dst, moved, {}) == m.p2i - {dst} - moved
    ensures Renumbered(m, src, dst, {}) == m.i2p - (if dst in m.p2i then {m.p2i[dst]} else {})
  {
  }

  lemma PutBackOne(m: Maps, src: Path, dst: Path, moved: set<Path>, from: seq<Path>, k: nat)
    requires Agree(m) && Under(m, src, moved) && Elements(from) <= moved && dst !in from && k < |from|
    ensures var a, b, p := Elements(from[..k]), Elements(from[..k + 1]), from[k];
      && a <= moved && b <= moved && p in moved
      && Relocated(m, src, dst, moved, b) == Relocated(m, src, dst, moved, a)[Rebase(p, src, dst) := m.p2i[p]]
      && Renumbered(m, src, dst, b) == Renumbered(m, src, dst, a)[m.p2i[p] := Rebase(p, src, dst)]
  {
    assert Elements(from[..k + 1]) == Elements(from[..k]) + {from[k]};
    RelocateOne(m, src, dst, moved, Elements(from[..k]), from[k]);
    RenumberOne(m, src, dst, Elements(from[..k]), from[k]);
  }

  class Tables {
    var pathToIno: map<Path, Ino>
    var inoToPath: map<Ino, Path>
    var nextIno: nat

    ghost function View(): Maps
      reads this
    {
      Maps(pathToIno, inoToPath, nextIno)
    }

    constructor ()
      ensures View() == Initial
      ensures pathToIno == map[[] := 1] && inoToPath == map[1 := []] && nextIno == 100
    {
      inoToPath, pathToIno, nextIno := map[ROOT := []], map[[] := ROOT], 100;
    }

    method InoFor(path: Path) returns (ino: Ino)
      modifies this
      ensures View() == InoForMaps(old(View()), path)
      ensures ino == InoForResult(old(View()), path)
      ensures path in old(pathToIno) ==>
        && ino == old(pathToIno)[path] && nextIno == old(nextIno)
        && pathToIno == old(pathToIno) && inoToPath == old(inoToPath)
      ensures path !in old(pathToIno) ==>
        && ino == old(nextIno) && nextIno == old(nextIno) + 1
        && pathToIno == old(pathToIno)[path := ino] && inoToPath == old(inoToPath)[ino := path]
    {
      if path in pathToIno {
        return pathToIno[path];
      }
      ino := nextIno;
      nextIno := nextIno + 1;
      pathToIno := pathToIno[path := ino];
      inoToPath := inoToPath[ino := path];
    }

    method ForgetIno(ino: Ino)
      modifies this
      ensures View() == ForgetMaps(old(View()), ino)
      ensures nextIno == old(nextIno)
      ensures ino == ROOT || ino !in old(inoToPath) ==> inoToPath == old(inoToPath) && pathToIno == old(pathToIno)
      ensures ino != ROOT && ino in old(inoToPath) ==>
        inoToPath == old(inoToPath) - {ino} && pathToIno == old(pathToIno) - {old(inoToPath)[ino]}
    {
      if ino == ROOT {
        return;
      }
      if ino in inoToPath {
        var path := inoToPath[ino];
        inoToPath := inoToPath - {ino};
        pathToIno := pathToIno - {path};
      }
    }

    /** Take everything under `src` out of path -> inode, one path after another. */
    method TakeSubtree(src: Path, dst: Path, moved0: seq<(Ino, Path)>, ghost from0: seq<Path>, ghost m: Maps)
      returns (moved: seq<(Ino, Path)>, ghost from: seq<Path>)
      requires MovesFrom(m, src, dst, moved0, from0)
      requires pathToIno == m.p2i - {dst} - Elements(from0)
      modifies this`pathToIno
      ensures MovesFrom(m, src, dst, moved, from)
      ensures Elements(from) == Elements(from0) + (set p | p in old(pathToIno) && src <= p)
      ensures pathToIno == m.p2i - {dst} - Elements(from)
    {
      moved, from := moved0, from0;
      var stale := set p | p in pathToIno && src <= p;
      while stale != {}
        invariant MovesFrom(m, src, dst, moved, from)
        invariant stale <= pathToIno.Keys && forall p :: p in stale ==> src <= p
        invariant Elements(from) + stale == Elements(from0) + (set p | p in old(pathToIno) && src <= p)
        invariant pathToIno == m.p2i - {dst} - Elements(from)
      {
        var path :| path in stale;
        stale := stale - {path};
        assert Elements(from + [path]) == Elements(from) + {path};
        moved, from := moved + [(pathToIno[path], Rebase(path, src, dst))], from + [path];
        pathToIno := pathToIno - {path};
      }
    }

    /** First half of the move: take out what is at `dst`, at `src` and, for a directory, under `src`. */
    method TakeOut(src: Path, dst: Path, isDir: bool) returns (moved: seq<(Ino, Path)>, ghost from: seq<Path>)
      modifies this
      ensures var m := old(View());
        && MovesFrom(m, src, dst, moved, from)
        && Elements(from) == Moved(m, src, dst, isDir)
        && View() == Maps(m.p2i - {dst} - Elements(from), m.i2p - (if dst in m.p2i then {m.p2i[dst]} else {}), m.next)
    {
      ghost var m := View();
      if dst in pathToIno {
        var dstIno := pathToIno[dst];
        pathToIno := pathToIno - {dst};
        inoToPath := inoToPath - {dstIno};
      }
      moved, from := [], [];
      assert Rebase(src, src, dst) == dst;
      if src in pathToIno {
        moved, from := [(pathToIno[src], dst)], [src];
        pathToIno := pathToIno - {src};
      }
      if isDir {
        moved, from := TakeSubtree(src, dst, moved, from, m);
      }
    }

    /** Second half: bind every moved inode at its new path, in the order collected. */
    method PutBack(moved: seq<(Ino, Path)>, ghost m: Maps, ghost src: Path, ghost dst: Path, ghost from: seq<Path>)
      requires Agree(m) && MovesFrom(m, src, dst, moved, from) && dst !in from
      requires pathToIno == m.p2i - {dst} - Elements(from)
      requires inoToPath == m.i2p - (if dst in m.p2i then {m.p2i[dst]} else {})
      modifies this`pathToIno, this`inoToPath
      ensures pathToIno == Relocated(m, src, dst, Elements(from), Elements(from))
      ensures inoToPath == Renumbered(m, src, dst, Elements(from))
    {
      ghost var all := Elements(from);
      NothingPutBack(m, src, dst, all);
      assert Elements(from[..0]) == {};
      for k := 0 to |moved|
        invariant pathToIno == Relocated(m, src, dst, all, Elements(from[..k]))
        invariant inoToPath == Renumbered(m, src, dst, Elements(from[..k]))
      {
        var (ino, newPath) := moved[k];
        PutBackOne(m, src, dst, all, from, k);
        inoToPath := inoToPath[ino := newPath];
        pathToIno := pathToIno[newPath := ino];
      }
      assert from[..|moved|] == from;
    }

    /** The map-moving part of `rename`, after the device has renamed `src` to `dst`. */
    method Rename(src: Path, dst: Path, isDir: bool)
      requires Agree(View())
      modifies this
      ensures View() == RenameMaps(old(View()), src, dst, isDir)
    {
      ghost var m := View();
      var moved, from := TakeOut(src, dst, isDir);
      assert dst !in Elements(from);
      PutBack(moved, m, src, dst, from);
    }
  }

  /** `moves` are the new bindings of the paths `from`. */
  ghost predicate MovesFrom(m: Maps, src: Path, dst: Path, moves: seq<(Ino, Path)>, from: seq<Path>) {
    && |moves| == |from|
    && (forall k :: 0 <= k < |from| ==>
          from[k] in m.p2i && src <= from[k] && moves[k] == (m.p2i[from[k]], Rebase(from[k], src, dst)))
  }

  // ----- What each operation keeps

  lemma InoForKeeps(m: Maps, path: Path)
    requires Inv(m)
    ensures Inv(InoForMaps(m, path))
    ensures Inverse(m) ==> Inverse(InoForMaps(m, path))
    ensures var r := InoForMaps(m, path); path in r.p2i && r.p2i[path] == InoForResult(m, path)
  {
  }

  lemma ForgetKeeps(m: Maps, ino: Ino)
    requires Inv(m)
    ensures Inv(ForgetMaps(m, ino))
    ensures Inverse(m) ==> Inverse(ForgetMaps(m, ino))
  {
  }

  /** Where moved paths land in path -> inode, and what stays. */
  lemma RelocatedLookup(m: Maps, src: Path, dst: Path, moved: set<Path>)
    requires Under(m, src, moved)
    ensures var r := Relocated(m, src, dst, moved, moved);
      && (forall p :: p in moved ==> Rebase(p, src, dst) in r && r[Rebase(p, src, dst)] == m.p2i[p])
      && (forall q :: q in r ==> if Landed(moved, src, dst, q) then r[q] == m.p2i[Rebase(q, dst, src)]
                                 else q in m.p2i && q != dst && q !in moved && r[q] == m.p2i[q])
      && (forall q :: q in m.p2i && q != dst && q !in moved ==> q in r)
  {
    LandedIsRebased(m, src, dst, moved, moved);
    forall p | p in moved
      ensures Landed(moved, src, dst, Rebase(p, src, dst)) && Rebase(Rebase(p, src, dst), dst, src) == p
    {
      RebaseBack(p, src, dst);
    }
  }

  lemma RenameKeepsAgree(m: Maps, src: Path, dst: Path, isDir: bool)
    requires Agree(m)
    ensures Agree(RenameMaps(m, src, dst, isDir))
  {
    var moved := Moved(m, src, dst, isDir);
    RelocatedLookup(m, src, dst, moved);
    forall q | Landed(moved, src, dst, q)
      ensures Rebase(Rebase(q, dst, src), src, dst) == q
    {
      RebaseBack(q, dst, src);
    }
  }

  /** Children are resolved by pushing a name, so neither end of a rename is "/". */
  lemma RenameKeeps(m: Maps, src: Path, dst: Path, isDir: bool)
    requires Inv(m) && src != [] && dst != []
    ensures Inv(RenameMaps(m, src, dst, isDir))
  {
    RenameKeepsAgree(m, src, dst, isDir);
    RelocatedLookup(m, src, dst, Moved(m, src, dst, isDir));
  }

  /** No moved path lands on a tracked path that the rename leaves in place. */
  ghost predicate NoClobber(m: Maps, src: Path, dst: Path, isDir: bool) {
    var moved := Moved(m, src, dst, isDir);
    forall p :: p in moved && Rebase(p, src, dst) in m.p2i ==>
      Rebase(p, src, dst) == dst || Rebase(p, src, dst) in moved
  }

  /** The tables stay full inverses of each other exactly when nothing is clobbered. */
  lemma RenameInverseIff(m: Maps, src: Path, dst: Path, isDir: bool)
    requires Inverse(m)
    ensures Inverse(RenameMaps(m, src, dst, isDir)) <==> NoClobber(m, src, dst, isDir)
  {
    var moved, r := Moved(m, src, dst, isDir), RenameMaps(m, src, dst, isDir);
    RenameKeepsAgree(m, src, dst, isDir);
    RelocatedLookup(m, src, dst, moved);
    if NoClobber(m, src, dst, isDir) {
      forall i | i in r.i2p
        ensures r.i2p[i] in r.p2i && r.p2i[r.i2p[i]] == i
      {
        var q := m.i2p[i];
        if q !in moved && Landed(moved, src, dst, q) {
          RebaseBack(q, dst, src);
        }
      }
    } else {
      var p :| p in moved && Rebase(p, src, dst) in m.p2i &&
               Rebase(p, src, dst) != dst && Rebase(p, src, dst) !in moved;
      var j := m.p2i[Rebase(p, src, dst)];
      assert j in r.i2p && r.i2p[j] == Rebase(p, src, dst) && r.p2i[Rebase(p, src, dst)] == m.p2i[p];
    }
  }

  /** It is enough that nothing tracked lies strictly under the destination; a plain file never clobbers. */
  lemma NothingUnderDestination(m: Maps, src: Path, dst: Path, isDir: bool)
    requires !isDir || forall q :: q in m.p2i && dst <= q ==> q == dst
    ensures NoClobber(m, src, dst, isDir)
  {
    forall p | p in Moved(m, src, dst, isDir)
      ensures Rebase(p, src, dst) in m.p2i ==> Rebase(p, src, dst) == dst
    {
      RebaseBack(p, src, dst);
      if !isDir {
        assert Rebase(src, src, dst) == dst;
      }
    }
  }

  /**
    A rename is path-prefix substitution on inode -> path: the inode at `dst` is dropped, every other inode at `src`
    (or, for a directory, under it) keeps its number and moves to `dst` plus the same relative path, all else stays.
  */
  lemma RenameIsPrefixSubstitution(m: Maps, src: Path, dst: Path, isDir: bool)
    requires Inverse(m)
    ensures var r := RenameMaps(m, src, dst, isDir).i2p;
      && r.Keys <= m.i2p.Keys
      && (forall i :: i in m.i2p && m.i2p[i] == dst ==> i !in r)
      && (forall i :: i in m.i2p && m.i2p[i] == src != dst ==> i in r && r[i] == dst)
      && (forall i :: i in m.i2p && isDir && src <= m.i2p[i] != dst ==> i in r && r[i] == dst + m.i2p[i][|src|..])
      && (forall i :: i in m.i2p && m.i2p[i] != dst && m.i2p[i] != src && !(isDir && src <= m.i2p[i]) ==>
            i in r && r[i] == m.i2p[i])
  {
  }

  /** Nothing at or under `src` loses its number, exactly when `dst` is not itself a tracked path at or under `src`. */
  lemma RenameKeepsNumbersIff(m: Maps, src: Path, dst: Path, isDir: bool)
    requires Inverse(m)
    ensures var r := RenameMaps(m, src, dst, isDir).i2p;
      (forall i :: i in m.i2p && (m.i2p[i] == src || (isDir && src <= m.i2p[i])) ==> i in r) <==>
      !(dst in m.p2i && (dst == src || (isDir && src <= dst)))
  {
    if dst in m.p2i && Moves(dst, src, isDir) {
      assert m.p2i[dst] !in RenameMaps(m, src, dst, isDir).i2p;
    }
  }

  /**
    What clobbering costs: the inode that used to own the path stays behind under it, so forgetting that inode unbinds
    the live one, and the next lookup of the path hands out a second number for it.
  */
  lemma ClobberUnbindsTheLiveInode(m: Maps, src: Path, dst: Path, isDir: bool, p: Path)
    requires Inverse(m) && Inv(m) && dst != []
    requires p in Moved(m, src, dst, isDir)
    requires var q := Rebase(p, src, dst); q in m.p2i && q != dst && q !in Moved(m, src, dst, isDir)
    ensures var q, live := Rebase(p, src, dst), m.p2i[p];
      var r := RenameMaps(m, src, dst, isDir);
      var after := ForgetMaps(r, m.p2i[q]);
      && q in r.p2i && r.p2i[q] == live && live in after.i2p && after.i2p[live] == q
      && q !in after.p2i && InoForResult(after, q) == m.next
  {
    RelocatedLookup(m, src, dst, Moved(m, src, dst, isDir));
  }

  /**
    Clobbering happens: with /a/x and /b/x looked up, renaming /a onto the untracked /b leaves the number of /b/x bound
    to a path that now belongs to the number of /a/x.
  */
  lemma ClobberExample(m: Maps)
    requires m == InoForMaps(InoForMaps(Initial, ["a", "x"]), ["b", "x"])
    ensures Inv(m) && Inverse(m)
    ensures var r := RenameMaps(m, ["a"], ["b"], true);
      && !Inverse(r) && m.i2p[101] == ["b", "x"] && 101 in r.i2p && r.i2p[101] == ["b", "x"]
      && ["b", "x"] in r.p2i && r.p2i[["b", "x"]] == 100
  {
    var p, q := ["a", "x"], ["b", "x"];
    assert p[0] != q[0];
    TwoLookups(m, p, q);
    assert ["a"] <= p && p[1..] == ["x"] && Rebase(p, ["a"], ["b"]) == q;
    assert |q| != |["b"]| && |p| != |["b"]| && !(["a"] <= q);
    ClobberedKeepsBoth(m, ["a"], ["b"], true, p);
  }

  lemma TwoLookups(m: Maps, p: Path, q: Path)
    requires p != q && p != [] && q != [] && m == InoForMaps(InoForMaps(Initial, p), q)
    ensures Inv(m) && Inverse(m)
    ensures m.p2i == map[[] := ROOT, p := 100, q := 101] && m.i2p == map[ROOT := [], 100 := p, 101 := q]
  {
    InoForKeeps(Initial, p);
    InoForKeeps(InoForMaps(Initial, p), q);
  }

  /** A path that is landed on keeps its old inode in one table and has its new one in the other. */
  lemma ClobberedKeepsBoth(m: Maps, src: Path, dst: Path, isDir: bool, p: Path)
    requires Inverse(m) && p in Moved(m, src, dst, isDir)
    requires var q := Rebase(p, src, dst); q in m.p2i && q != dst && q !in Moved(m, src, dst, isDir)
    ensures var q, r := Rebase(p, src, dst), RenameMaps(m, src, dst, isDir);
      && !Inverse(r) && m.p2i[q] in r.i2p && r.i2p[m.p2i[q]] == q && q in r.p2i && r.p2i[q] == m.p2i[p]
  {
    RenameInverseIff(m, src, dst, isDir);
    RelocatedLookup(m, src, dst, Moved(m, src, dst, isDir));
  }
}
