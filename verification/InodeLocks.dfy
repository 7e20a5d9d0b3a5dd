/**
  `ino_for`, `forget_ino` and the rename handler run on several threads. Every one takes the `path_to_ino` lock first
  and the `ino_to_path` lock inside it; other callbacks take only the `ino_to_path` lock, to resolve an inode.
*/
module InodeLocks {
  import opened Paths
  import opened InodeMaps

  type Thread = nat

  datatype Op = InoFor(path: Path) | Forget(ino: Ino) | Rename(src: Path, dst: Path, isDir: bool)

  /** Where a thread stands in its operation. */
  datatype Pc =
    | Start(op: Op)                // wants path_to_ino
    | Outer(op: Op)                // holds path_to_ino
    | Half(path: Path, ino: Ino)   // ino_for: bound in path_to_ino, wants ino_to_path
    | Inner(op: Op)                // forget and rename: hold both
    | Leaving(path: Path, ino: Ino) // ino_for: holds path_to_ino, about to return `ino`
    | Reading                      // a resolving callback: holds ino_to_path
  {
    predicate HoldsOuter() { Outer? || Half? || Inner? || Leaving? }
    predicate HoldsInner() { Inner? || Reading? }
  }

  /** `issued` is history: the numbers taken from `next_ino`, in order. */
  datatype State = State(maps: Maps, threads: map<Thread, Pc>, issued: seq<Ino>)

  ghost predicate Init(s: State) {
    s.maps == Initial && s.threads == map[] && s.issued == []
  }

  ghost predicate OuterFree(s: State) {
    forall t :: t in s.threads ==> !s.threads[t].HoldsOuter()
  }

  ghost predicate InnerFree(s: State) {
    forall t :: t in s.threads ==> !s.threads[t].HoldsInner()
  }

  datatype Step =
    | Call(t: Thread, op: Op) | Resolve(t: Thread) | ResolveDone(t: Thread)
    | LockOuter(t: Thread)
    | Look(t: Thread)          // ino_for reads path_to_ino and, on a miss, binds a new number there
    | BindInner(t: Thread)     // ino_for binds it in ino_to_path too
    | Return(t: Thread)        // ino_for releases path_to_ino
    | LockInner(t: Thread)
    | Finish(t: Thread)        // forget or rename rewrites both maps and releases both locks

  ghost predicate At(s: State, t: Thread, pc: Pc) {
    t in s.threads && s.threads[t] == pc
  }

  ghost predicate Enabled(s: State, st: Step) {
    match st
    case Call(t, op) => t !in s.threads && (op.Rename? ==> op.src != [] && op.dst != [])
    case Resolve(t) => t !in s.threads && InnerFree(s)
    case ResolveDone(t) => At(s, t, Reading)
    case LockOuter(t) => t in s.threads && s.threads[t].Start? && OuterFree(s)
    case Look(t) => t in s.threads && s.threads[t].Outer? && s.threads[t].op.InoFor?
    case BindInner(t) => t in s.threads && s.threads[t].Half? && InnerFree(s)
    case Return(t) => t in s.threads && s.threads[t].Leaving?
    case LockInner(t) => t in s.threads && s.threads[t].Outer? && !s.threads[t].op.InoFor? && InnerFree(s)
    case Finish(t) => t in s.threads && s.threads[t].Inner? && !s.threads[t].op.InoFor?
  }

  ghost function Apply(s: State, st: Step): State
    requires Enabled(s, st)
  {
    match st
    case Call(t, op) => s.(threads := s.threads[t := Start(op)])
    case Resolve(t) => s.(threads := s.threads[t := Reading])
    case ResolveDone(t) => s.(threads := s.threads - {t})
    case LockOuter(t) => s.(threads := s.threads[t := Outer(s.threads[t].op)])
    case Look(t) =>
      var path, m := s.threads[t].op.path, s.maps;
      if path in m.p2i then s.(threads := s.threads[t := Leaving(path, m.p2i[path])])
      else
        var m' := m.(p2i := m.p2i[path := m.next], next := m.next + 1);
        State(m', s.threads[t := Half(path, m.next)], s.issued + [m.next])
    case BindInner(t) =>
      var pc := s.threads[t];
      s.(maps := s.maps.(i2p := s.maps.i2p[pc.ino := pc.path]), threads := s.threads[t := Leaving(pc.path, pc.ino)])
    case Return(t) => s.(threads := s.threads - {t})
    case LockInner(t) => s.(threads := s.threads[t := Inner(s.threads[t].op)])
    case Finish(t) =>
      var op := s.threads[t].op;
      s.(threads := s.threads - {t},
         maps := if op.Forget? then ForgetMaps(s.maps, op.ino) else RenameMaps(s.maps, op.src, op.dst, op.isDir))
  }

  /** The tables as they will be once the holder of `path_to_ino` has made up its half-done binding. */
  ghost function Settled(m: Maps, pc: Pc): Maps {
    if pc.Half? then m.(i2p := m.i2p[pc.ino := pc.path]) else m
  }

  /** `full` asks for the tables to be inverses of each other, not only to agree. */
  ghost predicate TablesOk(m: Maps, full: bool) {
    Inv(m) && (full ==> Inverse(m))
  }

  ghost predicate ThreadOk(m: Maps, pc: Pc, full: bool) {
    && (pc.HoldsOuter() ==> TablesOk(Settled(m, pc), full))
    && ((pc.Start? || pc.Outer? || pc.Inner?) && pc.op.Rename? ==> pc.op.src != [] && pc.op.dst != [])
    && (pc.Inner? ==> !pc.op.InoFor?)
  }

  /** Numbers are handed out in strictly increasing order, so none twice, and never the root's. */
  ghost predicate Increasing(issued: seq<Ino>, next: nat) {
    && (forall i, j :: 0 <= i < j < |issued| ==> issued[i] < issued[j])
    && (forall i :: 0 <= i < |issued| ==> ROOT < issued[i] < next)
  }

  ghost predicate Good(s: State, full: bool) {
    && (forall t, u | t in s.threads && u in s.threads && s.threads[t].HoldsOuter() && s.threads[u].HoldsOuter() ::
          t == u)
    && (forall t :: t in s.threads ==> ThreadOk(s.maps, s.threads[t], full))
    && (OuterFree(s) ==> TablesOk(s.maps, full))
    && Increasing(s.issued, s.maps.next)
  }

  /** The step does not rename onto tracked paths it leaves in place. */
  ghost predicate Clean(s: State, st: Step)
    requires Enabled(s, st)
  {
    st.Finish? && s.threads[st.t].op.Rename? ==>
      var op := s.threads[st.t].op; NoClobber(s.maps, op.src, op.dst, op.isDir)
  }

  lemma LookKeepsGood(s: State, st: Step, full: bool)
    requires Good(s, full) && Enabled(s, st) && st.Look?
    ensures Good(Apply(s, st), full)
  {
    InoForKeeps(s.maps, s.threads[st.t].op.path);
    var s' := Apply(s, st);
    assert Settled(s'.maps, s'.threads[st.t]) == InoForMaps(s.maps, s.threads[st.t].op.path);
  }

  lemma FinishKeepsGood(s: State, st: Step, full: bool)
    requires Good(s, full) && Enabled(s, st) && st.Finish? && (full ==> Clean(s, st))
    ensures Good(Apply(s, st), full)
  {
    var op, s' := s.threads[st.t].op, Apply(s, st);
    if op.Forget? {
      ForgetKeeps(s.maps, op.ino);
    } else {
      RenameKeeps(s.maps, op.src, op.dst, op.isDir);
      if full {
        RenameInverseIff(s.maps, op.src, op.dst, op.isDir);
      }
    }
    assert s'.maps.next == s.maps.next;
    assert OuterFree(s');
  }

  lemma OtherKeepsGood(s: State, st: Step, full: bool)
    requires Good(s, full) && Enabled(s, st) && !st.Look? && !st.Finish?
    ensures Good(Apply(s, st), full)
  {
    var s' := Apply(s, st);
    if OuterFree(s') && !OuterFree(s) {
      var u :| u in s.threads && s.threads[u].HoldsOuter();
      assert u in s'.threads ==> !s'.threads[u].HoldsOuter();
      assert u == st.t && st.Return?;
    }
  }

  // ----- Whole runs

  ghost predicate StepAt(tr: seq<State>, steps: seq<Step>, i: nat)
    requires i + 1 < |tr| && |tr| == |steps| + 1
  {
    Enabled(tr[i], steps[i]) && tr[i + 1] == Apply(tr[i], steps[i])
  }

  ghost predicate Run(tr: seq<State>, steps: seq<Step>) {
    && |tr| == |steps| + 1
    && Init(tr[0])
    && forall i :: 0 <= i < |steps| ==> StepAt(tr, steps, i)
  }

  ghost predicate CleanRun(tr: seq<State>, steps: seq<Step>)
    requires Run(tr, steps)
  {
    forall i :: 0 <= i < |steps| ==> StepAt(tr, steps, i) && Clean(tr[i], steps[i])
  }

  lemma {:induction false} RunKeepsGood(tr: seq<State>, steps: seq<Step>, n: nat, full: bool)
    requires Run(tr, steps) && n < |tr| && (full ==> CleanRun(tr, steps))
    ensures Good(tr[n], full)
  {
    if n > 0 {
      RunKeepsGood(tr, steps, n - 1, full);
      assert StepAt(tr, steps, n - 1);
      if steps[n - 1].Look? {
        LookKeepsGood(tr[n - 1], steps[n - 1], full);
      } else if steps[n - 1].Finish? {
        FinishKeepsGood(tr[n - 1], steps[n - 1], full);
      } else {
        OtherKeepsGood(tr[n - 1], steps[n - 1], full);
      }
    }
  }

  /** In every run, whenever `path_to_ino` is unlocked the tables agree, "/" is bound to ROOT and numbers are fresh. */
  lemma TablesAgreeWheneverUnlocked(tr: seq<State>, steps: seq<Step>, n: nat)
    requires Run(tr, steps) && n < |tr|
    ensures OuterFree(tr[n]) ==> Agree(tr[n].maps) && RootBound(tr[n].maps)
    ensures forall i, j :: 0 <= i < j < |tr[n].issued| ==> tr[n].issued[i] != tr[n].issued[j]
    ensures forall i :: 0 <= i < |tr[n].issued| ==> tr[n].issued[i] != ROOT
  {
    RunKeepsGood(tr, steps, n, false);
  }

  /** In every run whose renames clobber nothing, the tables are full inverses whenever `path_to_ino` is unlocked. */
  lemma TablesInverseWheneverUnlocked(tr: seq<State>, steps: seq<Step>, n: nat)
    requires Run(tr, steps) && n < |tr| && CleanRun(tr, steps)
    ensures OuterFree(tr[n]) ==> Inverse(tr[n].maps)
  {
    RunKeepsGood(tr, steps, n, true);
  }

  // ----- What a lookup returns

  /** A lookup about to return, or half-way through, has its path bound to its number. */
  ghost predicate Bound(s: State) {
    forall t :: t in s.threads && (s.threads[t].Half? || s.threads[t].Leaving?) ==>
      s.threads[t].path in s.maps.p2i && s.maps.p2i[s.threads[t].path] == s.threads[t].ino
  }

  lemma StepKeepsBound(s: State, st: Step)
    requires Good(s, false) && Enabled(s, st) && Bound(s)
    ensures Bound(Apply(s, st))
  {
    var s' := Apply(s, st);
    forall t | t in s'.threads && (s'.threads[t].Half? || s'.threads[t].Leaving?)
      ensures s'.threads[t].path in s'.maps.p2i && s'.maps.p2i[s'.threads[t].path] == s'.threads[t].ino
    {
      if t != st.t {
        assert s.threads[t].HoldsOuter();
      }
    }
  }

  lemma {:induction false} RunKeepsBound(tr: seq<State>, steps: seq<Step>, n: nat)
    requires Run(tr, steps) && n < |tr|
    ensures Bound(tr[n])
  {
    if n > 0 {
      RunKeepsBound(tr, steps, n - 1);
      RunKeepsGood(tr, steps, n - 1, false);
      assert StepAt(tr, steps, n - 1);
      StepKeepsBound(tr[n - 1], steps[n - 1]);
    }
  }

  /** No forget and no rename takes effect in the steps from `i` up to `j`. */
  ghost predicate OnlyLookups(steps: seq<Step>, i: nat, j: nat)
    requires i <= j <= |steps|
  {
    forall k :: i <= k < j ==> !steps[k].Finish?
  }

  lemma {:induction false} BindingStays(tr: seq<State>, steps: seq<Step>, i: nat, j: nat, path: Path)
    requires Run(tr, steps) && i <= j < |tr| && OnlyLookups(steps, i, j) && path in tr[i].maps.p2i
    ensures path in tr[j].maps.p2i && tr[j].maps.p2i[path] == tr[i].maps.p2i[path]
  {
    if i < j {
      BindingStays(tr, steps, i, j - 1, path);
      assert StepAt(tr, steps, j - 1);
    }
  }

  /** Two lookups of one path with no forget or rename between their returns give the same number. */
  lemma SamePathSameNumber(tr: seq<State>, steps: seq<Step>, i: nat, j: nat, path: Path, a: Ino, b: Ino)
    requires Run(tr, steps) && i <= j < |steps| && steps[i].Return? && steps[j].Return? && OnlyLookups(steps, i, j)
    requires At(tr[i], steps[i].t, Leaving(path, a)) && At(tr[j], steps[j].t, Leaving(path, b))
    ensures a == b
  {
    RunKeepsBound(tr, steps, i);
    RunKeepsBound(tr, steps, j);
    BindingStays(tr, steps, i, j, path);
  }

  /** A lookup returns the number bound to the path it was called with, and that number resolves to the path. */
  lemma LookupReturnsItsPath(tr: seq<State>, steps: seq<Step>, n: nat, path: Path, ino: Ino)
    requires Run(tr, steps) && n < |steps| && steps[n].Return? && At(tr[n], steps[n].t, Leaving(path, ino))
    ensures path in tr[n].maps.p2i && tr[n].maps.p2i[path] == ino
    ensures ino in tr[n].maps.i2p && tr[n].maps.i2p[ino] == path
    ensures exists i :: 0 <= i < n && steps[i] == Call(steps[n].t, InoFor(path))
  {
    RunKeepsBound(tr, steps, n);
    RunKeepsGood(tr, steps, n, false);
    assert ThreadOk(tr[n].maps, tr[n].threads[steps[n].t], false);
    var i := CalledWith(tr, steps, n, steps[n].t);
  }

  /** What a thread is looking up, if it is. */
  ghost predicate LooksUp(pc: Pc, path: Path) {
    || ((pc.Start? || pc.Outer?) && pc.op == InoFor(path))
    || ((pc.Half? || pc.Leaving?) && pc.path == path)
  }

  lemma {:induction false} CalledWith(tr: seq<State>, steps: seq<Step>, n: nat, t: Thread) returns (i: nat)
    requires Run(tr, steps) && n < |tr| && t in tr[n].threads
    requires var pc := tr[n].threads[t]; pc.Half? || pc.Leaving? || ((pc.Start? || pc.Outer?) && pc.op.InoFor?)
    ensures i < n && steps[i].Call? && steps[i].t == t && steps[i].op.InoFor?
    ensures LooksUp(tr[n].threads[t], steps[i].op.path)
  {
    i := n - 1;
    assert StepAt(tr, steps, i);
    if steps[i].t != t || !steps[i].Call? {
      i := CalledWith(tr, steps, i, t);
    }
  }

  lemma {:induction false} OpOf(tr: seq<State>, steps: seq<Step>, n: nat, t: Thread) returns (i: nat)
    requires Run(tr, steps) && n < |tr| && t in tr[n].threads
    requires var pc := tr[n].threads[t]; pc.Start? || pc.Outer? || pc.Inner?
    ensures i < n && steps[i] == Call(t, tr[n].threads[t].op)
  {
    i := n - 1;
    assert StepAt(tr, steps, i);
    if steps[i].t != t || !steps[i].Call? {
      i := OpOf(tr, steps, i, t);
    }
  }

  /**
    A forget or rename that takes effect is one that was called, and does to the tables what it does when it runs alone;
    no other step but a lookup's changes them.
  */
  lemma TakesEffectAsCalled(tr: seq<State>, steps: seq<Step>, n: nat)
    requires Run(tr, steps) && n < |steps|
    ensures steps[n].Finish? ==>
      exists i :: 0 <= i < n && steps[i].Call? && steps[i].t == steps[n].t &&
        match steps[i].op {
          case Forget(ino) => tr[n + 1].maps == ForgetMaps(tr[n].maps, ino)
          case Rename(src, dst, isDir) => tr[n + 1].maps == RenameMaps(tr[n].maps, src, dst, isDir)
          case InoFor(_) => false
        }
    ensures !steps[n].Finish? && !steps[n].Look? && !steps[n].BindInner? ==> tr[n + 1].maps == tr[n].maps
  {
    assert StepAt(tr, steps, n);
    if steps[n].Finish? {
      var i := OpOf(tr, steps, n, steps[n].t);
    }
  }

  /** The lock order admits no deadlock: whenever a thread is under way in a run, some such thread can take a step. */
  lemma NoDeadlock(tr: seq<State>, steps: seq<Step>, n: nat)
    requires Run(tr, steps) && n < |tr| && tr[n].threads != map[]
    ensures exists st: Step :: Enabled(tr[n], st) && !st.Call? && !st.Resolve?
  {
    RunKeepsGood(tr, steps, n, false);
    SomeThreadMoves(tr[n]);
  }

  lemma SomeThreadMoves(s: State)
    requires Good(s, false) && s.threads != map[]
    ensures exists st: Step :: Enabled(s, st) && !st.Call? && !st.Resolve?
  {
    if t :| t in s.threads && s.threads[t].HoldsInner() {
      assert Enabled(s, if s.threads[t].Reading? then ResolveDone(t) else Finish(t));
    } else if t :| t in s.threads && s.threads[t].HoldsOuter() {
      var pc := s.threads[t];
      assert Enabled(s, if pc.Half? then BindInner(t) else if pc.Leaving? then Return(t)
                        else if pc.op.InoFor? then Look(t) else LockInner(t));
    } else {
      var t :| t in s.threads;
      assert Enabled(s, LockOuter(t));
    }
  }
}
