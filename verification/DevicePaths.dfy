/** Paths as they go to the device: bytes, with what a closing "/" or "/." does to the last component. */
module DevicePaths {
  import opened Bytes

  /** One component, as the device has it. */
  type Name = seq<byte>

  /** A path as it goes over the wire. */
  type Text = seq<byte>

  /** Where a node is: the components from "/". */
  type Path = seq<Name>

  const SLASH: byte := 47
  const DOT: Name := [46]
  const DOT_DOT: Name := [46, 46]

  /** What a directory entry can be called. */
  predicate Plain(n: Name) {
    n != [] && n != DOT && n != DOT_DOT && SLASH !in n && 0 !in n
  }

  function Above(p: Path): Path
    requires p != []
  {
    p[..|p| - 1]
  }

  function Last(p: Path): Name
    requires p != []
  {
    p[|p| - 1]
  }

  // ----- child_path

  /** `trim_end_matches('/')`. */
  function TrimSlashes(s: Text): Text {
    if s != [] && s[|s| - 1] == SLASH then TrimSlashes(s[..|s| - 1]) else s
  }

  /** `child_path`. */
  function ChildPath(parent: Text, name: Name): Text {
    TrimSlashes(parent) + [SLASH] + name
  }

  /** One slash before the name, however many the parent ends in. */
  lemma ChildPathSpelled(parent: Text, name: Name)
    ensures parent == [] || parent[|parent| - 1] != 47 ==> ChildPath(parent, name) == parent + [47] + name
    ensures ChildPath(parent + [47], name) == ChildPath(parent, name)
  {
    assert (parent + [47])[..|parent|] == parent;
  }

  /** The path at `rel` below `base`, one `child_path` after another. */
  function RemoteAt(base: Text, rel: Path): Text {
    if rel == [] then base else ChildPath(RemoteAt(base, Above(rel)), Last(rel))
  }

  /** Child by child from a child's path is child by child from the path. */
  lemma {:induction false} RemoteFromChild(base: Text, n: Name, rel: Path)
    ensures RemoteAt(ChildPath(base, n), rel) == RemoteAt(base, [n] + rel)
  {
    var all := [n] + rel;
    if rel == [] {
      assert Above(all) == [] && Last(all) == n;
    } else {
      RemoteFromChild(base, n, Above(rel));
      assert Above(all) == [n] + Above(rel) && Last(all) == Last(rel);
    }
  }

  // ----- What a path asks for

  /** How a path ends: in a name, in slashes behind a name, or in a "." behind it. */
  datatype Ending = Bare | Slash | Dot

  /** What stands behind the last slash. */
  function LastPiece(s: Text): (p: Text)
    ensures |p| <= |s|
  {
    if s == [] || s[|s| - 1] == SLASH then [] else LastPiece(s[..|s| - 1]) + [s[|s| - 1]]
  }

  /** The components: pieces between slashes, without empty ones and ".". */
  function Comps(s: Text): Path
    decreases |s|
  {
    if s == [] then []
    else
      var p := LastPiece(s);
      var k := |s| - |p|;
      Comps(if k == 0 then [] else s[..k - 1]) + (if p == [] || p == DOT then [] else [p])
  }

  function EndingOf(s: Text): Ending {
    var t := TrimSlashes(s);
    if LastPiece(t) == DOT then Dot else if t != s then Slash else Bare
  }

  predicate Absolute(s: Text) {
    s != [] && s[0] == SLASH
  }

  /** A path read by the device: where resolution starts, the components, how it ends. */
  datatype Asked = Asked(start: Path, comps: Path, ending: Ending)

  function Ask(cwd: Path, s: Text): Asked {
    Asked(if Absolute(s) then [] else cwd, Comps(s), EndingOf(s))
  }

  lemma {:induction false} TrimKeeps(s: Text)
    ensures Comps(TrimSlashes(s)) == Comps(s)
    ensures TrimSlashes(s) <= s
  {
    if s != [] && s[|s| - 1] == SLASH {
      TrimKeeps(s[..|s| - 1]);
      assert Comps(s) == Comps(s[..|s| - 1]) + [];
    }
  }

  lemma {:induction false} LastPieceBehindSlash(t: Text, n: Name)
    requires SLASH !in n
    ensures LastPiece(t + [SLASH] + n) == n
  {
    var s := t + [SLASH] + n;
    if n != [] {
      var m := n[..|n| - 1];
      LastPieceBehindSlash(t, m);
      assert s[..|s| - 1] == t + [SLASH] + m && n == m + [n[|n| - 1]];
      assert n[|n| - 1] in n;
    }
  }

  /** A piece behind a slash is one more component, ".." included, unless it is empty or ".". */
  lemma OneMoreComponent(t: Text, n: Name)
    requires n != [] && n != [46] && SLASH !in n
    ensures Comps(t + [SLASH] + n) == Comps(t) + [n]
  {
    var c := t + [SLASH] + n;
    LastPieceBehindSlash(t, n);
    var p, k := LastPiece(c), |c| - |LastPiece(c)|;
    assert k == |t| + 1 && c[..k - 1] == t;
  }

  lemma EndsInName(t: Text, n: Name)
    requires Plain(n)
    ensures EndingOf(t + [SLASH] + n) == Bare
  {
    var c := t + [SLASH] + n;
    LastPieceBehindSlash(t, n);
    assert n[|n| - 1] in n && c[|c| - 1] == n[|n| - 1];
    assert TrimSlashes(c) == c;
  }

  /** A child's path asks for the child of what its parent's path asked for, whatever slashes that ended in. */
  lemma ChildAsked(cwd: Path, s: Text, n: Name)
    requires Plain(n) && Comps(s) != []
    ensures Ask(cwd, ChildPath(s, n)) == Asked(Ask(cwd, s).start, Comps(s) + [n], Bare)
  {
    var t := TrimSlashes(s);
    TrimKeeps(s);
    OneMoreComponent(t, n);
    EndsInName(t, n);
    assert t != [] && ChildPath(s, n)[0] == t[0] == s[0];
  }

  /** Behind a name, "/" and "/." add no component and change only how the path ends. */
  lemma Endings(t: Text, n: Name)
    requires Plain(n)
    ensures var s := t + [SLASH] + n + [SLASH]; Comps(s) == Comps(t) + [n] && EndingOf(s) == Slash
    ensures var s := t + [SLASH] + n + [SLASH] + DOT; Comps(s) == Comps(t) + [n] && EndingOf(s) == Dot
  {
    var c := t + [SLASH] + n;
    OneMoreComponent(t, n);
    EndsInName(t, n);
    assert (c + [SLASH])[..|c|] == c;
    LastPieceBehindSlash(t, n);
    assert TrimSlashes(c) == c;
    assert Comps(c + [SLASH]) == Comps(c) + [];
    ClosingDot(c);
  }

  lemma ClosingDot(c: Text)
    ensures Comps(c + [SLASH] + DOT) == Comps(c) && EndingOf(c + [SLASH] + DOT) == Dot
  {
    var s := c + [SLASH] + DOT;
    LastPieceBehindSlash(c, DOT);
    assert s[..|c|] == c && s[|s| - 1] == 46;
    assert TrimSlashes(s) == s;
    assert Comps(s) == Comps(c) + [];
  }

  /** A name under "/", written in three ways. */
  lemma UnderRoot(cwd: Path, n: Name)
    requires Plain(n)
    ensures Ask(cwd, [SLASH] + n) == Asked([], [n], Bare)
    ensures Ask(cwd, [SLASH] + n + [SLASH]) == Asked([], [n], Slash)
    ensures Ask(cwd, [SLASH] + n + [SLASH] + DOT) == Asked([], [n], Dot)
  {
    assert [] + [SLASH] + n == [SLASH] + n && Comps([]) + [n] == [n];
    OneMoreComponent([], n);
    EndsInName([], n);
    Endings([], n);
  }
}
