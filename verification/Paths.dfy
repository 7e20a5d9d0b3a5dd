/**
  Absolute device paths as sequences of components: "/" is `[]`, `starts_with` is sequence prefix, `join` is
  concatenation and `parent` drops the last component.
*/
module Paths {

  type Path = seq<string>

  ghost function Elements(s: seq<Path>): set<Path> {
    set p | p in s
  }

  function Parent(p: Path): Path
    requires p != []
  {
    p[..|p| - 1]
  }

  /** `dst.join(p.strip_prefix(src))`. */
  function Rebase(p: Path, src: Path, dst: Path): Path
    requires src <= p
  {
    dst + p[|src|..]
  }

  lemma RebaseBack(p: Path, src: Path, dst: Path)
    requires src <= p
    ensures dst <= Rebase(p, src, dst) && Rebase(Rebase(p, src, dst), dst, src) == p
  {
    var q := Rebase(p, src, dst);
    assert q[..|dst|] == dst && q[|dst|..] == p[|src|..];
    assert src + p[|src|..] == p;
  }
}
