/**
 * An abstract view of the part of the disk that the prefix store touches:
 * a finite map from absolute path to the kind of entry found there.
 * Symbolic links and `..` components are not modelled, so a path resolves
 * exactly when an entry is stored under it.
 */
module FileSystem {
  import opened Common

  datatype Node = File | Dir

  type Path = string

  type Fs = map<Path, Node>

  /** `Path::join` for a relative name: the base, a separator, then the name. */
  function Join(base: Path, name: Path): (p: Path)
    ensures |p| == |base| + 1 + |name|
    ensures p[..|base| + 1] == base + "/" && p[|base| + 1..] == name
  {
    base + "/" + name
  }

  /** Joining onto the same base never maps two names to one path. */
  lemma JoinInjective(base: Path, a: Path, b: Path)
    requires Join(base, a) == Join(base, b)
    ensures a == b
  {
    assert a == Join(base, a)[|base| + 1..];
  }

  /** `canonicalize`: fails when nothing exists at the path. */
  function Canonicalize(fs: Fs, p: Path): (r: Option<Path>)
    ensures r.Some? <==> p in fs
    ensures r.Some? ==> r.value == p
  {
    if p in fs then Some(p) else None
  }

  /** `q` lies strictly inside directory `dir`. */
  predicate Within(dir: Path, q: Path)
  {
    |dir| + 1 < |q| && q[..|dir| + 1] == dir + "/"
  }

  /** `read_dir(p).count() == 0` for a directory: nothing is stored inside it. */
  predicate IsEmptyDir(fs: Fs, p: Path)
    requires p in fs
  {
    fs[p] == Dir && forall q | q in fs :: !Within(p, q)
  }

  /** Every entry of `small` is in `big` with the same kind. */
  predicate IsSubmap(small: Fs, big: Fs)
  {
    forall p | p in small :: p in big && big[p] == small[p]
  }
}
