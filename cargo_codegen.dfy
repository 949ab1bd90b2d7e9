/**
 * Path normalisation of the build helper (cargo-spatial/src/codegen.rs):
 * `normalize` keeps a path's components in order and drops every
 * current-directory (`.`) component. The split of a path into components is
 * taken as given.
 */
module CargoCodegen {

  /** std::path::Component. */
  datatype PathComponent =
    | Prefix(prefix: string)
    | RootDir
    | CurDir
    | ParentDir
    | Normal(name: string)

  type Path = seq<PathComponent>

  /** normalize: the components, filtered to exclude CurDir, in their original order. */
  function Normalize(p: Path): (r: Path)
    ensures CurDir !in r
    ensures |r| <= |p|
    ensures forall c :: c in r <==> c in p && c != CurDir
  {
    if |p| == 0 then []
    else if p[0] == CurDir then Normalize(p[1..])
    else [p[0]] + Normalize(p[1..])
  }

  /** Normalising a joined path normalises each part. */
  lemma {:induction false} NormalizeAppend(p: Path, q: Path)
    ensures Normalize(p + q) == Normalize(p) + Normalize(q)
  {
    if |p| == 0 {
      assert p + q == q;
    } else {
      assert (p + q)[1..] == p[1..] + q;
      NormalizeAppend(p[1..], q);
    }
  }

  /** A path without current-directory components is returned unchanged. */
  lemma {:induction false} NormalizeNoCurDir(p: Path)
    requires CurDir !in p
    ensures Normalize(p) == p
  {
    if |p| > 0 {
      assert CurDir !in p[1..];
      NormalizeNoCurDir(p[1..]);
    }
  }

  /** Normalising twice is normalising once. */
  lemma NormalizeIdempotent(p: Path)
    ensures Normalize(Normalize(p)) == Normalize(p)
  {
    NormalizeNoCurDir(Normalize(p));
  }

  /**
   * Every kept component stays in order: the result is exactly the path with
   * the CurDir positions removed, counted component by component.
   */
  lemma {:induction false} NormalizeCounts(p: Path, c: PathComponent)
    requires c != CurDir
    ensures multiset(Normalize(p))[c] == multiset(p)[c]
    ensures multiset(Normalize(p))[CurDir] == 0
  {
    if |p| > 0 {
      assert p == [p[0]] + p[1..];
      NormalizeCounts(p[1..], c);
    }
  }
}
