/** A directory tree: the part of a file system that the storage, checkpoint and sandbox components share. */
module FileTree {
  import opened Basics

  /** The components of a path below the root of the tree; the root itself is `[]`. */
  type Path = seq<string>

  /** Where a symbolic link points: from the root, or from the directory that holds the link. */
  datatype Target = Target(absolute: bool, components: seq<string>)

  datatype Node = Dir | File(data: Bytes) | Link(target: Target)

  /** The root is always a directory and has no entry. */
  type Tree = map<Path, Node>

  predicate AtOrAbove(q: Path, p: Path) {
    q <= p
  }

  function Lookup(t: Tree, p: Path): Option<Node> {
    if p == [] then Some(Dir) else if p in t then Some(t[p]) else None
  }

  function Parent(p: Path): Path
    requires p != []
  {
    p[..|p| - 1]
  }

  /** Every entry lies in a directory of the tree. */
  ghost predicate WellFormed(t: Tree) {
    forall p <- t.Keys :: p != [] && Lookup(t, Parent(p)) == Some(Dir)
  }

  lemma {:induction false} AncestorsAreDirs(t: Tree, q: Path, p: Path)
    requires WellFormed(t) && p in t && q < p
    ensures Lookup(t, q) == Some(Dir)
  {
    assert p != [] && Lookup(t, Parent(p)) == Some(Dir);
    if q != Parent(p) {
      assert q < Parent(p);
      AncestorsAreDirs(t, q, Parent(p));
    }
  }

  // ----- Creating directories -----

  /** A directory at every nonempty prefix of `p`. */
  function DirsTo(p: Path): (r: Tree)
    ensures forall q :: q in r <==> q != [] && AtOrAbove(q, p)
    ensures forall q <- r.Keys :: r[q] == Dir
  {
    if p == [] then map[]
    else
      assert forall q :: AtOrAbove(q, p) <==> q == p || AtOrAbove(q, Parent(p));
      DirsTo(Parent(p))[p := Dir]
  }

  /** The tree `t` with a directory at every nonempty prefix of `p` that has no entry. */
  function WithDirs(t: Tree, p: Path): Tree {
    DirsTo(p) + t
  }

  ghost predicate NoneInTheWay(t: Tree, p: Path) {
    forall q <- t.Keys :: q != [] && AtOrAbove(q, p) ==> t[q] == Dir
  }

  /** Going down one component adds at most one directory. */
  lemma WithDirsStep(t: Tree, p: Path)
    requires p != []
    ensures WithDirs(t, p) == if p in t then WithDirs(t, Parent(p)) else WithDirs(t, Parent(p))[p := Dir]
    ensures NoneInTheWay(t, p) <==> NoneInTheWay(t, Parent(p)) && (p in t ==> t[p] == Dir)
    ensures p in WithDirs(t, Parent(p)) <==> p in t
  {
    assert forall q :: AtOrAbove(q, p) <==> q == p || AtOrAbove(q, Parent(p));
    assert !AtOrAbove(p, Parent(p));
  }

  lemma WithDirsKeepsWellFormed(t: Tree, p: Path)
    requires WellFormed(t) && NoneInTheWay(t, p)
    ensures WellFormed(WithDirs(t, p))
    ensures Lookup(WithDirs(t, p), p) == Some(Dir)
  {
    var t' := WithDirs(t, p);
    forall q | q in t'.Keys ensures q != [] && Lookup(t', Parent(q)) == Some(Dir) {
      if q in t.Keys {
        assert Lookup(t, Parent(q)) == Some(Dir);
      } else if Parent(q) != [] {
        assert AtOrAbove(q, p) && AtOrAbove(Parent(q), p);
      }
    }
  }

  /** `t` with the file at `p`, and directories above it. */
  function Placed(t: Tree, p: Path, data: Bytes): Tree
    requires p != []
  {
    WithDirs(t, Parent(p))[p := File(data)]
  }

  // ----- Looking at a path -----

  datatype StatResult = Found(node: Node) | NotFound | BelowAFile

  /** The metadata of a path above which there is no link. */
  function Stat(t: Tree, p: Path): StatResult {
    match Lookup(t, p)
    case Some(node) => Found(node)
    case None =>
      match Stat(t, Parent(p))
      case Found(File(_)) => BelowAFile
      case BelowAFile => BelowAFile
      case _ => NotFound
  }

  ghost predicate HasNoLinks(t: Tree) {
    forall p <- t.Keys :: !t[p].Link?
  }

  ghost predicate NoLinkTo(t: Tree, p: Path) {
    forall q <- t.Keys :: AtOrAbove(q, p) ==> !t[q].Link?
  }

  /** Without links on the way, a path is simply missing exactly when everything above it is a directory. */
  lemma {:induction false} StatExact(t: Tree, p: Path)
    requires WellFormed(t) && NoLinkTo(t, p)
    ensures Stat(t, p) == match Lookup(t, p) case Some(node) => Found(node) case None => if NoneInTheWay(t, p) then NotFound else BelowAFile
  {
    if Lookup(t, p).None? {
      var above := Parent(p);
      StatExact(t, above);
      assert forall q :: AtOrAbove(q, p) <==> q == p || AtOrAbove(q, above);
      if Lookup(t, above) == Some(Dir) {
        forall q | q in t.Keys && AtOrAbove(q, above) && q != above ensures t[q] == Dir {
          AncestorsAreDirs(t, q, above);
        }
      }
    }
  }
}
