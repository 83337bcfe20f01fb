/**
 Resolving a path for a sandboxed write, and previewing where the write would go
 (crates/core/src/sandbox.rs), outside full access. The theorem is that whenever a write resolves, the
 preview made on the file system as it was before names the same file, inside the allowed roots.
 */
module Sandbox {
  import opened Basics
  import opened FileTree
  import opened Canonicalize

  datatype PathAccess = Read | Write

  /** A path as given: a component may be `.` or `..`. */
  datatype InputPath = InputPath(absolute: bool, components: seq<string>)

  datatype SandboxError =
    | RootNotFound
    | RootNotADirectory
    | ParentTraversal
    | EscapesRoot
    | NoParent
    | NotAFileName
    | NotADirectory
    | SymlinkInPath
    | PathNotFound
    | WriteThroughSymlink

  class FileSystem {
    var tree: Tree

    constructor (tree: Tree)
      ensures this.tree == tree
    {
      this.tree := tree;
    }
  }

  // ----- Components -----

  function WithoutCurDir(components: seq<string>): (r: Path)
    ensures "." !in r && (".." in r <==> ".." in components)
  {
    if components == [] then []
    else
      var (front, last) := (WithoutCurDir(components[..|components| - 1]), components[|components| - 1]);
      assert components == components[..|components| - 1] + [last];
      if last == "." then front else front + [last]
  }

  lemma {:induction false} CurDirOfTwo(a: seq<string>, b: seq<string>)
    ensures WithoutCurDir(a + b) == WithoutCurDir(a) + WithoutCurDir(b)
  {
    if b == [] {
      assert a + b == a;
    } else {
      CurDirOfTwo(a, b[..|b| - 1]);
      assert (a + b)[..|a + b| - 1] == a + b[..|b| - 1];
    }
  }

  /** Each `.` is dropped and every other component kept in its place. */
  lemma CurDirIsDropped(front: seq<string>, name: string, back: seq<string>)
    ensures WithoutCurDir(front + [name] + back) == WithoutCurDir(front) + (if name == "." then [] else [name]) + WithoutCurDir(back)
  {
    CurDirOfTwo(front + [name], back);
    CurDirOfTwo(front, [name]);
    assert [name][..0] == [];
  }

  method StripCurDirComponents(components: seq<string>) returns (r: Path)
    ensures r == WithoutCurDir(components)
  {
    r := [];
    for i := 0 to |components|
      invariant r == WithoutCurDir(components[..i])
    {
      assert components[..i + 1][..i] == components[..i];
      if components[i] != "." {
        r := r + [components[i]];
      }
    }
    assert components[..|components|] == components;
  }

  /** The path an input stands for below a canonical root. */
  function Candidate(root: Path, input: InputPath): Path {
    if input.absolute then WithoutCurDir(input.components) else root + WithoutCurDir(input.components)
  }

  lemma CandidateIsPlain(t: Tree, root: Path, input: InputPath)
    requires IsFileSystem(t) && IsReal(t, root) && ".." !in input.components
    ensures IsPlain(Candidate(root, input))
  {
    assert root == [] || root in t;
  }

  // ----- Creating the parent -----

  /** Nothing that was there is changed; what is new is a directory. */
  ghost predicate OnlyDirsAdded(before: Tree, after: Tree) {
    && (forall p <- before.Keys :: p in after && after[p] == before[p])
    && (forall p <- after.Keys :: p in before || after[p] == Dir)
  }

  lemma DirsKeepFileSystem(t: Tree, p: Path)
    requires IsFileSystem(t) && NoneInTheWay(t, p) && IsPlain(p)
    ensures IsFileSystem(WithDirs(t, p)) && OnlyDirsAdded(t, WithDirs(t, p)) && Lookup(WithDirs(t, p), p) == Some(Dir)
  {
    WithDirsKeepsWellFormed(t, p);
    forall q | q in WithDirs(t, p).Keys ensures IsPlain(q) {
      if q !in t {
        assert AtOrAbove(q, p) && forall name <- q :: name in p;
      }
    }
  }

  /** Creates what is missing between the root and `dir`; a link or a file in between stops it. */
  method EnsureDirTreeNoSymlink(fs: FileSystem, root: Path, dir: Path) returns (r: Result<(), SandboxError>)
    requires IsFileSystem(fs.tree) && IsReal(fs.tree, root) && IsPlain(dir)
    modifies fs
    ensures IsFileSystem(fs.tree) && OnlyDirsAdded(old(fs.tree), fs.tree)
    ensures r.Ok? <==> root <= dir && (dir == root || NoneInTheWay(old(fs.tree), dir))
    ensures fs.tree == if r.Ok? then WithDirs(old(fs.tree), dir) else old(fs.tree)
  {
    if !(root <= dir) {
      return Err(EscapesRoot);
    }
    RealHasDirs(fs.tree, root);
    r := EnsureDirs(fs, root, dir);
  }

  /** Above a real entry every directory exists. */
  lemma RealHasDirs(t: Tree, p: Path)
    requires WellFormed(t) && IsReal(t, p)
    ensures WithDirs(t, p) == t
  {
    forall q | q != [] && AtOrAbove(q, p) ensures q in t {
      if q != p {
        AncestorsAreDirs(t, q, p);
      }
    }
  }

  method EnsureDirs(fs: FileSystem, root: Path, dir: Path) returns (r: Result<(), SandboxError>)
    requires IsFileSystem(fs.tree) && IsReal(fs.tree, root) && IsPlain(dir) && root <= dir
    modifies fs
    ensures r.Ok? ==> CreatedTo(old(fs.tree), fs.tree, root, dir)
    ensures r.Err? ==> Stopped(old(fs.tree), fs.tree, root, dir)
  {
    ghost var before := fs.tree;
    var current := root;
    r := Ok(());
    while current != dir
      invariant r.Ok? && current <= dir && CreatedTo(before, fs.tree, root, current)
      decreases |dir| - |current|
    {
      r, current := EnsureDir(fs, before, root, dir, current);
      if r.Err? {
        return;
      }
    }
  }

  ghost predicate Stopped(before: Tree, now: Tree, root: Path, dir: Path) {
    dir != root && !NoneInTheWay(before, dir) && now == before
  }

  /** The state of the loop: everything down to `here` is a directory, the root itself perhaps not. */
  ghost predicate CreatedTo(before: Tree, now: Tree, root: Path, here: Path) {
    && root <= here && IsFileSystem(now) && OnlyDirsAdded(before, now)
    && (if here == root then now == before else NoneInTheWay(before, here) && now == WithDirs(before, here))
  }

  /** One more component. */
  method EnsureDir(fs: FileSystem, ghost before: Tree, root: Path, dir: Path, current: Path)
    returns (r: Result<(), SandboxError>, next: Path)
    requires IsFileSystem(before) && IsReal(before, root) && IsPlain(dir) && current < dir
    requires CreatedTo(before, fs.tree, root, current)
    modifies fs
    ensures next <= dir && |next| == |current| + 1
    ensures r.Ok? ==> CreatedTo(before, fs.tree, root, next)
    ensures r.Err? ==> Stopped(before, fs.tree, root, dir)
  {
    next := dir[..|current| + 1];
    StepDown(current, next, dir);
    NextDir(before, fs.tree, root, next);
    NotInTheWay(before, next, dir);
    match Stat(fs.tree, next) {
      case Found(Link(_)) =>
        return Err(SymlinkInPath), next;
      case Found(File(_)) =>
        return Err(NotADirectory), next;
      case BelowAFile =>
        return Err(NotADirectory), next;
      case NotFound =>
        fs.tree := fs.tree[next := Dir];
      case Found(Dir) =>
    }
    return Ok(()), next;
  }

  lemma StepDown(current: Path, next: Path, dir: Path)
    requires current < dir && next == dir[..|current| + 1] && IsPlain(dir)
    ensures Parent(next) == current && AtOrAbove(next, dir) && IsPlain(next)
  {
    assert forall name <- next :: name in dir;
  }

  lemma NotInTheWay(t: Tree, above: Path, p: Path)
    requires AtOrAbove(above, p)
    ensures NoneInTheWay(t, p) ==> NoneInTheWay(t, above)
  {
    assert forall q :: AtOrAbove(q, above) ==> AtOrAbove(q, p);
  }

  lemma NextDir(before: Tree, now: Tree, root: Path, next: Path)
    requires IsFileSystem(before) && IsReal(before, root) && IsPlain(next) && next != []
    requires CreatedTo(before, now, root, Parent(next))
    ensures match Stat(now, next)
      case Found(Dir) => CreatedTo(before, now, root, next)
      case NotFound => CreatedTo(before, now[next := Dir], root, next)
      case _ => !NoneInTheWay(before, next) && now == before
  {
    var here := Parent(next);
    if Lookup(before, root) == Some(Dir) {
      RootIsClear(before, root);
      NextBelowDir(before, next);
      assert now == WithDirs(before, here);
    } else {
      FileIsInTheWay(before, root, here);
      FileIsInTheWay(before, root, next);
      assert Stat(before, root) == Found(Lookup(before, root).value);
      assert next in before ==> Lookup(before, here) == Some(Dir);
    }
  }

  lemma FileIsInTheWay(t: Tree, file: Path, p: Path)
    requires IsReal(t, file) && Lookup(t, file) != Some(Dir) && AtOrAbove(file, p)
    ensures file != [] && !NoneInTheWay(t, p)
  {
    assert file in t;
  }

  lemma NextBelowDir(before: Tree, next: Path)
    requires IsFileSystem(before) && next != [] && IsPlain(next) && NoneInTheWay(before, Parent(next))
    ensures var now := WithDirs(before, Parent(next));
      match Stat(now, next)
      case Found(Dir) => NoneInTheWay(before, next) && now == WithDirs(before, next)
      case NotFound => NoneInTheWay(before, next) && now[next := Dir] == WithDirs(before, next)
      case _ => !NoneInTheWay(before, next) && now == before
    ensures NoneInTheWay(before, next) ==> IsFileSystem(WithDirs(before, next)) && OnlyDirsAdded(before, WithDirs(before, next))
  {
    WithDirsStep(before, next);
    WithDirsKeepsWellFormed(before, Parent(next));
    assert Stat(WithDirs(before, Parent(next)), Parent(next)) == Found(Dir);
    if next in before {
      RealHasDirs(before, Parent(next));
    }
    if NoneInTheWay(before, next) {
      DirsKeepFileSystem(before, next);
    }
  }

  lemma RootIsClear(t: Tree, root: Path)
    requires WellFormed(t) && Lookup(t, root) == Some(Dir)
    ensures NoneInTheWay(t, root) && WithDirs(t, root) == t
  {
    forall q | q != [] && AtOrAbove(q, root) ensures q in t && t[q] == Dir {
      if q != root {
        AncestorsAreDirs(t, q, root);
      }
    }
  }

  // ----- Resolving below one root -----

  function Last(p: Path): string
    requires p != []
  {
    p[|p| - 1]
  }

  /** `resolved` is safe to write: the directory it is in lies below the root, however many links lead
      there, and the file is no link. `above` is that directory, also as seen before the write. */
  ghost predicate IsSafeWrite(before: Tree, now: Tree, root: Path, resolved: Path, above: Path) {
    && resolved != [] && (exists left :: Canonical(now, Parent(resolved)) == At(above, left))
    && root <= above && !IsLink(now, above + [Last(resolved)])
    && Extended(before, Parent(resolved)) == Ok(above)
  }

  /** A write to the candidate is allowed below the root: its parent can be created without meeting a
      link or a file, or exists and leads below the root; and the candidate is no link. */
  ghost predicate MayWrite(t: Tree, root: Path, candidate: Path, createParentDirs: bool)
    requires candidate != []
  {
    var parent := Parent(candidate);
    if createParentDirs then
      root <= parent && (parent == root || NoneInTheWay(t, parent)) && !IsLink(t, candidate)
    else
      match Canonical(t, parent)
      case At(above, _) => root <= above && !IsLink(t, above + [Last(candidate)])
      case _ => false
  }

  ghost predicate MayResolve(t: Tree, root: Path, input: InputPath, createParentDirs: bool) {
    match Canonical(t, root)
    case At(canonRoot, _) =>
      var candidate := Candidate(canonRoot, input);
      ".." !in input.components && candidate != [] && canonRoot <= candidate && MayWrite(t, canonRoot, candidate, createParentDirs)
    case _ => false
  }

  /** A read of the candidate is allowed below the root: its parent can be created without meeting a link
      or a file, or exists and leads below the root; and the candidate leads below the root. */
  ghost predicate MayRead(t: Tree, root: Path, candidate: Path, createParentDirs: bool)
    requires candidate != []
  {
    var parent := Parent(candidate);
    && (if createParentDirs then root <= parent && (parent == root || NoneInTheWay(t, parent))
        else Canonical(t, parent).At? && root <= Canonical(t, parent).path)
    && Canonical(t, candidate).At? && root <= Canonical(t, candidate).path
  }

  ghost predicate MayResolveRead(t: Tree, root: Path, input: InputPath, createParentDirs: bool) {
    match Canonical(t, root)
    case At(canonRoot, _) =>
      var candidate := Candidate(canonRoot, input);
      ".." !in input.components && candidate != [] && canonRoot <= candidate && MayRead(t, canonRoot, candidate, createParentDirs)
    case _ => false
  }

  /** The lookup of the components ends at `p`; a `.` at the end of them is not looked up. */
  ghost predicate LookupEndsAt(t: Tree, from: Path, components: seq<string>, p: Path) {
    exists n: nat :: n <= |components| && OnlyCurDirs(components[n..]) && EndsAt(Walk(t, from, components[..n], MAX_LINKS), p)
  }

  predicate OnlyCurDirs(components: seq<string>) {
    forall c <- components :: c == "."
  }

  predicate EndsAt(walked: Walked, p: Path) {
    walked.At? && walked.path == p
  }

  /** What reading an input from a root gives: where the lookup of the input ends, below the root. */
  ghost predicate IsReadOf(t: Tree, root: Path, input: InputPath, p: Path) {
    && Canonical(t, root).At? && IsReal(t, p)
    && var canonRoot := Canonical(t, root).path;
       AtOrAbove(canonRoot, p) && LookupEndsAt(t, if input.absolute then [] else canonRoot, input.components, p)
  }

  /** Dropping the `.` components changes no lookup that ends somewhere, but for a `.` at the end. */
  lemma {:induction false} WalkWithoutCurDir(t: Tree, at: Path, todo: seq<string>, links: nat) returns (n: nat)
    requires Walk(t, at, WithoutCurDir(todo), links).At?
    ensures n <= |todo| && OnlyCurDirs(todo[n..])
    ensures Walk(t, at, todo[..n], links) == Walk(t, at, WithoutCurDir(todo), links)
    ensures n == |todo| || Lookup(t, Walk(t, at, WithoutCurDir(todo), links).path) != Some(Dir)
  {
    n := |todo|;
    if todo != [] {
      var front, last := todo[..|todo| - 1], todo[|todo| - 1];
      assert todo == front + [last] && todo[..|todo|] == todo;
      WalkInTwo(t, at, front, [last], links);
      if last == "." {
        var m := WalkWithoutCurDir(t, at, front, links);
        var end := Walk(t, at, WithoutCurDir(todo), links);
        assert front[..m] == todo[..m] && todo[m..] == front[m..] + ["."];
        assert front[..|front|] == front;
        if Lookup(t, end.path) != Some(Dir) {
          n := m;
        } else {
          assert Walk(t, end.path, ["."], end.linksLeft) == end by {
            assert ["."][1..] == [];
          }
        }
      } else {
        WalkInTwo(t, at, WithoutCurDir(front), [last], links);
        var m := WalkWithoutCurDir(t, at, front, links);
        assert front[..|front|] == front;
      }
    }
  }

  /** The candidate leads where the lookup of the input ends. */
  lemma CandidateIsInput(t: Tree, canonRoot: Path, input: InputPath)
    requires IsFileSystem(t) && IsReal(t, canonRoot)
    requires Canonical(t, Candidate(canonRoot, input)).At?
    ensures LookupEndsAt(t, if input.absolute then [] else canonRoot, input.components, Canonical(t, Candidate(canonRoot, input)).path)
  {
    var from, stripped := if input.absolute then [] else canonRoot, WithoutCurDir(input.components);
    if !input.absolute {
      WalkInTwo(t, [], canonRoot, stripped, MAX_LINKS);
      CanonicalOfReal(t, canonRoot);
    }
    assert Walk(t, from, stripped, MAX_LINKS) == Canonical(t, Candidate(canonRoot, input));
    var n := WalkWithoutCurDir(t, from, input.components, MAX_LINKS);
  }

  predicate IsLink(t: Tree, p: Path) {
    p in t && t[p].Link?
  }

  /** The paths a lookup sees in the directories just created. */
  lemma CreatedParent(before: Tree, now: Tree, root: Path, dir: Path)
    requires IsFileSystem(before) && IsReal(before, root) && IsPlain(dir) && CreatedTo(before, now, root, dir)
    ensures Canonical(now, dir) == At(dir, MAX_LINKS)
    ensures Extended(before, dir) == Ok(dir)
  {
    if dir == root {
      CanonicalOfReal(before, root);
    } else {
      WithDirsKeepsWellFormed(before, dir);
      CanonicalOfReal(now, dir);
      ExtendedOfClear(before, dir);
    }
  }

  lemma {:induction false} ExtendedOfClear(t: Tree, p: Path)
    requires IsFileSystem(t) && NoneInTheWay(t, p) && IsPlain(p)
    ensures Extended(t, p) == Ok(p)
    ensures Lookup(t, p) == None ==> Canonical(t, p) == Missing
  {
    if Lookup(t, p).Some? {
      assert p != [] ==> AtOrAbove(p, p);
      CanonicalOfReal(t, p);
    } else {
      var above := Parent(p);
      assert forall name <- above :: name in p;
      NotInTheWay(t, above, p);
      ExtendedOfClear(t, above);
      assert above != [] ==> AtOrAbove(above, above);
      MissingBelow(t, p);
      assert above + [Last(p)] == p && Last(p) in p;
    }
  }

  /** A path whose parent is missing, or a directory without it, is missing. */
  lemma MissingBelow(t: Tree, p: Path)
    requires IsFileSystem(t) && Lookup(t, p) == None && IsPlain(p)
    requires Lookup(t, Parent(p)) == Some(Dir) || Canonical(t, Parent(p)) == Missing
    ensures Canonical(t, p) == Missing
  {
    var above := Parent(p);
    CanonicalStep(t, p);
    assert above + [Last(p)] == p && Last(p) in p;
    if Lookup(t, above) == Some(Dir) {
      CanonicalOfReal(t, above);
      assert Walk(t, above, [Last(p)], MAX_LINKS) == Missing;
    }
  }

  /** A read resolves exactly when `MayResolveRead` holds before, and then to where the lookup of the
      input ends; it changes nothing. A write resolves exactly when `MayResolve` holds before, and then
      to the path of the input below the root, whose parent exists now; a refused one changes nothing. */
  method ResolveFile(fs: FileSystem, root: Path, input: InputPath, access: PathAccess, createParentDirs: bool)
    returns (r: Result<Path, SandboxError>, ghost above: Path)
    requires IsFileSystem(fs.tree)
    modifies fs
    ensures IsFileSystem(fs.tree) && OnlyDirsAdded(old(fs.tree), fs.tree)
    ensures !createParentDirs ==> fs.tree == old(fs.tree)
    ensures r.Ok? ==> Canonical(old(fs.tree), root).At? && ".." !in input.components
    ensures access.Write? ==> (r.Ok? <==> MayResolve(old(fs.tree), root, input, createParentDirs))
    ensures access.Write? ==> fs.tree == if r.Ok? then WrittenTo(old(fs.tree), r.value, createParentDirs) else old(fs.tree)
    ensures r.Ok? && access.Write? ==>
      var canonRoot := Canonical(old(fs.tree), root).path;
      && r.value == (if input.absolute then [] else canonRoot) + WithoutCurDir(input.components) && canonRoot <= r.value
      && IsSafeWrite(old(fs.tree), fs.tree, canonRoot, r.value, above)
      && (createParentDirs ==> above == Parent(r.value))
    ensures access.Read? ==> (r.Ok? <==> MayResolveRead(old(fs.tree), root, input, createParentDirs))
    ensures r.Ok? && access.Read? ==> fs.tree == old(fs.tree) && IsReadOf(fs.tree, root, input, r.value)
  {
    above := [];
    var canonRoot := Canonical(fs.tree, root);
    if !canonRoot.At? {
      return Err(RootNotFound), above;
    }
    CanonicalIsReal(fs.tree, root);
    if ".." in input.components {
      return Err(ParentTraversal), above;
    }
    var stripped := StripCurDirComponents(input.components);
    var candidate := if input.absolute then stripped else canonRoot.path + stripped;
    CandidateIsPlain(fs.tree, canonRoot.path, input);
    if !(canonRoot.path <= candidate) {
      return Err(EscapesRoot), above;
    }
    if candidate == [] {
      return Err(NoParent), above;
    }
    ghost var before := fs.tree;
    r, above := ResolveCandidate(fs, canonRoot.path, candidate, access, createParentDirs);
    if r.Ok? && access.Read? {
      CandidateIsInput(before, canonRoot.path, input);
    }
  }

  /** The tree after a write to `p` has resolved. */
  ghost function WrittenTo(t: Tree, p: Path, createParentDirs: bool): Tree {
    if createParentDirs && p != [] then WithDirs(t, Parent(p)) else t
  }

  /** Creates the parent when asked to; it then leads to itself, before and after. */
  method PrepareParent(fs: FileSystem, root: Path, parent: Path, createParentDirs: bool) returns (r: Result<(), SandboxError>)
    requires IsFileSystem(fs.tree) && IsReal(fs.tree, root) && IsPlain(parent)
    modifies fs
    ensures IsFileSystem(fs.tree) && OnlyDirsAdded(old(fs.tree), fs.tree)
    ensures fs.tree == if createParentDirs && r.Ok? then WithDirs(old(fs.tree), parent) else old(fs.tree)
    ensures r.Ok? <==> (createParentDirs ==> root <= parent && (parent == root || NoneInTheWay(old(fs.tree), parent)))
    ensures r.Ok? && createParentDirs ==>
      Canonical(fs.tree, parent) == At(parent, MAX_LINKS) && Extended(old(fs.tree), parent) == Ok(parent)
  {
    if !createParentDirs {
      return Ok(());
    }
    ghost var before := fs.tree;
    r := EnsureDirTreeNoSymlink(fs, root, parent);
    if r.Ok? {
      RealHasDirs(before, root);
      CreatedParent(before, fs.tree, root, parent);
    }
  }

  method ResolveCandidate(fs: FileSystem, root: Path, candidate: Path, access: PathAccess, createParentDirs: bool)
    returns (r: Result<Path, SandboxError>, ghost above: Path)
    requires IsFileSystem(fs.tree) && IsReal(fs.tree, root) && IsPlain(candidate) && candidate != [] && root <= candidate
    modifies fs
    ensures IsFileSystem(fs.tree) && OnlyDirsAdded(old(fs.tree), fs.tree)
    ensures !createParentDirs ==> fs.tree == old(fs.tree)
    ensures access.Write? ==> (r.Ok? <==> MayWrite(old(fs.tree), root, candidate, createParentDirs))
    ensures access.Write? ==> fs.tree == if r.Ok? then WrittenTo(old(fs.tree), candidate, createParentDirs) else old(fs.tree)
    ensures r.Ok? && access.Write? ==>
      && r.value == candidate && IsSafeWrite(old(fs.tree), fs.tree, root, candidate, above)
      && (createParentDirs ==> above == Parent(candidate))
    ensures access.Read? ==> (r.Ok? <==> MayRead(old(fs.tree), root, candidate, createParentDirs))
    ensures r.Ok? && access.Read? ==>
      fs.tree == old(fs.tree) && r.value == Canonical(fs.tree, candidate).path && root <= r.value && IsReal(fs.tree, r.value)
  {
    above := [];
    var parent := Parent(candidate);
    assert IsPlain(parent) by {
      assert forall name <- parent :: name in candidate;
    }
    ghost var before := fs.tree;
    var prepared := PrepareParent(fs, root, parent, createParentDirs);
    if prepared.Err? {
      return Err(prepared.error), above;
    }
    var canonParent := Canonical(fs.tree, parent);
    if !canonParent.At? {
      assert !createParentDirs;
      return Err(PathNotFound), above;
    }
    above := canonParent.path;
    if !(root <= canonParent.path) {
      return Err(EscapesRoot), above;
    }
    WriteFacts(before, fs.tree, root, candidate, createParentDirs);
    ReadFacts(before, fs.tree, root, candidate, createParentDirs);
    r := CheckAccess(fs.tree, root, candidate, access, canonParent.path);
  }

  /** What the checks on the file system as it is now say about the one before. */
  lemma WriteFacts(before: Tree, now: Tree, root: Path, candidate: Path, createParentDirs: bool)
    requires candidate != [] && IsFileSystem(before) && now == WrittenTo(before, candidate, createParentDirs)
    requires OnlyDirsAdded(before, now)
    requires Canonical(now, Parent(candidate)).At? && root <= Canonical(now, Parent(candidate)).path
    requires createParentDirs ==>
      && Canonical(now, Parent(candidate)) == At(Parent(candidate), MAX_LINKS)
      && Extended(before, Parent(candidate)) == Ok(Parent(candidate))
      && (Parent(candidate) == root || NoneInTheWay(before, Parent(candidate)))
    ensures var above := Canonical(now, Parent(candidate)).path;
      && (MayWrite(before, root, candidate, createParentDirs) <==> !IsLink(now, above + [Last(candidate)]))
      && (!IsLink(now, above + [Last(candidate)]) ==> IsSafeWrite(before, now, root, candidate, above))
      && (createParentDirs ==> above == Parent(candidate))
      && (IsLink(now, above + [Last(candidate)]) ==> now == before)
  {
    assert Parent(candidate) + [Last(candidate)] == candidate;
    var above := Canonical(now, Parent(candidate));
    assert Canonical(now, Parent(candidate)) == At(above.path, above.linksLeft);
    if createParentDirs && candidate in before {
      RealHasDirs(before, Parent(candidate));
    }
  }

  /** When the parent had to be made, nothing can be read; so a read that resolves has changed nothing. */
  lemma ReadFacts(before: Tree, now: Tree, root: Path, candidate: Path, createParentDirs: bool)
    requires candidate != [] && IsFileSystem(before) && IsFileSystem(now) && now == WrittenTo(before, candidate, createParentDirs)
    requires Canonical(now, Parent(candidate)).At? && root <= Canonical(now, Parent(candidate)).path && IsPlain(candidate)
    requires createParentDirs ==>
      && Canonical(now, Parent(candidate)) == At(Parent(candidate), MAX_LINKS) && root <= Parent(candidate)
      && (Parent(candidate) == root || NoneInTheWay(before, Parent(candidate))) && IsReal(before, root)
    ensures Canonical(now, candidate).At? ==> now == before
    ensures MayRead(before, root, candidate, createParentDirs) <==>
      Canonical(now, candidate).At? && root <= Canonical(now, candidate).path
  {
    if createParentDirs {
      ParentMade(before, now, candidate);
    }
  }

  /** Making the parent changes nothing, or there was and is nothing to look up in it. */
  lemma ParentMade(before: Tree, now: Tree, candidate: Path)
    requires candidate != [] && IsFileSystem(before) && IsPlain(candidate) && now == WithDirs(before, Parent(candidate))
    requires IsReal(before, Parent(candidate)) || NoneInTheWay(before, Parent(candidate))
    requires Canonical(now, Parent(candidate)) == At(Parent(candidate), MAX_LINKS)
    ensures now == before || (!Canonical(now, candidate).At? && !Canonical(before, candidate).At?)
  {
    var parent := Parent(candidate);
    if Lookup(before, parent).Some? {
      assert parent != [] ==> AtOrAbove(parent, parent);
      RealHasDirs(before, parent);
    } else {
      MissingBelowMade(before, now, candidate);
    }
  }

  lemma MissingBelowMade(before: Tree, now: Tree, candidate: Path)
    requires candidate != [] && IsFileSystem(before) && IsPlain(candidate) && now == WithDirs(before, Parent(candidate))
    requires Lookup(before, Parent(candidate)).None? && NoneInTheWay(before, Parent(candidate))
    requires Canonical(now, Parent(candidate)) == At(Parent(candidate), MAX_LINKS)
    ensures !Canonical(now, candidate).At? && !Canonical(before, candidate).At?
  {
    var parent := Parent(candidate);
    assert candidate !in before && !AtOrAbove(candidate, parent);
    assert parent + [Last(candidate)] == candidate;
    CanonicalStep(now, candidate);
    CanonicalStep(before, candidate);
    assert forall name <- parent :: name in candidate;
    ExtendedOfClear(before, parent);
    assert Last(candidate) in candidate;
  }

  /** The last check: a file read must lie below the root, a file written must be no link. */
  method CheckAccess(t: Tree, root: Path, candidate: Path, access: PathAccess, above: Path) returns (r: Result<Path, SandboxError>)
    requires WellFormed(t) && candidate != []
    ensures access.Write? ==> r == if IsLink(t, above + [Last(candidate)]) then Err(WriteThroughSymlink) else Ok(candidate)
    ensures access.Read? ==> (r.Ok? <==> Canonical(t, candidate).At? && root <= Canonical(t, candidate).path)
    ensures access.Read? && r.Ok? ==> r.value == Canonical(t, candidate).path && IsReal(t, r.value)
  {
    match access {
      case Read =>
        var canon := Canonical(t, candidate);
        if !canon.At? {
          return Err(PathNotFound);
        }
        CanonicalIsReal(t, candidate);
        if !(root <= canon.path) {
          return Err(EscapesRoot);
        }
        return Ok(canon.path);
      case Write =>
        if IsLink(t, above + [Last(candidate)]) {
          return Err(WriteThroughSymlink);
        }
        return Ok(candidate);
    }
  }

  // ----- Several writable roots -----

  /** The canonical roots, the thread's first; each of the others must be a directory. */
  function CanonicalRoots(t: Tree, root: Path, writableRoots: seq<Path>): Option<seq<Path>> {
    if writableRoots == [] then
      match Canonical(t, root)
      case At(p, _) => Some([p])
      case _ => None
    else
      var front :- CanonicalRoots(t, root, writableRoots[..|writableRoots| - 1]);
      match Canonical(t, writableRoots[|writableRoots| - 1])
      case At(p, _) => if Lookup(t, p) == Some(Dir) then Some(front + [p]) else None
      case _ => None
  }

  method CanonicalizeRoots(t: Tree, root: Path, writableRoots: seq<Path>) returns (r: Result<seq<Path>, SandboxError>)
    ensures r.Ok? <==> CanonicalRoots(t, root, writableRoots).Some?
    ensures r.Ok? ==> r.value == CanonicalRoots(t, root, writableRoots).value
    ensures r.Ok? ==> AreCanonicalRoots(t, root, writableRoots, r.value)
  {
    var canonRoot := Canonical(t, root);
    if !canonRoot.At? {
      NoRoots(t, root, writableRoots, 0);
      return Err(RootNotFound);
    }
    var allowed := [canonRoot.path];
    assert writableRoots[..0] == [];
    for i := 0 to |writableRoots|
      invariant CanonicalRoots(t, root, writableRoots[..i]) == Some(allowed)
    {
      assert writableRoots[..i + 1][..i] == writableRoots[..i];
      var canon := Canonical(t, writableRoots[i]);
      if !canon.At? {
        NoRoots(t, root, writableRoots, i + 1);
        return Err(RootNotFound);
      }
      if Lookup(t, canon.path) != Some(Dir) {
        NoRoots(t, root, writableRoots, i + 1);
        return Err(RootNotADirectory);
      }
      allowed := allowed + [canon.path];
    }
    assert writableRoots[..|writableRoots|] == writableRoots;
    RootsExactly(t, root, writableRoots);
    return Ok(allowed);
  }

  /** The thread's root first, then each other root in canonical form, which is a directory. */
  ghost predicate AreCanonicalRoots(t: Tree, root: Path, writableRoots: seq<Path>, roots: seq<Path>) {
    && |roots| == |writableRoots| + 1 && EndsAt(Canonical(t, root), roots[0])
    && forall i :: 0 <= i < |writableRoots| ==>
         EndsAt(Canonical(t, writableRoots[i]), roots[i + 1]) && Lookup(t, roots[i + 1]) == Some(Dir)
  }

  lemma {:induction false} RootsExactly(t: Tree, root: Path, writableRoots: seq<Path>)
    requires CanonicalRoots(t, root, writableRoots).Some?
    ensures AreCanonicalRoots(t, root, writableRoots, CanonicalRoots(t, root, writableRoots).value)
  {
    if writableRoots != [] {
      RootsExactly(t, root, writableRoots[..|writableRoots| - 1]);
    }
  }

  lemma {:induction false} NoRoots(t: Tree, root: Path, writableRoots: seq<Path>, n: nat)
    requires n <= |writableRoots| && CanonicalRoots(t, root, writableRoots[..n]).None?
    ensures CanonicalRoots(t, root, writableRoots).None?
  {
    if n < |writableRoots| {
      assert writableRoots[..|writableRoots| - 1][..n] == writableRoots[..n];
      NoRoots(t, root, writableRoots[..|writableRoots| - 1], n);
    } else {
      assert writableRoots[..n] == writableRoots;
    }
  }

  lemma {:induction false} RootsAreReal(t: Tree, root: Path, writableRoots: seq<Path>)
    requires WellFormed(t) && CanonicalRoots(t, root, writableRoots).Some?
    ensures forall r <- CanonicalRoots(t, root, writableRoots).value :: IsReal(t, r)
  {
    if writableRoots == [] {
      CanonicalIsReal(t, root);
    } else {
      RootsAreReal(t, root, writableRoots[..|writableRoots| - 1]);
    }
  }

  /** The thread's root is always among them. */
  lemma {:induction false} FirstRoot(t: Tree, root: Path, writableRoots: seq<Path>)
    requires CanonicalRoots(t, root, writableRoots).Some?
    ensures Canonical(t, root).At? && Canonical(t, root).path in CanonicalRoots(t, root, writableRoots).value
  {
    if writableRoots != [] {
      FirstRoot(t, root, writableRoots[..|writableRoots| - 1]);
    }
  }

  lemma PrefixesNest(a: Path, b: Path, p: Path)
    requires AtOrAbove(a, p) && AtOrAbove(b, p)
    ensures if |a| <= |b| then AtOrAbove(a, b) else AtOrAbove(b, a)
    ensures |a| == |b| ==> a == b
  {
    assert a == p[..|a|] && b == p[..|b|];
  }

  /** The longest root above the candidate. */
  ghost predicate IsSelected(roots: seq<Path>, candidate: Path, selected: Path) {
    && selected in roots && AtOrAbove(selected, candidate)
    && forall root <- roots :: AtOrAbove(root, candidate) ==> AtOrAbove(root, selected)
  }

  method SelectRoot(roots: seq<Path>, candidate: Path) returns (r: Option<Path>)
    ensures r.Some? <==> exists root <- roots :: AtOrAbove(root, candidate)
    ensures r.Some? ==> IsSelected(roots, candidate, r.value)
  {
    r := None;
    for i := 0 to |roots|
      invariant r.Some? <==> exists root <- roots[..i] :: AtOrAbove(root, candidate)
      invariant r.Some? ==> r.value in roots[..i] && AtOrAbove(r.value, candidate)
      invariant r.Some? ==> forall root <- roots[..i] :: AtOrAbove(root, candidate) ==> |root| <= |r.value|
    {
      assert roots[..i + 1] == roots[..i] + [roots[i]];
      if AtOrAbove(roots[i], candidate) && (r.None? || |r.value| <= |roots[i]|) {
        r := Some(roots[i]);
      }
    }
    assert roots[..|roots|] == roots;
    forall root | root in roots && r.Some? && AtOrAbove(root, candidate) ensures AtOrAbove(root, r.value) {
      PrefixesNest(root, r.value, candidate);
    }
  }

  /** `canonicalize_nonexistent_file_path`: the canonical parent and the name as given. */
  function ExtendedFile(t: Tree, path: Path): Result<Path, SandboxError> {
    if path == [] then Err(NoParent)
    else if Last(path) == ".." then Err(NotAFileName)
    else
      var above := Extended(t, Parent(path));
      if above.Err? then Err(PathNotFound) else Ok(above.value + [Last(path)])
  }

  method CanonicalizeNonexistentFilePath(t: Tree, path: Path) returns (r: Result<Path, SandboxError>)
    ensures r == ExtendedFile(t, path)
  {
    if path == [] {
      return Err(NoParent);
    }
    if Last(path) == ".." {
      return Err(NotAFileName);
    }
    var above := CanonicalizeNonexistentPath(t, Parent(path));
    return if above.Err? then Err(PathNotFound) else Ok(above.value + [Last(path)]);
  }

  lemma ExtendedIsPlain(t: Tree, p: Path)
    requires IsFileSystem(t) && IsPlain(p) && Extended(t, p).Ok?
    ensures IsPlain(Extended(t, p).value)
  {
    ExtendedIsLongest(t, p);
    var n: nat :| IsLongestExisting(t, p, n);
    CanonicalIsReal(t, p[..n]);
    var canon := Canonical(t, p[..n]).path;
    assert canon == [] || canon in t;
    assert forall name <- p[n..] :: name in p;
  }

  /** An extended path that exists is canonical: what did not exist before is not reached by links. */
  lemma {:induction false} ExtendedThatExists(t: Tree, p: Path)
    requires IsFileSystem(t) && Extended(t, p).Ok?
    ensures var e := Extended(t, p).value;
      if Canonical(t, p) == Missing then Canonical(t, e) == Missing else Canonical(t, e) == At(e, MAX_LINKS)
  {
    if Canonical(t, p).At? {
      CanonicalIsReal(t, p);
      CanonicalOfReal(t, Canonical(t, p).path);
    } else {
      var above, name := Parent(p), [Last(p)];
      var e := Extended(t, above).value;
      ExtendedThatExists(t, above);
      CanonicalStep(t, p);
      WalkInTwo(t, [], e, name, MAX_LINKS);
      if Canonical(t, above).At? {
        WalkWithMore(t, e, name, Canonical(t, above).linksLeft, MAX_LINKS);
      }
    }
  }

  lemma {:induction false} PlainIsKept(p: Path)
    requires "." !in p
    ensures WithoutCurDir(p) == p
  {
    if p != [] {
      assert p == p[..|p| - 1] + [Last(p)];
      PlainIsKept(p[..|p| - 1]);
    }
  }

  // ----- Previewing -----

  /** Where a write below the thread's root would go. */
  function PreviewFile(t: Tree, root: Path, input: InputPath): Option<Path> {
    match Canonical(t, root)
    case At(canonRoot, _) =>
      if ".." in input.components then None
      else
        var preview := ExtendedFile(t, Candidate(canonRoot, input));
        if preview.Ok? && canonRoot <= preview.value then Some(preview.value) else None
    case _ => None
  }

  /** Where a write to an absolute path would go. */
  function PreviewWithRoots(t: Tree, root: Path, writableRoots: seq<Path>, components: seq<string>): Option<Path> {
    var roots :- CanonicalRoots(t, root, writableRoots);
    if ".." in components then None
    else
      var candidate := ExtendedFile(t, WithoutCurDir(components));
      if candidate.Ok? && exists r <- roots :: AtOrAbove(r, candidate.value) then Some(candidate.value) else None
  }

  function Preview(t: Tree, root: Path, writableRoots: seq<Path>, input: InputPath): Option<Path> {
    if writableRoots != [] && input.absolute then PreviewWithRoots(t, root, writableRoots, input.components)
    else PreviewFile(t, root, input)
  }

  method PreviewFileForSandboxWrite(t: Tree, root: Path, writableRoots: seq<Path>, input: InputPath)
    returns (r: Result<Path, SandboxError>)
    ensures Preview(t, root, writableRoots, input) == if r.Ok? then Some(r.value) else None
    ensures r.Ok? ==> ".." !in input.components && r.value != []
    ensures r.Ok? ==> exists allowed :: AtOrAbove(allowed, r.value) && IsAllowedRoot(t, root, writableRoots, input, allowed)
  {
    if writableRoots != [] && input.absolute {
      r := PreviewFileWithWritableRoots(t, root, writableRoots, input.components);
    } else {
      r := PreviewBelowRoot(t, root, input);
    }
    if r.Ok? {
      PreviewIsInside(t, root, writableRoots, input);
    }
  }

  /** The thread's root, or for an absolute path also one of the writable roots. */
  ghost predicate IsAllowedRoot(t: Tree, root: Path, writableRoots: seq<Path>, input: InputPath, allowed: Path) {
    || EndsAt(Canonical(t, root), allowed)
    || (input.absolute && exists other <- writableRoots :: EndsAt(Canonical(t, other), allowed))
  }

  lemma PreviewIsInside(t: Tree, root: Path, writableRoots: seq<Path>, input: InputPath)
    requires Preview(t, root, writableRoots, input).Some?
    ensures exists allowed ::
      AtOrAbove(allowed, Preview(t, root, writableRoots, input).value) && IsAllowedRoot(t, root, writableRoots, input, allowed)
  {
    var preview := Preview(t, root, writableRoots, input).value;
    if writableRoots != [] && input.absolute {
      RootsExactly(t, root, writableRoots);
      var roots := CanonicalRoots(t, root, writableRoots).value;
      var i: nat :| i < |roots| && AtOrAbove(roots[i], preview);
      if i > 0 {
        assert writableRoots[i - 1] in writableRoots;
      }
      assert IsAllowedRoot(t, root, writableRoots, input, roots[i]);
    } else {
      assert IsAllowedRoot(t, root, writableRoots, input, Canonical(t, root).path);
    }
  }

  method PreviewBelowRoot(t: Tree, root: Path, input: InputPath) returns (r: Result<Path, SandboxError>)
    ensures PreviewFile(t, root, input) == if r.Ok? then Some(r.value) else None
  {
    var canonRoot := Canonical(t, root);
    if !canonRoot.At? {
      return Err(RootNotFound);
    }
    if ".." in input.components {
      return Err(ParentTraversal);
    }
    var stripped := StripCurDirComponents(input.components);
    r := CanonicalizeNonexistentFilePath(t, if input.absolute then stripped else canonRoot.path + stripped);
    if r.Ok? && !(canonRoot.path <= r.value) {
      return Err(EscapesRoot);
    }
  }

  method PreviewFileWithWritableRoots(t: Tree, root: Path, writableRoots: seq<Path>, components: seq<string>)
    returns (r: Result<Path, SandboxError>)
    ensures PreviewWithRoots(t, root, writableRoots, components) == if r.Ok? then Some(r.value) else None
  {
    var roots := CanonicalizeRoots(t, root, writableRoots);
    if roots.Err? {
      return Err(roots.error);
    }
    if ".." in components {
      return Err(ParentTraversal);
    }
    var stripped := StripCurDirComponents(components);
    r := CanonicalizeNonexistentFilePath(t, stripped);
    if r.Ok? {
      var selected := SelectRoot(roots.value, r.value);
      if selected.None? {
        return Err(EscapesRoot);
      }
    }
  }

  // ----- Resolving and previewing agree -----

  /** The preview made before names the file written: canonical parent and file name. */
  ghost predicate PreviewAgrees(preview: Option<Path>, now: Tree, resolved: Path) {
    && resolved != [] && Canonical(now, Parent(resolved)).At?
    && preview == Some(Canonical(now, Parent(resolved)).path + [Last(resolved)])
  }

  /** The file written lies, links followed, below one of the roots, and is itself no link. */
  ghost predicate StaysInside(roots: seq<Path>, now: Tree, resolved: Path) {
    && resolved != [] && Canonical(now, Parent(resolved)).At?
    && var above := Canonical(now, Parent(resolved)).path;
       (exists root <- roots :: AtOrAbove(root, above)) && !IsLink(now, above + [Last(resolved)])
  }

  /** The canonical roots a write may go to. */
  function AllowedRoots(t: Tree, root: Path, writableRoots: seq<Path>, input: InputPath): Option<seq<Path>> {
    CanonicalRoots(t, root, if input.absolute then writableRoots else [])
  }

  lemma SingleRootAgrees(before: Tree, now: Tree, root: Path, input: InputPath, resolved: Path, above: Path)
    requires IsFileSystem(before) && IsFileSystem(now) && OnlyDirsAdded(before, now)
    requires Canonical(before, root).At? && ".." !in input.components && Canonical(before, root).path <= resolved
    requires resolved == Candidate(Canonical(before, root).path, input)
    requires IsSafeWrite(before, now, Canonical(before, root).path, resolved, above)
    ensures PreviewAgrees(PreviewFile(before, root, input), now, resolved)
    ensures StaysInside([Canonical(before, root).path], now, resolved)
    ensures IsFileOf(now, Canonical(before, root).path, input, resolved)
  {
    var canonRoot := Canonical(before, root).path;
    CanonicalIsReal(before, root);
    WriteIsFileOf(before, now, canonRoot, input, resolved, above);
    CandidateIsPlain(before, canonRoot, input);
    assert Last(resolved) in resolved;
    assert canonRoot in [canonRoot] && AtOrAbove(canonRoot, above);
  }

  /** A write to an absolute path resolves below the longest allowed root above it. */
  ghost predicate MayResolveIn(t: Tree, root: Path, writableRoots: seq<Path>, components: seq<string>, createParentDirs: bool) {
    var roots, candidate := CanonicalRoots(t, root, writableRoots), ExtendedFile(t, WithoutCurDir(components));
    && roots.Some? && ".." !in components && candidate.Ok? && candidate.value != []
    && exists selected :: IsSelected(roots.value, candidate.value, selected) && MayWrite(t, selected, candidate.value, createParentDirs)
  }

  ghost predicate MayResolveForSandbox(t: Tree, root: Path, writableRoots: seq<Path>, input: InputPath, createParentDirs: bool) {
    if writableRoots != [] && input.absolute then MayResolveIn(t, root, writableRoots, input.components, createParentDirs)
    else MayResolve(t, root, input, createParentDirs)
  }

  // ----- The file an input names -----

  /** `p` is the last name of the input, in the directory where the lookup of what comes before it ends. */
  ghost predicate IsFileOf(t: Tree, canonRoot: Path, input: InputPath, p: Path) {
    var from := if input.absolute then [] else canonRoot;
    exists n: nat :: n < |input.components| && NamesAt(t, from, input.components, n, p)
  }

  ghost predicate NamesAt(t: Tree, from: Path, components: seq<string>, n: nat, p: Path)
    requires n < |components|
  {
    && p != [] && components[n] == Last(p) && OnlyCurDirs(components[n + 1..])
    && Canonical(t, Parent(p)).At? && LookupEndsAt(t, from, components[..n], Canonical(t, Parent(p)).path)
  }

  /** Where the last name is among the components. */
  lemma {:induction false} LastName(components: seq<string>) returns (n: nat)
    requires WithoutCurDir(components) != []
    ensures n < |components| && components[n] == Last(WithoutCurDir(components)) && OnlyCurDirs(components[n + 1..])
    ensures WithoutCurDir(components[..n]) == Parent(WithoutCurDir(components))
  {
    var front, last := components[..|components| - 1], components[|components| - 1];
    assert components == front + [last];
    if last == "." {
      n := LastName(front);
      assert front[..n] == components[..n] && components[n + 1..] == front[n + 1..] + ["."];
    } else {
      n := |front|;
      assert components[..n] == front && components[n + 1..] == [];
      assert WithoutCurDir(components) == WithoutCurDir(front) + [last];
    }
  }

  /** Adding directories keeps every lookup that ended somewhere. */
  lemma {:induction false} WalkAfterDirs(before: Tree, now: Tree, at: Path, todo: seq<string>, links: nat)
    requires OnlyDirsAdded(before, now) && Walk(before, at, todo, links).At?
    ensures Walk(now, at, todo, links) == Walk(before, at, todo, links)
    decreases links, |todo|
  {
    if todo != [] {
      if todo[0] == "." {
        WalkAfterDirs(before, now, at, todo[1..], links);
      } else if todo[0] == ".." {
        WalkAfterDirs(before, now, if at == [] then [] else Parent(at), todo[1..], links);
      } else {
        match Lookup(before, at + [todo[0]])
        case Some(Link(target)) =>
          WalkAfterDirs(before, now, if target.absolute then [] else at, target.components + todo[1..], links - 1);
        case Some(_) => WalkAfterDirs(before, now, at + [todo[0]], todo[1..], links);
      }
    }
  }

  /** The path of an input below the root names the file of the input. */
  lemma PathIsFileOf(t: Tree, canonRoot: Path, input: InputPath, p: Path)
    requires IsFileSystem(t) && IsReal(t, canonRoot)
    requires p == (if input.absolute then [] else canonRoot) + WithoutCurDir(input.components)
    requires p != [] && Canonical(t, Parent(p)).At? && WithoutCurDir(input.components) != []
    ensures IsFileOf(t, canonRoot, input, p)
  {
    var from, stripped := if input.absolute then [] else canonRoot, WithoutCurDir(input.components);
    var n := LastName(input.components);
    var above := InputPath(input.absolute, input.components[..n]);
    assert Parent(p) == from + Parent(stripped) == Candidate(canonRoot, above) && Last(p) == Last(stripped);
    CandidateIsInput(t, canonRoot, above);
    assert NamesAt(t, from, input.components, n, p);
  }

  /** A single root: a safe write goes to the file the input names. */
  lemma WriteIsFileOf(before: Tree, now: Tree, canonRoot: Path, input: InputPath, resolved: Path, above: Path)
    requires IsFileSystem(now) && OnlyDirsAdded(before, now) && IsReal(before, canonRoot)
    requires resolved == (if input.absolute then [] else canonRoot) + WithoutCurDir(input.components)
    requires IsFileSystem(before) && canonRoot <= resolved && IsSafeWrite(before, now, canonRoot, resolved, above)
    ensures IsFileOf(now, canonRoot, input, resolved)
  {
    if WithoutCurDir(input.components) == [] {
      assert resolved == canonRoot;
      RealParent(before, canonRoot);
      CanonicalOfReal(before, Parent(canonRoot));
      assert false;
    }
    assert IsReal(now, canonRoot);
    PathIsFileOf(now, canonRoot, input, resolved);
  }

  lemma RealParent(t: Tree, p: Path)
    requires WellFormed(t) && IsReal(t, p) && p != []
    ensures IsReal(t, Parent(p))
  {
    assert p in t;
  }

  /** Several roots: once its directories are made, the extended path names the file of the input. */
  lemma ExtendedIsFileOf(before: Tree, now: Tree, components: seq<string>, canonRoot: Path, candidate: Path)
    requires IsFileSystem(before) && IsFileSystem(now) && OnlyDirsAdded(before, now)
    requires ExtendedFile(before, WithoutCurDir(components)) == Ok(candidate)
    requires Canonical(now, Parent(candidate)).At? && Canonical(now, Parent(candidate)).path == Parent(candidate)
    ensures IsFileOf(now, canonRoot, InputPath(true, components), candidate)
  {
    var stripped := WithoutCurDir(components);
    assert Parent(candidate) == Extended(before, Parent(stripped)).value && Last(candidate) == Last(stripped);
    ExtendedLeadsThere(before, now, Parent(stripped));
    var n := LastName(components);
    var _ := WalkWithoutCurDir(now, [], components[..n], MAX_LINKS);
    assert NamesAt(now, [], components, n, candidate);
  }

  /** Once the directories of an extended path are made, the path itself leads there. */
  lemma ExtendedLeadsThere(before: Tree, now: Tree, path: Path)
    requires IsFileSystem(before) && IsFileSystem(now) && OnlyDirsAdded(before, now) && Extended(before, path).Ok?
    requires EndsAt(Canonical(now, Extended(before, path).value), Extended(before, path).value)
    ensures EndsAt(Canonical(now, path), Extended(before, path).value)
  {
    var above := Extended(before, path).value;
    ExtendedIsLongest(before, path);
    var k: nat :| IsLongestExisting(before, path, k);
    CanonicalIsReal(now, above);
    ExistsNow(before, now, path[..k], path[k..]);
    assert path[..k] + path[k..] == path;
  }

  lemma ExistsNow(before: Tree, now: Tree, front: Path, rest: Path)
    requires IsFileSystem(now) && OnlyDirsAdded(before, now) && Canonical(before, front).At?
    requires IsReal(now, Canonical(before, front).path + rest)
    ensures EndsAt(Canonical(now, front + rest), Canonical(before, front).path + rest)
  {
    var canon := Canonical(before, front);
    WalkAfterDirs(before, now, [], front, MAX_LINKS);
    WalkToReal(now, canon.path, rest, canon.linksLeft);
    WalkInTwo(now, [], front, rest, MAX_LINKS);
  }

  method ResolveFileWithWritableRoots(fs: FileSystem, root: Path, writableRoots: seq<Path>, input: InputPath,
                                      access: PathAccess, createParentDirs: bool)
    returns (r: Result<Path, SandboxError>)
    requires IsFileSystem(fs.tree)
    modifies fs
    ensures IsFileSystem(fs.tree) && OnlyDirsAdded(old(fs.tree), fs.tree)
    ensures access.Write? ==> (r.Ok? <==> MayResolveForSandbox(old(fs.tree), root, writableRoots, input, createParentDirs))
    ensures r.Ok? && access.Write? ==> PreviewAgrees(Preview(old(fs.tree), root, writableRoots, input), fs.tree, r.value)
    ensures r.Ok? && access.Write? ==>
      var roots := AllowedRoots(old(fs.tree), root, writableRoots, input); roots.Some? && StaysInside(roots.value, fs.tree, r.value)
    ensures access.Write? ==> fs.tree == if r.Ok? then WrittenTo(old(fs.tree), r.value, createParentDirs) else old(fs.tree)
    ensures r.Ok? ==> Canonical(old(fs.tree), root).At?
    ensures r.Ok? && access.Write? ==> IsFileOf(fs.tree, Canonical(old(fs.tree), root).path, input, r.value)
    ensures access.Read? ==> (r.Ok? <==> MayResolveRead(old(fs.tree), root, input, createParentDirs))
    ensures r.Ok? && access.Read? ==> fs.tree == old(fs.tree) && IsReadOf(fs.tree, root, input, r.value)
  {
    ghost var above;
    if access.Read? || writableRoots == [] || !input.absolute {
      r, above := ResolveFile(fs, root, input, access, createParentDirs);
      if r.Ok? && access.Write? {
        SingleRootAgrees(old(fs.tree), fs.tree, root, input, r.value, above);
      }
      return;
    }
    r := ResolveInRoots(fs, root, writableRoots, input.components, createParentDirs);
  }

  method ResolveInRoots(fs: FileSystem, root: Path, writableRoots: seq<Path>, components: seq<string>, createParentDirs: bool)
    returns (r: Result<Path, SandboxError>)
    requires IsFileSystem(fs.tree)
    modifies fs
    ensures IsFileSystem(fs.tree) && OnlyDirsAdded(old(fs.tree), fs.tree)
    ensures r.Ok? <==> MayResolveIn(old(fs.tree), root, writableRoots, components, createParentDirs)
    ensures r.Ok? ==> PreviewAgrees(PreviewWithRoots(old(fs.tree), root, writableRoots, components), fs.tree, r.value)
    ensures r.Ok? ==>
      var roots := CanonicalRoots(old(fs.tree), root, writableRoots); roots.Some? && StaysInside(roots.value, fs.tree, r.value)
    ensures r.Ok? ==> Canonical(old(fs.tree), root).At?
    ensures r.Ok? ==> IsFileOf(fs.tree, Canonical(old(fs.tree), root).path, InputPath(true, components), r.value)
    ensures fs.tree == if r.Ok? then WrittenTo(old(fs.tree), r.value, createParentDirs) else old(fs.tree)
  {
    var roots := CanonicalizeRoots(fs.tree, root, writableRoots);
    if roots.Err? {
      return Err(roots.error);
    }
    if ".." in components {
      return Err(ParentTraversal);
    }
    var stripped := StripCurDirComponents(components);
    var found := CanonicalizeNonexistentFilePath(fs.tree, stripped);
    if found.Err? {
      return found;
    }
    var candidate := found.value;
    var selected := SelectRoot(roots.value, candidate);
    if selected.None? {
      return Err(EscapesRoot);
    }
    RootsAreReal(fs.tree, root, writableRoots);
    CandidateFacts(fs.tree, stripped, candidate);
    SelectedDecides(fs.tree, roots.value, candidate, selected.value, createParentDirs);
    ghost var above;
    r, above := WriteBelow(fs, selected.value, candidate, createParentDirs);
    if r.Ok? {
      StaysBelow(roots.value, selected.value, old(fs.tree), fs.tree, candidate, above);
      FirstRoot(old(fs.tree), root, writableRoots);
      ExtendedIsFileOf(old(fs.tree), fs.tree, components, Canonical(old(fs.tree), root).path, candidate);
    }
  }

  /** Resolving a candidate in canonical form below a canonical root. */
  method WriteBelow(fs: FileSystem, root: Path, candidate: Path, createParentDirs: bool)
    returns (r: Result<Path, SandboxError>, ghost above: Path)
    requires IsFileSystem(fs.tree) && IsReal(fs.tree, root) && root <= candidate && candidate != []
    requires IsPlain(candidate) && WithoutCurDir(candidate) == candidate
    requires Canonical(fs.tree, Parent(candidate)).At? ==> Canonical(fs.tree, Parent(candidate)).path == Parent(candidate)
    modifies fs
    ensures IsFileSystem(fs.tree) && OnlyDirsAdded(old(fs.tree), fs.tree)
    ensures r.Ok? <==> MayWrite(old(fs.tree), root, candidate, createParentDirs)
    ensures fs.tree == if r.Ok? then WrittenTo(old(fs.tree), r.value, createParentDirs) else old(fs.tree)
    ensures r.Ok? ==> r.value == candidate && IsSafeWrite(old(fs.tree), fs.tree, root, candidate, above) && above == Parent(candidate)
  {
    CanonicalOfReal(fs.tree, root);
    r, above := ResolveFile(fs, root, InputPath(true, candidate), Write, createParentDirs);
  }

  lemma SelectedDecides(t: Tree, roots: seq<Path>, candidate: Path, selected: Path, createParentDirs: bool)
    requires IsSelected(roots, candidate, selected) && candidate != []
    ensures (exists other :: IsSelected(roots, candidate, other) && MayWrite(t, other, candidate, createParentDirs))
            <==> MayWrite(t, selected, candidate, createParentDirs)
  {
    forall other | IsSelected(roots, candidate, other) ensures other == selected {
      assert AtOrAbove(other, selected) && AtOrAbove(selected, other);
    }
  }

  lemma StaysBelow(roots: seq<Path>, root: Path, before: Tree, now: Tree, resolved: Path, above: Path)
    requires root in roots && IsSafeWrite(before, now, root, resolved, above) && above == Parent(resolved)
    ensures StaysInside(roots, now, resolved)
    ensures Canonical(now, Parent(resolved)).path + [Last(resolved)] == resolved
  {
    assert root in roots && AtOrAbove(root, above);
  }

  /** A candidate in canonical form is left as it is, and its parent is canonical if it exists. */
  lemma CandidateFacts(t: Tree, path: Path, candidate: Path)
    requires IsFileSystem(t) && IsPlain(path) && ExtendedFile(t, path) == Ok(candidate)
    ensures candidate != [] && IsPlain(candidate) && WithoutCurDir(candidate) == candidate
    ensures Canonical(t, Parent(candidate)).At? ==> Canonical(t, Parent(candidate)).path == Parent(candidate)
  {
    var above := Parent(path);
    assert forall name <- above :: name in path;
    ExtendedIsPlain(t, above);
    ExtendedThatExists(t, above);
    assert Last(path) in path;
    assert Parent(candidate) == Extended(t, above).value;
    PlainIsKept(candidate);
  }

  /** Outside full access: whenever a write resolves, the preview on the file system as it was succeeds
      and names the same file, which lies inside the allowed roots and is no link. A read resolves to
      where the lookup of the input ends, which is below the thread's root. */
  method ResolveFileForSandbox(fs: FileSystem, root: Path, writableRoots: seq<Path>, input: InputPath,
                               access: PathAccess, createParentDirs: bool)
    returns (r: Result<Path, SandboxError>)
    requires IsFileSystem(fs.tree)
    modifies fs
    ensures IsFileSystem(fs.tree) && OnlyDirsAdded(old(fs.tree), fs.tree)
    ensures access.Write? ==> (r.Ok? <==> MayResolveForSandbox(old(fs.tree), root, writableRoots, input, createParentDirs))
    ensures r.Ok? && access.Write? ==> PreviewAgrees(Preview(old(fs.tree), root, writableRoots, input), fs.tree, r.value)
    ensures r.Ok? && access.Write? ==>
      var roots := AllowedRoots(old(fs.tree), root, writableRoots, input); roots.Some? && StaysInside(roots.value, fs.tree, r.value)
    ensures access.Write? ==> fs.tree == if r.Ok? then WrittenTo(old(fs.tree), r.value, createParentDirs) else old(fs.tree)
    ensures r.Ok? ==> Canonical(old(fs.tree), root).At?
    ensures r.Ok? && access.Write? ==> IsFileOf(fs.tree, Canonical(old(fs.tree), root).path, input, r.value)
    ensures access.Read? ==> (r.Ok? <==> MayResolveRead(old(fs.tree), root, input, createParentDirs))
    ensures r.Ok? && access.Read? ==> fs.tree == old(fs.tree) && IsReadOf(fs.tree, root, input, r.value)
  {
    if access.Write? && writableRoots != [] {
      r := ResolveFileWithWritableRoots(fs, root, writableRoots, input, access, createParentDirs);
    } else {
      ghost var above;
      r, above := ResolveFile(fs, root, input, access, createParentDirs);
      if r.Ok? && access.Write? {
        SingleRootAgrees(old(fs.tree), fs.tree, root, input, r.value, above);
      }
    }
  }
}
