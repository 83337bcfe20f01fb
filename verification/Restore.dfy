/**
 Restoring a workspace from a snapshot (crates/checkpoint-runtime/src/lib.rs): when it succeeds, what
 it leaves at every step and at its end, and that this is what the plan announced.
 */
module Restore {
  import opened Basics
  import opened FileTree
  import opened FileOps
  import opened CheckpointPaths
  import opened Checkpoint
  import opened RestorePlan

  // ----- One path -----

  datatype RestoreError = ThroughSymlink | StatFailed | NotCopied

  /** Nothing on the way to `p` is a link, and nothing above it a file. */
  ghost predicate ClearTo(t: Tree, p: Path) {
    forall q <- t.Keys :: AtOrAbove(q, p) ==> !t[q].Link? && (t[q].File? ==> q == p)
  }

  /** `p` can hold a file: directories above it, and a file or nothing at it. */
  ghost predicate CanHold(t: Tree, p: Path) {
    forall q <- t.Keys :: AtOrAbove(q, p) ==> if q == p then t[q].File? else t[q].Dir?
  }

  /** The first components of `p` exist and are clear. */
  ghost predicate Passed(t: Tree, p: Path) {
    Lookup(t, p).Some? && ClearTo(t, p)
  }

  /** The component-by-component check refuses exactly the paths that are not clear, and says whether
      a link or a file is in the way. */
  method EnsureRestorePathIsSymlinkFree(t: Tree, p: Path) returns (r: Result<(), RestoreError>)
    requires WellFormed(t)
    ensures r.Ok? <==> ClearTo(t, p)
    ensures r == Err(ThroughSymlink) <==> exists q <- t.Keys :: AtOrAbove(q, p) && t[q].Link?
    ensures r.Err? ==> r.error in {ThroughSymlink, StatFailed}
  {
    assert Passed(t, p[..0]) by {
      assert forall q <- t.Keys :: !AtOrAbove(q, []);
    }
    for i := 0 to |p|
      invariant Passed(t, p[..i])
    {
      NextComponent(t, p, i);
      match Stat(t, p[..i + 1]) {
        case Found(Link(_)) =>
          return Err(ThroughSymlink);
        case Found(_) =>
        case NotFound =>
          return Ok(());
        case BelowAFile =>
          return Err(StatFailed);
      }
    }
    assert p[..|p|] == p;
    return Ok(());
  }

  /** What looking at one more component says about the whole path. */
  lemma NextComponent(t: Tree, p: Path, i: nat)
    requires WellFormed(t) && i < |p| && Passed(t, p[..i])
    ensures match Stat(t, p[..i + 1])
            case Found(Link(_)) => !ClearTo(t, p) && p[..i + 1] in t && AtOrAbove(p[..i + 1], p) && t[p[..i + 1]].Link?
            case Found(_) => Passed(t, p[..i + 1])
            case NotFound => ClearTo(t, p)
            case BelowAFile => !ClearTo(t, p) && forall q <- t.Keys :: AtOrAbove(q, p) ==> !t[q].Link?
  {
    var above, here := p[..i], p[..i + 1];
    assert Parent(here) == above;
    assert AtOrAbove(here, p) && AtOrAbove(above, p) && above != p;
    assert forall q :: AtOrAbove(q, here) <==> q == here || AtOrAbove(q, above);
    assert Stat(t, above) == Found(Lookup(t, above).value);
    if here in t {
      assert Lookup(t, above) == Some(Dir);
    } else {
      NothingBelow(t, p, i + 1);
    }
  }

  lemma NothingBelow(t: Tree, p: Path, i: nat)
    requires WellFormed(t) && 0 < i <= |p| && p[..i] !in t
    ensures forall q <- t.Keys :: AtOrAbove(q, p) ==> AtOrAbove(q, p[..i - 1])
  {
    forall q | q in t.Keys && AtOrAbove(q, p) ensures AtOrAbove(q, p[..i - 1]) {
      if i <= |q| {
        assert p[..i] <= q && p[..i] != q;
        AncestorsAreDirs(t, p[..i], q);
      }
    }
  }

  method RemoveOne(ws: Workspace, p: Path) returns (r: Result<(), RestoreError>)
    requires WellFormed(ws.tree) && p in ws.tree && ws.tree[p].File?
    modifies ws`tree
    ensures r.Ok? && ws.tree == old(ws.tree) - {p} && WellFormed(ws.tree)
  {
    assert ClearTo(ws.tree, p) by {
      forall q | q in ws.tree.Keys && AtOrAbove(q, p) && q != p ensures ws.tree[q] == Dir {
        AncestorsAreDirs(ws.tree, q, p);
      }
    }
    r := EnsureRestorePathIsSymlinkFree(ws.tree, p);
    if r.Err? {
      assert false;
    }
    WithoutFile(ws.tree, p);
    ws.tree := ws.tree - {p};
  }

  lemma WithoutFile(t: Tree, p: Path)
    requires WellFormed(t) && p in t && t[p].File?
    ensures WellFormed(t - {p})
  {
    forall q | q in (t - {p}).Keys ensures q != [] && Lookup(t - {p}, Parent(q)) == Some(Dir) {
      assert Lookup(t, Parent(q)) == Some(Dir);
    }
  }

  /** A tree on the way to the file at `p`: some of the directories above it, then the file. */
  ghost predicate Placing(t: Tree, p: Path, data: Bytes, step: Tree)
    requires p != []
  {
    MakingDirs(t, Parent(p), step) || (CanHold(t, p) && step == Placed(t, p, data))
  }

  /** Copying one file succeeds exactly when its place can hold a file, and otherwise changes nothing.
      It makes the missing directories one by one and then writes the file. */
  method RestoreOne(ws: Workspace, p: Path, data: Bytes) returns (r: Result<(), RestoreError>, ghost steps: seq<Tree>)
    requires WellFormed(ws.tree) && p != []
    modifies ws`tree
    ensures WellFormed(ws.tree)
    ensures r.Ok? <==> CanHold(old(ws.tree), p)
    ensures r == Err(ThroughSymlink) <==> exists q <- old(ws.tree.Keys) :: AtOrAbove(q, p) && old(ws.tree)[q].Link?
    ensures r == Err(NotCopied) <==> ClearTo(old(ws.tree), p) && Lookup(old(ws.tree), p) == Some(Dir)
    ensures ws.tree == if r.Ok? then Placed(old(ws.tree), p, data) else old(ws.tree)
    ensures LeadsTo(old(ws.tree), steps, ws.tree)
    ensures forall step <- steps :: Placing(old(ws.tree), p, data, step)
  {
    r := EnsureRestorePathIsSymlinkFree(ws.tree, p);
    if r.Err? {
      NothingMade(ws.tree, Parent(p));
      return r, [ws.tree];
    }
    PlaceFacts(ws.tree, p, data);
    var made;
    made, steps := MakeDirs(ws.tree, Parent(p));
    if made.None? {
      assert false;
    }
    ws.tree := made.value;
    if Lookup(ws.tree, p) == Some(Dir) {
      return Err(NotCopied), steps;
    }
    OneStepMore(old(ws.tree), steps, ws.tree, WriteFile(p, data));
    ws.tree := ws.tree[p := File(data)];
    steps := steps + [ws.tree];
    assert Placing(old(ws.tree), p, data, ws.tree);
  }

  lemma PlaceFacts(t: Tree, p: Path, data: Bytes)
    requires WellFormed(t) && p != [] && ClearTo(t, p)
    ensures NoneInTheWay(t, Parent(p))
    ensures Lookup(WithDirs(t, Parent(p)), p) == Lookup(t, p)
    ensures Lookup(t, p) != Some(Dir) ==> CanWrite(WithDirs(t, Parent(p)), p)
    ensures Lookup(t, p) == Some(Dir) ==> WithDirs(t, Parent(p)) == t && !CanHold(t, p)
    ensures Lookup(t, p) != Some(Dir) ==> CanHold(t, p) && WellFormed(Placed(t, p, data))
  {
    var above := Parent(p);
    assert forall q :: AtOrAbove(q, p) <==> q == p || AtOrAbove(q, above);
    WithDirsKeepsWellFormed(t, above);
    if p in t {
      forall q | q != [] && AtOrAbove(q, above) ensures q in t {
        AncestorsAreDirs(t, q, p);
      }
      assert WithDirs(t, above) == t;
    }
    if Lookup(t, p) != Some(Dir) {
      WithFile(WithDirs(t, above), p, data);
    }
  }

  lemma WithFile(t: Tree, p: Path, data: Bytes)
    requires WellFormed(t) && p != [] && Lookup(t, Parent(p)) == Some(Dir) && Lookup(t, p) != Some(Dir)
    ensures WellFormed(t[p := File(data)])
  {
    var t' := t[p := File(data)];
    forall q | q in t'.Keys ensures q != [] && Lookup(t', Parent(q)) == Some(Dir) {
      assert q in t ==> Lookup(t, Parent(q)) == Some(Dir);
    }
  }

  // ----- The whole restore -----

  /** Snapshots are the files of a directory tree: no file lies below another. */
  ghost predicate IsSnapshot(snap: Snapshot) {
    forall p <- snap.Keys :: p != [] && forall q <- snap.Keys :: AtOrAbove(q, p) ==> q == p
  }

  function Extra(rootName: string, t: Tree, snap: Snapshot): set<Path> {
    VisibleFiles(rootName, t).Keys - snap.Keys
  }

  ghost predicate IsProperlyAbove(q: Path, paths: set<Path>) {
    q != [] && exists p <- paths :: AtOrAbove(q, p) && q != p
  }

  ghost function Above(paths: set<Path>): (r: set<Path>)
    ensures forall q :: q in r <==> IsProperlyAbove(q, paths)
  {
    var r := set p <- paths, i | 0 < i < |p| :: p[..i];
    forall q | IsProperlyAbove(q, paths) ensures q in r {
      var p :| p in paths && AtOrAbove(q, p) && q != p;
      assert q == p[..|q|];
    }
    forall q | q in r ensures IsProperlyAbove(q, paths) {
      var p, i :| p in paths && 0 < i < |p| && q == p[..i];
      assert AtOrAbove(q, p);
    }
    r
  }

  /** The tree `t` after some files were deleted and some were copied from the snapshot. */
  ghost function Partial(t: Tree, snap: Snapshot, deleted: set<Path>, copied: set<Path>): Tree
    requires copied <= snap.Keys
  {
    map p <- t.Keys - deleted + copied + Above(copied) ::
      if p in copied then File(snap[p]) else if p in t && p !in deleted then t[p] else Dir
  }

  /** What a complete restore leaves. */
  ghost function Restored(rootName: string, t: Tree, snap: Snapshot): Tree {
    Partial(t, snap, Extra(rootName, t, snap), snap.Keys)
  }

  /** No link on a restored path and no clash between files and directories once the files that are
      not in the snapshot are gone. */
  ghost predicate Restorable(rootName: string, t: Tree, snap: Snapshot) {
    forall p <- snap.Keys :: CanHold(t - Extra(rootName, t, snap), p)
  }

  /** `step` is a tree on the way: some files deleted, then some copied to places that can hold them,
      then some of the directories made that the next copy needs. */
  ghost predicate Underway(rootName: string, t: Tree, snap: Snapshot, step: Tree) {
    exists deleted, copied, dir :: UnderwayWith(rootName, t, snap, step, deleted, copied, dir)
  }

  ghost predicate UnderwayWith(rootName: string, t: Tree, snap: Snapshot, step: Tree,
                               deleted: set<Path>, copied: set<Path>, dir: Path) {
    && deleted <= Extra(rootName, t, snap) && copied <= snap.Keys
    && (copied != {} || dir != [] ==> deleted == Extra(rootName, t, snap))
    && (forall p <- copied :: CanHold(t - Extra(rootName, t, snap), p))
    && (dir != [] ==> LeadsToNext(snap, copied, dir))
    && step == WithDirs(Partial(t, snap, deleted, copied), dir)
  }

  /** A file still to be copied lies below `dir`. */
  ghost predicate LeadsToNext(snap: Snapshot, copied: set<Path>, dir: Path) {
    exists p :: p in snap && p !in copied && AtOrAbove(dir, p) && dir != p
  }

  lemma AboveOneMore(paths: set<Path>, p: Path, q: Path)
    ensures IsProperlyAbove(q, paths + {p}) <==> IsProperlyAbove(q, paths) || (q != [] && AtOrAbove(q, p) && q != p)
  {
  }

  lemma NothingCopied(t: Tree, snap: Snapshot, deleted: set<Path>)
    ensures Partial(t, snap, deleted, {}) == t - deleted
  {
  }

  predicate SameAt(t: Tree, t': Tree, q: Path) {
    (q in t <==> q in t') && (q in t ==> t[q] == t'[q])
  }

  lemma CopiedOneMore(t: Tree, snap: Snapshot, deleted: set<Path>, copied: set<Path>, p: Path)
    requires IsSnapshot(snap) && copied <= snap.Keys && p in snap && p !in copied
    requires CanHold(Partial(t, snap, deleted, copied), p)
    ensures Partial(t, snap, deleted, copied + {p}) == Placed(Partial(t, snap, deleted, copied), p, snap[p])
  {
    forall q {
      CopiedOneMoreAt(t, snap, deleted, copied, p, q);
    }
    SameTree(Partial(t, snap, deleted, copied + {p}), Placed(Partial(t, snap, deleted, copied), p, snap[p]));
  }

  lemma SameTree(t: Tree, t': Tree)
    requires forall q :: SameAt(t, t', q)
    ensures t == t'
  {
    assert forall q :: SameAt(t, t', q) ==> (q in t <==> q in t');
  }

  lemma CopiedOneMoreAt(t: Tree, snap: Snapshot, deleted: set<Path>, copied: set<Path>, p: Path, q: Path)
    requires IsSnapshot(snap) && copied <= snap.Keys && p in snap && p !in copied
    requires CanHold(Partial(t, snap, deleted, copied), p)
    ensures SameAt(Partial(t, snap, deleted, copied + {p}), Placed(Partial(t, snap, deleted, copied), p, snap[p]), q)
  {
    AboveOneMore(copied, p, q);
    assert AtOrAbove(q, p) <==> q == p || AtOrAbove(q, Parent(p));
  }

  /** Files copied earlier neither open nor block the way for a later one. */
  lemma CanHoldLater(t: Tree, snap: Snapshot, deleted: set<Path>, copied: set<Path>, p: Path)
    requires IsSnapshot(snap) && copied <= snap.Keys && p in snap && p !in copied
    ensures CanHold(Partial(t, snap, deleted, copied), p) <==> CanHold(t - deleted, p)
  {
    var after := Partial(t, snap, deleted, copied);
    forall q | AtOrAbove(q, p) ensures q in after ==> q in t - deleted || (after[q].Dir? && q != p)
    {
      assert !(IsProperlyAbove(q, copied) && q == p);
    }
    forall q | q in (t - deleted).Keys && AtOrAbove(q, p) ensures q in after && after[q] == t[q] {
    }
  }

  lemma DeletingIsUnderway(rootName: string, t: Tree, snap: Snapshot, deleted: set<Path>)
    requires deleted <= Extra(rootName, t, snap)
    ensures Underway(rootName, t, snap, t - deleted)
  {
    NothingCopied(t, snap, deleted);
    assert WithDirs(t - deleted, []) == t - deleted;
    assert UnderwayWith(rootName, t, snap, t - deleted, deleted, {}, []);
  }

  lemma CopyingIsUnderway(rootName: string, t: Tree, snap: Snapshot, copied: set<Path>, dir: Path)
    requires copied <= snap.Keys && forall p <- copied :: CanHold(t - Extra(rootName, t, snap), p)
    requires dir != [] ==> LeadsToNext(snap, copied, dir)
    ensures Underway(rootName, t, snap, WithDirs(Partial(t, snap, Extra(rootName, t, snap), copied), dir))
  {
    var extra := Extra(rootName, t, snap);
    assert UnderwayWith(rootName, t, snap, WithDirs(Partial(t, snap, extra, copied), dir), extra, copied, dir);
  }

  /** The trees on the way of one more copy. */
  lemma PlacingIsUnderway(rootName: string, t: Tree, snap: Snapshot, copied: set<Path>, p: Path, step: Tree)
    requires IsSnapshot(snap) && copied <= snap.Keys && p in snap && p !in copied && p != []
    requires forall c <- copied :: CanHold(t - Extra(rootName, t, snap), c)
    requires Placing(Partial(t, snap, Extra(rootName, t, snap), copied), p, snap[p], step)
    ensures Underway(rootName, t, snap, step)
  {
    var before := Partial(t, snap, Extra(rootName, t, snap), copied);
    if CanHold(before, p) && step == Placed(before, p, snap[p]) {
      PlacedIsUnderway(rootName, t, snap, copied, p);
    } else {
      MakingDirsIsUnderway(rootName, t, snap, copied, p, step);
    }
  }

  lemma PlacedIsUnderway(rootName: string, t: Tree, snap: Snapshot, copied: set<Path>, p: Path)
    requires IsSnapshot(snap) && copied <= snap.Keys && p in snap && p !in copied && p != []
    requires forall c <- copied :: CanHold(t - Extra(rootName, t, snap), c)
    requires CanHold(Partial(t, snap, Extra(rootName, t, snap), copied), p)
    ensures Underway(rootName, t, snap, Placed(Partial(t, snap, Extra(rootName, t, snap), copied), p, snap[p]))
  {
    var extra := Extra(rootName, t, snap);
    CanHoldLater(t, snap, extra, copied, p);
    CopiedOneMore(t, snap, extra, copied, p);
    var after := Partial(t, snap, extra, copied + {p});
    NoDirs(after);
    CopyingIsUnderway(rootName, t, snap, copied + {p}, []);
  }

  lemma NoDirs(t: Tree)
    ensures WithDirs(t, []) == t
  {
  }

  lemma MakingDirsIsUnderway(rootName: string, t: Tree, snap: Snapshot, copied: set<Path>, p: Path, step: Tree)
    requires copied <= snap.Keys && p in snap && p !in copied && p != []
    requires forall c <- copied :: CanHold(t - Extra(rootName, t, snap), c)
    requires MakingDirs(Partial(t, snap, Extra(rootName, t, snap), copied), Parent(p), step)
    ensures Underway(rootName, t, snap, step)
  {
    var before := Partial(t, snap, Extra(rootName, t, snap), copied);
    var dir :| AtOrAbove(dir, Parent(p)) && NoneInTheWay(before, dir) && step == WithDirs(before, dir);
    assert AtOrAbove(dir, p) && dir != p;
    CopyingIsUnderway(rootName, t, snap, copied, dir);
  }

  /** The trees a restore goes through up to the present one, each one operation after the one before. */
  ghost predicate Steps(rootName: string, t: Tree, snap: Snapshot, steps: seq<Tree>, now: Tree) {
    LeadsTo(t, steps, now) && forall step <- steps :: Underway(rootName, t, snap, step)
  }

  lemma NextSteps(rootName: string, t: Tree, snap: Snapshot, steps: seq<Tree>, now: Tree, more: seq<Tree>, next: Tree)
    requires Steps(rootName, t, snap, steps, now) && LeadsTo(now, more, next)
    requires forall step <- more :: Underway(rootName, t, snap, step)
    ensures Steps(rootName, t, snap, steps + more[1..], next)
  {
    StepsJoin(t, steps, now, more, next);
  }

  method DeleteStep(ws: Workspace, rel: Path, ghost snap: Snapshot, ghost t: Tree, ghost deleted: set<Path>, ghost steps: seq<Tree>)
    returns (ghost steps': seq<Tree>)
    requires WellFormed(ws.tree) && ws.tree == t - deleted && deleted + {rel} <= Extra(ws.rootName, t, snap) && rel !in deleted
    requires Steps(ws.rootName, t, snap, steps, ws.tree)
    modifies ws`tree
    ensures WellFormed(ws.tree) && ws.tree == t - (deleted + {rel})
    ensures Steps(ws.rootName, t, snap, steps', ws.tree)
  {
    OneStepMore(t, steps, ws.tree, RemoveFile(rel));
    var _ := RemoveOne(ws, rel);
    assert ws.tree == t - (deleted + {rel});
    DeletingIsUnderway(ws.rootName, t, snap, deleted + {rel});
    steps' := steps + [ws.tree];
  }

  method DeleteExtraFiles(ws: Workspace, snap: Snapshot) returns (ghost steps: seq<Tree>)
    requires WellFormed(ws.tree)
    modifies ws`tree
    ensures WellFormed(ws.tree) && ws.tree == old(ws.tree) - Extra(ws.rootName, old(ws.tree), snap)
    ensures Steps(ws.rootName, old(ws.tree), snap, steps, ws.tree)
  {
    ghost var t := ws.tree;
    var extra, deleted := Extra(ws.rootName, ws.tree, snap), {};
    assert t - deleted == t;
    DeletingIsUnderway(ws.rootName, t, snap, deleted);
    NoStep(t);
    steps := [t];
    while deleted != extra
      invariant deleted <= extra && ws.tree == t - deleted && WellFormed(ws.tree)
      invariant Steps(ws.rootName, t, snap, steps, ws.tree)
      decreases extra - deleted
    {
      assert extra - deleted != {};
      var rel :| rel in extra - deleted;
      steps := DeleteStep(ws, rel, snap, t, deleted, steps);
      deleted := deleted + {rel};
    }
  }

  /** The copies made so far. */
  ghost predicate Copied(rootName: string, t: Tree, snap: Snapshot, copied: set<Path>, now: Tree) {
    && copied <= snap.Keys && (forall p <- copied :: CanHold(t - Extra(rootName, t, snap), p))
    && WellFormed(now) && now == Partial(t, snap, Extra(rootName, t, snap), copied)
  }

  /** A restore that stopped: what the snapshot lacks is gone, some files are copied, and another one has
      no place. */
  ghost predicate StoppedAt(rootName: string, t: Tree, snap: Snapshot, now: Tree, copied: set<Path>, p: Path) {
    Copied(rootName, t, snap, copied, now) && p in snap && p !in copied && !CanHold(t - Extra(rootName, t, snap), p)
  }

  method CopyStep(ws: Workspace, rel: Path, snap: Snapshot, ghost t: Tree, ghost copied: set<Path>, ghost steps: seq<Tree>)
    returns (r: Result<(), RestoreError>, ghost steps': seq<Tree>)
    requires IsSnapshot(snap) && rel in snap && rel !in copied
    requires Copied(ws.rootName, t, snap, copied, ws.tree) && Steps(ws.rootName, t, snap, steps, ws.tree)
    modifies ws`tree
    ensures r.Ok? ==> Copied(ws.rootName, t, snap, copied + {rel}, ws.tree)
    ensures r.Err? ==> ws.tree == old(ws.tree) && StoppedAt(ws.rootName, t, snap, ws.tree, copied, rel)
    ensures Steps(ws.rootName, t, snap, steps', ws.tree)
  {
    ghost var extra := Extra(ws.rootName, t, snap);
    CanHoldLater(t, snap, extra, copied, rel);
    ghost var more;
    r, more := RestoreOne(ws, rel, snap[rel]);
    forall step | step in more ensures Underway(ws.rootName, t, snap, step) {
      PlacingIsUnderway(ws.rootName, t, snap, copied, rel, step);
    }
    NextSteps(ws.rootName, t, snap, steps, old(ws.tree), more, ws.tree);
    steps' := steps + more[1..];
    if r.Ok? {
      CopiedOneMore(t, snap, extra, copied, rel);
    }
  }

  method CopySnapshot(ws: Workspace, snap: Snapshot, ghost t: Tree, ghost steps: seq<Tree>)
    returns (r: Result<(), RestoreError>, ghost steps': seq<Tree>)
    requires IsSnapshot(snap)
    requires Copied(ws.rootName, t, snap, {}, ws.tree) && Steps(ws.rootName, t, snap, steps, ws.tree)
    modifies ws`tree
    ensures WellFormed(ws.tree)
    ensures r.Ok? <==> Restorable(ws.rootName, t, snap)
    ensures r.Ok? ==> ws.tree == Restored(ws.rootName, t, snap)
    ensures r.Err? ==> exists copied, p :: StoppedAt(ws.rootName, t, snap, ws.tree, copied, p)
    ensures Steps(ws.rootName, t, snap, steps', ws.tree)
  {
    var copied: set<Path> := {};
    steps' := steps;
    while copied != snap.Keys
      invariant Copied(ws.rootName, t, snap, copied, ws.tree)
      invariant Steps(ws.rootName, t, snap, steps', ws.tree)
      decreases snap.Keys - copied
    {
      assert snap.Keys - copied != {};
      var rel :| rel in snap.Keys - copied;
      r, steps' := CopyStep(ws, rel, snap, t, copied, steps');
      if r.Err? {
        assert StoppedAt(ws.rootName, t, snap, ws.tree, copied, rel);
        return;
      }
      copied := copied + {rel};
    }
    r := Ok(());
  }

  /** A restore deletes what the snapshot lacks and copies what it holds. It succeeds exactly when the
      tree is restorable. It goes from the old tree to the new one by single operations, and every tree
      on the way, those with freshly made directories included, is one `Underway` describes. */
  method RestoreWorkspaceFromSnapshot(ws: Workspace, dir: SnapshotDir) returns (r: Result<(), RestoreError>, ghost steps: seq<Tree>)
    requires WellFormed(ws.tree) && IsSnapshot(dir.files)
    modifies ws`tree
    ensures WellFormed(ws.tree)
    ensures r.Ok? <==> Restorable(ws.rootName, old(ws.tree), dir.files)
    ensures r.Ok? ==> ws.tree == Restored(ws.rootName, old(ws.tree), dir.files)
    ensures r.Err? ==> exists copied, p :: StoppedAt(ws.rootName, old(ws.tree), dir.files, ws.tree, copied, p)
    ensures Steps(ws.rootName, old(ws.tree), dir.files, steps, ws.tree)
  {
    steps := DeleteExtraFiles(ws, dir.files);
    NothingCopied(old(ws.tree), dir.files, Extra(ws.rootName, old(ws.tree), dir.files));
    r, steps := CopySnapshot(ws, dir.files, old(ws.tree), steps);
  }

  // ----- What a restore means -----

  /** The content of the visible file at `p`. */
  function FileAt(rootName: string, t: Tree, p: Path): Option<Bytes> {
    if IsVisible(rootName, p) && p in t && t[p].File? then Some(t[p].data) else None
  }

  function ContentIn(snap: Snapshot, p: Path): Option<Bytes> {
    if p in snap then Some(snap[p]) else None
  }

  /** What a tree on the way has at `p`. */
  predicate HoldsAt(t: Tree, snap: Snapshot, deleted: set<Path>, copied: set<Path>, step: Tree, p: Path)
    requires copied <= snap.Keys
  {
    if p in copied then p in step && step[p] == File(snap[p])
    else if p in t && p !in deleted then p in step && step[p] == t[p]
    else p in step ==> step[p] == Dir
  }

  lemma UnderwayHoldsAt(t: Tree, snap: Snapshot, deleted: set<Path>, copied: set<Path>, dir: Path, p: Path)
    requires copied <= snap.Keys
    ensures HoldsAt(t, snap, deleted, copied, WithDirs(Partial(t, snap, deleted, copied), dir), p)
  {
  }

  lemma HeldIsOldOrTarget(rootName: string, t: Tree, snap: Snapshot, deleted: set<Path>, copied: set<Path>, step: Tree, p: Path)
    requires copied <= snap.Keys && deleted <= Extra(rootName, t, snap) && HoldsAt(t, snap, deleted, copied, step, p)
    requires p in copied ==> IsVisible(rootName, p) && (p in t ==> t[p].File?)
    ensures FileAt(rootName, step, p) in {FileAt(rootName, t, p), ContentIn(snap, p)}
    ensures p in t && FileAt(rootName, t, p) == None ==> p in step && step[p] == t[p]
    ensures !IsVisible(rootName, p) && p !in t ==> Lookup(step, p) in {None, Some(Dir)}
  {
  }

  /** At every step each visible file has its old or its new content, and every entry that is not a
      visible file (a secret, an ignored entry, a link, a directory) is as it was. */
  lemma OldOrTarget(rootName: string, t: Tree, snap: Snapshot, step: Tree, p: Path)
    requires Underway(rootName, t, snap, step) && forall s <- snap.Keys :: IsVisible(rootName, s)
    ensures FileAt(rootName, step, p) in {FileAt(rootName, t, p), ContentIn(snap, p)}
    ensures p in t && FileAt(rootName, t, p) == None ==> p in step && step[p] == t[p]
    ensures !IsVisible(rootName, p) && p !in t ==> Lookup(step, p) in {None, Some(Dir)}
  {
    var deleted, copied, dir :| UnderwayWith(rootName, t, snap, step, deleted, copied, dir);
    UnderwayHoldsAt(t, snap, deleted, copied, dir, p);
    if p in copied && p in t && !t[p].File? {
      assert CanHold(t - Extra(rootName, t, snap), p) && AtOrAbove(p, p);
      assert false;
    }
    HeldIsOldOrTarget(rootName, t, snap, deleted, copied, step, p);
  }

  /** So no tree of a run, whether it succeeds or fails, shows any other content. */
  lemma EveryStepOldOrTarget(rootName: string, t: Tree, snap: Snapshot, steps: seq<Tree>, now: Tree, k: nat, p: Path)
    requires Steps(rootName, t, snap, steps, now) && k < |steps| && forall s <- snap.Keys :: IsVisible(rootName, s)
    ensures FileAt(rootName, steps[k], p) in {FileAt(rootName, t, p), ContentIn(snap, p)}
    ensures p in t && FileAt(rootName, t, p) == None ==> p in steps[k] && steps[k][p] == t[p]
    ensures 0 < k ==> OneApart(steps[k - 1], steps[k])
  {
    assert steps[k] in steps;
    OldOrTarget(rootName, t, snap, steps[k], p);
  }

  /** After a restore the visible files are exactly those of the snapshot. */
  lemma RestoredFiles(rootName: string, t: Tree, snap: Snapshot)
    requires forall p <- snap.Keys :: IsVisible(rootName, p)
    ensures VisibleFiles(rootName, Restored(rootName, t, snap)) == snap
  {
  }
}
