/**
 How snapshot, plan and restore of crates/checkpoint-runtime/src/lib.rs fit together: a restore does
 what its plan lists, and brings back what the snapshot saw.
 */
module CheckpointRoundTrip {
  import opened Basics
  import opened FileTree
  import opened CheckpointPaths
  import opened Checkpoint
  import opened RestorePlan
  import opened Restore

  // ----- Executing a plan -----

  /** The tree after the listed deletions, one by one; `None` when one of them finds no file. */
  function ExecuteDeletes(t: Tree, changes: seq<Change>): Option<Tree> {
    if changes == [] then Some(t)
    else
      var (last, before) := (changes[|changes| - 1], ExecuteDeletes(t, changes[..|changes| - 1]));
      if before.None? || !last.kind.Delete? then before
      else if last.path in before.value && before.value[last.path].File? then Some(before.value - {last.path})
      else None
  }

  /** The tree after the listed creations and modifications, one copy after the other; `None` when the
      snapshot lacks a file or its place cannot hold it. */
  ghost function ExecuteCopies(t: Tree, snap: Snapshot, changes: seq<Change>): Option<Tree> {
    if changes == [] then Some(t)
    else
      var (last, before) := (changes[|changes| - 1], ExecuteCopies(t, snap, changes[..|changes| - 1]));
      if before.None? || last.kind.Delete? then before
      else if last.path in snap && last.path != [] && CanHold(before.value, last.path)
        then Some(Placed(before.value, last.path, snap[last.path]))
      else None
  }

  /** The listed changes, deletions first. */
  ghost function Execute(t: Tree, snap: Snapshot, changes: seq<Change>): Option<Tree> {
    var deleted := ExecuteDeletes(t, changes);
    if deleted.None? then None else ExecuteCopies(deleted.value, snap, changes)
  }

  function Copies(changes: seq<Change>): set<Path> {
    PathsOf(changes, Create) + PathsOf(changes, Modify)
  }

  lemma LastChange(changes: seq<Change>)
    requires changes != []
    ensures var (front, last) := (changes[..|changes| - 1], changes[|changes| - 1]);
      && PathsOf(changes, Delete) == (if last.kind.Delete? then PathsOf(front, Delete) + {last.path} else PathsOf(front, Delete))
      && Copies(changes) == (if last.kind.Delete? then Copies(front) else Copies(front) + {last.path})
  {
    var front, last := changes[..|changes| - 1], changes[|changes| - 1];
    assert changes == front + [last];
    forall p, kind ensures p in PathsOf(changes, kind) <==> p in PathsOf(front, kind) || last == Change(p, kind) {
      assert Change(p, kind) in changes <==> Change(p, kind) in front || Change(p, kind) == last;
      assert p in PathsOf(changes, kind) <==> Change(p, kind) in changes;
      assert p in PathsOf(front, kind) <==> Change(p, kind) in front;
    }
  }

  /** No two changes have the same path. */
  predicate OnePerPath(changes: seq<Change>) {
    forall i, j :: 0 <= i < j < |changes| ==> changes[i].path != changes[j].path
  }

  lemma LastIsNew(changes: seq<Change>)
    requires changes != [] && OnePerPath(changes)
    ensures OnePerPath(changes[..|changes| - 1])
    ensures var (front, last) := (changes[..|changes| - 1], changes[|changes| - 1]);
      last.path !in PathsOf(front, Delete) && last.path !in Copies(front)
  {
    var front, last := changes[..|changes| - 1], changes[|changes| - 1];
    forall c | c in front ensures c.path != last.path {
      var i :| 0 <= i < |front| && front[i] == c;
    }
  }

  lemma {:induction false} DeletesExecuted(t: Tree, changes: seq<Change>)
    requires OnePerPath(changes) && forall p <- PathsOf(changes, Delete) :: p in t && t[p].File?
    ensures ExecuteDeletes(t, changes) == Some(t - PathsOf(changes, Delete))
  {
    if changes == [] {
      assert t - PathsOf(changes, Delete) == t;
    } else {
      var front, last := changes[..|changes| - 1], changes[|changes| - 1];
      LastChange(changes);
      LastIsNew(changes);
      DeletesExecuted(t, front);
      if last.kind.Delete? {
        assert t - PathsOf(front, Delete) - {last.path} == t - PathsOf(changes, Delete);
      }
    }
  }

  /** Copying the listed files goes through exactly when each place can hold its file to begin with. */
  lemma {:induction false} CopiesExecuted(t: Tree, snap: Snapshot, deleted: set<Path>, changes: seq<Change>)
    requires IsSnapshot(snap) && OnePerPath(changes) && Copies(changes) <= snap.Keys
    ensures ExecuteCopies(t - deleted, snap, changes) ==
      if AllCanHold(t - deleted, Copies(changes)) then Some(Partial(t, snap, deleted, Copies(changes))) else None
  {
    if changes == [] {
      NothingCopied(t, snap, deleted);
      assert Copies(changes) == {};
    } else {
      var front, last := changes[..|changes| - 1], changes[|changes| - 1];
      LastChange(changes);
      LastIsNew(changes);
      CopiesExecuted(t, snap, deleted, front);
      if !last.kind.Delete? {
        OneCopyMore(t, snap, deleted, Copies(front), last.path);
      }
    }
  }

  ghost predicate AllCanHold(t: Tree, paths: set<Path>) {
    forall p <- paths :: CanHold(t, p)
  }

  lemma OneCopyMore(t: Tree, snap: Snapshot, deleted: set<Path>, copied: set<Path>, p: Path)
    requires IsSnapshot(snap) && copied <= snap.Keys && p in snap && p !in copied
    ensures AllCanHold(t - deleted, copied + {p}) <==>
      AllCanHold(t - deleted, copied) && CanHold(Partial(t, snap, deleted, copied), p)
    ensures p != [] && (CanHold(Partial(t, snap, deleted, copied), p) ==>
      Partial(t, snap, deleted, copied + {p}) == Placed(Partial(t, snap, deleted, copied), p, snap[p]))
  {
    CanHoldLater(t, snap, deleted, copied, p);
    if CanHold(Partial(t, snap, deleted, copied), p) {
      CopiedOneMore(t, snap, deleted, copied, p);
    }
  }

  lemma PlanIsOnePerPath(files: Snapshot, snap: Snapshot, maxFileBytes: nat, changes: seq<Change>)
    requires IsPlan(files, snap, maxFileBytes, changes)
    ensures OnePerPath(changes)
  {
    forall i, j | 0 <= i < j < |changes| ensures changes[i].path != changes[j].path {
      assert changes[i] in changes && changes[j] in changes;
      assert IsChange(files, snap, maxFileBytes, changes[i]) && IsChange(files, snap, maxFileBytes, changes[j]);
    }
  }

  /** Executing the listed changes one by one, deletions first, goes through exactly when the restore
      does, and gives the tree the restore gives: the files it copies without listing them hold their
      content already. */
  lemma RestorePerformsItsPlan(rootName: string, t: Tree, snap: Snapshot, maxFileBytes: nat, changes: seq<Change>)
    requires WellFormed(t) && IsSnapshot(snap)
    requires IsPlan(VisibleFiles(rootName, t), snap, maxFileBytes, changes)
    ensures Execute(t, snap, changes) == if Restorable(rootName, t, snap) then Some(Restored(rootName, t, snap)) else None
  {
    var files, extra := VisibleFiles(rootName, t), Extra(rootName, t, snap);
    PlannedPaths(files, snap, maxFileBytes, changes);
    PlanIsOnePerPath(files, snap, maxFileBytes, changes);
    DeletesExecuted(t, changes);
    CopiesExecuted(t, snap, extra, changes);
    UnlistedHold(rootName, t, snap, maxFileBytes, Copies(changes));
    if Restorable(rootName, t, snap) {
      SameOutcome(t, snap, extra, Copies(changes));
    }
  }

  /** A snapshot file that is not listed is there already. */
  lemma UnlistedHold(rootName: string, t: Tree, snap: Snapshot, maxFileBytes: nat, copied: set<Path>)
    requires WellFormed(t)
    requires var files := VisibleFiles(rootName, t); copied == snap.Keys - files.Keys + Modified(files, snap, maxFileBytes)
    ensures forall p <- snap.Keys :: p !in copied ==> p in t && t[p] == File(snap[p]) && CanHold(t - Extra(rootName, t, snap), p)
  {
    var files, left := VisibleFiles(rootName, t), t - Extra(rootName, t, snap);
    forall p | p in snap && p !in copied ensures p in t && t[p] == File(snap[p]) && CanHold(left, p) {
      assert p in files;
      forall q | q in left.Keys && AtOrAbove(q, p) && q != p ensures left[q].Dir? {
        AncestorsAreDirs(t, q, p);
      }
    }
  }

  lemma PlannedPaths(files: Snapshot, snap: Snapshot, maxFileBytes: nat, changes: seq<Change>)
    requires IsPlan(files, snap, maxFileBytes, changes)
    ensures PathsOf(changes, Create) == snap.Keys - files.Keys
    ensures PathsOf(changes, Delete) == files.Keys - snap.Keys
    ensures PathsOf(changes, Modify) == Modified(files, snap, maxFileBytes)
  {
    forall p ensures p in PathsOf(changes, Create) <==> p in snap.Keys - files.Keys {
      assert Change(p, Create) in changes <==> IsChange(files, snap, maxFileBytes, Change(p, Create));
    }
    forall p ensures p in PathsOf(changes, Delete) <==> p in files.Keys - snap.Keys {
      assert Change(p, Delete) in changes <==> IsChange(files, snap, maxFileBytes, Change(p, Delete));
    }
    forall p ensures p in PathsOf(changes, Modify) <==> p in Modified(files, snap, maxFileBytes) {
      assert Change(p, Modify) in changes <==> IsChange(files, snap, maxFileBytes, Change(p, Modify));
    }
  }

  lemma SameOutcome(t: Tree, snap: Snapshot, deleted: set<Path>, copied: set<Path>)
    requires WellFormed(t) && copied <= snap.Keys && deleted !! snap.Keys
    requires forall p <- deleted :: p in t && t[p].File?
    requires forall p <- snap.Keys :: p !in copied ==> p in t && t[p] == File(snap[p])
    ensures Partial(t, snap, deleted, copied) == Partial(t, snap, deleted, snap.Keys)
  {
    forall q ensures SameAt(Partial(t, snap, deleted, copied), Partial(t, snap, deleted, snap.Keys), q) {
      if IsProperlyAbove(q, snap.Keys) && !IsProperlyAbove(q, copied) {
        var p :| p in snap.Keys && AtOrAbove(q, p) && q != p;
        AncestorsAreDirs(t, q, p);
      }
    }
    SameTree(Partial(t, snap, deleted, copied), Partial(t, snap, deleted, snap.Keys));
  }

  lemma KeptIsSnapshot(rootName: string, t: Tree, maxFileBytes: nat)
    requires WellFormed(t)
    ensures IsSnapshot(Kept(rootName, t, maxFileBytes))
    ensures forall p <- Kept(rootName, t, maxFileBytes).Keys :: IsVisible(rootName, p)
  {
    var kept := Kept(rootName, t, maxFileBytes);
    forall p, q | p in kept.Keys && q in kept.Keys && AtOrAbove(q, p) ensures q == p {
      if q != p {
        AncestorsAreDirs(t, q, p);
      }
    }
  }

  /** `now` came from `before` by editing visible files: links and secrets are the same, and no
      directory took the place of a kept file. */
  ghost predicate EditedFrom(rootName: string, before: Tree, now: Tree, maxFileBytes: nat) {
    && (forall p <- now.Keys :: IsWalked(rootName, p) && (now[p].Link? || IsSecretFile(now, p)) ==> p in before && before[p] == now[p])
    && (forall p <- Kept(rootName, before, maxFileBytes).Keys :: p in now ==> !now[p].Dir?)
  }

  /** A snapshot, any edits of visible files, and a restore: it succeeds and leaves visible exactly
      the files the snapshot kept, and a plan made afterwards with the same limit is empty. */
  lemma RoundTrip(rootName: string, before: Tree, now: Tree, maxFileBytes: nat, changes: seq<Change>)
    requires WellFormed(before) && WellFormed(now) && EditedFrom(rootName, before, now, maxFileBytes)
    ensures var snap := Kept(rootName, before, maxFileBytes);
      && Restorable(rootName, now, snap)
      && VisibleFiles(rootName, Restored(rootName, now, snap)) == snap
      && (IsPlan(VisibleFiles(rootName, Restored(rootName, now, snap)), snap, maxFileBytes, changes) ==> changes == [])
  {
    var snap := Kept(rootName, before, maxFileBytes);
    KeptIsSnapshot(rootName, before, maxFileBytes);
    forall p | p in snap ensures CanHold(now - Extra(rootName, now, snap), p) {
      EditsLeaveRoom(rootName, before, now, maxFileBytes, p);
    }
    RestoredFiles(rootName, now, snap);
    if IsPlan(snap, snap, maxFileBytes, changes) {
      EmptyPlan(snap, maxFileBytes, changes);
    }
  }

  lemma EditsLeaveRoom(rootName: string, before: Tree, now: Tree, maxFileBytes: nat, p: Path)
    requires WellFormed(before) && WellFormed(now) && EditedFrom(rootName, before, now, maxFileBytes)
    requires p in Kept(rootName, before, maxFileBytes)
    ensures CanHold(now - Extra(rootName, now, Kept(rootName, before, maxFileBytes)), p)
  {
    var snap := Kept(rootName, before, maxFileBytes);
    var left := now - Extra(rootName, now, snap);
    KeptIsSnapshot(rootName, before, maxFileBytes);
    forall q | q in left.Keys && AtOrAbove(q, p) ensures if q == p then left[q].File? else left[q].Dir? {
      WalkedAbove(rootName, q, p);
      if q != p {
        assert q in before ==> before[q] == Dir by {
          if q in before {
            AncestorsAreDirs(before, q, p);
          }
        }
        assert q !in snap;
      }
    }
  }

  lemma {:induction false} WalkedAbove(rootName: string, q: Path, p: Path)
    requires AtOrAbove(q, p) && q != [] && IsWalked(rootName, p)
    ensures IsWalked(rootName, q)
  {
    if q != p {
      assert AtOrAbove(q, Parent(p));
      WalkedAbove(rootName, q, Parent(p));
    }
  }

  /** A plan between equal contents is empty exactly when no file is over the limit. */
  lemma EmptyPlan(snap: Snapshot, maxFileBytes: nat, changes: seq<Change>)
    requires IsPlan(snap, snap, maxFileBytes, changes)
    ensures changes == [] <==> forall p <- snap.Keys :: |snap[p]| <= maxFileBytes
    ensures forall p <- snap.Keys :: Change(p, Modify) in changes <==> maxFileBytes < |snap[p]|
  {
    forall p | p in snap ensures Change(p, Modify) in changes <==> maxFileBytes < |snap[p]| {
      assert Change(p, Modify) in changes <==> IsChange(snap, snap, maxFileBytes, Change(p, Modify));
    }
    if changes != [] {
      assert changes[0] in changes && IsChange(snap, snap, maxFileBytes, changes[0]);
    }
  }

  /** Restoring with no edit in between changes nothing exactly when no walked file is over the limit:
      such a file is in no snapshot, so the restore deletes it. */
  lemma RestoringAtOnce(rootName: string, t: Tree, maxFileBytes: nat)
    requires WellFormed(t)
    ensures Restored(rootName, t, Kept(rootName, t, maxFileBytes)) == t
            <==> forall p <- WalkedEntries(rootName, t) :: !IsOversize(t, p, maxFileBytes)
  {
    var snap := Kept(rootName, t, maxFileBytes);
    var extra, none: set<Path> := Extra(rootName, t, snap), {};
    assert forall p <- t.Keys :: p in extra <==> p in WalkedEntries(rootName, t) && IsOversize(t, p, maxFileBytes);
    SameOutcome(t, snap, extra, none);
    NothingCopied(t, snap, extra);
    if extra == {} {
      assert t - extra == t;
    } else {
      var p :| p in extra;
      assert p !in t - extra;
    }
  }

  /** A workspace with one file of one byte and a limit of none: a snapshot and a restore, with no edit
      in between, delete the file. */
  lemma RestoreLosesAFile(rootName: string)
    ensures var (t, snap) := (map[["a"] := File([0])], Kept(rootName, map[["a"] := File([0])], 0));
      && WellFormed(t) && snap == map[] && Restorable(rootName, t, snap) && Restored(rootName, t, snap) == map[]
  {
    var t: Tree := map[["a"] := File([0])];
    var snap := Kept(rootName, t, 0);
    assert Parent(["a"]) == [];
    assert snap == map[] by {
      assert !IsKept(t, ["a"], 0);
    }
    assert IsVisible(rootName, ["a"]) by {
      assert ToAsciiLower("a") == "a";
    }
    var extra := Extra(rootName, t, snap);
    assert ["a"] in VisibleFiles(rootName, t) && extra == {["a"]};
    assert snap.Keys == {};
    NothingCopied(t, snap, extra);
    assert t - extra == map[];
  }
}
