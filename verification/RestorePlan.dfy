/** What a restore plan lists (crates/checkpoint-runtime/src/lib.rs, `compute_restore_plan_details`). */
module RestorePlan {
  import opened Basics
  import opened FileTree
  import opened CheckpointPaths
  import opened Checkpoint
  import opened Text
  import StorageKeys

  // ----- The plan -----

  datatype ChangeKind = Create | Modify | Delete

  datatype Change = Change(path: Path, kind: ChangeKind)

  datatype Plan = Plan(created: nat, modified: nat, deleted: nat)

  /** Files over the limit never match: their content is not read. */
  predicate FilesMatch(left: Bytes, right: Bytes, maxFileBytes: nat) {
    |left| == |right| && |left| <= maxFileBytes && left == right
  }

  predicate IsChange(files: Snapshot, snap: Snapshot, maxFileBytes: nat, change: Change) {
    match change.kind
    case Create => change.path in snap && change.path !in files
    case Delete => change.path in files && change.path !in snap
    case Modify => change.path in snap && change.path in files && !FilesMatch(snap[change.path], files[change.path], maxFileBytes)
  }

  /** No change twice; creations before deletions before modifications, each by ascending path. */
  predicate InOrder(changes: seq<Change>) {
    forall i, j :: 0 <= i < j < |changes| ==> IsBefore(changes[i], changes[j])
  }

  predicate IsBefore(a: Change, b: Change) {
    && a != b && Rank(a.kind) <= Rank(b.kind)
    && (a.kind == b.kind ==> NotAfter(a.path, b.path))
  }

  /** Paths are compared as strings. */
  predicate NotAfter(p: Path, q: Path) {
    PathString(p) == PathString(q) || Precedes(PathString(p), PathString(q))
  }

  function PathString(p: Path): string {
    if p == [] then "" else StorageKeys.Join(p)
  }

  /** The string of a path holds its names between slashes, so no two paths share one. */
  lemma PathStringExactly(p: Path, q: Path)
    requires p != [] && q != [] && (forall name <- p :: '/' !in name) && forall name <- q :: '/' !in name
    ensures StorageKeys.Split(PathString(p)) == p
    ensures PathString(p) == PathString(q) ==> p == q
  {
    StorageKeys.SplitJoin(p);
    StorageKeys.SplitJoin(q);
  }

  /** The changes between visible files and a snapshot, each once. */
  ghost predicate IsPlan(files: Snapshot, snap: Snapshot, maxFileBytes: nat, changes: seq<Change>) {
    (forall c: Change :: c in changes <==> IsChange(files, snap, maxFileBytes, c)) && InOrder(changes)
  }

  function Rank(kind: ChangeKind): nat {
    match kind
    case Create => 0
    case Delete => 1
    case Modify => 2
  }

  function PathsOf(changes: seq<Change>, kind: ChangeKind): set<Path> {
    set c <- changes | c.kind == kind :: c.path
  }

  function CountOf(changes: seq<Change>, kind: ChangeKind): nat {
    if changes == [] then 0
    else CountOf(changes[..|changes| - 1], kind) + (if changes[|changes| - 1].kind == kind then 1 else 0)
  }

  /** First what is created, then what is deleted, then what is modified; within each kind of change the
      paths ascend as strings. */
  ghost predicate PathsAscend(changes: seq<Change>) {
    && (forall i, j :: 0 <= i < j < |changes| ==>
          (changes[j].kind.Create? ==> changes[i].kind.Create?) && (changes[i].kind.Modify? ==> changes[j].kind.Modify?))
    && forall i, j :: 0 <= i < j < |changes| && changes[i].kind == changes[j].kind ==>
      PathString(changes[i].path) == PathString(changes[j].path) ||
      ComesBefore(PathString(changes[i].path), PathString(changes[j].path))
  }

  lemma InOrderAscends(changes: seq<Change>)
    requires InOrder(changes)
    ensures PathsAscend(changes)
  {
    forall i, j | 0 <= i < j < |changes| && changes[i].kind == changes[j].kind
      ensures PathString(changes[i].path) == PathString(changes[j].path) ||
              ComesBefore(PathString(changes[i].path), PathString(changes[j].path))
    {
      assert IsBefore(changes[i], changes[j]);
      PrecedesExactly(PathString(changes[i].path), PathString(changes[j].path));
    }
    forall i, j | 0 <= i < j < |changes|
      ensures (changes[j].kind.Create? ==> changes[i].kind.Create?) && (changes[i].kind.Modify? ==> changes[j].kind.Modify?)
    {
      assert IsBefore(changes[i], changes[j]);
    }
  }

  predicate IsFirstOf(p: Path, paths: set<Path>) {
    p in paths && forall q <- paths :: NotAfter(p, q)
  }

  /** A nonempty set of paths has a first one. */
  lemma {:induction false} FirstOf(paths: set<Path>) returns (p: Path)
    requires paths != {}
    ensures IsFirstOf(p, paths)
  {
    p :| p in paths;
    if paths != {p} {
      var first := FirstOf(paths - {p});
      PrecedesIsTotal(PathString(p), PathString(first));
      if NotAfter(p, first) {
        forall q | q in paths - {p} ensures NotAfter(p, q) {
          FirstIsTransitive(p, first, q);
        }
      } else {
        p := first;
      }
    }
  }

  lemma FirstIsTransitive(a: Path, b: Path, c: Path)
    requires NotAfter(a, b) && NotAfter(b, c)
    ensures NotAfter(a, c)
  {
    if PathString(a) != PathString(b) && PathString(b) != PathString(c) {
      PrecedesIsTransitive(PathString(a), PathString(b), PathString(c));
    }
  }

  /** The list with one change for each path done; the paths left come after these. */
  ghost predicate Pushed(changes: seq<Change>, kind: ChangeKind, done: set<Path>, left: set<Path>, r: seq<Change>) {
    && InOrder(r) && (forall c: Change :: c in r <==> c in changes || (c.kind == kind && c.path in done))
    && (forall k :: CountOf(r, k) == CountOf(changes, k) + (if k == kind then |done| else 0))
    && done !! left && forall p, q :: p in done && q in left ==> NotAfter(p, q)
  }

  lemma PushOne(changes: seq<Change>, kind: ChangeKind, done: set<Path>, left: set<Path>, r: seq<Change>, path: Path)
    requires Pushed(changes, kind, done, left, r) && forall c <- changes :: Rank(c.kind) < Rank(kind)
    requires IsFirstOf(path, left)
    ensures Pushed(changes, kind, done + {path}, left - {path}, r + [Change(path, kind)])
  {
    forall c | c in r ensures IsBefore(c, Change(path, kind)) {
      assert c in changes || (c.kind == kind && c.path in done);
    }
    OneMoreChange(r, Change(path, kind));
  }

  /** Appends one change of the given kind for each path, in ascending order. */
  method PushChanges(changes: seq<Change>, paths: set<Path>, kind: ChangeKind) returns (r: seq<Change>)
    requires InOrder(changes) && forall c <- changes :: Rank(c.kind) < Rank(kind)
    ensures InOrder(r) && forall c: Change :: c in r <==> c in changes || (c.kind == kind && c.path in paths)
    ensures forall k :: CountOf(r, k) == CountOf(changes, k) + (if k == kind then |paths| else 0)
  {
    r := changes;
    var done, left: set<Path> := {}, paths;
    while left != {}
      invariant done + left == paths && Pushed(changes, kind, done, left, r)
      decreases left
    {
      ghost var first := FirstOf(left);
      var path :| IsFirstOf(path, left);
      PushOne(changes, kind, done, left, r, path);
      r := r + [Change(path, kind)];
      done, left := done + {path}, left - {path};
    }
  }

  lemma OneMoreChange(changes: seq<Change>, change: Change)
    requires InOrder(changes) && forall c <- changes :: IsBefore(c, change)
    ensures InOrder(changes + [change])
    ensures forall k :: CountOf(changes + [change], k) == CountOf(changes, k) + (if k == change.kind then 1 else 0)
  {
    assert (changes + [change])[..|changes|] == changes;
    assert forall i :: 0 <= i < |changes| ==> changes[i] in changes;
  }

  method CountChanges(changes: seq<Change>) returns (plan: Plan)
    ensures plan == Plan(CountOf(changes, Create), CountOf(changes, Modify), CountOf(changes, Delete))
  {
    plan := Plan(0, 0, 0);
    for i := 0 to |changes|
      invariant plan == Plan(CountOf(changes[..i], Create), CountOf(changes[..i], Modify), CountOf(changes[..i], Delete))
    {
      assert changes[..i + 1][..i] == changes[..i];
      match changes[i].kind {
        case Create => plan := plan.(created := plan.created + 1);
        case Modify => plan := plan.(modified := plan.modified + 1);
        case Delete => plan := plan.(deleted := plan.deleted + 1);
      }
    }
    assert changes[..|changes|] == changes;
  }

  function Modified(files: Snapshot, snap: Snapshot, maxFileBytes: nat): set<Path> {
    set p <- snap.Keys * files.Keys | !FilesMatch(snap[p], files[p], maxFileBytes)
  }

  method ComputeRestorePlanDetails(ws: Workspace, dir: SnapshotDir, maxFileBytes: nat) returns (plan: Plan, changes: seq<Change>)
    ensures var files := VisibleFiles(ws.rootName, ws.tree);
      && IsPlan(files, dir.files, maxFileBytes, changes) && PathsAscend(changes)
      && plan.created == |dir.files.Keys - files.Keys| && plan.deleted == |files.Keys - dir.files.Keys|
      && plan.modified == |Modified(files, dir.files, maxFileBytes)|
  {
    changes := ListChanges(VisibleFiles(ws.rootName, ws.tree), dir.files, maxFileBytes);
    InOrderAscends(changes);
    plan := CountChanges(changes);
  }

  method ListChanges(files: Snapshot, snap: Snapshot, maxFileBytes: nat) returns (changes: seq<Change>)
    ensures IsPlan(files, snap, maxFileBytes, changes)
    ensures CountOf(changes, Create) == |snap.Keys - files.Keys|
    ensures CountOf(changes, Delete) == |files.Keys - snap.Keys|
    ensures CountOf(changes, Modify) == |Modified(files, snap, maxFileBytes)|
  {
    changes := ListGroups(snap.Keys - files.Keys, files.Keys - snap.Keys, Modified(files, snap, maxFileBytes));
    forall c: Change ensures c in changes <==> IsChange(files, snap, maxFileBytes, c) {
      assert c in changes <==> c.path in match c.kind {
        case Create => snap.Keys - files.Keys
        case Delete => files.Keys - snap.Keys
        case Modify => Modified(files, snap, maxFileBytes)
      };
    }
  }

  method ListGroups(created: set<Path>, deleted: set<Path>, modified: set<Path>) returns (changes: seq<Change>)
    ensures InOrder(changes)
    ensures forall c: Change :: c in changes <==>
      c.path in match c.kind { case Create => created case Delete => deleted case Modify => modified }
    ensures CountOf(changes, Create) == |created| && CountOf(changes, Delete) == |deleted| && CountOf(changes, Modify) == |modified|
  {
    changes := PushChanges([], created, Create);
    changes := PushChanges(changes, deleted, Delete);
    changes := PushChanges(changes, modified, Modify);
  }
}
