/**
 Snapshot, restore plan and restore of a workspace (crates/checkpoint-runtime/src/lib.rs). A
 workspace is a directory tree; a snapshot is the files stored under the snapshot root. The walks
 go through entries in an order the operating system chooses, so every loop here picks freely.
 */
module Checkpoint {
  import opened Basics
  import opened FileTree
  import opened CheckpointPaths

  type Snapshot = map<Path, Bytes>

  /** The regular files a walk reaches. */
  function WalkedFiles(rootName: string, t: Tree): set<Path> {
    set p <- t.Keys | t[p].File? && p != [] && IsWalked(rootName, p)
  }

  /** The files that snapshots, plans and restores deal with. */
  function VisibleFiles(rootName: string, t: Tree): Snapshot {
    map p <- t.Keys | t[p].File? && IsVisible(rootName, p) :: t[p].data
  }

  // ----- Taking a snapshot -----

  predicate IsLink(t: Tree, p: Path) {
    p in t && t[p].Link?
  }

  predicate IsSecretFile(t: Tree, p: Path) {
    p in t && p != [] && t[p].File? && IsSecret(p)
  }

  predicate IsOversize(t: Tree, p: Path, maxFileBytes: nat) {
    p in t && p != [] && t[p].File? && !IsSecret(p) && |t[p].data| > maxFileBytes
  }

  predicate IsKept(t: Tree, p: Path, maxFileBytes: nat) {
    p in t && p != [] && t[p].File? && !IsSecret(p) && |t[p].data| <= maxFileBytes
  }

  /** The entries a walk reports: everything below a directory it enters. */
  function WalkedEntries(rootName: string, t: Tree): set<Path> {
    set p <- t.Keys | p != [] && IsWalked(rootName, p)
  }

  function KeptOf(t: Tree, entries: set<Path>, maxFileBytes: nat): Snapshot {
    map p <- entries | IsKept(t, p, maxFileBytes) :: t[p].data
  }

  /** What a snapshot holds: the visible files of at most `maxFileBytes`. */
  function Kept(rootName: string, t: Tree, maxFileBytes: nat): Snapshot {
    KeptOf(t, WalkedEntries(rootName, t), maxFileBytes)
  }

  /** A snapshot keeps exactly the visible files that are not too large, as they are. */
  lemma KeptExactly(rootName: string, t: Tree, maxFileBytes: nat, p: Path)
    ensures p in Kept(rootName, t, maxFileBytes) <==> p in t && t[p].File? && |t[p].data| <= maxFileBytes && IsVisible(rootName, p)
    ensures p in Kept(rootName, t, maxFileBytes) ==> File(Kept(rootName, t, maxFileBytes)[p]) == t[p]
  {
  }

  ghost function TotalSize(files: Snapshot): nat
    decreases |files|
  {
    if files == map[] then 0
    else
      var p := PickPath(files.Keys);
      assert (files - {p}).Keys == files.Keys - {p};
      assert |(files - {p}).Keys| == |files.Keys| - 1;
      |files[p]| + TotalSize(files - {p})
  }

  ghost function PickPath(s: set<Path>): (p: Path)
    requires s != {}
    ensures p in s
  {
    var p :| p in s; p
  }

  lemma {:induction false} TotalSizeRemove(files: Snapshot, p: Path)
    requires p in files
    ensures TotalSize(files) == |files[p]| + TotalSize(files - {p})
    decreases |files|
  {
    var q := PickPath(files.Keys);
    if q != p {
      assert (files - {q}).Keys == files.Keys - {q};
      assert |(files - {q}).Keys| == |files.Keys| - 1;
      TotalSizeRemove(files - {q}, p);
      TotalSizeRemove(files - {p}, q);
      assert files - {q} - {p} == files - {p} - {q};
    }
  }

  predicate PartOf(part: Snapshot, files: Snapshot) {
    forall p <- part.Keys :: p in files && part[p] == files[p]
  }

  lemma {:induction false} TotalSizeMonotone(part: Snapshot, files: Snapshot)
    requires PartOf(part, files)
    ensures TotalSize(part) <= TotalSize(files)
    decreases |part|
  {
    if part != map[] {
      var p := PickPath(part.Keys);
      assert (part - {p}).Keys == part.Keys - {p};
      assert |(part - {p}).Keys| == |part.Keys| - 1;
      TotalSizeMonotone(part - {p}, files - {p});
      TotalSizeRemove(part, p);
      TotalSizeRemove(files, p);
    }
  }

  lemma TotalSizeAdd(files: Snapshot, p: Path, data: Bytes)
    requires p !in files
    ensures TotalSize(files[p := data]) == TotalSize(files) + |data|
  {
    TotalSizeRemove(files[p := data], p);
    assert files[p := data] - {p} == files;
  }

  datatype Outcome = Outcome(fileCount: nat, totalBytes: nat, symlinkCount: nat, oversizeCount: nat, secretCount: nat)

  datatype SnapshotError = SizeOverflow | ExceedsMaxTotalBytes | CopyRefused

  class Workspace {
    const rootName: string
    var tree: Tree

    constructor (rootName: string, tree: Tree)
      ensures this.rootName == rootName && this.tree == tree
    {
      this.rootName, this.tree := rootName, tree;
    }
  }

  /** The files of a snapshot directory; each checkpoint writes to a new one. */
  class SnapshotDir {
    var files: Snapshot

    constructor ()
      ensures files == map[]
    {
      files := map[];
    }
  }

  /** A file above or below `p` keeps a copy from being made at `p`. */
  predicate Clashes(files: Snapshot, p: Path) {
    exists q <- files.Keys :: q != p && (AtOrAbove(q, p) || AtOrAbove(p, q))
  }

  /** No copy of one of the files is kept out by a file that was there before. */
  ghost predicate FitBeside(kept: Snapshot, before: Snapshot) {
    forall p <- kept.Keys :: !Clashes(before, p)
  }

  /** Regular files of one tree do not clash. */
  lemma KeptDoNotClash(t: Tree, entries: set<Path>, maxFileBytes: nat, before: Snapshot, p: Path)
    requires WellFormed(t) && IsKept(t, p, maxFileBytes)
    ensures Clashes(before + KeptOf(t, entries, maxFileBytes), p) ==> Clashes(before, p)
    ensures Clashes(before, p) ==> Clashes(before + KeptOf(t, entries, maxFileBytes), p)
  {
    var kept := KeptOf(t, entries, maxFileBytes);
    assert (before + kept).Keys == before.Keys + kept.Keys;
    if Clashes(before, p) {
      var q :| q in before.Keys && q != p && (AtOrAbove(q, p) || AtOrAbove(p, q));
      assert q in (before + kept).Keys;
    }
    forall q | q in kept.Keys && q != p ensures !AtOrAbove(q, p) && !AtOrAbove(p, q) {
      if AtOrAbove(q, p) {
        AncestorsAreDirs(t, q, p);
      } else if AtOrAbove(p, q) {
        AncestorsAreDirs(t, p, q);
      }
    }
  }

  function Select(entries: set<Path>, test: Path -> bool): set<Path> {
    set p <- entries | test(p)
  }

  lemma SelectOneMore(entries: set<Path>, p: Path, test: Path -> bool)
    requires p !in entries
    ensures |Select(entries + {p}, test)| == |Select(entries, test)| + (if test(p) then 1 else 0)
  {
    assert Select(entries + {p}, test) == Select(entries, test) + if test(p) then {p} else {};
  }

  function LinkIn(t: Tree): Path -> bool {
    p => IsLink(t, p)
  }

  function SecretIn(t: Tree): Path -> bool {
    p => IsSecretFile(t, p)
  }

  function OversizeIn(t: Tree, maxFileBytes: nat): Path -> bool {
    p => IsOversize(t, p, maxFileBytes)
  }

  /** The counters after some entries: each is the number of entries of its kind, the size the sum. */
  ghost predicate Counts(t: Tree, entries: set<Path>, maxFileBytes: nat, out: Outcome) {
    && out.symlinkCount == |Select(entries, LinkIn(t))|
    && out.secretCount == |Select(entries, SecretIn(t))|
    && out.oversizeCount == |Select(entries, OversizeIn(t, maxFileBytes))|
    && out.fileCount == |KeptOf(t, entries, maxFileBytes)|
    && out.totalBytes == TotalSize(KeptOf(t, entries, maxFileBytes))
  }

  function CountOne(t: Tree, p: Path, maxFileBytes: nat, out: Outcome): Outcome {
    if IsLink(t, p) then out.(symlinkCount := out.symlinkCount + 1)
    else if IsSecretFile(t, p) then out.(secretCount := out.secretCount + 1)
    else if IsOversize(t, p, maxFileBytes) then out.(oversizeCount := out.oversizeCount + 1)
    else if IsKept(t, p, maxFileBytes) then
      out.(fileCount := out.fileCount + 1, totalBytes := out.totalBytes + |t[p].data|)
    else out
  }

  lemma CountedBytes(t: Tree, p: Path, maxFileBytes: nat, out: Outcome)
    ensures CountOne(t, p, maxFileBytes, out).totalBytes == out.totalBytes + if IsKept(t, p, maxFileBytes) then |t[p].data| else 0
  {
  }

  lemma CountedOneMore(t: Tree, entries: set<Path>, p: Path, maxFileBytes: nat, out: Outcome)
    requires p !in entries && Counts(t, entries, maxFileBytes, out)
    ensures Counts(t, entries + {p}, maxFileBytes, CountOne(t, p, maxFileBytes, out))
  {
    KeptOneMore(t, entries, p, maxFileBytes);
    SelectOneMore(entries, p, LinkIn(t));
    SelectOneMore(entries, p, SecretIn(t));
    SelectOneMore(entries, p, OversizeIn(t, maxFileBytes));
  }

  lemma KeptOneMore(t: Tree, entries: set<Path>, p: Path, maxFileBytes: nat)
    requires p !in entries
    ensures var (kept, kept') := (KeptOf(t, entries, maxFileBytes), KeptOf(t, entries + {p}, maxFileBytes));
      if IsKept(t, p, maxFileBytes)
      then kept' == kept[p := t[p].data] && |kept'| == |kept| + 1 && TotalSize(kept') == TotalSize(kept) + |t[p].data|
      else kept' == kept
  {
    var kept := KeptOf(t, entries, maxFileBytes);
    if IsKept(t, p, maxFileBytes) {
      assert KeptOf(t, entries + {p}, maxFileBytes) == kept[p := t[p].data];
      TotalSizeAdd(kept, p, t[p].data);
    } else {
      assert KeptOf(t, entries + {p}, maxFileBytes) == kept;
    }
  }

  /** One entry of the walk: counted, and copied when it is kept, the total stays within the limit and
      no other file is in the way. */
  method SnapshotOne(ws: Workspace, rel: Path, dir: SnapshotDir, maxFileBytes: u64, maxTotalBytes: u64, out: Outcome)
    returns (r: Result<Outcome, SnapshotError>)
    requires rel in ws.tree && rel != []
    modifies dir
    ensures r.Ok? <==>
      (IsKept(ws.tree, rel, maxFileBytes) ==> out.totalBytes + |ws.tree[rel].data| <= maxTotalBytes && !Clashes(old(dir.files), rel))
    ensures r.Ok? ==> r.value == CountOne(ws.tree, rel, maxFileBytes, out)
    ensures r.Err? ==>
      r.error == if out.totalBytes + |ws.tree[rel].data| > U64_MAX then SizeOverflow
                 else if out.totalBytes + |ws.tree[rel].data| > maxTotalBytes then ExceedsMaxTotalBytes
                 else CopyRefused
    ensures dir.files == if r.Ok? && IsKept(ws.tree, rel, maxFileBytes) then old(dir.files)[rel := ws.tree[rel].data]
                         else old(dir.files)
  {
    match ws.tree[rel] {
      case Link(_) =>
        return Ok(out.(symlinkCount := out.symlinkCount + 1));
      case Dir =>
        return Ok(out);
      case File(data) =>
        if IsSecret(rel) {
          return Ok(out.(secretCount := out.secretCount + 1));
        }
        if |data| > maxFileBytes {
          return Ok(out.(oversizeCount := out.oversizeCount + 1));
        }
        if out.totalBytes + |data| > U64_MAX {
          return Err(SizeOverflow);
        }
        var out' := out.(fileCount := out.fileCount + 1, totalBytes := out.totalBytes + |data|);
        if out'.totalBytes > maxTotalBytes {
          return Err(ExceedsMaxTotalBytes);
        }
        if Clashes(dir.files, rel) {
          return Err(CopyRefused);
        }
        dir.files := dir.files[rel := data];
        return Ok(out');
    }
  }

  /** The state of a snapshot after some entries, in a directory that held some files before. */
  ghost predicate Snapped(t: Tree, entries: set<Path>, maxFileBytes: nat, before: Snapshot, files: Snapshot, out: Outcome) {
    Counts(t, entries, maxFileBytes, out) && IsLaid(KeptOf(t, entries, maxFileBytes), before, files)
  }

  /** The kept files have been copied beside what was there. */
  ghost predicate IsLaid(kept: Snapshot, before: Snapshot, files: Snapshot) {
    files == before + kept && FitBeside(kept, before)
  }

  lemma LaidOneMore(kept: Snapshot, before: Snapshot, files: Snapshot, p: Path, data: Bytes)
    requires IsLaid(kept, before, files) && !Clashes(before, p)
    ensures IsLaid(kept[p := data], before, files[p := data])
  {
    assert before + kept[p := data] == (before + kept)[p := data];
  }

  /** A snapshot that stopped: some of the kept files are copied over what was there. */
  ghost predicate PartlySnapped(before: Snapshot, files: Snapshot, kept: Snapshot) {
    && before.Keys <= files.Keys <= before.Keys + kept.Keys
    && forall p <- files.Keys :: (p in before && files[p] == before[p]) || (p in kept && files[p] == kept[p])
  }

  /** Why a snapshot of these files stops. */
  ghost predicate Refused(error: SnapshotError, kept: Snapshot, before: Snapshot, maxTotalBytes: nat) {
    if error == CopyRefused then !FitBeside(kept, before) else maxTotalBytes < TotalSize(kept)
  }

  /** One more entry that is not kept, or whose copy nothing keeps out. */
  lemma SnappedOneMore(t: Tree, entries: set<Path>, rel: Path, maxFileBytes: nat, before: Snapshot, files: Snapshot, out: Outcome)
    requires WellFormed(t) && rel in t && rel !in entries && Snapped(t, entries, maxFileBytes, before, files, out)
    requires IsKept(t, rel, maxFileBytes) ==> !Clashes(files, rel)
    ensures Snapped(t, entries + {rel}, maxFileBytes, before,
      if IsKept(t, rel, maxFileBytes) then files[rel := t[rel].data] else files, CountOne(t, rel, maxFileBytes, out))
  {
    KeptOneMore(t, entries, rel, maxFileBytes);
    CountedOneMore(t, entries, rel, maxFileBytes, out);
    if IsKept(t, rel, maxFileBytes) {
      KeptDoNotClash(t, entries, maxFileBytes, before, rel);
      LaidOneMore(KeptOf(t, entries, maxFileBytes), before, files, rel, t[rel].data);
    }
  }

  /** A kept entry that is not copied is a reason why the whole snapshot cannot succeed. */
  lemma EntryRefused(t: Tree, entries: set<Path>, rel: Path, maxFileBytes: nat, walked: set<Path>, before: Snapshot,
                     files: Snapshot, out: Outcome)
    requires WellFormed(t) && rel !in entries && Snapped(t, entries, maxFileBytes, before, files, out)
    requires IsKept(t, rel, maxFileBytes) && entries + {rel} <= walked
    ensures PartlySnapped(before, files, KeptOf(t, walked, maxFileBytes))
    ensures out.totalBytes + |t[rel].data| <= TotalSize(KeptOf(t, walked, maxFileBytes))
    ensures Clashes(files, rel) ==> !FitBeside(KeptOf(t, walked, maxFileBytes), before)
  {
    KeptOneMore(t, entries, rel, maxFileBytes);
    KeptWithin(t, entries + {rel}, walked, maxFileBytes);
    KeptDoNotClash(t, entries, maxFileBytes, before, rel);
    var kept := KeptOf(t, entries, maxFileBytes);
    assert files.Keys == before.Keys + kept.Keys;
    assert rel in KeptOf(t, walked, maxFileBytes).Keys;
  }

  method SnapshotEntry(ws: Workspace, rel: Path, dir: SnapshotDir, maxFileBytes: u64, maxTotalBytes: u64, out: Outcome,
                       ghost entries: set<Path>, ghost walked: set<Path>, ghost before: Snapshot)
    returns (r: Result<Outcome, SnapshotError>)
    requires WellFormed(ws.tree) && rel in ws.tree && rel != [] && rel !in entries && entries + {rel} <= walked
    requires Snapped(ws.tree, entries, maxFileBytes, before, dir.files, out) && out.totalBytes <= maxTotalBytes
    modifies dir
    ensures r.Ok? ==> Snapped(ws.tree, entries + {rel}, maxFileBytes, before, dir.files, r.value)
    ensures r.Ok? ==> r.value.totalBytes <= maxTotalBytes
    ensures r.Err? ==> Refused(r.error, KeptOf(ws.tree, walked, maxFileBytes), before, maxTotalBytes)
    ensures r.Err? ==> PartlySnapped(before, dir.files, KeptOf(ws.tree, walked, maxFileBytes))
  {
    ghost var files := dir.files;
    r := SnapshotOne(ws, rel, dir, maxFileBytes, maxTotalBytes, out);
    CountedBytes(ws.tree, rel, maxFileBytes, out);
    if r.Ok? {
      SnappedOneMore(ws.tree, entries, rel, maxFileBytes, before, files, out);
    } else {
      EntryRefused(ws.tree, entries, rel, maxFileBytes, walked, before, files, out);
    }
  }

  lemma NothingSnapped(t: Tree, maxFileBytes: nat, before: Snapshot)
    ensures Snapped(t, {}, maxFileBytes, before, before, Outcome(0, 0, 0, 0, 0))
  {
    assert KeptOf(t, {}, maxFileBytes) == map[];
    assert before + map[] == before;
    assert Select({}, LinkIn(t)) == {} == Select({}, SecretIn(t)) == Select({}, OversizeIn(t, maxFileBytes));
  }

  method SnapshotEntries(ws: Workspace, walked: set<Path>, dir: SnapshotDir, maxFileBytes: u64, maxTotalBytes: u64)
    returns (r: Result<Outcome, SnapshotError>)
    requires WellFormed(ws.tree) && walked <= ws.tree.Keys && [] !in walked
    modifies dir
    ensures r.Err? ==> Refused(r.error, KeptOf(ws.tree, walked, maxFileBytes), old(dir.files), maxTotalBytes)
    ensures r.Err? ==> PartlySnapped(old(dir.files), dir.files, KeptOf(ws.tree, walked, maxFileBytes))
    ensures r.Ok? ==> Snapped(ws.tree, walked, maxFileBytes, old(dir.files), dir.files, r.value)
    ensures r.Ok? ==> r.value.totalBytes <= maxTotalBytes
  {
    var out, seen: set<Path> := Outcome(0, 0, 0, 0, 0), {};
    ghost var before := dir.files;
    NothingSnapped(ws.tree, maxFileBytes, before);
    while seen != walked
      invariant seen <= walked
      invariant Snapped(ws.tree, seen, maxFileBytes, before, dir.files, out) && out.totalBytes <= maxTotalBytes
      decreases walked - seen
    {
      assert walked - seen != {};
      var rel :| rel in walked - seen;
      var counted := SnapshotEntry(ws, rel, dir, maxFileBytes, maxTotalBytes, out, seen, walked, before);
      if counted.Err? {
        return Err(counted.error);
      }
      out := counted.value;
      seen := seen + {rel};
    }
    return Ok(out);
  }

  /** A snapshot succeeds exactly when the kept files together fit the limit, in whatever order they
      are met, and none is kept out by a file that was in the directory before; it then has added
      exactly those files. Every regular file walked is counted once, as kept, oversize or secret, and
      the size reported is the sum of the copied ones. */
  method SnapshotWorkspaceToDir(ws: Workspace, dir: SnapshotDir, maxFileBytes: u64, maxTotalBytes: u64)
    returns (r: Result<Outcome, SnapshotError>)
    requires WellFormed(ws.tree)
    modifies dir
    ensures var kept := Kept(ws.rootName, ws.tree, maxFileBytes);
      r.Ok? <==> TotalSize(kept) <= maxTotalBytes && FitBeside(kept, old(dir.files))
    ensures r.Ok? ==> dir.files == old(dir.files) + Kept(ws.rootName, ws.tree, maxFileBytes)
    ensures r.Ok? ==> Counts(ws.tree, WalkedEntries(ws.rootName, ws.tree), maxFileBytes, r.value)
    ensures r.Ok? ==>
      r.value.fileCount + r.value.oversizeCount + r.value.secretCount == |WalkedFiles(ws.rootName, ws.tree)|
    ensures r.Err? ==> Refused(r.error, Kept(ws.rootName, ws.tree, maxFileBytes), old(dir.files), maxTotalBytes)
    ensures r.Err? ==> PartlySnapped(old(dir.files), dir.files, Kept(ws.rootName, ws.tree, maxFileBytes))
  {
    r := SnapshotEntries(ws, WalkedEntries(ws.rootName, ws.tree), dir, maxFileBytes, maxTotalBytes);
    FilesAreCountedOnce(ws.rootName, ws.tree, maxFileBytes);
  }

  lemma KeptWithin(t: Tree, part: set<Path>, entries: set<Path>, maxFileBytes: nat)
    requires part <= entries
    ensures PartOf(KeptOf(t, part, maxFileBytes), KeptOf(t, entries, maxFileBytes))
    ensures TotalSize(KeptOf(t, part, maxFileBytes)) <= TotalSize(KeptOf(t, entries, maxFileBytes))
  {
    TotalSizeMonotone(KeptOf(t, part, maxFileBytes), KeptOf(t, entries, maxFileBytes));
  }

  lemma FilesAreCountedOnce(rootName: string, t: Tree, maxFileBytes: nat)
    ensures var walked := WalkedEntries(rootName, t);
      |KeptOf(t, walked, maxFileBytes)| + |Select(walked, OversizeIn(t, maxFileBytes))| + |Select(walked, SecretIn(t))|
      == |WalkedFiles(rootName, t)|
  {
    var walked := WalkedEntries(rootName, t);
    var kept := KeptOf(t, walked, maxFileBytes).Keys;
    var oversize, secrets := Select(walked, OversizeIn(t, maxFileBytes)), Select(walked, SecretIn(t));
    forall p | p in walked
      ensures p in WalkedFiles(rootName, t) <==> p in kept || p in oversize || p in secrets
    {
      assert t[p].File? <==> IsSecretFile(t, p) || IsOversize(t, p, maxFileBytes) || IsKept(t, p, maxFileBytes);
    }
    PartitionSize(WalkedFiles(rootName, t), kept, oversize, secrets);
  }

  lemma PartitionSize(all: set<Path>, a: set<Path>, b: set<Path>, c: set<Path>)
    requires a !! b && (a + b) !! c && forall p :: p in all <==> p in a || p in b || p in c
    ensures |a| + |b| + |c| == |all|
  {
    assert all == a + b + c;
  }
}
