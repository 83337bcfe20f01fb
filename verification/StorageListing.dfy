/** Listing the keys below a prefix (crates/core/src/storage.rs): a stack-driven walk of the tree. */
module StorageListing {
  import opened Basics
  import opened FileTree
  import opened StorageKeys
  import opened Storage
  import opened Text

  /** A file the walk reports. */
  predicate IsJsonFile(t: Tree, p: Path) {
    p in t && p != [] && t[p].File? && JsonStem(p[|p| - 1]).Some?
  }

  predicate IsChild(p: Path, dir: Path) {
    p != [] && Parent(p) == dir
  }

  predicate Distinct(ps: seq<Path>) {
    forall i, j :: 0 <= i < j < |ps| ==> ps[i] != ps[j]
  }

  /** One directory: its subdirectories and its `.json` files, each once, in any order. */
  method ReadDir(t: Tree, dir: Path) returns (dirs: seq<Path>, files: seq<Path>)
    ensures Distinct(dirs) && forall p :: p in dirs <==> p in t && IsChild(p, dir) && t[p].Dir?
    ensures Distinct(files) && forall p :: p in files <==> IsJsonFile(t, p) && IsChild(p, dir)
  {
    dirs, files := [], [];
    var children := set p <- t.Keys | IsChild(p, dir);
    var seen: set<Path> := {};
    while seen != children
      invariant seen <= children
      invariant Distinct(dirs) && forall p :: p in dirs <==> p in seen && t[p].Dir?
      invariant Distinct(files) && forall p :: p in files <==> p in seen && IsJsonFile(t, p)
      decreases children - seen
    {
      assert children - seen != {};
      var entry :| entry in children - seen;
      match t[entry] {
        case Dir => dirs := dirs + [entry];
        case File(_) =>
          if JsonStem(entry[|entry| - 1]).Some? {
            files := files + [entry];
          }
        case Link(_) =>
      }
      seen := seen + {entry};
    }
  }

  // ----- The walk -----

  ghost predicate IsBelow(p: Path, dirs: seq<Path>) {
    exists d <- dirs :: AtOrAbove(d, p) && d != p
  }

  /** The stack holds directories below the start, none above another. */
  ghost predicate IsStack(t: Tree, start: Path, stack: seq<Path>) {
    && (forall d <- stack :: AtOrAbove(start, d) && Lookup(t, d) == Some(Dir))
    && (forall i, j :: 0 <= i < |stack| && 0 <= j < |stack| && AtOrAbove(stack[i], stack[j]) ==> i == j)
  }

  /** What is still to come lies below the stack, what was reported does not. */
  ghost predicate Walked(t: Tree, start: Path, stack: seq<Path>, out: seq<Path>) {
    && Distinct(out) && (forall p <- out :: IsJsonFile(t, p) && AtOrAbove(start, p) && p != start && !IsBelow(p, stack))
    && (forall p <- t.Keys :: IsJsonFile(t, p) && AtOrAbove(start, p) && p != start ==> p in out || IsBelow(p, stack))
  }

  /** The directories still to be read. */
  ghost function Pending(t: Tree, stack: seq<Path>): set<Path> {
    set d <- t.Keys + {[]} | Lookup(t, d) == Some(Dir) && exists s <- stack :: AtOrAbove(s, d)
  }

  lemma ChildFacts(dir: Path, c: Path, p: Path)
    requires IsChild(c, dir)
    ensures AtOrAbove(dir, c) && dir != c && |c| == |dir| + 1
    ensures AtOrAbove(p, c) <==> p == c || AtOrAbove(p, dir)
    ensures AtOrAbove(c, p) ==> AtOrAbove(dir, p) && dir != p
  {
  }

  /** The entry of `dir` on the way to something below it. */
  lemma WayDown(t: Tree, dir: Path, p: Path) returns (c: Path)
    requires WellFormed(t) && p in t && AtOrAbove(dir, p) && dir != p
    ensures IsChild(c, dir) && AtOrAbove(c, p) && c in t && (c == p || t[c].Dir?)
  {
    c := p[..|dir| + 1];
    if c != p {
      AncestorsAreDirs(t, c, p);
    }
  }

  lemma PopKeepsStack(t: Tree, start: Path, stack: seq<Path>, dir: Path, dirs: seq<Path>)
    requires IsStack(t, start, stack + [dir])
    requires Distinct(dirs) && forall p :: p in dirs <==> p in t && IsChild(p, dir) && t[p].Dir?
    ensures IsStack(t, start, stack + dirs)
  {
    var before, after, n := stack + [dir], stack + dirs, |stack|;
    forall i, j | 0 <= i < |after| && 0 <= j < |after| && AtOrAbove(after[i], after[j]) ensures i == j {
      assert i < n ==> before[i] == after[i];
      assert j < n ==> before[j] == after[j];
      assert before[n] == dir;
      if n <= i {
        assert after[i] in dirs;
        ChildFacts(dir, after[i], after[j]);
      }
      if n <= j {
        assert after[j] in dirs;
        ChildFacts(dir, after[j], after[i]);
      }
    }
    forall d | d in after ensures AtOrAbove(start, d) && Lookup(t, d) == Some(Dir) {
      assert before[n] == dir && dir in before;
      if d in dirs {
        ChildFacts(dir, d, start);
      } else {
        assert d in before;
      }
    }
  }

  lemma PopShrinks(t: Tree, start: Path, stack: seq<Path>, dir: Path, dirs: seq<Path>)
    requires IsStack(t, start, stack + [dir])
    requires forall p :: p in dirs <==> p in t && IsChild(p, dir) && t[p].Dir?
    ensures Pending(t, stack + dirs) < Pending(t, stack + [dir])
  {
    var before, after, n := stack + [dir], stack + dirs, |stack|;
    assert before[n] == dir && dir in before;
    forall d | d in Pending(t, after) ensures d in Pending(t, before) && d != dir {
      var s :| s in after && AtOrAbove(s, d);
      if s in dirs {
        ChildFacts(dir, s, d);
      } else {
        var i :| 0 <= i < n && stack[i] == s;
        assert before[i] == s;
      }
    }
    assert dir in Pending(t, before);
  }

  /** A file below the popped directory is one of its own or lies below a subdirectory; one of its own
      lies below nothing on the new stack. */
  lemma BelowPopped(t: Tree, start: Path, stack: seq<Path>, dir: Path, dirs: seq<Path>, p: Path)
    requires WellFormed(t) && IsStack(t, start, stack + [dir]) && p in t
    requires forall d :: d in dirs <==> d in t && IsChild(d, dir) && t[d].Dir?
    ensures IsBelow(p, stack + [dir]) <==> IsChild(p, dir) || IsBelow(p, stack + dirs)
    ensures IsChild(p, dir) ==> !IsBelow(p, stack + dirs) && p != start
  {
    var before, after := stack + [dir], stack + dirs;
    assert dir in before && before[|stack|] == dir;
    if AtOrAbove(dir, p) && dir != p {
      var c := WayDown(t, dir, p);
      assert c != p ==> c in dirs && c in after;
    }
    if IsBelow(p, after) {
      var d :| d in after && AtOrAbove(d, p) && d != p;
      if d in dirs {
        ChildFacts(dir, d, p);
      } else {
        var i :| 0 <= i < |stack| && stack[i] == d;
        assert before[i] == d && d in before;
        assert !AtOrAbove(before[i], before[|stack|]);
        if IsChild(p, dir) {
          ChildFacts(dir, p, d);
          assert false;
        }
      }
    }
    if IsBelow(p, before) && !IsChild(p, dir) {
      var d :| d in before && AtOrAbove(d, p) && d != p;
      assert d == dir || d in after;
    }
  }

  lemma PopKeepsWalked(t: Tree, start: Path, stack: seq<Path>, dir: Path, out: seq<Path>, dirs: seq<Path>, files: seq<Path>)
    requires WellFormed(t) && IsStack(t, start, stack + [dir]) && Walked(t, start, stack + [dir], out)
    requires forall p :: p in dirs <==> p in t && IsChild(p, dir) && t[p].Dir?
    requires Distinct(files) && forall p :: p in files <==> IsJsonFile(t, p) && IsChild(p, dir)
    ensures Walked(t, start, stack + dirs, out + files)
  {
    var after := stack + dirs;
    forall p | p in out + files
      ensures IsJsonFile(t, p) && AtOrAbove(start, p) && p != start && !IsBelow(p, after)
    {
      BelowPopped(t, start, stack, dir, dirs, p);
      assert (stack + [dir])[|stack|] == dir;
      if p !in out {
        ChildFacts(dir, p, start);
      }
    }
    forall p | p in t.Keys && IsJsonFile(t, p) && AtOrAbove(start, p) && p != start ensures p in out + files || IsBelow(p, after) {
      BelowPopped(t, start, stack, dir, dirs, p);
    }
    forall p | p in out ensures p !in files {
      BelowPopped(t, start, stack, dir, dirs, p);
    }
    DistinctTogether(out, files);
  }

  lemma DistinctTogether(a: seq<Path>, b: seq<Path>)
    requires Distinct(a) && Distinct(b) && forall p <- a :: p !in b
    ensures Distinct(a + b)
  {
    forall i, j | 0 <= i < j < |a + b| ensures (a + b)[i] != (a + b)[j] {
      if i < |a| <= j {
        assert a[i] in a && b[j - |a|] in b;
      }
    }
  }

  method ListJsonFiles(t: Tree, start: Path) returns (out: seq<Path>)
    requires WellFormed(t) && Lookup(t, start) == Some(Dir)
    ensures Distinct(out) && forall p :: p in out <==> IsJsonFile(t, p) && AtOrAbove(start, p) && p != start
  {
    var stack := [start];
    out := [];
    while stack != []
      invariant IsStack(t, start, stack) && Walked(t, start, stack, out)
      decreases Pending(t, stack)
    {
      var dir := stack[|stack| - 1];
      ghost var before := stack;
      stack := stack[..|stack| - 1];
      assert before == stack + [dir];
      var dirs, files := ReadDir(t, dir);
      PopKeepsStack(t, start, stack, dir, dirs);
      PopShrinks(t, start, stack, dir, dirs);
      PopKeepsWalked(t, start, stack, dir, out, dirs, files);
      stack := stack + dirs;
      out := out + files;
    }
  }

  // ----- Sorting keys -----

  predicate Ascending(keys: seq<string>) {
    forall i, j :: 0 <= i < j < |keys| ==> Precedes(keys[i], keys[j])
  }

  lemma AscendingComesBefore(keys: seq<string>)
    requires Ascending(keys)
    ensures forall i, j :: 0 <= i < j < |keys| ==> ComesBefore(keys[i], keys[j])
  {
    forall i, j | 0 <= i < j < |keys| ensures ComesBefore(keys[i], keys[j]) {
      PrecedesExactly(keys[i], keys[j]);
    }
  }

  method Insert(keys: seq<string>, key: string) returns (r: seq<string>)
    requires Ascending(keys) && key !in keys
    ensures Ascending(r) && forall k :: k in r <==> k in keys || k == key
  {
    var i := 0;
    while i < |keys| && Precedes(keys[i], key)
      invariant 0 <= i <= |keys| && forall j :: 0 <= j < i ==> Precedes(keys[j], key)
    {
      i := i + 1;
    }
    forall j | i <= j < |keys| ensures Precedes(key, keys[j]) {
      PrecedesIsTotal(keys[i], key);
      if i < j {
        PrecedesIsTransitive(key, keys[i], keys[j]);
      }
    }
    assert keys == keys[..i] + keys[i..];
    r := keys[..i] + [key] + keys[i..];
  }

  method Sort(keys: seq<string>) returns (r: seq<string>)
    requires forall i, j :: 0 <= i < j < |keys| ==> keys[i] != keys[j]
    ensures Ascending(r) && forall k :: k in r <==> k in keys
  {
    r := [];
    for i := 0 to |keys|
      invariant Ascending(r) && forall k :: k in r <==> k in keys[..i]
    {
      assert keys[..i + 1] == keys[..i] + [keys[i]];
      r := Insert(r, keys[i]);
    }
    assert keys[..|keys|] == keys;
  }

  // ----- Listing a prefix -----

  predicate IsPrefixSegment(s: string) {
    s != "." && s != ".." && '\\' !in s
  }

  function NonEmpty(pieces: seq<string>): Path {
    if pieces == [] then []
    else NonEmpty(pieces[..|pieces| - 1]) + (if pieces[|pieces| - 1] == "" then [] else [pieces[|pieces| - 1]])
  }

  lemma {:induction false} NonEmptyOfTwo(a: seq<string>, b: seq<string>)
    ensures NonEmpty(a + b) == NonEmpty(a) + NonEmpty(b)
  {
    if b == [] {
      assert a + b == a;
    } else {
      NonEmptyOfTwo(a, b[..|b| - 1]);
      assert (a + b)[..|a + b| - 1] == a + b[..|b| - 1];
    }
  }

  /** Each empty segment is skipped and every other one kept in its place. */
  lemma EmptyIsSkipped(front: seq<string>, piece: string, back: seq<string>)
    ensures NonEmpty(front + [piece] + back) == NonEmpty(front) + (if piece == "" then [] else [piece]) + NonEmpty(back)
  {
    NonEmptyOfTwo(front + [piece], back);
    NonEmptyOfTwo(front, [piece]);
    assert [piece][..0] == [];
  }

  method PrefixDir(prefix: string) returns (r: Option<Path>)
    ensures r == if forall s <- Split(prefix) :: IsPrefixSegment(s) then Some(NonEmpty(Split(prefix))) else None
    ensures r.None? <==> exists s <- Split(prefix) :: s in {".", ".."} || '\\' in s
  {
    var pieces, dir := Split(prefix), [];
    for i := 0 to |pieces|
      invariant PassedSegments(pieces[..i], dir)
    {
      NextSegment(pieces, i, dir);
      if pieces[i] == "" {
        continue;
      }
      if !IsPrefixSegment(pieces[i]) {
        return None;
      }
      dir := dir + [pieces[i]];
    }
    assert pieces[..|pieces|] == pieces;
    return Some(dir);
  }

  predicate PassedSegments(pieces: seq<string>, dir: Path) {
    dir == NonEmpty(pieces) && forall s <- pieces :: IsPrefixSegment(s)
  }

  lemma NextSegment(pieces: seq<string>, i: nat, dir: Path)
    requires i < |pieces| && PassedSegments(pieces[..i], dir)
    ensures pieces[i] in pieces
    ensures IsPrefixSegment(pieces[i]) ==> PassedSegments(pieces[..i + 1], if pieces[i] == "" then dir else dir + [pieces[i]])
  {
    assert pieces[..i + 1][..i] == pieces[..i];
    assert pieces[..i + 1] == pieces[..i] + [pieces[i]];
  }

  /** A file below the directory that the listing reports as this key. */
  ghost predicate IsListed(t: Tree, dir: Path, p: Path, key: string) {
    IsJsonFile(t, p) && AtOrAbove(dir, p) && p != dir && PathToKey(p) == Some(key)
  }

  ghost predicate IsReported(t: Tree, dir: Path, key: string) {
    exists p <- t.Keys :: IsListed(t, dir, p, key)
  }

  ghost predicate IsKeyBelow(t: Tree, key: string, dir: Path) {
    Content(t, key).Some? && dir < Split(key)
  }

  lemma FileIsKey(t: Tree, dir: Path, p: Path)
    requires IsJsonFile(t, p) && IsStored(p, t[p]) && AtOrAbove(dir, p) && p != dir
    ensures PathToKey(p).Some? && IsKeyBelow(t, PathToKey(p).value, dir)
  {
    var segments := p[..|p| - 1] + [JsonStem(p[|p| - 1]).value];
    forall s | s in segments ensures IsSegment(s) {
      assert s in p[..|p| - 1] ==> s in p && IsStoredName(s);
    }
    assert forall name <- p :: IsStoredName(name);
    PathRoundTrip(p);
  }

  lemma KeyIsFile(t: Tree, dir: Path, key: string)
    requires IsKeyBelow(t, key, dir)
    ensures IsReported(t, dir, key)
  {
    KeyPathFacts(key);
    KeyRoundTrip(key);
    assert IsListed(t, dir, KeyPath(key).value, key);
  }

  /** In a tree that only puts have written to, the reported keys are the stored ones. */
  lemma ReportedAreStored(t: Tree, dir: Path, key: string)
    requires StoreTree(t)
    ensures IsReported(t, dir, key) <==> IsKeyBelow(t, key, dir)
  {
    if IsReported(t, dir, key) {
      var p :| p in t.Keys && IsListed(t, dir, p, key);
      assert IsStored(p, t[p]);
      FileIsKey(t, dir, p);
    }
    if IsKeyBelow(t, key, dir) {
      KeyIsFile(t, dir, key);
    }
  }

  predicate SlashFree(p: Path) {
    forall name <- p :: '/' !in name
  }

  /** No name has a slash in it. */
  ghost predicate HasPlainNames(t: Tree) {
    forall p <- t.Keys :: SlashFree(p)
  }

  lemma JsonFileHasKey(t: Tree, p: Path)
    requires IsJsonFile(t, p)
    ensures PathToKey(p).Some?
  {
    var last := p[|p| - 1];
    assert last == JsonStem(last).value + ".json";
    assert HasSuffix(Join(p), ".json") by {
      assert Join(p)[|Join(p)| - |last|..] == last;
    }
  }

  lemma KeysDiffer(p: Path, q: Path)
    requires p != [] && q != [] && SlashFree(p) && SlashFree(q) && PathToKey(p).Some? && PathToKey(p) == PathToKey(q)
    ensures p == q
  {
    var key := PathToKey(p).value;
    assert Join(p) == key + ".json" == Join(q);
    SplitJoin(p);
    SplitJoin(q);
  }

  method KeysOf(t: Tree, dir: Path, files: seq<Path>) returns (keys: seq<string>)
    requires HasPlainNames(t) && Distinct(files)
    requires forall p :: p in files <==> IsJsonFile(t, p) && AtOrAbove(dir, p) && p != dir
    ensures forall i, j :: 0 <= i < j < |keys| ==> keys[i] != keys[j]
    ensures forall key :: key in keys <==> IsReported(t, dir, key)
  {
    keys := [];
    for i := 0 to |files|
      invariant |keys| == i && forall j :: 0 <= j < i ==> IsListed(t, dir, files[j], keys[j])
    {
      assert files[i] in files;
      JsonFileHasKey(t, files[i]);
      var key := PathToKey(files[i]);
      keys := keys + [key.value];
    }
    AllKeysBelow(t, dir, files, keys);
  }

  lemma AllKeysBelow(t: Tree, dir: Path, files: seq<Path>, keys: seq<string>)
    requires HasPlainNames(t) && Distinct(files) && |keys| == |files|
    requires forall p :: p in files <==> IsJsonFile(t, p) && AtOrAbove(dir, p) && p != dir
    requires forall j :: 0 <= j < |keys| ==> IsListed(t, dir, files[j], keys[j])
    ensures forall i, j :: 0 <= i < j < |keys| ==> keys[i] != keys[j]
    ensures forall key :: key in keys <==> IsReported(t, dir, key)
  {
    forall i, j | 0 <= i < j < |keys| ensures keys[i] != keys[j] {
      assert IsListed(t, dir, files[i], keys[i]) && IsListed(t, dir, files[j], keys[j]);
      if keys[i] == keys[j] {
        KeysDiffer(files[i], files[j]);
      }
    }
    forall key ensures key in keys <==> IsReported(t, dir, key) {
      if IsReported(t, dir, key) {
        var p :| p in t.Keys && IsListed(t, dir, p, key);
        var i :| 0 <= i < |files| && files[i] == p;
        assert IsListed(t, dir, files[i], keys[i]);
      }
      if key in keys {
        var i :| 0 <= i < |keys| && keys[i] == key;
        assert IsListed(t, dir, files[i], keys[i]);
      }
    }
  }

  /** Sorted and without duplicates, exactly the keys of the files whose path strictly extends the
      prefix's nonempty segments; where only puts have written, these are the stored keys. A prefix
      below a file is an error. */
  method ListPrefix(t: Tree, prefix: string) returns (r: Result<seq<string>, StorageError>)
    requires WellFormed(t) && HasPlainNames(t) && NoLinkTo(t, NonEmpty(Split(prefix)))
    ensures r == Err(InvalidSegment) <==> exists s <- Split(prefix) :: s in {".", ".."} || '\\' in s
    ensures r == Err(NotRead) <==>
      var dir := NonEmpty(Split(prefix)); (forall s <- Split(prefix) :: IsPrefixSegment(s)) && dir !in t && !NoneInTheWay(t, dir)
    ensures r.Ok? ==> forall i, j :: 0 <= i < j < |r.value| ==> ComesBefore(r.value[i], r.value[j])
    ensures r.Ok? ==> forall key :: key in r.value <==> IsReported(t, NonEmpty(Split(prefix)), key)
    ensures r.Ok? && StoreTree(t) ==> forall key :: key in r.value <==> IsKeyBelow(t, key, NonEmpty(Split(prefix)))
    ensures r.Err? ==> r.error in {InvalidSegment, NotRead}
  {
    var found := PrefixDir(prefix);
    if found.None? {
      return Err(InvalidSegment);
    }
    var dir := found.value;
    StatExact(t, dir);
    if StoreTree(t) {
      forall key ensures IsReported(t, dir, key) <==> IsKeyBelow(t, key, dir) {
        ReportedAreStored(t, dir, key);
      }
    }
    match Stat(t, dir) {
      case Found(Dir) =>
        var files := ListJsonFiles(t, dir);
        var keys := KeysOf(t, dir, files);
        keys := Sort(keys);
        AscendingComesBefore(keys);
        return Ok(keys);
      case BelowAFile =>
        return Err(NotRead);
      case _ =>
        NothingBelowNoDir(t, dir);
        return Ok([]);
    }
  }

  lemma NothingBelowNoDir(t: Tree, dir: Path)
    requires WellFormed(t) && Lookup(t, dir) != Some(Dir)
    ensures forall key :: !IsReported(t, dir, key)
  {
    forall key ensures !IsReported(t, dir, key) {
      if IsReported(t, dir, key) {
        var p :| p in t.Keys && IsListed(t, dir, p, key);
        AncestorsAreDirs(t, dir, p);
      }
    }
  }
}
