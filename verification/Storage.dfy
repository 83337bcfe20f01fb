/**
 The file-backed key/value store (crates/core/src/storage.rs). A put writes a temporary file and
 renames it over the key's file; the theorems are that the store behaves as a map from keys to
 values and that a crash in the middle of a put leaves every key at its old or its new value.
 */
module Storage {
  import opened Basics
  import opened FileTree
  import opened FileOps
  import opened StorageKeys

  /** How values are printed and parsed. */
  datatype ValueCodec<!V> = ValueCodec(encode: V -> Bytes, decode: Bytes -> Option<V>)

  ghost predicate Faithful<V(!new)>(codec: ValueCodec<V>) {
    forall v: V :: codec.decode(codec.encode(v)) == Some(v)
  }

  datatype StorageError = InvalidSegment | NotCreated | NotRenamed | NotRead | NotParsed

  /** The text of a version 4 UUID holds no dot. */
  predicate IsUuid(s: string) {
    |s| == 36 && '.' !in s && '/' !in s && '\\' !in s
  }

  /** `x.json` becomes `x.json.tmp.<uuid>`, in the same directory. */
  function TempPath(path: Path, uuid: string): Path
    requires path != []
  {
    Parent(path) + [path[|path| - 1] + ".tmp." + uuid]
  }

  /** No two puts share a temporary file, and none is another put's file. */
  lemma TempIsOwn(path: Path, uuid: string, path': Path, uuid': string)
    requires path != [] && path' != [] && IsUuid(uuid) && IsUuid(uuid')
    ensures TempPath(path, uuid) == TempPath(path', uuid') ==> path == path' && uuid == uuid'
    ensures HasSuffix(path'[|path'| - 1], ".json") ==> TempPath(path, uuid) != path'
  {
    var a, b := path[|path| - 1] + ".tmp." + uuid, path'[|path'| - 1] + ".tmp." + uuid';
    assert TempPath(path, uuid)[|path| - 1] == a && TempPath(path', uuid')[|path'| - 1] == b;
    assert a[|a| - 36..] == uuid && b[|b| - 36..] == uuid';
    if TempPath(path, uuid) == TempPath(path', uuid') {
      assert a == b && Parent(TempPath(path, uuid)) == Parent(path) && Parent(TempPath(path', uuid')) == Parent(path');
      assert a[..|a| - 41] == path[|path| - 1] && b[..|b| - 41] == path'[|path'| - 1];
      assert path == Parent(path) + [path[|path| - 1]] && path' == Parent(path') + [path'[|path'| - 1]];
    }
    assert a[|a| - 5] == uuid[31] && a[|a| - 5..][0] == a[|a| - 5];
  }

  // ----- What a tree stores -----

  predicate IsStoredName(name: string) {
    IsSegment(name) && '/' !in name
  }

  /** A tree that only puts have written to, interrupted ones included. */
  ghost predicate StoreTree(t: Tree) {
    WellFormed(t) && HasNoLinks(t) && forall p <- t.Keys :: IsStored(p, t[p])
  }

  ghost predicate IsStored(p: Path, node: Node) {
    && p != [] && (forall name <- p :: IsStoredName(name))
    && (node.File? && JsonStem(p[|p| - 1]).Some? ==> IsStoredName(JsonStem(p[|p| - 1]).value))
  }

  /** The bytes stored under a key. */
  function Content(t: Tree, key: string): Option<Bytes> {
    match KeyPath(key)
    case None => None
    case Some(p) => if p in t && t[p].File? then Some(t[p].data) else None
  }

  /** A put on `path` goes through: only directories above it, and no directory at it. */
  ghost predicate Accepts(t: Tree, path: Path)
    requires path != []
  {
    NoneInTheWay(t, Parent(path)) && Lookup(t, path) != Some(Dir)
  }

  /** The trees a put can leave when it is cut short: some of the directories, then a temporary file of
      any content, then the new file. */
  ghost predicate MidPut(t: Tree, path: Path, uuid: string, data: Bytes, after: Tree)
    requires path != []
  {
    || MakingDirs(t, Parent(path), after)
    || (exists part :: HasTemp(t, path, uuid, part, after))
    || (Accepts(t, path) && after == Placed(t, path, data))
  }

  ghost predicate HasTemp(t: Tree, path: Path, uuid: string, part: Bytes, after: Tree)
    requires path != []
  {
    NoneInTheWay(t, Parent(path)) && after == WithDirs(t, Parent(path))[TempPath(path, uuid) := File(part)]
  }

  lemma KeyPathFacts(key: string)
    requires KeyPath(key).Some?
    ensures var p := KeyPath(key).value;
      && p != [] && (forall name <- p :: IsStoredName(name))
      && HasSuffix(p[|p| - 1], ".json") && JsonStem(p[|p| - 1]).Some? && IsStoredName(JsonStem(p[|p| - 1]).value)
  {
    var segments, p := Split(key), KeyPath(key).value;
    var last := segments[|segments| - 1];
    assert last in segments && p[|p| - 1] == last + ".json";
    assert (last + ".json")[..|last|] == last;
    forall name | name in p ensures IsStoredName(name) {
      if name in segments {
      } else {
        assert name == last + ".json";
        assert name[|last| + 4] == 'n';
      }
    }
  }

  lemma TempIsNoKey(path: Path, uuid: string, key: string)
    requires path != [] && IsUuid(uuid) && KeyPath(key).Some?
    ensures TempPath(path, uuid) != KeyPath(key).value
    ensures JsonStem(TempPath(path, uuid)[|path| - 1]).None?
  {
    KeyPathFacts(key);
    var name := path[|path| - 1] + ".tmp." + uuid;
    assert TempPath(path, uuid)[|path| - 1] == name;
    assert name[|name| - 5] == uuid[31];
  }

  // ----- Crashes -----

  lemma DirsKeepStore(t: Tree, p: Path)
    requires StoreTree(t) && NoneInTheWay(t, p) && forall name <- p :: IsStoredName(name)
    ensures StoreTree(WithDirs(t, p)) && forall k :: Content(WithDirs(t, p), k) == Content(t, k)
  {
    WithDirsKeepsWellFormed(t, p);
    var t' := WithDirs(t, p);
    forall q | q in t'.Keys ensures !t'[q].Link? && IsStored(q, t'[q]) {
      if q in t {
        assert IsStored(q, t[q]);
      } else {
        assert AtOrAbove(q, p) && forall name <- q :: name in p;
      }
    }
  }

  lemma FileKeepsStore(t: Tree, p: Path, data: Bytes)
    requires StoreTree(t) && p != [] && IsStored(p, File(data)) && Lookup(t, Parent(p)) == Some(Dir) && Lookup(t, p) != Some(Dir)
    ensures StoreTree(t[p := File(data)])
  {
    var t' := t[p := File(data)];
    forall q | q in t'.Keys ensures q != [] && Lookup(t', Parent(q)) == Some(Dir) && !t'[q].Link? && IsStored(q, t'[q]) {
      if q in t {
        assert Lookup(t, Parent(q)) == Some(Dir) && IsStored(q, t[q]);
      }
    }
  }

  lemma TempIsStored(key: string, uuid: string, part: Bytes)
    requires KeyPath(key).Some? && IsUuid(uuid)
    ensures IsStored(TempPath(KeyPath(key).value, uuid), File(part))
  {
    var path := KeyPath(key).value;
    KeyPathFacts(key);
    TempIsNoKey(path, uuid, key);
    var temp := TempPath(path, uuid);
    forall name | name in temp ensures IsStoredName(name) {
      if name !in path {
        assert name == path[|path| - 1] + ".tmp." + uuid;
        assert path[|path| - 1] in path;
      }
    }
  }

  /** However far a put came, every key has its old value or, for the key put, the new one. */
  lemma CrashLeavesOldOrNew(t: Tree, key: string, uuid: string, data: Bytes, after: Tree, k: string)
    requires StoreTree(t) && IsUuid(uuid) && KeyPath(key).Some?
    requires TempPath(KeyPath(key).value, uuid) !in t && MidPut(t, KeyPath(key).value, uuid, data, after)
    ensures StoreTree(after)
    ensures Content(after, k) == Content(t, k) || (k == key && Content(after, k) == Some(data))
    ensures Accepts(t, KeyPath(key).value) && after == Placed(t, KeyPath(key).value, data) ==>
      Content(after, k) == if k == key then Some(data) else Content(t, k)
  {
    var path := KeyPath(key).value;
    KeyPathFacts(key);
    assert forall name <- Parent(path) :: name in path;
    if MakingDirs(t, Parent(path), after) {
      var q :| AtOrAbove(q, Parent(path)) && NoneInTheWay(t, q) && after == WithDirs(t, q);
      assert forall name <- q :: name in path;
      DirsKeepStore(t, q);
    }
    if exists part :: HasTemp(t, path, uuid, part, after) {
      var part :| HasTemp(t, path, uuid, part, after);
      TempKeepsStore(t, key, uuid, part, k);
    }
    if Accepts(t, path) && after == Placed(t, path, data) {
      PlacedStores(t, key, data, k);
    }
  }

  lemma TempKeepsStore(t: Tree, key: string, uuid: string, part: Bytes, k: string)
    requires StoreTree(t) && IsUuid(uuid) && KeyPath(key).Some? && NoneInTheWay(t, Parent(KeyPath(key).value))
    requires TempPath(KeyPath(key).value, uuid) !in t
    ensures var after := WithDirs(t, Parent(KeyPath(key).value))[TempPath(KeyPath(key).value, uuid) := File(part)];
      StoreTree(after) && Content(after, k) == Content(t, k)
  {
    var path := KeyPath(key).value;
    KeyPathFacts(key);
    assert forall name <- Parent(path) :: name in path;
    DirsKeepStore(t, Parent(path));
    WithDirsKeepsWellFormed(t, Parent(path));
    TempIsStored(key, uuid, part);
    var temp := TempPath(path, uuid);
    assert Parent(temp) == Parent(path) && !AtOrAbove(temp, Parent(path));
    FileKeepsStore(WithDirs(t, Parent(path)), temp, part);
    if KeyPath(k).Some? {
      TempIsNoKey(path, uuid, k);
    }
  }

  lemma PlacedStores(t: Tree, key: string, data: Bytes, k: string)
    requires StoreTree(t) && KeyPath(key).Some? && Accepts(t, KeyPath(key).value)
    ensures StoreTree(Placed(t, KeyPath(key).value, data))
    ensures Content(Placed(t, KeyPath(key).value, data), k) == if k == key then Some(data) else Content(t, k)
  {
    var path := KeyPath(key).value;
    KeyPathFacts(key);
    assert forall name <- Parent(path) :: name in path;
    DirsKeepStore(t, Parent(path));
    WithDirsKeepsWellFormed(t, Parent(path));
    assert !AtOrAbove(path, Parent(path));
    FileKeepsStore(WithDirs(t, Parent(path)), path, data);
    if KeyPath(k) == Some(path) {
      KeysHaveTheirOwnFiles(k, key);
    }
  }

  // ----- The store -----

  class FsStorage<V(!new)> {
    const codec: ValueCodec<V>
    var tree: Tree

    constructor (codec: ValueCodec<V>)
      ensures this.codec == codec && tree == map[]
    {
      this.codec, tree := codec, map[];
    }

    /** `uuid` is new. The put goes through exactly when nothing is in its way. It goes from the old tree
        to the new one by single operations, refused or not, and every tree on the way is one a crash
        may leave. */
    method PutJson(key: string, value: V, uuid: string) returns (r: Result<(), StorageError>, ghost steps: seq<Tree>)
      requires WellFormed(tree) && HasNoLinks(tree) && IsUuid(uuid)
      requires KeyPath(key).Some? ==> TempPath(KeyPath(key).value, uuid) !in tree
      modifies this`tree
      ensures r.Ok? <==> KeyPath(key).Some? && Accepts(old(tree), KeyPath(key).value)
      ensures tree == if r.Ok? then Placed(old(tree), KeyPath(key).value, codec.encode(value)) else old(tree)
      ensures r == Err(InvalidSegment) <==> KeyPath(key).None?
      ensures r == Err(NotCreated) <==> KeyPath(key).Some? && !NoneInTheWay(old(tree), Parent(KeyPath(key).value))
      ensures r.Err? ==> r.error in {InvalidSegment, NotCreated, NotRenamed}
      ensures LeadsTo(old(tree), steps, tree)
      ensures if KeyPath(key).None? then steps == [tree]
              else forall step <- steps :: MidPut(old(tree), KeyPath(key).value, uuid, codec.encode(value), step)
    {
      var found := KeyToPath(key);
      if found.None? {
        NoStep(tree);
        return Err(InvalidSegment), [tree];
      }
      KeyPathFacts(key);
      r, steps := PutFile(found.value, codec.encode(value), uuid);
    }

    method PutFile(path: Path, bytes: Bytes, uuid: string) returns (r: Result<(), StorageError>, ghost steps: seq<Tree>)
      requires WellFormed(tree) && HasNoLinks(tree) && path != [] && TempPath(path, uuid) !in tree
      modifies this`tree
      ensures r.Ok? <==> Accepts(old(tree), path)
      ensures tree == if r.Ok? then Placed(old(tree), path, bytes) else old(tree)
      ensures r == Err(NotCreated) <==> !NoneInTheWay(old(tree), Parent(path))
      ensures r.Err? ==> r.error in {NotCreated, NotRenamed}
      ensures LeadsTo(old(tree), steps, tree)
      ensures forall step <- steps :: MidPut(old(tree), path, uuid, bytes, step)
    {
      PutFacts(tree, path, uuid);
      var made;
      made, steps := MakeDirs(tree, Parent(path));
      if made.None? {
        return Err(NotCreated), steps;
      }
      tree := made.value;
      ghost var more;
      r, more := WriteAndRename(path, bytes, TempPath(path, uuid));
      WrittenIsMidPut(old(tree), path, uuid, bytes, more);
      StepsJoin(old(tree), steps, made.value, more, tree);
      steps := steps + more[1..];
    }

    method WriteAndRename(path: Path, bytes: Bytes, temp: Path) returns (r: Result<(), StorageError>, ghost steps: seq<Tree>)
      requires temp !in tree && temp != path && temp != [] && path != [] && Parent(temp) == Parent(path)
      requires Lookup(tree, Parent(path)) == Some(Dir) && (path in tree ==> !tree[path].Link?)
      modifies this`tree
      ensures r.Ok? <==> Lookup(old(tree), path) != Some(Dir)
      ensures tree == if r.Ok? then old(tree)[path := File(bytes)] else old(tree)
      ensures r.Err? ==> r.error == NotRenamed
      ensures LeadsTo(old(tree), steps, tree) && steps == [old(tree), old(tree)[temp := File(bytes)], tree]
    {
      NoStep(tree);
      OneStepMore(tree, [tree], tree, WriteFile(temp, bytes));
      steps := [tree, tree[temp := File(bytes)]];
      tree := tree[temp := File(bytes)];
      if Lookup(tree, path) == Some(Dir) {
        OneStepMore(old(tree), steps, tree, RemoveFile(temp));
        tree := tree - {temp};
        r := Err(NotRenamed);
      } else {
        OneStepMore(old(tree), steps, tree, Rename(temp, path));
        tree := (tree - {temp})[path := File(bytes)];
        r := Ok(());
      }
      steps := steps + [tree];
    }

    method GetJson(key: string) returns (r: Result<Option<V>, StorageError>)
      requires WellFormed(tree) && HasNoLinks(tree)
      ensures r == Fetched(codec, tree, key)
      ensures r == Err(InvalidSegment) <==> KeyPath(key).None?
      ensures KeyPath(key).Some? ==> var p := KeyPath(key).value;
        && (r == Err(NotRead) <==> if p in tree then tree[p].Dir? else !NoneInTheWay(tree, p))
        && (r == Err(NotParsed) <==> p in tree && tree[p].File? && codec.decode(tree[p].data) == None)
        && (r == Ok(None) <==> p !in tree && NoneInTheWay(tree, p))
        && (r.Ok? && r.value.Some? ==> p in tree && tree[p].File? && r.value == codec.decode(tree[p].data))
    {
      var path := KeyToPath(key);
      if path.None? {
        return Err(InvalidSegment);
      }
      StatExact(tree, path.value);
      match Stat(tree, path.value) {
        case NotFound =>
          return Ok(None);
        case Found(File(data)) =>
          var value := codec.decode(data);
          return if value.None? then Err(NotParsed) else Ok(value);
        case _ =>
          return Err(NotRead);
      }
    }
  }

  /** The stored value; nothing for a key whose place is free; an error when a directory is in the
      place of the file, or a file in the place of a directory above it. */
  ghost function Fetched<V>(codec: ValueCodec<V>, t: Tree, key: string): Result<Option<V>, StorageError> {
    match KeyPath(key)
    case None => Err(InvalidSegment)
    case Some(p) =>
      if p !in t then if NoneInTheWay(t, p) then Ok(None) else Err(NotRead)
      else if !t[p].File? then Err(NotRead)
      else if codec.decode(t[p].data).None? then Err(NotParsed) else Ok(codec.decode(t[p].data))
  }

  /** The trees after the directories are made. */
  lemma WrittenIsMidPut(t: Tree, path: Path, uuid: string, bytes: Bytes, steps: seq<Tree>)
    requires path != [] && NoneInTheWay(t, Parent(path)) && |steps| == 3
    requires var made := WithDirs(t, Parent(path));
      && steps[0] == made && steps[1] == made[TempPath(path, uuid) := File(bytes)]
      && steps[2] == if Accepts(t, path) then made[path := File(bytes)] else made
    ensures forall step <- steps :: MidPut(t, path, uuid, bytes, step)
  {
    assert AtOrAbove(Parent(path), Parent(path)) && MakingDirs(t, Parent(path), steps[0]);
    assert HasTemp(t, path, uuid, bytes, steps[1]);
    assert MidPut(t, path, uuid, bytes, steps[0]) && MidPut(t, path, uuid, bytes, steps[1]) && MidPut(t, path, uuid, bytes, steps[2]);
  }

  lemma PutFacts(t: Tree, path: Path, uuid: string)
    requires WellFormed(t) && path != [] && TempPath(path, uuid) !in t
    ensures NoneInTheWay(t, Parent(path)) ==> Lookup(WithDirs(t, Parent(path)), Parent(path)) == Some(Dir)
    ensures Lookup(WithDirs(t, Parent(path)), path) == Lookup(t, path)
    ensures Lookup(t, path) == Some(Dir) ==> WithDirs(t, Parent(path)) == t
    ensures TempPath(path, uuid) !in WithDirs(t, Parent(path)) && TempPath(path, uuid) != path
  {
    if NoneInTheWay(t, Parent(path)) {
      WithDirsKeepsWellFormed(t, Parent(path));
    }
    assert !AtOrAbove(path, Parent(path)) && !AtOrAbove(TempPath(path, uuid), Parent(path));
    assert |TempPath(path, uuid)[|path| - 1]| > |path[|path| - 1]|;
    if Lookup(t, path) == Some(Dir) {
      forall q | q != [] && AtOrAbove(q, Parent(path)) ensures q in t {
        AncestorsAreDirs(t, q, path);
      }
    }
  }

  // ----- Runs of puts -----

  datatype Put<V> = Put(key: string, value: V)

  /** The tree after a run of puts on an empty store; a put that is refused changes nothing. */
  ghost function TreeAfter<V>(codec: ValueCodec<V>, puts: seq<Put<V>>): Tree {
    if puts == [] then map[]
    else
      var (t, last) := (TreeAfter(codec, puts[..|puts| - 1]), puts[|puts| - 1]);
      if Goes(t, last.key) then Placed(t, KeyPath(last.key).value, codec.encode(last.value)) else t
  }

  /** The put on `key` goes through. */
  ghost predicate Goes(t: Tree, key: string) {
    KeyPath(key).Some? && KeyPath(key).value != [] && Accepts(t, KeyPath(key).value)
  }

  ghost predicate AllGo<V>(codec: ValueCodec<V>, puts: seq<Put<V>>) {
    puts == [] ||
    (AllGo(codec, puts[..|puts| - 1]) && Goes(TreeAfter(codec, puts[..|puts| - 1]), puts[|puts| - 1].key))
  }

  /** The value a plain map would hold. */
  ghost function LastPut<V>(puts: seq<Put<V>>, key: string): Option<V> {
    if puts == [] then None
    else if puts[|puts| - 1].key == key then Some(puts[|puts| - 1].value) else LastPut(puts[..|puts| - 1], key)
  }

  /** One key's file would have to be a directory for the other: `k` and `k.json/x`. */
  predicate Clash(path: Path, path': Path) {
    path != path' && (AtOrAbove(path, path') || AtOrAbove(path', path))
  }

  /** Two keys clash exactly when one of them goes on, after a slash, where the file name of the other ends. */
  lemma ClashOnKeys(key: string, key': string)
    requires KeyPath(key).Some? && KeyPath(key').Some?
    ensures Clash(KeyPath(key).value, KeyPath(key').value) <==> key + ".json/" <= key' || key' + ".json/" <= key
  {
    PathAboveIsPrefix(key, key');
    PathAboveIsPrefix(key', key);
  }

  function PathsOf<V>(puts: seq<Put<V>>): set<Path> {
    set i | 0 <= i < |puts| && KeyPath(puts[i].key).Some? :: KeyPath(puts[i].key).value
  }

  ghost predicate Compatible<V>(puts: seq<Put<V>>) {
    && (forall put <- puts :: KeyPath(put.key).Some?)
    && (forall p <- PathsOf(puts), q <- PathsOf(puts) :: !Clash(p, q))
  }

  /** The files of the tree are those of the keys put, and every directory lies above one. */
  ghost predicate Holds(t: Tree, paths: set<Path>) {
    && (forall p <- paths :: p in t && t[p].File?)
    && (forall p <- t.Keys :: if t[p].File? then p in paths else t[p].Dir? && LiesAbove(p, paths))
  }

  ghost predicate LiesAbove(p: Path, paths: set<Path>) {
    exists q :: q in paths && AtOrAbove(p, q) && p != q
  }

  lemma HoldsOneMore(t: Tree, paths: set<Path>, path: Path, data: Bytes)
    requires Holds(t, paths) && path != [] && Accepts(t, path)
    ensures Holds(Placed(t, path, data), paths + {path})
  {
    var t' := Placed(t, path, data);
    assert !AtOrAbove(path, Parent(path));
    forall p | p in t'.Keys ensures if t'[p].File? then p in paths + {path} else t'[p].Dir? && LiesAbove(p, paths + {path}) {
      if p in t && p != path {
        if t[p].Dir? {
          var q :| q in paths && AtOrAbove(p, q) && p != q;
          assert q in paths + {path};
        }
      } else if p != path {
        assert AtOrAbove(p, Parent(path)) && AtOrAbove(p, path) && path in paths + {path};
      }
    }
  }

  lemma AcceptsUnlessClash(t: Tree, paths: set<Path>, path: Path)
    requires WellFormed(t) && Holds(t, paths) && path != []
    ensures Accepts(t, path) <==> forall p <- paths :: !Clash(p, path)
  {
    assert forall q :: AtOrAbove(q, path) <==> q == path || AtOrAbove(q, Parent(path));
    if p :| p in paths && Clash(p, path) {
      if AtOrAbove(path, p) {
        AncestorsAreDirs(t, path, p);
      }
    } else if Lookup(t, path) == Some(Dir) {
      assert LiesAbove(path, paths);
    }
  }

  ghost predicate FreeOfClash<V>(puts: seq<Put<V>>, key: string) {
    KeyPath(key).Some? && forall p <- PathsOf(puts) :: !Clash(p, KeyPath(key).value)
  }

  /** A run of puts is a plain map exactly as long as no key clashes with another: then all puts go
      through, and every key that clashes with none reads as the last value put, or as nothing. */
  lemma StoreRefinesMap<V(!new)>(codec: ValueCodec<V>, puts: seq<Put<V>>, key: string)
    requires Faithful(codec)
    ensures AllGo(codec, puts) <==> Compatible(puts)
    ensures Compatible(puts) && FreeOfClash(puts, key) ==> Fetched(codec, TreeAfter(codec, puts), key) == Ok(LastPut(puts, key))
  {
    PutsGoUnlessClash(codec, puts);
    if AllGo(codec, puts) && FreeOfClash(puts, key) {
      ReadsLastPut(codec, puts, key);
    }
  }

  lemma ReadsLastPut<V(!new)>(codec: ValueCodec<V>, puts: seq<Put<V>>, key: string)
    requires Faithful(codec) && AllGo(codec, puts) && FreeOfClash(puts, key)
    ensures Fetched(codec, TreeAfter(codec, puts), key) == Ok(LastPut(puts, key))
  {
    var t, last := TreeAfter(codec, puts), LastPut(puts, key);
    PutsGoUnlessClash(codec, puts);
    KeyPathFacts(key);
    ContentIsLastPut(codec, puts, key);
    FetchedIsContent(codec, t, PathsOf(puts), key);
    if last.Some? {
      assert codec.decode(codec.encode(last.value)) == last;
    }
  }

  lemma FetchedIsContent<V>(codec: ValueCodec<V>, t: Tree, paths: set<Path>, key: string)
    requires WellFormed(t) && Holds(t, paths) && KeyPath(key).Some? && KeyPath(key).value != []
    requires forall p <- paths :: !Clash(p, KeyPath(key).value)
    ensures Fetched(codec, t, key) ==
      match Content(t, key)
      case None => Ok(None)
      case Some(bytes) => if codec.decode(bytes).None? then Err(NotParsed) else Ok(codec.decode(bytes))
  {
    var path := KeyPath(key).value;
    AcceptsUnlessClash(t, paths, path);
    assert forall q :: AtOrAbove(q, path) <==> q == path || AtOrAbove(q, Parent(path));
  }

  lemma OnePutMore<V>(puts: seq<Put<V>>)
    requires puts != []
    ensures var (front, path) := (puts[..|puts| - 1], KeyPath(puts[|puts| - 1].key));
      && PathsOf(puts) == PathsOf(front) + (if path.Some? then {path.value} else {})
      && (Compatible(puts) <==> Compatible(front) && path.Some? && forall p <- PathsOf(front) :: !Clash(p, path.value))
  {
    var front, last := puts[..|puts| - 1], puts[|puts| - 1];
    assert puts == front + [last];
    forall p ensures p in PathsOf(puts) <==> p in PathsOf(front) || KeyPath(last.key) == Some(p) {
      if KeyPath(last.key) == Some(p) {
        assert puts[|puts| - 1] == last;
      }
      if p in PathsOf(front) {
        var i :| 0 <= i < |front| && KeyPath(front[i].key) == Some(p);
        assert puts[i] == front[i];
      }
    }
  }

  lemma {:induction false} PutsGoUnlessClash<V(!new)>(codec: ValueCodec<V>, puts: seq<Put<V>>)
    ensures AllGo(codec, puts) <==> Compatible(puts)
    ensures Compatible(puts) ==> StoreTree(TreeAfter(codec, puts)) && Holds(TreeAfter(codec, puts), PathsOf(puts))
  {
    if puts != [] {
      var front, last := puts[..|puts| - 1], puts[|puts| - 1];
      PutsGoUnlessClash(codec, front);
      OnePutMore(puts);
      if Compatible(front) && KeyPath(last.key).Some? {
        KeyPathFacts(last.key);
        PutGoesUnlessClash(TreeAfter(codec, front), PathsOf(front), last.key, codec.encode(last.value));
      }
    }
  }

  lemma PutGoesUnlessClash(t: Tree, paths: set<Path>, key: string, data: Bytes)
    requires StoreTree(t) && Holds(t, paths) && KeyPath(key).Some? && KeyPath(key).value != []
    ensures Goes(t, key) <==> forall p <- paths :: !Clash(p, KeyPath(key).value)
    ensures Goes(t, key) ==>
      StoreTree(Placed(t, KeyPath(key).value, data)) && Holds(Placed(t, KeyPath(key).value, data), paths + {KeyPath(key).value})
  {
    AcceptsUnlessClash(t, paths, KeyPath(key).value);
    if Goes(t, key) {
      PlacedStores(t, key, data, key);
      HoldsOneMore(t, paths, KeyPath(key).value, data);
    }
  }

  lemma {:induction false} ContentIsLastPut<V(!new)>(codec: ValueCodec<V>, puts: seq<Put<V>>, key: string)
    requires AllGo(codec, puts)
    ensures Content(TreeAfter(codec, puts), key) ==
      match LastPut(puts, key) case None => None case Some(value) => Some(codec.encode(value))
  {
    if puts != [] {
      var front, last := puts[..|puts| - 1], puts[|puts| - 1];
      PutsGoUnlessClash(codec, front);
      ContentIsLastPut(codec, front, key);
      PlacedStores(TreeAfter(codec, front), last.key, codec.encode(last.value), key);
    }
  }

  /** Of the keys `k` and `k.json/x`, put in this order, the second is refused. */
  lemma {:induction false} SecondPutIsRefused<V(!new)>(codec: ValueCodec<V>, v: V)
    ensures Goes(map[], "k") && !Goes(TreeAfter(codec, [Put("k", v)]), "k.json/x")
  {
    ExampleKeys();
    var puts, file := [Put("k", v)], ["k.json"];
    assert puts[..0] == [] && Goes(TreeAfter(codec, puts[..0]), "k");
    assert TreeAfter(codec, puts) == Placed(map[], file, codec.encode(v));
    assert Parent(["k.json", "x.json"]) == file && AtOrAbove(file, file);
  }

  lemma ExampleKeys()
    ensures KeyPath("k") == Some(["k.json"]) && KeyPath("k.json/x") == Some(["k.json", "x.json"])
  {
    KeyOfOne("k");
    KeyOfTwo("k.json", "x");
    assert "k" + ".json" == "k.json" && "x" + ".json" == "x.json" && "k.json" + "/" + "x" == "k.json/x";
  }

  lemma KeyOfOne(a: string)
    requires IsSegment(a) && '/' !in a
    ensures KeyPath(a) == Some([a + ".json"])
  {
    KeyOfSegments([a]);
    assert WithSuffix([a]) == [a + ".json"];
  }

  lemma KeyOfTwo(a: string, b: string)
    requires IsSegment(a) && '/' !in a && IsSegment(b) && '/' !in b
    ensures KeyPath(a + "/" + b) == Some([a, b + ".json"])
  {
    var segments := [a, b];
    KeyOfSegments(segments);
    assert segments[..1] == [a] && Join([a]) == a;
    assert WithSuffix(segments) == [a, b + ".json"];
  }

  // ----- Runs with crashes -----

  datatype Attempt<V> = Done(key: string, value: V) | Refused(key: string) | Interrupted(key: string, value: V, uuid: string)

  /** One put on `t`: it goes through, is refused, or is cut short by a crash. */
  ghost predicate Leads<V>(codec: ValueCodec<V>, t: Tree, op: Attempt<V>, after: Tree) {
    match op
    case Done(key, value) => Goes(t, key) && after == Placed(t, KeyPath(key).value, codec.encode(value))
    case Refused(key) => !Goes(t, key) && after == t
    case Interrupted(key, value, uuid) =>
      && KeyPath(key).Some? && KeyPath(key).value != [] && IsUuid(uuid) && TempPath(KeyPath(key).value, uuid) !in t
      && MidPut(t, KeyPath(key).value, uuid, codec.encode(value), after)
  }

  /** `t` can be the tree after these puts on an empty store. */
  ghost predicate CanLead<V>(codec: ValueCodec<V>, ops: seq<Attempt<V>>, t: Tree)
    decreases |ops|, 1
  {
    if ops == [] then t == map[] else exists before :: CanLeadFrom(codec, ops, before, t)
  }

  ghost predicate CanLeadFrom<V>(codec: ValueCodec<V>, ops: seq<Attempt<V>>, before: Tree, t: Tree)
    requires ops != []
    decreases |ops|, 0
  {
    CanLead(codec, ops[..|ops| - 1], before) && Leads(codec, before, ops[|ops| - 1], t)
  }

  /** The values a key may have: the last one put, or one whose put was cut short since. */
  ghost function Candidates<V>(ops: seq<Attempt<V>>, key: string): iset<Option<V>> {
    if ops == [] then iset{None}
    else
      match ops[|ops| - 1]
      case Done(k, value) => if k == key then iset{Some(value)} else Candidates(ops[..|ops| - 1], key)
      case Refused(_) => Candidates(ops[..|ops| - 1], key)
      case Interrupted(k, value, _) =>
        Candidates(ops[..|ops| - 1], key) + (if k == key then iset{Some(value)} else iset{})
  }

  /** Whatever crashes a run of puts meets, the store stays well formed and every key has the last
      value put or one of an interrupted put since. */
  lemma {:induction false} StoreSurvivesCrashes<V(!new)>(codec: ValueCodec<V>, ops: seq<Attempt<V>>, t: Tree, key: string)
    requires CanLead(codec, ops, t)
    ensures StoreTree(t)
    ensures exists value :: value in Candidates(ops, key) && Content(t, key) == Encoded(codec, value)
  {
    if ops == [] {
      assert None in Candidates(ops, key) && Content(t, key) == Encoded(codec, None);
    } else {
      var front, last := ops[..|ops| - 1], ops[|ops| - 1];
      var before :| CanLeadFrom(codec, ops, before, t);
      StoreSurvivesCrashes(codec, front, before, key);
      var value :| value in Candidates(front, key) && Content(before, key) == Encoded(codec, value);
      match last {
        case Done(k, put) => PlacedStores(before, k, codec.encode(put), key);
        case Refused(_) =>
        case Interrupted(k, put, uuid) => CrashLeavesOldOrNew(before, k, uuid, codec.encode(put), t, key);
      }
      if Content(t, key) == Content(before, key) && (last.Done? ==> last.key != key) {
        assert value in Candidates(ops, key);
      } else {
        assert Some(last.value) in Candidates(ops, key) && Content(t, key) == Encoded(codec, Some(last.value));
      }
    }
  }

  ghost function Encoded<V>(codec: ValueCodec<V>, value: Option<V>): Option<Bytes> {
    match value
    case None => None
    case Some(v) => Some(codec.encode(v))
  }
}
