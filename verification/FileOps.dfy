/**
 Single operations on a directory tree, and the trees a sequence of them goes through. What a method
 does step by step is stated as such a sequence: consecutive trees are one operation apart.
 */
module FileOps {
  import opened Basics
  import opened FileTree

  datatype Op = RemoveFile(path: Path) | MakeDir(path: Path) | WriteFile(path: Path, data: Bytes) | Rename(source: Path, path: Path)

  /** A file can be written at `p`: it lies in a directory, and nothing but a file is there. */
  predicate CanWrite(t: Tree, p: Path) {
    p != [] && Lookup(t, Parent(p)) == Some(Dir) && (p in t ==> t[p].File?)
  }

  predicate IsFile(t: Tree, p: Path) {
    p in t && t[p].File?
  }

  predicate Allowed(t: Tree, op: Op) {
    match op
    case RemoveFile(p) => IsFile(t, p)
    case MakeDir(p) => p != [] && p !in t && Lookup(t, Parent(p)) == Some(Dir)
    case WriteFile(p, _) => CanWrite(t, p)
    case Rename(source, p) => IsFile(t, source) && source != p && CanWrite(t, p)
  }

  function Do(t: Tree, op: Op): Tree
    requires Allowed(t, op)
  {
    match op
    case RemoveFile(p) => t - {p}
    case MakeDir(p) => t[p := Dir]
    case WriteFile(p, data) => t[p := File(data)]
    case Rename(source, p) => (t - {source})[p := t[source]]
  }

  ghost predicate OneApart(t: Tree, t': Tree) {
    exists op :: Allowed(t, op) && t' == Do(t, op)
  }

  /** `steps` are the trees from `t` to `now`, each one operation after the one before. */
  ghost predicate LeadsTo(t: Tree, steps: seq<Tree>, now: Tree) {
    && steps != [] && steps[0] == t && steps[|steps| - 1] == now
    && forall i :: 0 < i < |steps| ==> OneApart(steps[i - 1], steps[i])
  }

  lemma NoStep(t: Tree)
    ensures LeadsTo(t, [t], t)
  {
  }

  lemma OneStepMore(t: Tree, steps: seq<Tree>, now: Tree, op: Op)
    requires LeadsTo(t, steps, now) && Allowed(now, op)
    ensures LeadsTo(t, steps + [Do(now, op)], Do(now, op))
  {
    var next := Do(now, op);
    assert OneApart(now, next);
    var more := steps + [next];
    forall i | 0 < i < |more| ensures OneApart(more[i - 1], more[i]) {
      if i < |steps| {
        assert more[i - 1] == steps[i - 1] && more[i] == steps[i];
      }
    }
  }

  /** Two sequences of which the second begins where the first ends. */
  lemma StepsJoin(t: Tree, steps: seq<Tree>, mid: Tree, more: seq<Tree>, now: Tree)
    requires LeadsTo(t, steps, mid) && LeadsTo(mid, more, now)
    ensures LeadsTo(t, steps + more[1..], now)
  {
    var all := steps + more[1..];
    forall i | 0 < i < |all| ensures OneApart(all[i - 1], all[i]) {
      if i < |steps| {
        assert all[i - 1] == steps[i - 1] && all[i] == steps[i];
      } else {
        var k := i - |steps| + 1;
        assert all[i] == more[k] && all[i - 1] == more[k - 1];
      }
    }
  }

  // ----- Making directories one by one -----

  /** The trees while the directories down to `p` are made. */
  ghost predicate MakingDirs(t: Tree, p: Path, step: Tree) {
    exists q :: AtOrAbove(q, p) && NoneInTheWay(t, q) && step == WithDirs(t, q)
  }

  /** `create_dir_all` on an existing tree: from the top down, each missing directory is made; when
      something else is in the way nothing has been made. */
  method MakeDirs(t: Tree, p: Path) returns (r: Option<Tree>, ghost steps: seq<Tree>)
    requires WellFormed(t)
    ensures r == if NoneInTheWay(t, p) then Some(WithDirs(t, p)) else None
    ensures LeadsTo(t, steps, if r.Some? then r.value else t)
    ensures forall step <- steps :: MakingDirs(t, p, step)
  {
    var now, current: Path := t, [];
    steps := [t];
    NothingMade(t, p);
    while current != p
      invariant current <= p && MadeTo(t, current, now)
      invariant LeadsTo(t, steps, now) && forall step <- steps :: MakingDirs(t, p, step)
      decreases |p| - |current|
    {
      var next := p[..|current| + 1];
      NextMade(t, now, current, next, p);
      match Lookup(now, next) {
        case None =>
          OneStepMore(t, steps, now, MakeDir(next));
          now := now[next := Dir];
          steps := steps + [now];
        case Some(Dir) =>
        case Some(_) =>
          return None, steps;
      }
      current := next;
    }
    return Some(now), steps;
  }

  ghost predicate MadeTo(t: Tree, p: Path, now: Tree) {
    NoneInTheWay(t, p) && now == WithDirs(t, p)
  }

  lemma NothingMade(t: Tree, p: Path)
    ensures MadeTo(t, [], t) && MakingDirs(t, p, t) && LeadsTo(t, [t], t)
  {
    assert WithDirs(t, []) == t && AtOrAbove([], p);
    assert NoneInTheWay(t, []);
  }

  lemma NextMade(t: Tree, now: Tree, current: Path, next: Path, p: Path)
    requires WellFormed(t) && current < p && next == p[..|current| + 1] && MadeTo(t, current, now)
    ensures next != [] && Parent(next) == current && AtOrAbove(next, p)
    ensures match Lookup(now, next)
      case None => MadeTo(t, next, now[next := Dir]) && Allowed(now, MakeDir(next)) && MakingDirs(t, p, now[next := Dir])
      case Some(Dir) => MadeTo(t, next, now)
      case Some(_) => !NoneInTheWay(t, p) && now == t
  {
    assert Parent(next) == current && AtOrAbove(next, p);
    WithDirsStep(t, next);
    WithDirsKeepsWellFormed(t, current);
    if next in t {
      forall q | q != [] && AtOrAbove(q, current) ensures q in t {
        AncestorsAreDirs(t, q, next);
      }
      assert WithDirs(t, current) == t;
    }
    if !NoneInTheWay(t, next) {
      assert forall q :: AtOrAbove(q, next) ==> AtOrAbove(q, p);
    }
  }
}
