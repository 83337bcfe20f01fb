/**
 Canonical paths in a file system with symbolic links, and the canonical form of a path that need not
 exist (crates/core/src/sandbox.rs, `canonicalize_nonexistent_path`).
 */
module Canonicalize {
  import opened Basics
  import opened FileTree

  /** How many links one lookup may follow. */
  const MAX_LINKS: nat := 40

  /** A tree of real names: no entry is called `.` or `..`. */
  ghost predicate IsFileSystem(t: Tree) {
    WellFormed(t) && forall p <- t.Keys :: IsPlain(p)
  }

  predicate IsPlain(p: Path) {
    "." !in p && ".." !in p
  }

  predicate IsReal(t: Tree, p: Path) {
    Lookup(t, p).Some? && !Lookup(t, p).value.Link?
  }

  /** Where a lookup ends: at an entry that is not a link, with some links left to follow, or nowhere. */
  datatype Walked = At(path: Path, linksLeft: nat) | Missing | BelowFile | TooManyLinks

  function Walk(t: Tree, at: Path, todo: seq<string>, links: nat): (r: Walked)
    ensures r.At? ==> r.linksLeft <= links
    decreases links, |todo|
  {
    if todo == [] then At(at, links)
    else if Lookup(t, at) != Some(Dir) then BelowFile
    else if todo[0] == "." then Walk(t, at, todo[1..], links)
    else if todo[0] == ".." then Walk(t, if at == [] then [] else Parent(at), todo[1..], links)
    else
      match Lookup(t, at + [todo[0]])
      case None => Missing
      case Some(Link(target)) =>
        if links == 0 then TooManyLinks
        else Walk(t, if target.absolute then [] else at, target.components + todo[1..], links - 1)
      case Some(_) => Walk(t, at + [todo[0]], todo[1..], links)
  }

  /** `canonicalize` of an absolute path. */
  function Canonical(t: Tree, path: Path): Walked {
    Walk(t, [], path, MAX_LINKS)
  }

  // ----- Facts about lookups -----

  lemma {:induction false} WalkInTwo(t: Tree, at: Path, a: seq<string>, b: seq<string>, links: nat)
    ensures Walk(t, at, a + b, links) ==
      match Walk(t, at, a, links) case At(p, left) => Walk(t, p, b, left) case stopped => stopped
    decreases links, |a|
  {
    if a == [] {
      assert a + b == b;
    } else if Lookup(t, at) == Some(Dir) {
      assert (a + b)[1..] == a[1..] + b;
      if a[0] == "." {
        WalkInTwo(t, at, a[1..], b, links);
      } else if a[0] == ".." {
        WalkInTwo(t, if at == [] then [] else Parent(at), a[1..], b, links);
      } else {
        match Lookup(t, at + [a[0]])
        case Some(Link(target)) =>
          if links > 0 {
            assert target.components + (a + b)[1..] == target.components + a[1..] + b;
            WalkInTwo(t, if target.absolute then [] else at, target.components + a[1..], b, links - 1);
          }
        case Some(_) => WalkInTwo(t, at + [a[0]], a[1..], b, links);
        case None =>
      }
    }
  }

  /** Only a lookup that ran out of links can end elsewhere when it may follow more. */
  lemma {:induction false} WalkWithMore(t: Tree, at: Path, todo: seq<string>, links: nat, more: nat)
    requires links <= more && Walk(t, at, todo, links) != TooManyLinks
    ensures match Walk(t, at, todo, links)
            case At(p, left) => Walk(t, at, todo, more) == At(p, left + (more - links))
            case stopped => Walk(t, at, todo, more) == stopped
    decreases links, |todo|
  {
    if todo != [] && Lookup(t, at) == Some(Dir) {
      if todo[0] == "." {
        WalkWithMore(t, at, todo[1..], links, more);
      } else if todo[0] == ".." {
        WalkWithMore(t, if at == [] then [] else Parent(at), todo[1..], links, more);
      } else {
        match Lookup(t, at + [todo[0]])
        case Some(Link(target)) =>
          WalkWithMore(t, if target.absolute then [] else at, target.components + todo[1..], links - 1, more - 1);
        case Some(_) => WalkWithMore(t, at + [todo[0]], todo[1..], links, more);
        case None =>
      }
    }
  }

  /** A lookup ends at a real entry, if it begins at one. */
  lemma {:induction false} WalkEndsAtReal(t: Tree, at: Path, todo: seq<string>, links: nat)
    requires WellFormed(t) && IsReal(t, at)
    ensures var end := Walk(t, at, todo, links); end.At? ==> IsReal(t, end.path)
    decreases links, |todo|
  {
    if todo != [] && Lookup(t, at) == Some(Dir) {
      if todo[0] == "." {
        WalkEndsAtReal(t, at, todo[1..], links);
      } else if todo[0] == ".." {
        if at != [] {
          assert Lookup(t, Parent(at)) == Some(Dir);
        }
        WalkEndsAtReal(t, if at == [] then [] else Parent(at), todo[1..], links);
      } else {
        match Lookup(t, at + [todo[0]])
        case Some(Link(target)) =>
          if links > 0 {
            WalkEndsAtReal(t, if target.absolute then [] else at, target.components + todo[1..], links - 1);
          }
        case Some(_) => WalkEndsAtReal(t, at + [todo[0]], todo[1..], links);
        case None =>
      }
    }
  }

  /** The path of a real entry leads to it without any link. */
  lemma {:induction false} WalkToReal(t: Tree, at: Path, todo: seq<string>, links: nat)
    requires IsFileSystem(t) && IsReal(t, at + todo)
    ensures Walk(t, at, todo, links) == At(at + todo, links)
    decreases |todo|
  {
    if todo == [] {
      assert at + todo == at;
    } else {
      var next := at + [todo[0]];
      assert at + todo == next + todo[1..] && todo[0] in at + todo;
      assert at + todo in t;
      AncestorsAreDirs(t, at, at + todo);
      if todo[1..] != [] {
        AncestorsAreDirs(t, next, at + todo);
      } else {
        assert next == at + todo;
      }
      WalkToReal(t, next, todo[1..], links);
    }
  }

  lemma CanonicalOfReal(t: Tree, p: Path)
    requires IsFileSystem(t) && IsReal(t, p)
    ensures Canonical(t, p) == At(p, MAX_LINKS)
  {
    assert [] + p == p;
    WalkToReal(t, [], p, MAX_LINKS);
  }

  lemma CanonicalIsReal(t: Tree, p: Path)
    requires WellFormed(t)
    ensures Canonical(t, p).At? ==> IsReal(t, Canonical(t, p).path)
  {
    WalkEndsAtReal(t, [], p, MAX_LINKS);
  }

  /** The last component is looked up where the path above it ends. */
  lemma CanonicalStep(t: Tree, p: Path)
    requires p != []
    ensures Canonical(t, p) ==
      match Canonical(t, Parent(p)) case At(above, left) => Walk(t, above, [p[|p| - 1]], left) case stopped => stopped
  {
    assert Parent(p) + [p[|p| - 1]] == p;
    WalkInTwo(t, [], Parent(p), [p[|p| - 1]], MAX_LINKS);
  }

  /** A path through a link leads where the path through its target does: from the root, or from the
      directory that holds the link; following the link costs one of the links a lookup may follow. */
  lemma LinkMeansTarget(t: Tree, dir: Path, name: string, target: Target, rest: seq<string>)
    requires IsFileSystem(t) && IsReal(t, dir) && Lookup(t, dir + [name]) == Some(Link(target))
    ensures var (through, direct) := (Canonical(t, dir + ([name] + rest)),
                                      Canonical(t, (if target.absolute then [] else dir) + (target.components + rest)));
      match through
      case At(p, left) => direct == At(p, left + 1)
      case TooManyLinks => true
      case stopped => direct == stopped
  {
    assert Parent(dir + [name]) == dir && name in dir + [name];
    BelowReal(t, dir, [name] + rest);
    FollowLink(t, dir, name, target, rest);
    BelowReal(t, if target.absolute then [] else dir, target.components + rest);
    OneLinkMore(t, if target.absolute then [] else dir, target.components + rest);
  }

  lemma BelowReal(t: Tree, dir: Path, rest: seq<string>)
    requires IsFileSystem(t) && IsReal(t, dir)
    ensures Canonical(t, dir + rest) == Walk(t, dir, rest, MAX_LINKS)
  {
    CanonicalOfReal(t, dir);
    WalkInTwo(t, [], dir, rest, MAX_LINKS);
  }

  lemma FollowLink(t: Tree, dir: Path, name: string, target: Target, rest: seq<string>)
    requires Lookup(t, dir) == Some(Dir) && Lookup(t, dir + [name]) == Some(Link(target)) && name != "." && name != ".."
    ensures Walk(t, dir, [name] + rest, MAX_LINKS)
      == Walk(t, if target.absolute then [] else dir, target.components + rest, MAX_LINKS - 1)
  {
    assert ([name] + rest)[1..] == rest;
  }

  lemma OneLinkMore(t: Tree, at: Path, todo: seq<string>)
    ensures match Walk(t, at, todo, MAX_LINKS - 1)
            case At(p, left) => Walk(t, at, todo, MAX_LINKS) == At(p, left + 1)
            case TooManyLinks => true
            case stopped => Walk(t, at, todo, MAX_LINKS) == stopped
  {
    if Walk(t, at, todo, MAX_LINKS - 1) != TooManyLinks {
      WalkWithMore(t, at, todo, MAX_LINKS - 1, MAX_LINKS);
    }
  }

  // ----- Paths that need not exist -----

  datatype CanonicalError = ExistingPrefix | NoFileName

  /** The name that ends a path; a path that ends in `..` has none. */
  predicate HasFileName(path: Path) {
    path != [] && path[|path| - 1] != ".."
  }

  /** The canonical form of what exists of a path, and the rest as it is. */
  function Extended(t: Tree, path: Path): Result<Path, CanonicalError> {
    match Canonical(t, path)
    case At(p, _) => Ok(p)
    case Missing =>
      if HasFileName(path) then Followed(Extended(t, Parent(path)), [path[|path| - 1]]) else Err(NoFileName)
    case _ => Err(ExistingPrefix)
  }

  method CanonicalizeNonexistentPath(t: Tree, path: Path) returns (r: Result<Path, CanonicalError>)
    ensures r == Extended(t, path)
  {
    var cursor, suffix: seq<string> := path, [];
    assert Extended(t, path).Ok? ==> Extended(t, path).value + [] == Extended(t, path).value;
    while true
      invariant Extended(t, path) == Followed(Extended(t, cursor), Reversed(suffix))
      decreases |cursor|
    {
      match Canonical(t, cursor) {
        case At(canon, _) =>
          var out := PushReversed(canon, suffix);
          return Ok(out);
        case Missing =>
          if !HasFileName(cursor) {
            return Err(NoFileName);
          }
          var name := cursor[|cursor| - 1];
          OneMoreUnconsumed(Extended(t, Parent(cursor)), name, suffix);
          suffix := suffix + [name];
          cursor := Parent(cursor);
        case _ =>
          return Err(ExistingPrefix);
      }
    }
  }

  function Followed(r: Result<Path, CanonicalError>, rest: seq<string>): Result<Path, CanonicalError> {
    if r.Err? then r else Ok(r.value + rest)
  }

  lemma OneMoreUnconsumed(r: Result<Path, CanonicalError>, name: string, suffix: seq<string>)
    ensures Followed(Followed(r, [name]), Reversed(suffix)) == Followed(r, Reversed(suffix + [name]))
  {
    assert (suffix + [name])[..|suffix|] == suffix;
    if r.Ok? {
      assert r.value + [name] + Reversed(suffix) == r.value + ([name] + Reversed(suffix));
    }
  }

  method PushReversed(canon: Path, suffix: seq<string>) returns (out: Path)
    ensures out == canon + Reversed(suffix)
  {
    out := canon;
    var rest := suffix;
    while rest != []
      invariant out + Reversed(rest) == canon + Reversed(suffix)
      decreases |rest|
    {
      var name := rest[|rest| - 1];
      assert out + Reversed(rest) == out + [name] + Reversed(rest[..|rest| - 1]);
      out := out + [name];
      rest := rest[..|rest| - 1];
    }
    assert out + [] == out;
  }

  function Reversed(s: seq<string>): seq<string> {
    if s == [] then [] else [s[|s| - 1]] + Reversed(s[..|s| - 1])
  }

  /** The first `n` components are all of the path that exists; the longer prefixes are simply missing. */
  ghost predicate IsLongestExisting(t: Tree, path: Path, n: nat) {
    && n <= |path| && Canonical(t, path[..n]).At?
    && forall m :: n < m <= |path| ==> Canonical(t, path[..m]) == Missing
  }

  /** The loop finds the canonical form of the longest existing prefix, followed by what is left of the
      path, exactly when everything beyond that prefix is simply missing and has names only; a `..`
      there has no file name. */
  lemma ExtendedIsLongest(t: Tree, path: Path)
    ensures forall n: nat :: IsLongestExisting(t, path, n) ==>
      Extended(t, path) == if ".." in path[n..] then Err(NoFileName) else Ok(Canonical(t, path[..n]).path + path[n..])
    ensures Extended(t, path).Ok? ==> exists n: nat :: IsLongestExisting(t, path, n) && ".." !in path[n..]
  {
    forall n: nat | IsLongestExisting(t, path, n)
      ensures Extended(t, path) == if ".." in path[n..] then Err(NoFileName) else Ok(Canonical(t, path[..n]).path + path[n..])
    {
      LongestIsExtended(t, path, n);
    }
    if Extended(t, path).Ok? {
      var n := LongestExisting(t, path);
    }
  }

  lemma {:induction false} LongestIsExtended(t: Tree, path: Path, n: nat)
    requires IsLongestExisting(t, path, n)
    ensures Extended(t, path) == if ".." in path[n..] then Err(NoFileName) else Ok(Canonical(t, path[..n]).path + path[n..])
  {
    assert path[..|path|] == path;
    if n == |path| {
      var canon := Canonical(t, path[..n]).path;
      assert canon + path[n..] == canon;
    } else {
      var above, last := Parent(path), path[|path| - 1];
      assert forall m: nat :: m <= |above| ==> path[..m] == above[..m];
      LongestIsExtended(t, above, n);
      assert path[n..] == above[n..] + [last];
      var canon := Canonical(t, above[..n]).path;
      assert canon + above[n..] + [last] == canon + path[n..];
    }
  }

  lemma {:induction false} LongestExisting(t: Tree, path: Path) returns (n: nat)
    requires Extended(t, path).Ok?
    ensures IsLongestExisting(t, path, n) && ".." !in path[n..]
  {
    assert path[..|path|] == path;
    if Canonical(t, path).At? {
      n := |path|;
    } else {
      var above := Parent(path);
      assert forall m: nat :: m <= |above| ==> path[..m] == above[..m];
      n := LongestExisting(t, above);
      assert path[n..] == above[n..] + [path[|path| - 1]];
    }
  }

  /** Existence is closed under taking prefixes. */
  lemma {:induction false} PrefixExists(t: Tree, path: Path, n: nat)
    requires n <= |path| && Canonical(t, path).At?
    ensures Canonical(t, path[..n]).At?
  {
    if n == |path| {
      assert path[..n] == path;
    } else {
      CanonicalStep(t, path);
      assert Parent(path)[..n] == path[..n];
      PrefixExists(t, Parent(path), n);
    }
  }
}
