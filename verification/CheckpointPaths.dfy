/** Which paths of a workspace a checkpoint sees (crates/fs-policy/src/lib.rs and the secret test of
    crates/checkpoint-runtime/src/lib.rs). */
module CheckpointPaths {
  import opened FileTree
  import opened Text

  function ToAsciiLower(s: string): (r: string)
    ensures |r| == |s|
  {
    seq(|s|, i requires 0 <= i < |s| => LowerChar(s[i]))
  }

  predicate StartsWith(s: string, prefix: string) {
    prefix <= s
  }

  predicate EndsWith(s: string, suffix: string) {
    |suffix| <= |s| && s[|s| - |suffix|..] == suffix
  }

  predicate Contains(s: string, sub: string) {
    StartsWith(s, sub) || (s != "" && Contains(s[1..], sub))
  }

  predicate IsBlockedEnvStyleName(fileName: string) {
    var name := ToAsciiLower(fileName);
    && StartsWith(name, ".env")
    && (var suffix := name[4..];
        suffix == "" || StartsWith(suffix, ".") || StartsWith(suffix, "_") || StartsWith(suffix, "-"))
    && !Contains(name, "example") && !Contains(name, "template")
  }

  const IGNORED_DIRS: set<string> := {".git", ".omne", ".omne_data", "target", "node_modules", "example"}

  const DATA_DIRS: set<string> := {"tmp", "threads", "locks", "logs", "data", "repos", "reference"}

  /** Directories the walk does not enter; `rootName` is the name of the walked root itself. */
  predicate IsIgnoredDir(rootName: string, dir: Path)
    requires dir != []
  {
    var name := dir[|dir| - 1];
    var parent := if |dir| == 1 then rootName else dir[|dir| - 2];
    name in IGNORED_DIRS || (name in DATA_DIRS && (parent == ".omne_data" || parent == "omne_data"))
  }

  /** The walk reaches `p`: it enters every directory above it. */
  predicate IsWalked(rootName: string, p: Path) {
    |p| <= 1 || (IsWalked(rootName, Parent(p)) && !IsIgnoredDir(rootName, Parent(p)))
  }

  predicate IsSecret(p: Path)
    requires p != []
  {
    var name := p[|p| - 1];
    || ".ssh" in p || ".aws" in p || ".kube" in p
    || IsBlockedEnvStyleName(name)
    || name == ".envrc" || EndsWith(name, ".pem") || EndsWith(name, ".key")
  }

  /** A regular file at `p` would take part in snapshots, plans and restores. */
  predicate IsVisible(rootName: string, p: Path) {
    p != [] && IsWalked(rootName, p) && !IsSecret(p)
  }

  // ----- What is visible, component by component -----

  predicate OccursAt(s: string, sub: string, i: nat) {
    i + |sub| <= |s| && s[i..i + |sub|] == sub
  }

  lemma {:induction false} ContainsExactly(s: string, sub: string)
    ensures Contains(s, sub) <==> exists i: nat :: OccursAt(s, sub, i)
  {
    if sub <= s {
      assert OccursAt(s, sub, 0);
    } else if s != "" {
      ContainsExactly(s[1..], sub);
      if i: nat :| OccursAt(s[1..], sub, i) {
        assert OccursAt(s, sub, i + 1);
      }
      if i: nat :| OccursAt(s, sub, i) {
        if i > 0 {
          assert OccursAt(s[1..], sub, i - 1);
        }
      }
    }
  }

  /** The component `i` of the path is a directory whose content is skipped. */
  predicate IsSkipped(rootName: string, p: Path, i: nat)
    requires i < |p|
  {
    || p[i] in {".git", ".omne", ".omne_data", "target", "node_modules", "example"}
    || (p[i] in {"tmp", "threads", "locks", "logs", "data", "repos", "reference"} &&
        (if i == 0 then rootName else p[i - 1]) in {".omne_data", "omne_data"})
  }

  lemma {:induction false} WalkedExactly(rootName: string, p: Path)
    ensures IsWalked(rootName, p) <==> forall i :: 0 <= i < |p| - 1 ==> !IsSkipped(rootName, p, i)
  {
    if |p| > 1 {
      WalkedExactly(rootName, Parent(p));
      assert forall i :: 0 <= i < |p| - 2 ==> IsSkipped(rootName, Parent(p), i) == IsSkipped(rootName, p, i);
      assert IsIgnoredDir(rootName, Parent(p)) <==> IsSkipped(rootName, p, |p| - 2);
    }
  }

  /** A name, in lower case, of an environment file that is no example and no template. */
  ghost predicate IsEnvName(lower: string) {
    && |lower| >= 4 && lower[..4] == ".env" && (|lower| == 4 || lower[4] in {'.', '_', '-'})
    && !exists i: nat :: OccursAt(lower, "example", i) || OccursAt(lower, "template", i)
  }

  lemma EnvExactly(name: string)
    ensures IsBlockedEnvStyleName(name) <==> IsEnvName(ToAsciiLower(name))
  {
    var lower := ToAsciiLower(name);
    ContainsExactly(lower, "example");
    ContainsExactly(lower, "template");
    if |lower| > 4 {
      assert lower[4..][0] == lower[4];
    }
  }

  lemma SecretExactly(p: Path)
    requires p != []
    ensures var name := p[|p| - 1];
      IsSecret(p) <==>
      || (exists i :: 0 <= i < |p| && p[i] in {".ssh", ".aws", ".kube"})
      || name == ".envrc" || (|name| >= 4 && name[|name| - 4..] in {".pem", ".key"})
      || IsEnvName(ToAsciiLower(name))
  {
    EnvExactly(p[|p| - 1]);
  }

  // ----- The documented globs -----

  /** The shapes of glob that the list of ignored globs uses. */
  datatype Glob =
    | Below(dir: Path)
    | BelowAny(name: string)
    | Named(name: string)
    | NameBegins(start: string)
    | NameEnds(end: string)

  /** The globs of the list. */
  predicate IsIgnoredGlob(glob: Glob) {
    match glob
    case Below(dir) =>
      || dir in {[".git"], [".omne"], ["target"], ["node_modules"], ["example"]}
      || (|dir| == 2 && dir[0] == ".omne_data" &&
          dir[1] in {"tmp", "threads", "locks", "logs", "data", "repos", "reference"})
    case BelowAny(name) => name in {".ssh", ".aws", ".kube"}
    case Named(name) => name in {".env", ".envrc"}
    case NameBegins(start) => start in {".env.", ".env_", ".env-"}
    case NameEnds(end) => end in {".pem", ".key"}
  }

  predicate GlobMatches(glob: Glob, p: Path)
    requires p != []
  {
    var name := p[|p| - 1];
    match glob
    case Below(dir) => dir < p
    case BelowAny(dir) => dir in p[..|p| - 1]
    case Named(given) => name == given
    case NameBegins(start) => StartsWith(name, start)
    case NameEnds(end) => EndsWith(name, end)
  }

  /** Environment files by their exact spelling that count as examples or templates. */
  ghost predicate IsEnvTemplate(name: string) {
    && |name| > 4 && name[..5] in {".env.", ".env_", ".env-"}
    && exists i: nat :: OccursAt(ToAsciiLower(name), "example", i) || OccursAt(ToAsciiLower(name), "template", i)
  }

  /** The globs reported as ignored are not quite what is ignored: of the paths a checkpoint sees,
      environment templates match one of them, and no other path does. */
  lemma VisibleYetGlobbed(rootName: string, p: Path)
    requires IsVisible(rootName, p)
    ensures (exists glob :: IsIgnoredGlob(glob) && GlobMatches(glob, p)) <==> IsEnvTemplate(p[|p| - 1])
  {
    var name := p[|p| - 1];
    if glob :| IsIgnoredGlob(glob) && GlobMatches(glob, p) {
      GlobbedIsTemplate(rootName, p, glob);
    }
    if IsEnvTemplate(name) {
      assert IsIgnoredGlob(NameBegins(name[..5])) && GlobMatches(NameBegins(name[..5]), p);
    }
  }

  lemma GlobbedIsTemplate(rootName: string, p: Path, glob: Glob)
    requires IsVisible(rootName, p) && IsIgnoredGlob(glob) && GlobMatches(glob, p)
    ensures IsEnvTemplate(p[|p| - 1])
  {
    var name := p[|p| - 1];
    match glob {
      case Below(dir) =>
        WalkedExactly(rootName, p);
        assert p[0] == dir[0] && IsSkipped(rootName, p, 0);
        assert false;
      case BelowAny(dir) =>
        assert false;
      case Named(given) =>
        PlainEnvIsSecret();
        assert false;
      case NameBegins(start) =>
        EnvExactly(name);
        BeginsInLower(name, start);
      case NameEnds(end) =>
        assert false;
    }
  }

  lemma BeginsInLower(name: string, start: string)
    requires start in {".env.", ".env_", ".env-"} && StartsWith(name, start)
    ensures |name| > 4 && name[..5] == start && ToAsciiLower(name)[..4] == ".env" && ToAsciiLower(name)[4] in {'.', '_', '-'}
  {
    assert forall i :: 0 <= i < 5 ==> name[i] == start[i];
  }

  lemma PlainEnvIsSecret()
    ensures IsBlockedEnvStyleName(".env")
  {
    assert ToAsciiLower(".env") == ".env";
    EnvExactly(".env");
  }

  /** Such a file: the glob `.env.*` at any depth matches it, and a checkpoint keeps it. */
  lemma EnvExampleIsKept(rootName: string)
    ensures IsVisible(rootName, [".env.example"])
    ensures IsIgnoredGlob(NameBegins(".env.")) && GlobMatches(NameBegins(".env."), [".env.example"])
  {
    var lower := ToAsciiLower(".env.example");
    assert lower == ".env.example" && OccursAt(lower, "example", 5);
    EnvExactly(".env.example");
    assert ".env.example"[8..] == "mple" && ".env.example"[..5] == ".env.";
  }
}
