/** Storage keys and the file paths they stand for (crates/core/src/storage.rs). */
module StorageKeys {
  import opened Basics
  import opened FileTree

  // ----- Splitting and joining at a slash -----

  /** The pieces between slashes: one more than there are slashes. */
  function Split(s: string): (pieces: seq<string>)
    ensures pieces != []
    ensures forall p <- pieces :: '/' !in p
  {
    if s == "" then [""]
    else
      var front := Split(s[..|s| - 1]);
      if s[|s| - 1] == '/' then front + [""]
      else front[..|front| - 1] + [front[|front| - 1] + [s[|s| - 1]]]
  }

  function Join(pieces: seq<string>): string
    requires pieces != []
  {
    if |pieces| == 1 then pieces[0] else Join(pieces[..|pieces| - 1]) + "/" + pieces[|pieces| - 1]
  }

  lemma {:induction false} JoinLast(pieces: seq<string>, tail: string)
    requires pieces != []
    ensures Join(pieces[..|pieces| - 1] + [pieces[|pieces| - 1] + tail]) == Join(pieces) + tail
  {
    var longer := pieces[..|pieces| - 1] + [pieces[|pieces| - 1] + tail];
    assert longer[..|longer| - 1] == pieces[..|pieces| - 1];
  }

  lemma {:induction false} JoinSplit(s: string)
    ensures Join(Split(s)) == s
  {
    if s != "" {
      var init, last := s[..|s| - 1], s[|s| - 1];
      JoinSplit(init);
      var front := Split(init);
      if last == '/' {
        assert (front + [""])[..|front|] == front;
      } else {
        JoinLast(front, [last]);
      }
      assert s == init + [last];
    }
  }

  /** `pieces` with `tail` added to the last one. */
  function Longer(pieces: seq<string>, tail: string): seq<string>
    requires pieces != []
  {
    pieces[..|pieces| - 1] + [pieces[|pieces| - 1] + tail]
  }

  lemma LongerTwice(pieces: seq<string>, init: string, last: string)
    requires pieces != []
    ensures Longer(Longer(pieces, init), last) == Longer(pieces, init + last)
  {
    assert pieces[|pieces| - 1] + init + last == pieces[|pieces| - 1] + (init + last);
  }

  lemma SplitAppendStep(s: string, init: string, last: char)
    requires last != '/' && Split(s + init) == Longer(Split(s), init)
    ensures Split(s + (init + [last])) == Longer(Split(s), init + [last])
  {
    SplitOneMore(s + init, last);
    LongerTwice(Split(s), init, [last]);
    assert s + (init + [last]) == s + init + [last];
  }

  lemma {:induction false} SplitAppend(s: string, tail: string)
    requires '/' !in tail
    ensures Split(s + tail) == Longer(Split(s), tail)
  {
    if tail == "" {
      assert s + tail == s && Split(s)[|Split(s)| - 1] + tail == Split(s)[|Split(s)| - 1];
    } else {
      var init, last := tail[..|tail| - 1], tail[|tail| - 1];
      assert init + [last] == tail;
      SplitAppend(s, init);
      SplitAppendStep(s, init, last);
    }
  }

  lemma SplitOneMore(s: string, ch: char)
    requires ch != '/'
    ensures Split(s + [ch]) == Longer(Split(s), [ch])
  {
    assert (s + [ch])[..|s|] == s;
  }

  lemma SplitSlash(s: string)
    ensures Split(s + "/") == Split(s) + [""]
  {
    assert (s + "/")[..|s|] == s;
  }

  lemma {:induction false} SplitJoin(pieces: seq<string>)
    requires pieces != [] && forall p <- pieces :: '/' !in p
    ensures Split(Join(pieces)) == pieces
  {
    var front, last := pieces[..|pieces| - 1], pieces[|pieces| - 1];
    assert "" + last == last && pieces == front + [last];
    if front == [] {
      SplitAppend("", last);
      assert Longer([""], last) == [last];
    } else {
      SplitJoin(front);
      SplitSlash(Join(front));
      SplitAppend(Join(front) + "/", last);
      assert Longer(front + [""], last) == front + [last];
    }
  }

  // ----- Keys -----

  predicate IsSegment(s: string) {
    s != "" && s != "." && s != ".." && '\\' !in s
  }

  /** The file of a key: its segments, the last with `.json` added. */
  function WithSuffix(segments: Path): Path
    requires segments != []
  {
    segments[..|segments| - 1] + [segments[|segments| - 1] + ".json"]
  }

  function KeyPath(key: string): Option<Path> {
    if forall s <- Split(key) :: IsSegment(s) then Some(WithSuffix(Split(key))) else None
  }

  method KeyToPath(key: string) returns (r: Option<Path>)
    ensures r == KeyPath(key)
    ensures r.None? <==> exists s <- Split(key) :: s in {"", ".", ".."} || '\\' in s
    ensures r.Some? ==> var (segments, n) := (Split(key), |Split(key)|);
      |r.value| == n && r.value[n - 1] == segments[n - 1] + ".json" && forall i :: 0 <= i < n - 1 ==> r.value[i] == segments[i]
  {
    var segments, path := Split(key), [];
    for i := 0 to |segments|
      invariant path == segments[..i] && forall s <- path :: IsSegment(s)
    {
      assert segments[i] in segments;
      if !IsSegment(segments[i]) {
        assert segments[i] in {"", ".", ".."} || '\\' in segments[i];
        return None;
      }
      path := path + [segments[i]];
    }
    assert path == segments;
    assert forall s <- segments :: s !in {"", ".", ".."} && '\\' !in s;
    return Some(path[..|path| - 1] + [path[|path| - 1] + ".json"]);
  }

  predicate HasSuffix(s: string, suffix: string) {
    |suffix| <= |s| && s[|s| - |suffix|..] == suffix
  }

  function PathToKey(path: Path): Option<string>
    requires path != []
  {
    var rel := Join(path);
    if HasSuffix(rel, ".json") then Some(rel[..|rel| - 5]) else None
  }

  /** Valid segments, joined, are the key of the path with these segments. */
  lemma KeyOfSegments(segments: Path)
    requires segments != [] && forall s <- segments :: IsSegment(s) && '/' !in s
    ensures KeyPath(Join(segments)) == Some(WithSuffix(segments))
  {
    SplitJoin(segments);
  }

  /** Every key is read back from its path, so no two keys share a file. */
  lemma KeyRoundTrip(key: string)
    requires KeyPath(key).Some?
    ensures PathToKey(KeyPath(key).value) == Some(key)
  {
    JoinSplit(key);
    JoinLast(Split(key), ".json");
    assert (key + ".json")[..|key|] == key;
  }

  lemma KeysHaveTheirOwnFiles(key: string, key': string)
    requires KeyPath(key).Some? && KeyPath(key) == KeyPath(key')
    ensures key == key'
  {
    KeyRoundTrip(key);
    KeyRoundTrip(key');
  }

  /** The stem of a file name that has the `json` extension; a name that is all extension has none. */
  function JsonStem(name: string): Option<string> {
    if HasSuffix(name, ".json") && |name| > 5 then Some(name[..|name| - 5]) else None
  }

  /** The extension `json`: what comes after the last dot, with something before that dot. */
  ghost predicate HasJsonExtension(name: string, stem: string) {
    && 0 < |stem| < |name| && stem == name[..|stem|] && name[|stem|] == '.' && name[|stem| + 1..] == "json"
    && '.' !in name[|stem| + 1..]
  }

  lemma JsonStemExactly(name: string, stem: string)
    ensures JsonStem(name) == Some(stem) <==> HasJsonExtension(name, stem)
  {
    if JsonStem(name) == Some(stem) {
      assert name[|stem|..] == ".json" && name[|stem| + 1..] == name[|stem|..][1..];
    }
    if HasJsonExtension(name, stem) {
      assert name == stem + "." + name[|stem| + 1..];
    }
  }

  /** Every path that names a key is the path of the key it reads back as. */
  lemma PathRoundTrip(path: Path)
    requires path != [] && forall s <- path :: '/' !in s
    requires JsonStem(path[|path| - 1]).Some?
    requires var segments := path[..|path| - 1] + [JsonStem(path[|path| - 1]).value]; forall s <- segments :: IsSegment(s)
    ensures PathToKey(path).Some? && KeyPath(PathToKey(path).value) == Some(path)
    ensures Split(PathToKey(path).value) == path[..|path| - 1] + [JsonStem(path[|path| - 1]).value]
  {
    var stem := JsonStem(path[|path| - 1]).value;
    var segments := path[..|path| - 1] + [stem];
    assert path[|path| - 1] == stem + ".json";
    forall s | s in segments ensures '/' !in s {
      if s == stem {
        assert forall c <- stem :: c in path[|path| - 1];
      }
    }
    SplitJoin(segments);
    JoinLast(segments, ".json");
    assert path == WithSuffix(segments);
    assert Join(path) == Join(segments) + ".json";
    assert Join(path)[..|Join(path)| - 5] == Join(segments);
  }

  // ----- Keys that get in each other's way -----

  lemma {:induction false} JoinTwo(a: seq<string>, b: seq<string>)
    requires a != [] && b != []
    ensures Join(a + b) == Join(a) + "/" + Join(b)
  {
    var front, last := b[..|b| - 1], b[|b| - 1];
    assert (a + b)[..|a + b| - 1] == a + front;
    if front == [] {
      assert a + front == a;
    } else {
      JoinTwo(a, front);
    }
  }

  lemma SplitTwo(a: string, b: string)
    ensures Split(a + "/" + b) == Split(a) + Split(b)
  {
    JoinSplit(a);
    JoinSplit(b);
    JoinTwo(Split(a), Split(b));
    SplitJoin(Split(a) + Split(b));
  }

  /** The path of a key is what its text with `.json` splits into. */
  lemma PathIsSplit(key: string)
    requires KeyPath(key).Some?
    ensures KeyPath(key).value == Split(key + ".json")
  {
    SplitAppend(key, ".json");
  }

  /** One key's file lies above another's exactly when the other key goes on after the file name. */
  lemma PathAboveIsPrefix(key: string, key': string)
    requires KeyPath(key).Some? && KeyPath(key').Some?
    ensures KeyPath(key).value < KeyPath(key').value <==> key + ".json/" <= key'
  {
    PathIsSplit(key);
    var p, p', file := KeyPath(key).value, KeyPath(key').value, key + ".json";
    if file + "/" <= key' {
      var rest := key'[|file + "/"|..];
      assert key' == file + "/" + rest;
      SplitTwo(file, rest);
      assert p' == WithSuffix(Split(file) + Split(rest));
      assert p'[..|p|] == p;
    }
    if p < p' {
      PathIsAbove(key, key');
    }
  }

  lemma PathIsAbove(key: string, key': string)
    requires KeyPath(key).Some? && KeyPath(key').Some? && KeyPath(key).value < KeyPath(key').value
    ensures key + ".json/" <= key'
  {
    var p, segments := KeyPath(key).value, Split(key');
    var rest := segments[|p|..];
    assert segments[..|p|] == p by {
      assert p == KeyPath(key').value[..|p|];
    }
    assert segments == p + rest;
    PathIsSplit(key);
    JoinSplit(key + ".json");
    JoinSplit(key');
    JoinTwo(p, rest);
    assert key' == key + ".json" + "/" + Join(rest);
    assert key + ".json/" == key + ".json" + "/";
  }
}
