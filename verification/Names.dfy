/**
 Repository, pull request and task names (crates/core/src/domain.rs): whatever the input, sanitising
 it gives a valid name, and sanitising that again changes nothing.
 */
module Names {
  import opened Basics
  import opened Text

  const MAX_NAME_LEN := 64

  type CharSet = char -> bool

  predicate IsAsciiAlphanumeric(ch: char) {
    'a' <= ch <= 'z' || 'A' <= ch <= 'Z' || '0' <= ch <= '9'
  }

  predicate IsAllowedChar(ch: char) {
    IsAsciiAlphanumeric(ch) || ch == '.' || ch == '_' || ch == '-'
  }

  predicate IsAllowedRefChar(ch: char) {
    IsAsciiAlphanumeric(ch) || ch == '_' || ch == '-'
  }

  /** The name types: their characters and the name used when nothing is left of an input. */
  datatype NameType = RepositoryName | PrName | TaskId {
    function Allowed(): CharSet {
      match this
      case RepositoryName => IsAllowedChar
      case _ => IsAllowedRefChar
    }

    function Fallback(): string {
      match this
      case RepositoryName => "repo"
      case PrName => "pr"
      case TaskId => "task"
    }
  }

  // ----- Validation -----

  datatype NameError = Empty | TooLong(len: nat) | ForbiddenSegment | InvalidChar(ch: char)

  predicate IsName(value: string, allowed: CharSet) {
    value != "" && ByteLen(value) <= MAX_NAME_LEN && value != "." && value != ".." && forall ch <- value :: allowed(ch)
  }

  /** `ch` is the first character of the value outside the set. */
  ghost predicate FirstRefused(value: string, allowed: CharSet, ch: char) {
    exists i :: 0 <= i < |value| && value[i] == ch && !allowed(ch) && forall j :: 0 <= j < i ==> allowed(value[j])
  }

  method ValidateNameWith(value: string, allowed: CharSet) returns (r: Result<(), NameError>)
    ensures r.Ok? <==> IsName(value, allowed)
    ensures r == Err(Empty) <==> value == ""
    ensures r.Err? && r.error.TooLong? <==> ByteLen(value) > MAX_NAME_LEN
    ensures r.Err? && r.error.TooLong? ==> r.error.len == ByteLen(value)
    ensures r == Err(ForbiddenSegment) <==> value == "." || value == ".."
    ensures r.Err? && r.error.InvalidChar? ==> FirstRefused(value, allowed, r.error.ch)
  {
    if value == "" {
      return Err(Empty);
    }
    assert ByteLen(".") == 1 && ByteLen("..") == 2;
    if ByteLen(value) > MAX_NAME_LEN {
      return Err(TooLong(ByteLen(value)));
    }
    if value == "." || value == ".." {
      return Err(ForbiddenSegment);
    }
    for i := 0 to |value|
      invariant forall j :: 0 <= j < i ==> allowed(value[j])
    {
      if !allowed(value[i]) {
        return Err(InvalidChar(value[i]));
      }
    }
    return Ok(());
  }

  // ----- Sanitising -----

  function Mapped(ch: char, allowed: CharSet): char {
    if allowed(ch) then LowerChar(ch) else '-'
  }

  predicate EndsInDash(s: string) {
    s != "" && s[|s| - 1] == '-'
  }

  /** Every character mapped, runs of dashes shortened to one. */
  function Collapsed(s: string, allowed: CharSet): string {
    if s == "" then ""
    else
      var (out, ch) := (Collapsed(s[..|s| - 1], allowed), Mapped(s[|s| - 1], allowed));
      if ch == '-' && EndsInDash(out) then out else out + [ch]
  }

  function TrimDashes(s: string): string {
    if s == "" then ""
    else if s[0] == '-' then TrimDashes(s[1..])
    else if s[|s| - 1] == '-' then TrimDashes(s[..|s| - 1])
    else s
  }

  function OrFallback(s: string, fallback: string): string {
    if s == "" || s == "." || s == ".." then fallback else s
  }

  function Sanitized(input: string, fallback: string, allowed: CharSet): string {
    var s := TrimDashes(Collapsed(Trim(input), allowed));
    OrFallback(if |s| > MAX_NAME_LEN then TrimDashes(s[..MAX_NAME_LEN]) else s, fallback)
  }

  method SanitizeNameWith(input: string, fallback: string, allowed: CharSet) returns (r: string)
    ensures r == Sanitized(input, fallback, allowed)
  {
    var trimmed := Trim(input);
    var out, lastDash := "", false;
    for i := 0 to |trimmed|
      invariant out == Collapsed(trimmed[..i], allowed) && lastDash == EndsInDash(out)
    {
      assert trimmed[..i + 1][..i] == trimmed[..i];
      var mapped := if allowed(trimmed[i]) then LowerChar(trimmed[i]) else '-';
      if mapped == '-' {
        if lastDash {
          continue;
        }
        lastDash := true;
      } else {
        lastDash := false;
      }
      out := out + [mapped];
    }
    assert trimmed[..|trimmed|] == trimmed;
    var sanitized := TrimDashes(out);
    if sanitized == "" || sanitized == "." || sanitized == ".." {
      return fallback;
    } else if |sanitized| > MAX_NAME_LEN {
      var truncated := TrimDashes(sanitized[..MAX_NAME_LEN]);
      if truncated == "" || truncated == "." || truncated == ".." {
        return fallback;
      }
      return truncated;
    } else {
      return sanitized;
    }
  }

  // ----- What sanitising guarantees -----

  /** Single dashes between runs of allowed lower-case characters. */
  ghost predicate IsTidy(s: string, allowed: CharSet) {
    && (forall i :: 0 <= i < |s| ==> allowed(s[i]) && LowerChar(s[i]) == s[i])
    && (forall i :: 0 <= i < |s| - 1 ==> !(s[i] == '-' && s[i + 1] == '-'))
  }

  ghost predicate HasDashAtEdge(s: string) {
    s != "" && (s[0] == '-' || s[|s| - 1] == '-')
  }

  /** What sanitising makes of an input. */
  ghost predicate IsClean(s: string, allowed: CharSet) {
    IsTidy(s, allowed) && !HasDashAtEdge(s) && s != "" && s != "." && s != ".." && |s| <= MAX_NAME_LEN
  }

  /** A set of ASCII characters, the dash among them, closed under lower-casing, without white space. */
  ghost predicate IsNameSet(allowed: CharSet) {
    allowed('-') && forall ch :: allowed(ch) ==> ch as int < 0x80 && allowed(LowerChar(ch)) && !IsWhitespace(ch)
  }

  lemma {:induction false} CollapsedIsTidy(s: string, allowed: CharSet)
    requires IsNameSet(allowed)
    ensures IsTidy(Collapsed(s, allowed), allowed)
  {
    if s != "" {
      CollapsedIsTidy(s[..|s| - 1], allowed);
    }
  }

  lemma {:induction false} TrimmedIsTidy(s: string, allowed: CharSet)
    requires IsTidy(s, allowed)
    ensures IsTidy(TrimDashes(s), allowed) && !HasDashAtEdge(TrimDashes(s)) && |TrimDashes(s)| <= |s|
    ensures s != "" && s[0] != '-' ==> |s| - 1 <= |TrimDashes(s)|
  {
    if s != "" && s[0] == '-' {
      TrimmedIsTidy(s[1..], allowed);
    } else if s != "" && s[|s| - 1] == '-' {
      var front := s[..|s| - 1];
      TrimmedIsTidy(front, allowed);
      if front != "" {
        assert s[|s| - 2] == front[|front| - 1] != '-';
      }
    }
  }

  lemma {:induction false} TidyIsCollapsed(s: string, allowed: CharSet)
    requires IsTidy(s, allowed)
    ensures Collapsed(s, allowed) == s
  {
    if s != "" {
      TidyIsCollapsed(s[..|s| - 1], allowed);
      assert s == s[..|s| - 1] + [s[|s| - 1]];
      assert |s| > 1 ==> s[..|s| - 1][|s| - 2] == s[|s| - 2];
    }
  }

  lemma SanitizedIsClean(input: string, fallback: string, allowed: CharSet)
    requires IsNameSet(allowed) && IsClean(fallback, allowed)
    ensures IsClean(Sanitized(input, fallback, allowed), allowed)
  {
    var out := Collapsed(Trim(input), allowed);
    CollapsedIsTidy(Trim(input), allowed);
    TrimmedIsTidy(out, allowed);
    var s := TrimDashes(out);
    if |s| > MAX_NAME_LEN {
      TrimmedIsTidy(s[..MAX_NAME_LEN], allowed);
    }
  }

  lemma CleanIsFixed(s: string, fallback: string, allowed: CharSet)
    requires IsNameSet(allowed) && IsClean(s, allowed)
    ensures Sanitized(s, fallback, allowed) == s
  {
    assert !IsWhitespace(s[0]) && !IsWhitespace(s[|s| - 1]);
    assert Trim(s) == s;
    TidyIsCollapsed(s, allowed);
  }

  lemma {:induction false} AsciiLength(s: string)
    requires forall i :: 0 <= i < |s| ==> s[i] as int < 0x80
    ensures ByteLen(s) == |s|
  {
    if s != "" {
      AsciiLength(s[..|s| - 1]);
    }
  }

  lemma NameTypesAreSound(t: NameType)
    ensures IsNameSet(t.Allowed()) && IsClean(t.Fallback(), t.Allowed())
  {
  }

  /** For every name type and every input the sanitised name is valid, has no dash at either end and no
      two in a row, and is sanitised to itself. */
  lemma SanitizedNames(t: NameType, input: string)
    ensures var name := Sanitized(input, t.Fallback(), t.Allowed());
      && IsName(name, t.Allowed())
      && IsClean(name, t.Allowed())
      && Sanitized(name, t.Fallback(), t.Allowed()) == name
  {
    var name := Sanitized(input, t.Fallback(), t.Allowed());
    NameTypesAreSound(t);
    SanitizedIsClean(input, t.Fallback(), t.Allowed());
    CleanIsFixed(name, t.Fallback(), t.Allowed());
    AsciiLength(name);
  }

  // ----- The words of an input -----

  /** Characters that stay in a name as more than a separator. */
  predicate IsWordChar(ch: char, allowed: CharSet) {
    allowed(ch) && ch != '-'
  }

  predicate EndsInWord(s: string, allowed: CharSet) {
    s != "" && IsWordChar(s[|s| - 1], allowed)
  }

  /** The longest runs of word characters, in lower case. */
  function Words(s: string, allowed: CharSet): (words: seq<string>)
    ensures words == [] <==> forall i :: 0 <= i < |s| ==> !IsWordChar(s[i], allowed)
    ensures AreWords(words)
  {
    if s == "" then []
    else
      var (front, ch) := (s[..|s| - 1], s[|s| - 1]);
      assert s == front + [ch];
      if !IsWordChar(ch, allowed) then Words(front, allowed)
      else OneCharMore(Words(front, allowed), EndsInWord(front, allowed), ch)
  }

  /** The character goes on with the last word or begins a new one. */
  function OneCharMore(words: seq<string>, goesOn: bool, ch: char): seq<string>
    requires goesOn ==> words != []
  {
    var lower := if 'A' <= ch <= 'Z' then (ch as int + 32) as char else ch;
    if goesOn then words[..|words| - 1] + [words[|words| - 1] + [lower]] else words + [[lower]]
  }

  predicate AreWords(words: seq<string>) {
    forall i :: 0 <= i < |words| ==> words[i] != "" && '-' !in words[i]
  }

  function JoinWithDash(words: seq<string>): string {
    if words == [] then ""
    else if |words| == 1 then words[0]
    else JoinWithDash(words[..|words| - 1]) + "-" + words[|words| - 1]
  }

  lemma {:induction false} JoinedEdges(words: seq<string>)
    requires AreWords(words)
    ensures words == [] ==> JoinWithDash(words) == ""
    ensures words != [] ==> JoinWithDash(words) != "" && !HasDashAtEdge(JoinWithDash(words))
  {
    if |words| > 1 {
      var last := words[|words| - 1];
      JoinedEdges(words[..|words| - 1]);
      assert last[|last| - 1] in last;
    } else if |words| == 1 {
      assert words[0][0] in words[0] && words[0][|words[0]| - 1] in words[0];
    }
  }

  /** What collapsing makes of an input: its words joined by dashes, and a dash where it begins or ends
      between words. */
  function Framed(words: seq<string>, startsInWord: bool, endsInWord: bool): string {
    if words == [] then "-"
    else (if startsInWord then "" else "-") + JoinWithDash(words) + (if endsInWord then "" else "-")
  }

  lemma {:induction false} CollapsedIsFramed(s: string, allowed: CharSet)
    requires IsNameSet(allowed) && s != ""
    ensures Collapsed(s, allowed) == Framed(Words(s, allowed), IsWordChar(s[0], allowed), EndsInWord(s, allowed))
  {
    var front, ch := s[..|s| - 1], s[|s| - 1];
    assert s == front + [ch];
    if front != "" {
      CollapsedIsFramed(front, allowed);
      assert s[0] == front[0];
      FramedOneMore(Words(front, allowed), IsWordChar(front[0], allowed), EndsInWord(front, allowed), ch, allowed);
    } else {
      assert Words(front, allowed) == [] && Collapsed(front, allowed) == "";
    }
  }

  lemma FramedOneMore(words: seq<string>, startsInWord: bool, endsInWord: bool, ch: char, allowed: CharSet)
    requires IsNameSet(allowed) && AreWords(words) && (startsInWord || endsInWord ==> words != [])
    ensures var (out, mapped) := (Framed(words, startsInWord, endsInWord), Mapped(ch, allowed));
      Framed(if IsWordChar(ch, allowed) then OneCharMore(words, endsInWord, ch) else words, startsInWord, IsWordChar(ch, allowed))
      == if mapped == '-' && EndsInDash(out) then out else out + [mapped]
  {
    FrameEnds(words, startsInWord, endsInWord);
    if IsWordChar(ch, allowed) {
      FramedInWord(words, startsInWord, endsInWord, ch);
    } else if endsInWord {
      FramedAtDash(words, startsInWord);
    }
  }

  lemma FrameEnds(words: seq<string>, startsInWord: bool, endsInWord: bool)
    requires AreWords(words)
    ensures EndsInDash(Framed(words, startsInWord, endsInWord)) <==> words == [] || !endsInWord
  {
    JoinedEdges(words);
  }

  lemma FramedAtDash(words: seq<string>, startsInWord: bool)
    requires words != []
    ensures Framed(words, startsInWord, false) == Framed(words, startsInWord, true) + "-"
  {
    assert Framed(words, startsInWord, true) == (if startsInWord then "" else "-") + JoinWithDash(words);
  }

  lemma FramedInWord(words: seq<string>, startsInWord: bool, endsInWord: bool, ch: char)
    requires startsInWord || endsInWord ==> words != []
    ensures Framed(OneCharMore(words, endsInWord, ch), startsInWord, true) == Framed(words, startsInWord, endsInWord) + [LowerChar(ch)]
  {
    if endsInWord {
      LongerLastWord(words, LowerChar(ch));
    } else if words != [] {
      assert (words + [[LowerChar(ch)]])[..|words|] == words;
    }
  }

  lemma LongerLastWord(words: seq<string>, ch: char)
    requires words != []
    ensures JoinWithDash(words[..|words| - 1] + [words[|words| - 1] + [ch]]) == JoinWithDash(words) + [ch]
  {
    var longer := words[..|words| - 1] + [words[|words| - 1] + [ch]];
    assert longer[..|longer| - 1] == words[..|words| - 1];
  }

  lemma TrimmedFrame(words: seq<string>, startsInWord: bool, endsInWord: bool)
    requires AreWords(words)
    ensures TrimDashes(Framed(words, startsInWord, endsInWord)) == JoinWithDash(words)
  {
    JoinedEdges(words);
    if words != [] {
      TrimBoth(startsInWord, JoinWithDash(words), endsInWord);
    }
  }

  lemma TrimBoth(noFirst: bool, joined: string, noLast: bool)
    requires joined != "" && !HasDashAtEdge(joined)
    ensures TrimDashes((if noFirst then "" else "-") + joined + (if noLast then "" else "-")) == joined
  {
    var framed := joined + if noLast then "" else "-";
    NothingToTrim(joined);
    NothingToTrim(framed);
    assert noLast ==> framed == joined;
    assert !noLast ==> framed[..|framed| - 1] == joined;
    assert (if noFirst then "" else "-") + joined + (if noLast then "" else "-") == (if noFirst then "" else "-") + framed;
    assert noFirst ==> "" + framed == framed;
    assert !noFirst ==> ("-" + framed)[1..] == framed;
  }

  lemma NothingToTrim(s: string)
    ensures !HasDashAtEdge(s) ==> TrimDashes(s) == s
    ensures s != "" && s[0] != '-' && s[|s| - 1] == '-' ==> TrimDashes(s) == TrimDashes(s[..|s| - 1])
  {
  }

  /** Characters around the words make no difference. */
  lemma {:induction false} WordsAfter(a: string, s: string, allowed: CharSet)
    requires forall i :: 0 <= i < |a| ==> !IsWordChar(a[i], allowed)
    ensures Words(a + s, allowed) == Words(s, allowed)
  {
    if s == "" {
      assert Words(a, allowed) == [] && a + s == a;
    } else {
      var front := s[..|s| - 1];
      assert (a + s)[..|a + s| - 1] == a + front;
      WordsAfter(a, front, allowed);
      assert EndsInWord(a + front, allowed) == EndsInWord(front, allowed);
    }
  }

  lemma {:induction false} WordsBefore(s: string, b: string, allowed: CharSet)
    requires forall i :: 0 <= i < |b| ==> !IsWordChar(b[i], allowed)
    ensures Words(s + b, allowed) == Words(s, allowed)
  {
    if b == "" {
      assert s + b == s;
    } else {
      assert (s + b)[..|s + b| - 1] == s + b[..|b| - 1];
      WordsBefore(s, b[..|b| - 1], allowed);
    }
  }

  /** Before the cut a name is the words of the input joined by dashes. */
  lemma TidiedIsWords(input: string, allowed: CharSet)
    requires IsNameSet(allowed)
    ensures TrimDashes(Collapsed(Trim(input), allowed)) == JoinWithDash(Words(input, allowed))
  {
    var from, to := TrimExactly(input);
    var s := input[from..to];
    assert input == input[..from] + s + input[to..];
    WordsBefore(input[..from] + s, input[to..], allowed);
    WordsAfter(input[..from], s, allowed);
    if s != "" {
      CollapsedIsFramed(s, allowed);
      TrimmedFrame(Words(s, allowed), IsWordChar(s[0], allowed), EndsInWord(s, allowed));
    }
  }

  /** A name is the words of the input joined by dashes, cut to 64 characters, or to 63 where the cut
      leaves a dash; the fallback is used exactly for inputs of which nothing, or only dots, is left. */
  lemma NamesAreWords(t: NameType, input: string)
    ensures var (words, name) := (JoinWithDash(Words(input, t.Allowed())), Sanitized(input, t.Fallback(), t.Allowed()));
      name == if words in {"", ".", ".."} then match t { case RepositoryName => "repo" case PrName => "pr" case TaskId => "task" }
              else if |words| <= 64 then words
              else if words[63] == '-' then words[..63]
              else words[..64]
  {
    NameTypesAreSound(t);
    TidiedIsWords(input, t.Allowed());
    var words := JoinWithDash(Words(input, t.Allowed()));
    CollapsedIsTidy(Trim(input), t.Allowed());
    TrimmedIsTidy(Collapsed(Trim(input), t.Allowed()), t.Allowed());
    if |words| > 64 {
      CutTidy(words, t.Allowed());
    }
  }

  lemma CutTidy(s: string, allowed: CharSet)
    requires |s| > 64 && IsTidy(s, allowed) && s[0] != '-'
    ensures TrimDashes(s[..64]) == if s[63] == '-' then s[..63] else s[..64]
  {
    NothingToTrim(s[..64]);
    if s[63] == '-' {
      assert s[62] != '-';
      assert s[..64][..63] == s[..63];
      NothingToTrim(s[..63]);
    }
  }

  /** Letters, digits, underscores and dashes, and for repositories also dots. */
  lemma AllowedExactly(t: NameType, ch: char)
    ensures t.Allowed()(ch) <==>
      'a' <= ch <= 'z' || 'A' <= ch <= 'Z' || '0' <= ch <= '9' || ch == '_' || ch == '-' || (t.RepositoryName? && ch == '.')
  {
  }
}
