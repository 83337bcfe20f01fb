/**
 Multi-edit replacement in a file (crates/fs-runtime/src/lib.rs). Every edit replaces all leftmost
 non-overlapping occurrences of its old text, and a mismatch at any edit leaves the file alone.
 */
module EditReplace {
  import opened Basics
  import opened Text

  // ----- Occurrences -----

  predicate OccursAt(text: string, needle: string, i: int) {
    0 <= i <= |text| - |needle| && text[i..i + |needle|] == needle
  }

  /** `i` is where the needle first occurs. */
  ghost predicate IsFirst(text: string, needle: string, i: int) {
    OccursAt(text, needle, i) && forall j :: 0 <= j < i ==> !OccursAt(text, needle, j)
  }

  ghost predicate Occurs(text: string, needle: string) {
    exists i :: OccursAt(text, needle, i)
  }

  /** What `str::find` answers. */
  function Find(text: string, needle: string): (r: Option<nat>)
    ensures r.Some? ==> IsFirst(text, needle, r.value)
    ensures r.None? ==> !Occurs(text, needle)
  {
    FindFrom(text, needle, 0)
  }

  function FindFrom(text: string, needle: string, from: nat): (r: Option<nat>)
    requires from <= |text|
    ensures r.Some? ==> from <= r.value && OccursAt(text, needle, r.value) && forall j :: from <= j < r.value ==> !OccursAt(text, needle, j)
    ensures r.None? ==> forall j :: from <= j ==> !OccursAt(text, needle, j)
    decreases |text| - from
  {
    if OccursAt(text, needle, from) then Some(from)
    else if from == |text| then None
    else FindFrom(text, needle, from + 1)
  }

  /** A text around the needle contains it, and what is found is the needle with text around it. */
  lemma FindsWhatIsThere(before: string, needle: string, after: string)
    ensures Find(before + needle + after, needle).Some? && Find(before + needle + after, needle).value <= |before|
    ensures var text := before + needle + after; var i := Find(text, needle).value;
      text == text[..i] + needle + text[i + |needle|..]
  {
    var text := before + needle + after;
    assert text[|before|..|before| + |needle|] == needle;
    OneIsFound(text, needle, |before|);
    CutAt(text, needle, Find(text, needle).value);
  }

  /** The text around the occurrences found from left to right, each search starting where the last
      occurrence ended. */
  function Pieces(text: string, needle: string): (r: seq<string>)
    requires needle != ""
    ensures r != []
    decreases |text|
  {
    match Find(text, needle)
    case None => [text]
    case Some(i) => [text[..i]] + Pieces(text[i + |needle|..], needle)
  }

  function Join(pieces: seq<string>, separator: string): string
    requires pieces != []
  {
    if |pieces| == 1 then pieces[0] else pieces[0] + separator + Join(pieces[1..], separator)
  }

  /** How often the needle occurs, counted from left to right without overlap. */
  function Occurrences(text: string, needle: string): nat
    requires needle != ""
  {
    |Pieces(text, needle)| - 1
  }

  function Replaced(text: string, needle: string, replacement: string): string
    requires needle != ""
  {
    Join(Pieces(text, needle), replacement)
  }

  method CountNonOverlapping(haystack: string, needle: string) returns (count: nat)
    ensures count == if needle == "" then 0 else Occurrences(haystack, needle)
  {
    if needle == "" {
      return 0;
    }
    count := 0;
    var rest := haystack;
    var found := Find(rest, needle);
    while found.Some?
      invariant count + |Pieces(rest, needle)| == |Pieces(haystack, needle)| && found == Find(rest, needle)
      decreases |rest|
    {
      count := count + 1;
      rest := rest[found.value + |needle|..];
      found := Find(rest, needle);
    }
  }

  /** What `str::replacen` returns. */
  method Replacen(text: string, needle: string, replacement: string, n: nat) returns (r: string)
    requires needle != "" && n == Occurrences(text, needle)
    ensures r == Replaced(text, needle, replacement)
  {
    r := "";
    var rest := text;
    for k := 0 to n
      invariant |Pieces(rest, needle)| == n - k + 1
      invariant r + Join(Pieces(rest, needle), replacement) == Replaced(text, needle, replacement)
    {
      var i := Find(rest, needle).value;
      ReplaceOne(r, rest, needle, replacement);
      r := r + rest[..i] + replacement;
      rest := rest[i + |needle|..];
    }
    r := r + rest;
  }

  lemma ReplaceOne(r: string, rest: string, needle: string, replacement: string)
    requires needle != "" && Find(rest, needle).Some?
    ensures var i := Find(rest, needle).value;
      && r + Join(Pieces(rest, needle), replacement)
         == r + rest[..i] + replacement + Join(Pieces(rest[i + |needle|..], needle), replacement)
      && |Pieces(rest, needle)| == |Pieces(rest[i + |needle|..], needle)| + 1
  {
    var i := Find(rest, needle).value;
    JoinFirst(rest[..i], Pieces(rest[i + |needle|..], needle), replacement);
  }

  // ----- What counting and replacing mean -----

  /** Cutting the text at the occurrences loses nothing. */
  lemma {:induction false} PiecesJoin(text: string, needle: string)
    requires needle != ""
    ensures Join(Pieces(text, needle), needle) == text
    decreases |text|
  {
    var i := Find(text, needle);
    if i.Some? {
      var rest := text[i.value + |needle|..];
      PiecesJoin(rest, needle);
      JoinFirst(text[..i.value], Pieces(rest, needle), needle);
      CutAt(text, needle, i.value);
    }
  }

  lemma JoinFirst(piece: string, pieces: seq<string>, separator: string)
    requires pieces != []
    ensures Join([piece] + pieces, separator) == piece + separator + Join(pieces, separator)
  {
    assert ([piece] + pieces)[1..] == pieces;
  }

  lemma CutAt(text: string, needle: string, i: nat)
    requires OccursAt(text, needle, i)
    ensures text[..i] + needle + text[i + |needle|..] == text
  {
    assert text == text[..i] + text[i..i + |needle|] + text[i + |needle|..];
  }

  /** The leftmost way to cut at a needle: none begins before the end of a piece, none lies in the last. */
  ghost predicate IsLeftmost(pieces: seq<string>, needle: string)
    requires pieces != []
  {
    && (forall k :: 0 <= k < |pieces| - 1 ==> IsFirst(pieces[k] + needle, needle, |pieces[k]|))
    && !Occurs(pieces[|pieces| - 1], needle)
  }

  /** An occurrence in a text is one in its beginning, as far as that reaches. */
  lemma OccursInFront(front: string, text: string, needle: string, j: int)
    requires front <= text && j + |needle| <= |front|
    ensures OccursAt(front, needle, j) <==> OccursAt(text, needle, j)
  {
    if 0 <= j {
      assert front[j..j + |needle|] == text[j..j + |needle|];
    }
  }

  lemma FirstInFront(front: string, text: string, needle: string, i: int)
    requires front <= text && i + |needle| == |front|
    ensures IsFirst(front, needle, i) <==> IsFirst(text, needle, i)
  {
    forall j | j <= i ensures OccursAt(front, needle, j) <==> OccursAt(text, needle, j) {
      OccursInFront(front, text, needle, j);
    }
  }

  lemma {:induction false} PiecesAreLeftmost(text: string, needle: string)
    requires needle != ""
    ensures IsLeftmost(Pieces(text, needle), needle)
    decreases |text|
  {
    var i := Find(text, needle);
    if i.Some? {
      var piece, rest := text[..i.value], text[i.value + |needle|..];
      PiecesAreLeftmost(rest, needle);
      assert piece + needle == text[..i.value + |needle|];
      FirstInFront(piece + needle, text, needle, i.value);
      var pieces, later := Pieces(text, needle), Pieces(rest, needle);
      assert pieces == [piece] + later;
      forall k | 0 <= k < |pieces| - 1 ensures IsFirst(pieces[k] + needle, needle, |pieces[k]|) {
        assert 0 < k ==> pieces[k] == later[k - 1];
      }
    }
  }

  /** There is only one leftmost way to cut a text. */
  lemma {:induction false} LeftmostIsUnique(pieces: seq<string>, needle: string)
    requires needle != "" && pieces != [] && IsLeftmost(pieces, needle)
    ensures Pieces(Join(pieces, needle), needle) == pieces
  {
    var text := Join(pieces, needle);
    if |pieces| > 1 {
      var n := |pieces[0]|;
      assert IsLeftmost(pieces[1..], needle);
      LeftmostIsUnique(pieces[1..], needle);
      assert text[n + |needle|..] == Join(pieces[1..], needle) && text[..n] == pieces[0];
      assert IsFirst(pieces[0] + needle, needle, n);
      FirstInFront(pieces[0] + needle, text, needle, n);
      FirstIsFound(text, needle, n);
    } else {
      NothingIsFound(text, needle);
    }
  }

  lemma FirstIsFound(text: string, needle: string, i: nat)
    requires IsFirst(text, needle, i)
    ensures Find(text, needle) == Some(i)
  {
    var found := Find(text, needle);
    assert found.Some? ==> IsFirst(text, needle, found.value);
  }

  lemma NothingIsFound(text: string, needle: string)
    requires !Occurs(text, needle)
    ensures Find(text, needle) == None
  {
  }

  lemma OneIsFound(text: string, needle: string, i: int)
    requires OccursAt(text, needle, i)
    ensures Find(text, needle).Some? && Find(text, needle).value <= i
  {
    assert Occurs(text, needle);
  }

  lemma OccursInRest(text: string, needle: string, from: nat, i: int)
    requires OccursAt(text, needle, i) && from <= i
    ensures OccursAt(text[from..], needle, i - from)
  {
    assert text[from..][i - from..i - from + |needle|] == text[i..i + |needle|];
  }

  /** Occurrences in ascending order that do not overlap. */
  ghost predicate AreDisjoint(text: string, needle: string, positions: seq<int>) {
    && (forall k :: 0 <= k < |positions| ==> OccursAt(text, needle, positions[k]))
    && (forall k, l :: 0 <= k < l < |positions| ==> positions[k] + |needle| <= positions[l])
  }

  /** The later positions, counted from the end of an occurrence at or before the first one. */
  function LaterPositions(positions: seq<int>, from: int): seq<int>
    requires positions != []
  {
    seq(|positions| - 1, k requires 0 <= k < |positions| - 1 => positions[k + 1] - from)
  }

  lemma LaterAreDisjoint(text: string, needle: string, positions: seq<int>, first: nat)
    requires positions != [] && AreDisjoint(text, needle, positions) && first <= positions[0] && OccursAt(text, needle, first)
    ensures AreDisjoint(text[first + |needle|..], needle, LaterPositions(positions, first + |needle|))
  {
    var from := first + |needle|;
    var later := LaterPositions(positions, from);
    forall k | 0 <= k < |later| ensures OccursAt(text[from..], needle, later[k]) {
      assert positions[0] + |needle| <= positions[k + 1];
      OccursInRest(text, needle, from, positions[k + 1]);
    }
  }

  /** No choice of disjoint occurrences has more of them than were counted. */
  lemma {:induction false} CountIsMaximal(text: string, needle: string, positions: seq<int>)
    requires needle != "" && AreDisjoint(text, needle, positions)
    ensures |positions| <= Occurrences(text, needle)
    decreases |positions|
  {
    if positions != [] {
      OneIsFound(text, needle, positions[0]);
      var first := Find(text, needle).value;
      LaterAreDisjoint(text, needle, positions, first);
      CountIsMaximal(text[first + |needle|..], needle, LaterPositions(positions, first + |needle|));
    }
  }

  lemma {:induction false} JoinLength(pieces: seq<string>, a: string, b: string)
    requires pieces != []
    ensures |Join(pieces, b)| == |Join(pieces, a)| + (|pieces| - 1) * (|b| - |a|)
  {
    if |pieces| > 1 {
      JoinLength(pieces[1..], a, b);
      assert (|pieces| - 1) * (|b| - |a|) == (|pieces| - 2) * (|b| - |a|) + (|b| - |a|);
    }
  }

  lemma ReplacedLength(text: string, needle: string, replacement: string)
    requires needle != ""
    ensures |Replaced(text, needle, replacement)| == |text| + Occurrences(text, needle) * (|replacement| - |needle|)
  {
    PiecesJoin(text, needle);
    JoinLength(Pieces(text, needle), needle, replacement);
  }

  lemma {:induction false} JoinBytes(pieces: seq<string>, a: string, b: string)
    requires pieces != []
    ensures ByteLen(Join(pieces, b)) == ByteLen(Join(pieces, a)) + (|pieces| - 1) * (ByteLen(b) - ByteLen(a))
  {
    if |pieces| > 1 {
      JoinBytes(pieces[1..], a, b);
      ByteLenOfThree(pieces[0], a, Join(pieces[1..], a));
      ByteLenOfThree(pieces[0], b, Join(pieces[1..], b));
      assert (|pieces| - 1) * (ByteLen(b) - ByteLen(a)) == (|pieces| - 2) * (ByteLen(b) - ByteLen(a)) + (ByteLen(b) - ByteLen(a));
    }
  }

  lemma ByteLenOfThree(a: string, b: string, c: string)
    ensures ByteLen(a + b + c) == ByteLen(a) + ByteLen(b) + ByteLen(c)
  {
    ByteLenAdds(a, b);
    ByteLenAdds(a + b, c);
  }

  lemma ReplacedBytes(text: string, needle: string, replacement: string)
    requires needle != ""
    ensures ByteLen(Replaced(text, needle, replacement))
      == ByteLen(text) + Occurrences(text, needle) * (ByteLen(replacement) - ByteLen(needle))
  {
    PiecesJoin(text, needle);
    JoinBytes(Pieces(text, needle), needle, replacement);
  }

  /** One edit leaves the text as it was exactly when nothing occurs or the new text is the old one. */
  lemma ReplacingChanges(text: string, needle: string, replacement: string)
    requires needle != ""
    ensures Replaced(text, needle, replacement) == text <==> needle == replacement || Occurrences(text, needle) == 0
  {
    PiecesJoin(text, needle);
    var pieces := Pieces(text, needle);
    if needle != replacement && Occurrences(text, needle) > 0 {
      ReplacedLength(text, needle, replacement);
      if |needle| == |replacement| {
        var n, m := |pieces[0]|, |needle|;
        assert text[n..n + m] == needle by {
          assert text == pieces[0] + needle + Join(pieces[1..], needle);
        }
        assert Replaced(text, needle, replacement)[n..n + m] == replacement by {
          assert Replaced(text, needle, replacement) == pieces[0] + replacement + Join(pieces[1..], replacement);
        }
      } else {
        NonzeroProduct(Occurrences(text, needle), |replacement| - |needle|);
      }
    }
  }

  lemma NonzeroProduct(a: int, b: int)
    requires a != 0 && b != 0
    ensures a * b != 0
  {
  }

  // ----- The edit loop -----

  datatype EditOp = EditOp(oldText: string, newText: string, expectedReplacements: Option<nat>) {
    /** One replacement is expected unless the edit says how many. */
    function Expected(): nat {
      if expectedReplacements.None? then 1 else expectedReplacements.value
    }
  }

  datatype Outcome = Outcome(changed: bool, replacements: nat)

  datatype EditError = NoEdits | EmptyOld | Mismatch(expected: nat, found: nat) | NotWritten

  /** A file, and which contents it may be given. */
  class Document {
    const mayHold: string -> bool
    var content: string

    constructor (content: string, mayHold: string -> bool)
      ensures this.content == content && this.mayHold == mayHold
    {
      this.content, this.mayHold := content, mayHold;
    }

    method Write(text: string) returns (ok: bool)
      modifies this
      ensures ok == mayHold(text) && content == if ok then text else old(content)
    {
      ok := mayHold(text);
      if ok {
        content := text;
      }
    }
  }

  /** The text after all edits; `None` when one of them does not find what it expects. */
  function Edited(text: string, edits: seq<EditOp>): Option<string>
    requires AllGiven(edits)
  {
    if edits == [] then Some(text)
    else
      var last := edits[|edits| - 1];
      var before :- Edited(text, edits[..|edits| - 1]);
      if Occurrences(before, last.oldText) == last.Expected() then Some(Replaced(before, last.oldText, last.newText)) else None
  }

  function TotalExpected(edits: seq<EditOp>): nat {
    if edits == [] then 0 else TotalExpected(edits[..|edits| - 1]) + edits[|edits| - 1].Expected()
  }

  function TotalGrowth(edits: seq<EditOp>): int {
    if edits == [] then 0
    else
      var last := edits[|edits| - 1];
      TotalGrowth(edits[..|edits| - 1]) + last.Expected() * (ByteLen(last.newText) - ByteLen(last.oldText))
  }

  predicate SomeEditDiffers(edits: seq<EditOp>) {
    exists edit <- edits :: edit.oldText != edit.newText
  }

  predicate AllGiven(edits: seq<EditOp>) {
    forall edit <- edits :: edit.oldText != ""
  }

  /** On success the file holds the edited text, whether or not anything was written; otherwise it is
      untouched, because the edits are malformed, or one does not find what it expects, or the result
      may not be written. */
  method EditReplaceWorkspace(file: Document, edits: seq<EditOp>) returns (r: Result<Outcome, EditError>)
    modifies file
    ensures r == Err(NoEdits) <==> edits == []
    ensures r == Err(EmptyOld) <==> edits != [] && !AllGiven(edits)
    ensures r.Ok? ==> AllGiven(edits) && Edited(old(file.content), edits) == Some(file.content)
    ensures r.Ok? ==> r.value == Outcome(SomeEditDiffers(edits), TotalExpected(edits))
    ensures r.Ok? ==> (r.value.changed <==> exists edit <- edits :: edit.oldText != edit.newText)
    ensures r.Ok? ==> exists texts :: Leads(old(file.content), edits, texts, file.content, r.value.replacements)
    ensures r.Ok? && !r.value.changed ==> file.content == old(file.content)
    ensures r.Err? ==> file.content == old(file.content)
    ensures r.Err? && r.error.Mismatch? ==> AllGiven(edits) && Edited(old(file.content), edits) == None
    ensures r.Err? && r.error.Mismatch? ==> FirstMismatch(old(file.content), edits, r.error.expected, r.error.found)
    ensures r == Err(NotWritten) ==> AllGiven(edits) && Edited(old(file.content), edits).Some?
    ensures r == Err(NotWritten) ==> !file.mayHold(Edited(old(file.content), edits).value)
  {
    if edits == [] {
      return Err(NoEdits);
    }
    if !AllGiven(edits) {
      return Err(EmptyOld);
    }
    ghost var before := file.content;
    var applied := ApplyEdits(file.content, edits);
    if applied.Err? {
      return Err(applied.error);
    }
    var (text, outcome) := applied.value;
    if outcome.changed {
      var ok := file.Write(text);
      if !ok {
        return Err(NotWritten);
      }
    }
    ghost var texts := EditedLeads(before, edits);
    return Ok(outcome);
  }

  /** The edit finds its old text as often as it asks, once unless it says how often, and puts its new
      text in all these places. */
  ghost predicate IsEdit(edit: EditOp, before: string, after: string)
    requires edit.oldText != ""
  {
    var pieces := Pieces(before, edit.oldText);
    && (match edit.expectedReplacements case None => |pieces| == 2 case Some(n) => |pieces| == n + 1)
    && after == Join(pieces, edit.newText)
  }

  /** The texts between the edits. */
  ghost predicate Leads(content: string, edits: seq<EditOp>, texts: seq<string>, result: string, replacements: nat) {
    && AllGiven(edits) && |texts| == |edits| + 1 && texts[0] == content && texts[|edits|] == result
    && (forall k :: 0 <= k < |edits| ==> IsEdit(edits[k], texts[k], texts[k + 1]))
    && replacements == FoundInAll(texts, edits, |edits|)
  }

  function FoundInAll(texts: seq<string>, edits: seq<EditOp>, n: nat): nat
    requires AllGiven(edits) && n <= |edits| < |texts|
  {
    if n == 0 then 0 else FoundInAll(texts, edits, n - 1) + |Pieces(texts[n - 1], edits[n - 1].oldText)| - 1
  }

  lemma {:induction false} EditedLeads(content: string, edits: seq<EditOp>) returns (texts: seq<string>)
    requires AllGiven(edits) && Edited(content, edits).Some?
    ensures Leads(content, edits, texts, Edited(content, edits).value, TotalExpected(edits))
  {
    if edits == [] {
      texts := [content];
    } else {
      var front := edits[..|edits| - 1];
      var before := EditedLeads(content, front);
      texts := before + [Edited(content, edits).value];
      LeadsOneMore(content, edits, before, texts, TotalExpected(front));
    }
  }

  lemma LeadsOneMore(content: string, edits: seq<EditOp>, before: seq<string>, texts: seq<string>, replacements: nat)
    requires edits != [] && AllGiven(edits) && texts != [] && before == texts[..|texts| - 1]
    requires var (front, last) := (edits[..|edits| - 1], edits[|edits| - 1]);
      && before != [] && Leads(content, front, before, before[|before| - 1], replacements)
      && Occurrences(before[|before| - 1], last.oldText) == last.Expected()
      && texts[|texts| - 1] == Replaced(before[|before| - 1], last.oldText, last.newText)
    ensures Leads(content, edits, texts, texts[|texts| - 1], replacements + edits[|edits| - 1].Expected())
  {
    var front := edits[..|edits| - 1];
    SameFound(before, front, texts, edits, |front|);
    forall k | 0 <= k < |edits| ensures IsEdit(edits[k], texts[k], texts[k + 1]) {
      assert texts[k] == before[k];
      if k < |front| {
        assert edits[k] == front[k] && texts[k + 1] == before[k + 1];
      }
    }
  }

  lemma {:induction false} SameFound(before: seq<string>, front: seq<EditOp>, texts: seq<string>, edits: seq<EditOp>, n: nat)
    requires AllGiven(edits) && front <= edits && before <= texts && n <= |front| < |before| && |edits| < |texts|
    ensures FoundInAll(texts, edits, n) == FoundInAll(before, front, n)
  {
    if n > 0 {
      SameFound(before, front, texts, edits, n - 1);
    }
  }

  /** The first edit that does not find what it expects, and what it does find. */
  ghost predicate FirstMismatch(content: string, edits: seq<EditOp>, expected: nat, found: nat)
    requires AllGiven(edits)
  {
    exists i :: 0 <= i < |edits| && MismatchAt(content, edits, i, expected, found)
  }

  ghost predicate MismatchAt(content: string, edits: seq<EditOp>, i: nat, expected: nat, found: nat)
    requires AllGiven(edits) && i < |edits|
  {
    var before := Edited(content, edits[..i]);
    expected == (match edits[i].expectedReplacements case None => 1 case Some(n) => n) != found && before.Some? && found == Occurrences(before.value, edits[i].oldText)
  }

  method ApplyEdits(content: string, edits: seq<EditOp>) returns (r: Result<(string, Outcome), EditError>)
    requires AllGiven(edits)
    ensures r.Ok? ==> Edited(content, edits) == Some(r.value.0) && r.value.1 == Outcome(SomeEditDiffers(edits), TotalExpected(edits))
    ensures r.Ok? && !r.value.1.changed ==> r.value.0 == content
    ensures r.Err? ==> r.error.Mismatch? && Edited(content, edits) == None
    ensures r.Err? ==> FirstMismatch(content, edits, r.error.expected, r.error.found)
  {
    var text, outcome := content, Outcome(false, 0);
    for i := 0 to |edits|
      invariant AllGiven(edits[..i]) && Edited(content, edits[..i]) == Some(text)
      invariant outcome == Outcome(SomeEditDiffers(edits[..i]), TotalExpected(edits[..i]))
    {
      assert edits[..i + 1] == edits[..i] + [edits[i]] && edits[..i + 1][..i] == edits[..i];
      var found := CountNonOverlapping(text, edits[i].oldText);
      if found != edits[i].Expected() {
        EditedFails(content, edits, i + 1);
        assert MismatchAt(content, edits, i, edits[i].Expected(), found);
        return Err(Mismatch(edits[i].Expected(), found));
      }
      text := Replacen(text, edits[i].oldText, edits[i].newText, found);
      outcome := Outcome(outcome.changed || edits[i].oldText != edits[i].newText, outcome.replacements + found);
    }
    assert edits[..|edits|] == edits;
    if !outcome.changed {
      EqualEditsKeepText(content, edits);
    }
    return Ok((text, outcome));
  }

  lemma {:induction false} EditedFails(text: string, edits: seq<EditOp>, n: nat)
    requires AllGiven(edits) && n <= |edits| && Edited(text, edits[..n]) == None
    ensures Edited(text, edits) == None
  {
    if n < |edits| {
      assert edits[..|edits| - 1][..n] == edits[..n];
      EditedFails(text, edits[..|edits| - 1], n);
    } else {
      assert edits[..n] == edits;
    }
  }

  lemma {:induction false} EqualEditsKeepText(text: string, edits: seq<EditOp>)
    requires AllGiven(edits) && !SomeEditDiffers(edits) && Edited(text, edits).Some?
    ensures Edited(text, edits).value == text
  {
    if edits != [] {
      EqualEditsKeepText(text, edits[..|edits| - 1]);
      assert edits[|edits| - 1] in edits;
      PiecesJoin(text, edits[|edits| - 1].oldText);
    }
  }

  /** The final size in bytes is the initial one plus what every edit adds at each of its places. */
  lemma {:induction false} EditedLength(text: string, edits: seq<EditOp>)
    requires AllGiven(edits) && Edited(text, edits).Some?
    ensures ByteLen(Edited(text, edits).value) == ByteLen(text) + TotalGrowth(edits)
  {
    if edits != [] {
      var front, last := edits[..|edits| - 1], edits[|edits| - 1];
      EditedLength(text, front);
      ReplacedBytes(Edited(text, front).value, last.oldText, last.newText);
    }
  }
}
