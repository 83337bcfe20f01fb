/** The string operations of the standard library that several components rely on. */
module Text {

  /** Characters with the Unicode White_Space property, which `str::trim` removes. */
  predicate IsWhitespace(ch: char) {
    || '\U{9}' <= ch <= '\U{D}' || ch == ' ' || ch == '\U{85}' || ch == '\U{A0}' || ch == '\U{1680}'
    || '\U{2000}' <= ch <= '\U{200A}' || ch == '\U{2028}' || ch == '\U{2029}' || ch == '\U{202F}'
    || ch == '\U{205F}' || ch == '\U{3000}'
  }

  /** The 25 characters of that property. */
  lemma WhitespaceExactly(ch: char)
    ensures var points := {
        0x9, 0xA, 0xB, 0xC, 0xD, 0x20, 0x85, 0xA0, 0x1680, 0x2000, 0x2001, 0x2002, 0x2003, 0x2004, 0x2005, 0x2006, 0x2007,
        0x2008, 0x2009, 0x200A, 0x2028, 0x2029, 0x202F, 0x205F, 0x3000};
      IsWhitespace(ch) <==> ch as int in points
  {
  }

  function TrimStart(s: string): (r: string)
    ensures r == [] || !IsWhitespace(r[0])
    ensures r <= s || |r| < |s|
    ensures forall ch :: ch in r ==> ch in s
  {
    if s != [] && IsWhitespace(s[0]) then TrimStart(s[1..]) else s
  }

  function TrimEnd(s: string): (r: string)
    ensures r <= s
    ensures r == [] || !IsWhitespace(r[|r| - 1])
  {
    if s != [] && IsWhitespace(s[|s| - 1]) then TrimEnd(s[..|s| - 1]) else s
  }

  function Trim(s: string): (r: string)
    ensures r == [] || (!IsWhitespace(r[0]) && !IsWhitespace(r[|r| - 1]))
  {
    TrimEnd(TrimStart(s))
  }

  /** Trimming drops white space at both ends and nothing else. */
  lemma TrimExactly(s: string) returns (from: nat, to: nat)
    ensures from <= to <= |s| && Trim(s) == s[from..to]
    ensures (forall i :: 0 <= i < from ==> IsWhitespace(s[i])) && forall i :: to <= i < |s| ==> IsWhitespace(s[i])
    ensures from < to ==> !IsWhitespace(s[from]) && !IsWhitespace(s[to - 1])
  {
    from := StartTrimmed(s);
    var n := EndTrimmed(s[from..]);
    to := from + n;
    assert forall i :: to <= i < |s| ==> s[i] == s[from..][i - from];
  }

  lemma {:induction false} StartTrimmed(s: string) returns (n: nat)
    ensures n <= |s| && TrimStart(s) == s[n..] && forall i :: 0 <= i < n ==> IsWhitespace(s[i])
  {
    n := 0;
    if s != [] && IsWhitespace(s[0]) {
      var m := StartTrimmed(s[1..]);
      n := m + 1;
      assert forall i :: 1 <= i < n ==> s[i] == s[1..][i - 1];
    }
  }

  lemma {:induction false} EndTrimmed(s: string) returns (n: nat)
    ensures n <= |s| && TrimEnd(s) == s[..n] && forall i :: n <= i < |s| ==> IsWhitespace(s[i])
  {
    n := |s|;
    if s != [] && IsWhitespace(s[|s| - 1]) {
      n := EndTrimmed(s[..|s| - 1]);
      assert forall i :: n <= i < |s| - 1 ==> s[i] == s[..|s| - 1][i];
    }
  }

  /** `char::to_ascii_lowercase`. */
  function LowerChar(ch: char): char {
    if 'A' <= ch <= 'Z' then (ch as int + 32) as char else ch
  }

  /** The order of strings by code point. */
  predicate Precedes(a: string, b: string) {
    b != "" && (a == "" || a[0] < b[0] || (a[0] == b[0] && Precedes(a[1..], b[1..])))
  }

  /** Up to `k` the strings are the same; there `a` ends or has the smaller character. */
  predicate DiffersAt(a: string, b: string, k: nat) {
    k <= |a| && k < |b| && a[..k] == b[..k] && (k == |a| || a[k] < b[k])
  }

  ghost predicate ComesBefore(a: string, b: string) {
    exists k: nat :: DiffersAt(a, b, k)
  }

  lemma DiffersLater(a: string, b: string, k: nat)
    requires DiffersAt(a, b, k) && k > 0
    ensures a != "" && b != "" && a[0] == b[0] && DiffersAt(a[1..], b[1..], k - 1)
  {
    assert a[..k][0] == b[..k][0];
    assert a[1..][..k - 1] == a[..k][1..] && b[1..][..k - 1] == b[..k][1..];
  }

  /** One string precedes another exactly when at the first difference it ends or has the smaller character. */
  lemma {:induction false} PrecedesExactly(a: string, b: string)
    ensures Precedes(a, b) <==> ComesBefore(a, b)
  {
    if a != "" && b != "" && a[0] == b[0] {
      PrecedesExactly(a[1..], b[1..]);
      if k: nat :| DiffersAt(a[1..], b[1..], k) {
        assert a[..k + 1] == [a[0]] + a[1..][..k] && b[..k + 1] == [b[0]] + b[1..][..k];
        assert DiffersAt(a, b, k + 1);
      }
    } else if Precedes(a, b) {
      assert DiffersAt(a, b, 0);
    }
    if k: nat :| DiffersAt(a, b, k) {
      if k > 0 {
        DiffersLater(a, b, k);
      }
    }
  }

  lemma {:induction false} PrecedesIsTotal(a: string, b: string)
    ensures Precedes(a, b) || Precedes(b, a) || a == b
  {
    if a != "" && b != "" && a[0] == b[0] {
      PrecedesIsTotal(a[1..], b[1..]);
      assert a == [a[0]] + a[1..] && b == [b[0]] + b[1..];
    }
  }

  lemma {:induction false} PrecedesIsTransitive(a: string, b: string, c: string)
    requires Precedes(a, b) && Precedes(b, c)
    ensures Precedes(a, c)
  {
    if a != "" && a[0] == b[0] == c[0] {
      PrecedesIsTransitive(a[1..], b[1..], c[1..]);
    }
  }

  function Utf8Size(ch: char): nat {
    if ch as int < 0x80 then 1 else if ch as int < 0x800 then 2 else if ch as int < 0x1_0000 then 3 else 4
  }

  /** The length of a Rust string. */
  function ByteLen(s: string): nat {
    if s == "" then 0 else ByteLen(s[..|s| - 1]) + Utf8Size(s[|s| - 1])
  }

  /** UTF-8 (RFC 3629, section 3): larger characters are never shorter, and these are the first and last
      of each size. */
  lemma Utf8Boundaries(a: char, b: char)
    ensures a <= b ==> Utf8Size(a) <= Utf8Size(b)
    ensures Utf8Size('\U{0}') == Utf8Size('\U{7F}') == 1 && Utf8Size('\U{80}') == Utf8Size('\U{7FF}') == 2
    ensures Utf8Size('\U{800}') == Utf8Size('\U{FFFF}') == 3 && Utf8Size('\U{10000}') == Utf8Size('\U{10FFFF}') == 4
  {
  }

  lemma {:induction false} ByteLenAdds(a: string, b: string)
    ensures ByteLen(a + b) == ByteLen(a) + ByteLen(b)
  {
    if b == "" {
      assert a + b == a;
    } else {
      ByteLenAdds(a, b[..|b| - 1]);
      assert (a + b)[..|a + b| - 1] == a + b[..|b| - 1];
    }
  }
}
