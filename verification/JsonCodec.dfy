/**
 A concrete codec that meets the laws EventLog and ThreadHandles ask of one. Values are written as
 JSON texts (RFC 8259): numbers, strings with every character outside printable ASCII escaped, and
 arrays; records are arrays of their fields, and an absent optional field is the empty array.
 */
module JsonCodec {
  import opened Basics
  import opened EventLog
  import opened Threads
  import opened ThreadHandles

  datatype Json = Num(n: nat) | Str(s: string) | Arr(items: seq<Json>)

  const QUOTE: byte := 34
  const COMMA: byte := 44
  const ZERO: byte := 48
  const OPEN: byte := 91
  const BACKSLASH: byte := 92
  const CLOSE: byte := 93
  const U: byte := 117

  // ----- Numbers -----

  predicate IsDigit(b: byte) {
    ZERO <= b < ZERO + 10
  }

  function PrintNat(n: nat): (r: Bytes)
    ensures r != [] && forall b :: b in r ==> IsDigit(b)
  {
    var digit := ZERO + (n % 10) as byte;
    if n < 10 then [digit] else PrintNat(n / 10) + [digit]
  }

  function ParseDigits(acc: nat, s: Bytes): (r: (nat, Bytes))
    ensures |r.1| <= |s|
    ensures s != [] && IsDigit(s[0]) ==> |r.1| < |s|
    decreases |s|
  {
    if s != [] && IsDigit(s[0]) then ParseDigits(acc * 10 + (s[0] - ZERO) as nat, s[1..]) else (acc, s)
  }

  lemma {:induction false} DigitsRoundTrip(n: nat, rest: Bytes)
    ensures ParseDigits(0, PrintNat(n) + rest) == ParseDigits(n, rest)
  {
    var digit := ZERO + (n % 10) as byte;
    if n >= 10 {
      DigitsRoundTrip(n / 10, [digit] + rest);
      assert PrintNat(n) + rest == PrintNat(n / 10) + ([digit] + rest);
    }
    assert ([digit] + rest)[1..] == rest;
  }

  lemma {:induction false} DigitsExtend(acc: nat, p: Bytes, q: Bytes)
    requires ParseDigits(acc, p).1 != []
    ensures ParseDigits(acc, p + q) == (ParseDigits(acc, p).0, ParseDigits(acc, p).1 + q)
    decreases |p|
  {
    if p != [] && IsDigit(p[0]) {
      DigitsExtend(acc * 10 + (p[0] - ZERO) as nat, p[1..], q);
      assert (p + q)[1..] == p[1..] + q;
    }
  }

  // ----- Strings -----

  function HexDigit(n: nat): byte
    requires n < 16
  {
    if n < 10 then ZERO + n as byte else 87 + n as byte
  }

  function FromHexDigit(b: byte): Option<nat> {
    if IsDigit(b) then Some((b - ZERO) as nat) else if 97 <= b < 103 then Some((b - 87) as nat) else None
  }

  function Escape(n: nat): Bytes
    requires n < 0x1_0000
  {
    [BACKSLASH, U, HexDigit(n / 4096), HexDigit(n / 256 % 16), HexDigit(n / 16 % 16), HexDigit(n % 16)]
  }

  function ParseEscape(s: Bytes): Option<(nat, Bytes)> {
    if |s| < 6 || s[0] != BACKSLASH || s[1] != U then None
    else
      var a :- FromHexDigit(s[2]);
      var b :- FromHexDigit(s[3]);
      var c :- FromHexDigit(s[4]);
      var d :- FromHexDigit(s[5]);
      Some((a * 4096 + b * 256 + c * 16 + d, s[6..]))
  }

  lemma HexRoundTrip(d: nat)
    requires d < 16
    ensures FromHexDigit(HexDigit(d)) == Some(d)
  {
  }

  lemma HexDigits(n: nat)
    ensures n == n / 4096 * 4096 + n / 256 % 16 * 256 + n / 16 % 16 * 16 + n % 16
  {
    assert n / 256 == n / 16 / 16 && n / 4096 == n / 256 / 16;
  }

  lemma EscapeRoundTrip(n: nat, rest: Bytes)
    requires n < 0x1_0000
    ensures ParseEscape(Escape(n) + rest) == Some((n, rest))
  {
    assert (Escape(n) + rest)[6..] == rest;
    HexDigits(n);
    HexRoundTrip(n / 4096);
    HexRoundTrip(n / 256 % 16);
    HexRoundTrip(n / 16 % 16);
    HexRoundTrip(n % 16);
  }

  predicate IsPlain(ch: char) {
    ' ' <= ch <= '~' && ch != '"' && ch != '\\'
  }

  function PrintChar(ch: char): Bytes {
    var n := ch as int;
    if IsPlain(ch) then [n as byte]
    else if n < 0x1_0000 then Escape(n)
    else Escape(0xD800 + (n - 0x1_0000) / 0x400) + Escape(0xDC00 + (n - 0x1_0000) % 0x400)
  }

  function ParseChar(s: Bytes): (r: Option<(char, Bytes)>)
    ensures r.Some? ==> |r.value.1| < |s|
  {
    if s == [] then None
    else if 0x20 <= s[0] <= 0x7E && s[0] != QUOTE && s[0] != BACKSLASH then Some((s[0] as int as char, s[1..]))
    else
      var (high, rest) :- ParseEscape(s);
      if 0xD800 <= high < 0xDC00 then
        var (low, rest') :- ParseEscape(rest);
        if 0xDC00 <= low < 0xE000 then Some(((0x1_0000 + (high - 0xD800) * 0x400 + (low - 0xDC00)) as char, rest')) else None
      else if 0xDC00 <= high < 0xE000 then None
      else Some((high as char, rest))
  }

  lemma CharRoundTrip(ch: char, rest: Bytes)
    ensures ParseChar(PrintChar(ch) + rest) == Some((ch, rest))
  {
    var n := ch as int;
    if IsPlain(ch) {
      assert ([n as byte] + rest)[1..] == rest;
    } else if n < 0x1_0000 {
      EscapeRoundTrip(n, rest);
    } else {
      SurrogatesRoundTrip(ch, rest);
    }
  }

  lemma SurrogatesRoundTrip(ch: char, rest: Bytes)
    requires !IsPlain(ch) && 0x1_0000 <= ch as int
    ensures ParseChar(PrintChar(ch) + rest) == Some((ch, rest))
  {
    var a, b, high, low := SurrogatePair(ch, rest);
    ParsePair(a, b, high, low, rest);
  }

  lemma SurrogatePair(ch: char, rest: Bytes) returns (a: Bytes, b: Bytes, high: nat, low: nat)
    requires !IsPlain(ch) && 0x1_0000 <= ch as int
    ensures PrintChar(ch) == a + b && a != [] && a[0] == BACKSLASH
    ensures ParseEscape(a + (b + rest)) == Some((high, b + rest)) && ParseEscape(b + rest) == Some((low, rest))
    ensures 0xD800 <= high < 0xDC00 && 0xDC00 <= low < 0xE000
    ensures 0x1_0000 + (high - 0xD800) * 0x400 + (low - 0xDC00) == ch as int
  {
    var n := ch as int;
    high, low := 0xD800 + (n - 0x1_0000) / 0x400, 0xDC00 + (n - 0x1_0000) % 0x400;
    a, b := Escape(high), Escape(low);
    EscapeRoundTrip(high, b + rest);
    EscapeRoundTrip(low, rest);
  }

  lemma ParsePair(a: Bytes, b: Bytes, high: nat, low: nat, rest: Bytes)
    requires a != [] && a[0] == BACKSLASH
    requires ParseEscape(a + (b + rest)) == Some((high, b + rest)) && ParseEscape(b + rest) == Some((low, rest))
    requires 0xD800 <= high < 0xDC00 && 0xDC00 <= low < 0xE000
    ensures ParseChar(a + b + rest) == Some(((0x1_0000 + (high - 0xD800) * 0x400 + (low - 0xDC00)) as char, rest))
  {
    Regroup(a, b, rest);
  }

  lemma CharExtends(p: Bytes, q: Bytes)
    requires ParseChar(p).Some?
    ensures ParseChar(p + q) == Some((ParseChar(p).value.0, ParseChar(p).value.1 + q))
  {
    assert (p + q)[1..] == p[1..] + q;
    if |p| >= 6 {
      assert (p + q)[6..] == p[6..] + q;
      if |p| >= 12 {
        assert (p[6..] + q)[6..] == p[6..][6..] + q;
      }
    }
  }

  /** The characters of a string and its closing quote. */
  function PrintChars(s: string): Bytes {
    if s == "" then [QUOTE] else PrintChar(s[0]) + PrintChars(s[1..])
  }

  function ParseChars(s: Bytes): (r: Option<(string, Bytes)>)
    ensures r.Some? ==> |r.value.1| < |s|
    decreases |s|
  {
    if s != [] && s[0] == QUOTE then Some(("", s[1..]))
    else
      var (ch, rest) :- ParseChar(s);
      var (chars, rest') :- ParseChars(rest);
      Some(([ch] + chars, rest'))
  }

  lemma ParseOneChar(ch: char, text: Bytes)
    requires ParseChars(text).Some?
    ensures ParseChars(PrintChar(ch) + text) == Some(([ch] + ParseChars(text).value.0, ParseChars(text).value.1))
  {
    CharRoundTrip(ch, text);
    assert (PrintChar(ch) + text)[0] == PrintChar(ch)[0] != QUOTE;
  }

  lemma {:induction false} CharsRoundTrip(s: string, rest: Bytes)
    ensures ParseChars(PrintChars(s) + rest) == Some((s, rest))
  {
    if s == "" {
      assert ([QUOTE] + rest)[1..] == rest;
    } else {
      var later := PrintChars(s[1..]) + rest;
      CharsRoundTrip(s[1..], rest);
      ParseOneChar(s[0], later);
      Regroup(PrintChar(s[0]), PrintChars(s[1..]), rest);
      assert [s[0]] + s[1..] == s;
    }
  }

  lemma {:induction false} CharsExtend(p: Bytes, q: Bytes)
    requires ParseChars(p).Some?
    ensures ParseChars(p + q) == Some((ParseChars(p).value.0, ParseChars(p).value.1 + q))
    decreases |p|
  {
    if p != [] && p[0] == QUOTE {
      assert (p + q)[1..] == p[1..] + q;
    } else {
      CharExtends(p, q);
      CharsExtend(ParseChar(p).value.1, q);
    }
  }

  // ----- Values -----

  function Print(j: Json): (r: Bytes)
    ensures r != []
    decreases j, 1
  {
    match j
    case Num(n) => PrintNat(n)
    case Str(s) => [QUOTE] + PrintChars(s)
    case Arr(items) => [OPEN] + PrintItems(items)
  }

  /** The items of an array, separated by commas, and its closing bracket. */
  function PrintItems(items: seq<Json>): (r: Bytes)
    ensures r != []
    decreases items, 0
  {
    if items == [] then [CLOSE]
    else if |items| == 1 then Print(items[0]) + [CLOSE]
    else Print(items[0]) + [COMMA] + PrintItems(items[1..])
  }

  function Parse(s: Bytes): (r: Option<(Json, Bytes)>)
    ensures r.Some? ==> |r.value.1| < |s|
    decreases |s|, 1
  {
    if s == [] then None
    else if IsDigit(s[0]) then
      var (n, rest) := ParseDigits(0, s);
      Some((Num(n), rest))
    else if s[0] == QUOTE then
      var (chars, rest) :- ParseChars(s[1..]);
      Some((Str(chars), rest))
    else if s[0] == OPEN then
      if |s| > 1 && s[1] == CLOSE then Some((Arr([]), s[2..]))
      else
        var (items, rest) :- ParseItems(s[1..]);
        Some((Arr(items), rest))
    else None
  }

  function ParseItems(s: Bytes): (r: Option<(seq<Json>, Bytes)>)
    ensures r.Some? ==> |r.value.1| < |s|
    decreases |s|, 2
  {
    var (item, rest) :- Parse(s);
    if rest == [] then None
    else if rest[0] == CLOSE then Some(([item], rest[1..]))
    else if rest[0] == COMMA then
      var (items, rest') :- ParseItems(rest[1..]);
      Some(([item] + items, rest'))
    else None
  }

  predicate NoDigitFirst(s: Bytes) {
    s == [] || !IsDigit(s[0])
  }

  lemma {:induction false} ParsePrint(j: Json, rest: Bytes)
    requires NoDigitFirst(rest)
    ensures Parse(Print(j) + rest) == Some((j, rest))
    decreases j, 1
  {
    match j
    case Num(n) =>
      ParseNumber(n, rest);
    case Str(s) =>
      CharsRoundTrip(s, rest);
      ParseString(PrintChars(s) + rest);
      Regroup([QUOTE], PrintChars(s), rest);
    case Arr(items) =>
      if items == [] {
        ParseEmptyArray(rest);
        assert Print(j) + rest == [OPEN, CLOSE] + rest;
      } else {
        ParsePrintItems(items, rest);
        ParsePrintArray(items, rest);
      }
  }

  lemma ParsePrintArray(items: seq<Json>, rest: Bytes)
    requires items != [] && ParseItems(PrintItems(items) + rest) == Some((items, rest))
    ensures Parse(Print(Arr(items)) + rest) == Some((Arr(items), rest))
  {
    PrintItemsStart(items);
    ParseArray(PrintItems(items) + rest);
    Regroup([OPEN], PrintItems(items), rest);
  }

  lemma ParseNumber(n: nat, rest: Bytes)
    requires NoDigitFirst(rest)
    ensures Parse(PrintNat(n) + rest) == Some((Num(n), rest))
  {
    DigitsRoundTrip(n, rest);
    assert IsDigit((PrintNat(n) + rest)[0]) by { assert PrintNat(n)[0] in PrintNat(n); }
  }

  lemma ParseString(text: Bytes)
    requires ParseChars(text).Some?
    ensures Parse([QUOTE] + text) == Some((Str(ParseChars(text).value.0), ParseChars(text).value.1))
  {
    assert ([QUOTE] + text)[1..] == text;
  }

  lemma ParseEmptyArray(rest: Bytes)
    ensures Parse([OPEN, CLOSE] + rest) == Some((Arr([]), rest))
  {
    assert ([OPEN, CLOSE] + rest)[2..] == rest;
  }

  lemma ParseArray(text: Bytes)
    requires ParseItems(text).Some? && text != [] && text[0] != CLOSE
    ensures Parse([OPEN] + text) == Some((Arr(ParseItems(text).value.0), ParseItems(text).value.1))
  {
    assert ([OPEN] + text)[1..] == text;
    assert ([OPEN] + text)[1] == text[0];
  }

  lemma PrintItemsStart(items: seq<Json>)
    requires items != []
    ensures PrintItems(items)[0] != CLOSE
  {
    PrintStart(items[0]);
  }

  lemma PrintStart(j: Json)
    ensures Print(j)[0] != CLOSE
  {
    if j.Num? {
      assert PrintNat(j.n)[0] in PrintNat(j.n);
    }
  }

  lemma {:induction false} ParsePrintItems(items: seq<Json>, rest: Bytes)
    requires items != []
    ensures ParseItems(PrintItems(items) + rest) == Some((items, rest))
    decreases items, 0
  {
    if |items| == 1 {
      ParsePrint(items[0], [CLOSE] + rest);
      ParseLastItem(items, rest);
    } else {
      ParsePrint(items[0], [COMMA] + (PrintItems(items[1..]) + rest));
      ParsePrintItems(items[1..], rest);
      ParseNextItem(items, rest);
    }
  }

  lemma ParseLastItem(items: seq<Json>, rest: Bytes)
    requires |items| == 1 && Parse(Print(items[0]) + ([CLOSE] + rest)) == Some((items[0], [CLOSE] + rest))
    ensures ParseItems(PrintItems(items) + rest) == Some((items, rest))
  {
    Regroup(Print(items[0]), [CLOSE], rest);
    assert ([CLOSE] + rest)[1..] == rest && [items[0]] == items;
  }

  lemma ParseNextItem(items: seq<Json>, rest: Bytes)
    requires |items| > 1
    requires var more := [COMMA] + (PrintItems(items[1..]) + rest); Parse(Print(items[0]) + more) == Some((items[0], more))
    requires ParseItems(PrintItems(items[1..]) + rest) == Some((items[1..], rest))
    ensures ParseItems(PrintItems(items) + rest) == Some((items, rest))
  {
    var later := PrintItems(items[1..]);
    Regroup([COMMA], later, rest);
    Regroup(Print(items[0]), [COMMA] + later, rest);
    Regroup(Print(items[0]), [COMMA], later);
    assert ([COMMA] + (later + rest))[1..] == later + rest && [items[0]] + items[1..] == items;
  }

  /** A value that is complete stays the same value, whatever is written after it. */
  lemma {:induction false} ParseExtends(p: Bytes, q: Bytes)
    requires Parse(p).Some? && (Parse(p).value.1 != [] || !Parse(p).value.0.Num?)
    ensures Parse(p + q) == Some((Parse(p).value.0, Parse(p).value.1 + q))
    decreases |p|, 1
  {
    assert (p + q)[1..] == p[1..] + q;
    if IsDigit(p[0]) {
      DigitsExtend(0, p, q);
    } else if p[0] == QUOTE {
      CharsExtend(p[1..], q);
    } else if |p| > 1 && p[1] == CLOSE {
      assert (p + q)[2..] == p[2..] + q;
    } else {
      ItemsExtend(p[1..], q);
    }
  }

  lemma {:induction false} ItemsExtend(p: Bytes, q: Bytes)
    requires ParseItems(p).Some?
    ensures ParseItems(p + q) == Some((ParseItems(p).value.0, ParseItems(p).value.1 + q))
    decreases |p|, 2
  {
    ParseExtends(p, q);
    var rest := Parse(p).value.1;
    assert (rest + q)[1..] == rest[1..] + q;
    if rest[0] == COMMA {
      ItemsExtend(rest[1..], q);
    }
  }

  /** No byte of a printed value is a control character. */
  lemma {:induction false} PrintIsOneLine(j: Json)
    ensures NEWLINE !in Print(j)
    decreases j, 1
  {
    match j
    case Num(n) =>
    case Str(s) => CharsAreOneLine(s);
    case Arr(items) => ItemsAreOneLine(items);
  }

  lemma {:induction false} CharsAreOneLine(s: string)
    ensures NEWLINE !in PrintChars(s)
  {
    if s != "" {
      CharsAreOneLine(s[1..]);
    }
  }

  lemma {:induction false} ItemsAreOneLine(items: seq<Json>)
    ensures NEWLINE !in PrintItems(items)
    decreases items, 0
  {
    if items != [] {
      PrintIsOneLine(items[0]);
      if |items| > 1 {
        ItemsAreOneLine(items[1..]);
      }
    }
  }

  // ----- Events as values -----

  function FromInt(i: int): Json {
    if i < 0 then Arr([Num(-i)]) else Num(i)
  }

  function ToInt(j: Json): Option<int> {
    match j
    case Num(n) => Some(n)
    case Arr(items) =>
      if |items| == 1 && items[0].Num? then
        var n: int := items[0].n;
        Some(-n)
      else None
    case _ => None
  }

  function FromBool(b: bool): Json {
    Num(if b then 1 else 0)
  }

  function ToBool(j: Json): Option<bool> {
    if j == Num(0) then Some(false) else if j == Num(1) then Some(true) else None
  }

  function ToNat(j: Json): Option<nat> {
    if j.Num? then Some(j.n) else None
  }

  function ToU64(j: Json): Option<u64> {
    if j.Num? && j.n <= U64_MAX then Some(j.n) else None
  }

  function ToText(j: Json): Option<string> {
    if j.Str? then Some(j.s) else None
  }

  function FromTexts(ss: seq<string>): Json {
    Arr(seq(|ss|, i requires 0 <= i < |ss| => Str(ss[i])))
  }

  function ToTexts(j: Json): Option<seq<string>> {
    if j.Arr? && forall i :: 0 <= i < |j.items| ==> j.items[i].Str?
    then Some(seq(|j.items|, i requires 0 <= i < |j.items| => j.items[i].s))
    else None
  }

  function FromOption<T>(o: Option<T>, from: T -> Json): Json {
    if o.Some? then Arr([from(o.value)]) else Arr([])
  }

  function ToOption<T>(j: Json, to: Json -> Option<T>): Option<Option<T>> {
    if !j.Arr? || |j.items| > 1 then None
    else if j.items == [] then Some(None)
    else
      var v :- to(j.items[0]);
      Some(Some(v))
  }

  lemma TextsRoundTrip(ss: seq<string>)
    ensures ToTexts(FromTexts(ss)) == Some(ss)
  {
    var items := FromTexts(ss).items;
    assert seq(|items|, i requires 0 <= i < |items| => items[i].s) == ss;
  }

  function FromStatus(x: TurnStatus): Json {
    Num(match x case Completed => 0 case Interrupted => 1 case Failed => 2 case Cancelled => 3 case Stuck => 4)
  }

  function ToStatus(j: Json): Option<TurnStatus> {
    if j == Num(0) then Some(Completed) else if j == Num(1) then Some(Interrupted) else if j == Num(2) then Some(Failed)
    else if j == Num(3) then Some(Cancelled) else if j == Num(4) then Some(Stuck) else None
  }

  function FromPolicy(x: ApprovalPolicy): Json {
    Num(match x case AutoApprove => 0 case Manual => 1 case UnlessTrusted => 2 case AutoDeny => 3)
  }

  function ToPolicy(j: Json): Option<ApprovalPolicy> {
    if j == Num(0) then Some(AutoApprove) else if j == Num(1) then Some(Manual)
    else if j == Num(2) then Some(UnlessTrusted) else if j == Num(3) then Some(AutoDeny) else None
  }

  function FromScope(x: WriteScope): Json {
    Num(match x case ReadOnly => 0 case WorkspaceWrite => 1 case FullAccess => 2)
  }

  function ToScope(j: Json): Option<WriteScope> {
    if j == Num(0) then Some(ReadOnly) else if j == Num(1) then Some(WorkspaceWrite)
    else if j == Num(2) then Some(FullAccess) else None
  }

  function FromAccess(x: NetworkAccess): Json {
    Num(match x case Deny => 0 case Allow => 1)
  }

  function ToAccess(j: Json): Option<NetworkAccess> {
    if j == Num(0) then Some(Deny) else if j == Num(1) then Some(Allow) else None
  }

  function OptText(o: Option<string>): Json {
    if o.Some? then Arr([Str(o.value)]) else Arr([])
  }

  function ToOptText(j: Json): Option<Option<string>> {
    ToOption(j, ToText)
  }

  function OptNum(o: Option<u64>): Json {
    if o.Some? then Arr([Num(o.value)]) else Arr([])
  }

  function ToOptNum(j: Json): Option<Option<u64>> {
    ToOption(j, ToU64)
  }

  function OptTexts(o: Option<seq<string>>): Json {
    if o.Some? then Arr([FromTexts(o.value)]) else Arr([])
  }

  function ToOptTexts(j: Json): Option<Option<seq<string>>> {
    ToOption(j, ToTexts)
  }

  /** An inner `None` is a null, and so is an absent field: both are the empty array. */
  function OptOptTexts(o: Option<Option<seq<string>>>): Json {
    if o.Some? then OptTexts(o.value) else Arr([])
  }

  function ToOptOptTexts(j: Json): Option<Option<Option<seq<string>>>> {
    var o :- ToOptTexts(j);
    Some(if o.Some? then Some(o) else None)
  }

  /** A null usage and an absent one are both the empty array. */
  function FromUsage(o: Option<Usage>): Json {
    match o
    case Some(UsageFields(a, b, c, d, e)) => Arr([Arr([OptNum(a), OptNum(b), OptNum(c), OptNum(d), OptNum(e)])])
    case _ => Arr([])
  }

  function ToUsage(j: Json): Option<Option<Usage>> {
    if !j.Arr? then None
    else if j.items == [] then Some(None)
    else if !j.items[0].Arr? || |j.items[0].items| != 5 then None
    else
      var fields := j.items[0].items;
      var a :- ToOptNum(fields[0]);
      var b :- ToOptNum(fields[1]);
      var c :- ToOptNum(fields[2]);
      var d :- ToOptNum(fields[3]);
      var e :- ToOptNum(fields[4]);
      Some(Some(UsageFields(a, b, c, d, e)))
  }

  function FromConfig(u: ConfigUpdate): Json {
    Arr([FromLimits(u), FromNames(u), FromOverrides(u)])
  }

  function FromLimits(u: ConfigUpdate): Json {
    Arr([FromPolicy(u.approvalPolicy), FromOption(u.sandboxPolicy, FromScope), OptTexts(u.writableRoots),
         FromOption(u.networkAccess, FromAccess)])
  }

  function FromNames(u: ConfigUpdate): Json {
    Arr([OptText(u.mode), OptText(u.role), OptOptTexts(u.allowedTools), OptTexts(u.execpolicyRules),
         FromBool(u.clearExecpolicyRules)])
  }

  function FromOverrides(u: ConfigUpdate): Json {
    Arr([OptText(u.model), FromBool(u.clearModel), OptText(u.thinking), FromBool(u.clearThinking),
         FromOption(u.showThinking, FromBool), FromBool(u.clearShowThinking),
         OptText(u.baseUrl), FromBool(u.clearBaseUrl)])
  }

  /** Each part fills its fields of the update `u`. */
  function ToLimits(j: Json, u: ConfigUpdate): Option<ConfigUpdate> {
    if !j.Arr? || |j.items| != 4 then None
    else
      var approvalPolicy :- ToPolicy(j.items[0]);
      var sandboxPolicy :- ToOption(j.items[1], ToScope);
      var writableRoots :- ToOptTexts(j.items[2]);
      var networkAccess :- ToOption(j.items[3], ToAccess);
      Some(u.(approvalPolicy := approvalPolicy, sandboxPolicy := sandboxPolicy, writableRoots := writableRoots,
              networkAccess := networkAccess))
  }

  function ToNames(j: Json, u: ConfigUpdate): Option<ConfigUpdate> {
    if !j.Arr? || |j.items| != 5 then None
    else
      var mode :- ToOptText(j.items[0]);
      var role :- ToOptText(j.items[1]);
      var allowedTools :- ToOptOptTexts(j.items[2]);
      var execpolicyRules :- ToOptTexts(j.items[3]);
      var clearExecpolicyRules :- ToBool(j.items[4]);
      Some(u.(mode := mode, role := role, allowedTools := allowedTools, execpolicyRules := execpolicyRules,
              clearExecpolicyRules := clearExecpolicyRules))
  }

  function ToOverrides(j: Json, u: ConfigUpdate): Option<ConfigUpdate> {
    if !j.Arr? || |j.items| != 8 then None
    else
      var model :- ToOptText(j.items[0]);
      var clearModel :- ToBool(j.items[1]);
      var thinking :- ToOptText(j.items[2]);
      var clearThinking :- ToBool(j.items[3]);
      var showThinking :- ToOption(j.items[4], ToBool);
      var clearShowThinking :- ToBool(j.items[5]);
      var baseUrl :- ToOptText(j.items[6]);
      var clearBaseUrl :- ToBool(j.items[7]);
      Some(u.(model := model, clearModel := clearModel, thinking := thinking, clearThinking := clearThinking,
              showThinking := showThinking, clearShowThinking := clearShowThinking, baseUrl := baseUrl,
              clearBaseUrl := clearBaseUrl))
  }

  const NO_UPDATE := ConfigUpdate(AutoApprove, None, None, None, None, None, None, false, None, false, None, false, None,
                                  false, None, None, false)

  function ToConfig(j: Json): Option<ConfigUpdate> {
    if !j.Arr? || |j.items| != 3 then None
    else
      var limits :- ToLimits(j.items[0], NO_UPDATE);
      var names :- ToNames(j.items[1], limits);
      ToOverrides(j.items[2], names)
  }

  lemma OptionalTextsRoundTrip(o: Option<seq<string>>)
    ensures ToOptTexts(OptTexts(o)) == Some(o)
  {
    if o.Some? {
      TextsRoundTrip(o.value);
    }
  }

  lemma ConfigRoundTrip(u: ConfigUpdate)
    ensures ToConfig(FromConfig(u))
         == Some(if u.allowedTools == Some(None) then u.(allowedTools := None) else u)
  {
    LimitsRoundTrip(u, NO_UPDATE);
    var limits := ToLimits(FromLimits(u), NO_UPDATE).value;
    NamesRoundTrip(u, limits);
    var names := ToNames(FromNames(u), limits).value;
    OverridesRoundTrip(u, names);
  }

  lemma OverridesRoundTrip(u: ConfigUpdate, base: ConfigUpdate)
    ensures ToOverrides(FromOverrides(u), base)
         == Some(base.(model := u.model, clearModel := u.clearModel, thinking := u.thinking,
                       clearThinking := u.clearThinking, showThinking := u.showThinking,
                       clearShowThinking := u.clearShowThinking, baseUrl := u.baseUrl, clearBaseUrl := u.clearBaseUrl))
  {
    OptTextRoundTrip(u.model);
    OptTextRoundTrip(u.thinking);
    OptTextRoundTrip(u.baseUrl);
    BoolRoundTrip(u.clearModel);
    BoolRoundTrip(u.clearThinking);
    BoolRoundTrip(u.clearShowThinking);
    BoolRoundTrip(u.clearBaseUrl);
    assert ToOption(FromOption(u.showThinking, FromBool), ToBool) == Some(u.showThinking);
    var j := FromOverrides(u);
    assert |j.items| == 8;
  }

  lemma OptTextRoundTrip(o: Option<string>)
    ensures ToOptText(OptText(o)) == Some(o)
  {
  }

  lemma BoolRoundTrip(b: bool)
    ensures ToBool(FromBool(b)) == Some(b)
  {
  }

  lemma LimitsRoundTrip(u: ConfigUpdate, base: ConfigUpdate)
    ensures ToLimits(FromLimits(u), base)
         == Some(base.(approvalPolicy := u.approvalPolicy, sandboxPolicy := u.sandboxPolicy,
                       writableRoots := u.writableRoots, networkAccess := u.networkAccess))
  {
    OptionalTextsRoundTrip(u.writableRoots);
  }

  lemma NamesRoundTrip(u: ConfigUpdate, base: ConfigUpdate)
    ensures ToNames(FromNames(u), base)
         == Some(base.(mode := u.mode, role := u.role,
                       allowedTools := if u.allowedTools == Some(None) then None else u.allowedTools,
                       execpolicyRules := u.execpolicyRules, clearExecpolicyRules := u.clearExecpolicyRules))
  {
    OptionalTextsRoundTrip(u.execpolicyRules);
    if u.allowedTools.Some? {
      OptionalTextsRoundTrip(u.allowedTools.value);
    }
  }

  lemma UsageRoundTrip(o: Option<Usage>)
    ensures ToUsage(FromUsage(o)) == Some(WireUsage(o))
  {
  }

  function FromKind(k: Kind): Json {
    match k
    case ThreadCreated(cwd) => Arr([Num(0), Str(cwd)])
    case SystemPromptSnapshot(sha256, text) => Arr([Num(1), Str(sha256), Str(text)])
    case ThreadArchived(reason) => Arr([Num(2), OptText(reason)])
    case ThreadUnarchived => Arr([Num(3)])
    case ThreadPaused(reason) => Arr([Num(4), OptText(reason)])
    case ThreadUnpaused => Arr([Num(5)])
    case ThreadConfigUpdated(update) => Arr([Num(6), FromConfig(update)])
    case TurnStarted(turnId) => Arr([Num(7), Num(turnId)])
    case TurnInterruptRequested(turnId, reason) => Arr([Num(8), Num(turnId), OptText(reason)])
    case TurnCompleted(turnId, status, reason) => Arr([Num(9), Num(turnId), FromStatus(status), OptText(reason)])
    case ApprovalRequested(id) => Arr([Num(10), Num(id)])
    case ApprovalDecided(id) => Arr([Num(11), Num(id)])
    case ProcessStarted(id) => Arr([Num(12), Num(id)])
    case ProcessExited(id, exitCode) => Arr([Num(13), Num(id), FromOption(exitCode, FromInt)])
    case ToolStarted(id) => Arr([Num(14), Num(id)])
    case ToolCompleted(id) => Arr([Num(15), Num(id)])
    case AgentStep(id, usage) => Arr([Num(16), Str(id), FromUsage(usage)])
    case AssistantMessage(id, usage) => Arr([Num(17), OptText(id), FromUsage(usage)])
    case Other(tag) => Arr([Num(18), Str(tag)])
  }

  function ToKind(j: Json): Option<Kind> {
    if !j.Arr? || j.items == [] || !j.items[0].Num? then None
    else
      var tag, f := j.items[0].n, j.items;
      if |f| == 1 then (if tag == 3 then Some(ThreadUnarchived) else if tag == 5 then Some(ThreadUnpaused) else None)
      else if |f| == 2 then ToKind1(tag, f[1])
      else if |f| == 3 then ToKind2(tag, f[1], f[2])
      else if |f| == 4 && tag == 9 then
        var turnId :- ToNat(f[1]);
        var status :- ToStatus(f[2]);
        var reason :- ToOptText(f[3]);
        Some(TurnCompleted(turnId, status, reason))
      else None
  }

  function ToKind1(tag: nat, a: Json): Option<Kind> {
    match tag
    case 0 => (var cwd :- ToText(a); Some(ThreadCreated(cwd)))
    case 2 => (var reason :- ToOptText(a); Some(ThreadArchived(reason)))
    case 4 => (var reason :- ToOptText(a); Some(ThreadPaused(reason)))
    case 6 => (var update :- ToConfig(a); Some(ThreadConfigUpdated(update)))
    case 18 => (var name :- ToText(a); Some(Other(name)))
    case _ =>
      var id :- ToNat(a);
      match tag
      case 7 => Some(TurnStarted(id))
      case 10 => Some(ApprovalRequested(id))
      case 11 => Some(ApprovalDecided(id))
      case 12 => Some(ProcessStarted(id))
      case 14 => Some(ToolStarted(id))
      case 15 => Some(ToolCompleted(id))
      case _ => None
  }

  function ToKind2(tag: nat, a: Json, b: Json): Option<Kind> {
    match tag
    case 1 => (var sha256 :- ToText(a); var text :- ToText(b); Some(SystemPromptSnapshot(sha256, text)))
    case 8 => (var turnId :- ToNat(a); var reason :- ToOptText(b); Some(TurnInterruptRequested(turnId, reason)))
    case 13 => (var id :- ToNat(a); var exitCode :- ToOption(b, ToInt); Some(ProcessExited(id, exitCode)))
    case 16 => (var id :- ToText(a); var usage :- ToUsage(b); Some(AgentStep(id, usage)))
    case 17 => (var id :- ToOptText(a); var usage :- ToUsage(b); Some(AssistantMessage(id, usage)))
    case _ => None
  }

  lemma KindRoundTrip(k: Kind)
    ensures ToKind(FromKind(k)) == Some(WireKind(k))
  {
    var fields := FromKind(k).items;
    if |fields| == 2 {
      OneFieldRoundTrip(k);
    } else if |fields| == 3 {
      TwoFieldsRoundTrip(k);
    } else if k.TurnCompleted? {
      OptTextRoundTrip(k.reason);
    }
  }

  lemma OneFieldRoundTrip(k: Kind)
    requires |FromKind(k).items| == 2
    ensures ToKind1(FromKind(k).items[0].n, FromKind(k).items[1]) == Some(WireKind(k))
  {
    match k
    case ThreadConfigUpdated(u) => ConfigRoundTrip(u);
    case ThreadArchived(reason) => OptTextRoundTrip(reason);
    case ThreadPaused(reason) => OptTextRoundTrip(reason);
    case _ =>
  }

  lemma TwoFieldsRoundTrip(k: Kind)
    requires |FromKind(k).items| == 3
    ensures ToKind2(FromKind(k).items[0].n, FromKind(k).items[1], FromKind(k).items[2]) == Some(WireKind(k))
  {
    match k
    case AgentStep(_, usage) => UsageRoundTrip(usage);
    case AssistantMessage(id, usage) =>
      OptTextRoundTrip(id);
      UsageRoundTrip(usage);
    case TurnInterruptRequested(_, reason) => OptTextRoundTrip(reason);
    case _ =>
  }

  function FromEvent(e: ThreadEvent): Json {
    Arr([Num(e.seqNo), FromInt(e.timestamp), Num(e.threadId), FromKind(e.kind)])
  }

  function ToEvent(j: Json): Option<ThreadEvent> {
    if !j.Arr? || |j.items| != 4 then None
    else
      var seqNo :- ToNat(j.items[0]);
      var timestamp :- ToInt(j.items[1]);
      var threadId :- ToNat(j.items[2]);
      var kind :- ToKind(j.items[3]);
      Some(Event(seqNo, timestamp, threadId, kind))
  }

  function Encode(e: ThreadEvent): Bytes {
    Print(FromEvent(e))
  }

  function Decode(bytes: Bytes): Option<ThreadEvent> {
    var (j, rest) :- Parse(bytes);
    if rest == [] then ToEvent(j) else None
  }

  const CODEC: Codec<Kind> := Codec((e: ThreadEvent) => Encode(e), (b: Bytes) => Decode(b), (k: Kind) => WireKind(k))

  lemma EventRoundTrip(e: ThreadEvent)
    ensures Decode(Encode(e)) == Some(e.(kind := WireKind(e.kind)))
  {
    ParsePrint(FromEvent(e), []);
    assert Print(FromEvent(e)) + [] == Print(FromEvent(e));
    KindRoundTrip(e.kind);
  }

  lemma EventPrefix(e: ThreadEvent, n: nat)
    requires n < |Encode(e)|
    ensures Decode(Encode(e)[..n]) == None
  {
    var text := Encode(e);
    if Decode(text[..n]).Some? {
      ParsePrint(FromEvent(e), []);
      assert text + [] == text;
      assert text[..n] + text[n..] == text;
      ParseExtends(text[..n], text[n..]);
    }
  }

  /** The laws that the log and the handle ask of a codec are met by this one. */
  /** The text of an array of a number and a string with a quotation mark in it. */
  lemma PrintedText()
    ensures Print(Arr([Num(12), Str("a\"")])) == [91, 49, 50, 44, 34, 97, 92, 117, 48, 48, 50, 50, 34, 93]
  {
    assert PrintNat(12) == [49, 50];
    assert PrintChar('"') == [92, 117, 48, 48, 50, 50] && PrintChar('a') == [97];
    assert "a\""[1..] == "\"" && "\""[1..] == "";
    assert PrintChars("\"") == PrintChar('"') + PrintChars("");
    assert PrintChars("a\"") == PrintChar('a') + PrintChars("\"");
    var items := [Num(12), Str("a\"")];
    assert items[1..] == [items[1]] && Print(items[1]) == [34, 97, 92, 117, 48, 48, 50, 50, 34];
  }

  lemma CodecIsLawful()
    ensures ThreadCodec(CODEC)
  {
    forall e: ThreadEvent ensures CODEC.decode(CODEC.encode(e)) == Some(Stored(CODEC, e)) {
      EventRoundTrip(e);
    }
    forall e: ThreadEvent ensures CODEC.encode(e) != [] && NEWLINE !in CODEC.encode(e) {
      PrintIsOneLine(FromEvent(e));
    }
    forall e: ThreadEvent, n | 0 <= n < |CODEC.encode(e)| ensures CODEC.decode(CODEC.encode(e)[..n]) == None {
      EventPrefix(e, n);
    }
  }
}
