/**
 The append-only JSONL event log of crates/eventlog/src/lib.rs.

 An event is one JSON object on one line. The log is written by a single live
 writer, which can die at any byte of an append; the next writer repairs the
 file before it appends. Everything here is stated for an arbitrary event kind
 `K` and for every codec that meets `Lawful`; module JsonCodec builds one.
 */
module EventLog {
  import opened Basics

  const NEWLINE: byte := 10

  datatype Event<+K> = Event(seqNo: nat, timestamp: int, threadId: nat, kind: K)

  /** `wire(k)` is the kind that is read back after `k` has been written: serialisation is not
      injective on every kind (see ThreadHandles.WireKind). */
  datatype Codec<!K> = Codec(encode: Event<K> -> Bytes, decode: Bytes -> Option<Event<K>>, wire: K -> K)

  function Stored<K>(c: Codec<K>, e: Event<K>): Event<K> {
    e.(kind := c.wire(e.kind))
  }

  function StoredAll<K>(c: Codec<K>, es: seq<Event<K>>): (r: seq<Event<K>>)
    ensures |r| == |es|
    ensures forall i :: 0 <= i < |es| ==> r[i] == Stored(c, es[i])
  {
    if es == [] then [] else StoredAll(c, es[..|es| - 1]) + [Stored(c, es[|es| - 1])]
  }

  ghost predicate RoundTrips<K(!new)>(c: Codec<K>) {
    forall e :: c.decode(c.encode(e)) == Some(Stored(c, e))
  }

  /** Control characters are escaped inside strings (RFC 8259, section 7). */
  ghost predicate OneLine<K(!new)>(c: Codec<K>) {
    forall e :: c.encode(e) != [] && NEWLINE !in c.encode(e)
  }

  /** A JSON text is complete only at its closing bracket (RFC 8259, sections 4 and 5). */
  ghost predicate PrefixFree<K(!new)>(c: Codec<K>) {
    forall e, n | 0 <= n < |c.encode(e)| :: c.decode(c.encode(e)[..n]) == None
  }

  ghost predicate Lawful<K(!new)>(c: Codec<K>) {
    RoundTrips(c) && OneLine(c) && PrefixFree(c)
  }

  // ----- Reading a log -----

  /** The pieces of `s` between newlines; always at least one piece. */
  function Split(s: Bytes): (r: seq<Bytes>)
    ensures |r| >= 1
    ensures forall i :: 0 <= i < |r| ==> |r[i]| <= |s|
  {
    if s == [] then [[]]
    else
      var rest := Split(s[1..]);
      if s[0] == NEWLINE then [[]] + rest else [[s[0]] + rest[0]] + rest[1..]
  }

  datatype LogError =
    | Unparsable
    | WrongThread(got: nat)
    | NotContiguous(expected: nat, got: nat)

  datatype Scan<+K> =
    | Clean(events: seq<Event<K>>)
    | Torn(events: seq<Event<K>>, line: Bytes)
    | Broken(events: seq<Event<K>>, error: LogError)

  /** What any reader of the log learns from `lines`, having read `acc` before them. */
  function ScanLines<K>(c: Codec<K>, threadId: nat, lines: seq<Bytes>, acc: seq<Event<K>>, terminated: bool): (r: Scan<K>)
    ensures r.Torn? ==> r.line in lines && c.decode(r.line) == None
  {
    if lines == [] then Clean(acc)
    else if lines[0] == [] then ScanLines(c, threadId, lines[1..], acc, terminated)
    else
      match c.decode(lines[0])
      case None => if terminated then Broken(acc, Unparsable) else Torn(acc, lines[0])
      case Some(e) =>
        if e.threadId != threadId then Broken(acc, WrongThread(e.threadId))
        else if e.seqNo != |acc| + 1 then Broken(acc, NotContiguous(|acc| + 1, e.seqNo))
        else ScanLines(c, threadId, lines[1..], acc + [e], terminated)
  }

  predicate Terminated(bytes: Bytes) {
    bytes != [] && bytes[|bytes| - 1] == NEWLINE
  }

  function ScanLog<K>(c: Codec<K>, threadId: nat, bytes: Bytes): (r: Scan<K>)
    ensures r.Torn? ==> |r.line| <= |bytes|
  {
    ScanLines(c, threadId, Split(bytes), [], Terminated(bytes))
  }

  /** The events a reader gets and the bytes the repairing reader leaves behind. */
  function Sanitized<K>(c: Codec<K>, threadId: nat, bytes: Bytes): Result<(seq<Event<K>>, Bytes), LogError> {
    match ScanLog(c, threadId, bytes)
    case Clean(events) => Ok((events, bytes))
    case Torn(events, line) => Ok((events, bytes[..|bytes| - |line|]))
    case Broken(_, error) => Err(error)
  }

  function WithBoundary(bytes: Bytes): Bytes {
    if bytes == [] || Terminated(bytes) then bytes else bytes + [NEWLINE]
  }

  /** The events after the first `since`. */
  function EventsSince<K>(c: Codec<K>, threadId: nat, bytes: Bytes, since: nat): Result<seq<Event<K>>, LogError> {
    match ScanLog(c, threadId, bytes)
    case Clean(events) => Ok(events[Min(since, |events|)..])
    case Torn(events, _) => Ok(events[Min(since, |events|)..])
    case Broken(_, error) => Err(error)
  }

  lemma ScanEmpty<K>(c: Codec<K>, threadId: nat)
    ensures ScanLog(c, threadId, []) == Clean([])
  {
    assert Split([]) == [[]];
    assert ScanLines(c, threadId, [[]], [], false) == ScanLines(c, threadId, [[]][1..], [], false);
  }

  // ----- The file, the readers and the writer -----

  /** The log file; `None` while it does not exist. */
  class LogFile {
    var content: Option<Bytes>

    constructor ()
      ensures content == None
    {
      content := None;
    }

    function Bytes(): Bytes
      reads this
    {
      if content.Some? then content.value else []
    }
  }

  method SanitizeAndReadEvents<K>(c: Codec<K>, threadId: nat, file: LogFile) returns (r: Result<seq<Event<K>>, LogError>)
    modifies file
    ensures file.content.Some? == old(file.content.Some?)
    ensures match Sanitized(c, threadId, old(file.Bytes()))
            case Ok((events, bytes)) => r == Ok(events) && file.Bytes() == bytes
            case Err(error) => r == Err(error) && file.content == old(file.content)
  {
    if file.content.None? {
      ScanEmpty(c, threadId);
      return Ok([]);
    }
    var bytes := file.content.value;
    var scanned := ReadLines(c, threadId, bytes);
    if scanned.Err? {
      return Err(scanned.error);
    }
    var (events, lastGoodLen) := scanned.value;
    if lastGoodLen != |bytes| {
      file.content := Some(bytes[..lastGoodLen]);
    }
    return Ok(events);
  }

  /** The events of the file and the length to cut it to. */
  method ReadLines<K>(c: Codec<K>, threadId: nat, bytes: Bytes) returns (r: Result<(seq<Event<K>>, nat), LogError>)
    ensures match ScanLog(c, threadId, bytes)
            case Clean(events) => r == Ok((events, |bytes|))
            case Torn(events, line) => r == Ok((events, |bytes| - |line|))
            case Broken(_, error) => r == Err(error)
  {
    var events: seq<Event<K>> := [];
    var expectedNext := 1;
    var lastGoodLen := |bytes|;
    var lines := Split(bytes);
    var idx := 0;
    while idx < |lines|
      invariant 0 <= idx <= |lines|
      invariant expectedNext == |events| + 1
      invariant lastGoodLen == |bytes|
      invariant ScanLog(c, threadId, bytes) == ScanLines(c, threadId, lines[idx..], events, Terminated(bytes))
    {
      var line := lines[idx];
      idx := idx + 1;
      if line == [] {
        continue;
      }
      match c.decode(line) {
        case Some(event) =>
          if event.threadId != threadId {
            return Err(WrongThread(event.threadId));
          }
          if event.seqNo != expectedNext {
            return Err(NotContiguous(expectedNext, event.seqNo));
          }
          expectedNext := event.seqNo + 1;
          events := events + [event];
        case None =>
          if !Terminated(bytes) {
            lastGoodLen := |bytes| - |line|;
            assert ScanLog(c, threadId, bytes) == Torn(events, line);
            break;
          }
          return Err(Unparsable);
      }
    }
    return Ok((events, lastGoodLen));
  }

  method EnsureJsonlRecordBoundary(file: LogFile)
    modifies file
    ensures file.content.Some? == old(file.content.Some?)
    ensures file.Bytes() == WithBoundary(old(file.Bytes()))
  {
    if file.content.None? {
      return;
    }
    var len := |file.content.value|;
    if len == 0 {
      return;
    }
    if file.content.value[len - 1] == NEWLINE {
      return;
    }
    file.content := Some(file.content.value + [NEWLINE]);
  }

  lemma SinceOneMore<K>(events: seq<Event<K>>, e: Event<K>, since: nat)
    ensures (events + [e])[Min(since, |events| + 1)..]
      == if since < |events| + 1 then events[Min(since, |events|)..] + [e] else events[Min(since, |events|)..]
  {
  }

  /** The events with the numbers after `since`, up to the last. */
  ghost predicate IsNumberedFrom<K>(events: seq<Event<K>>, since: nat, last: nat) {
    && |events| == (if since <= last then last - since else 0)
    && forall i :: 0 <= i < |events| ==> events[i].seqNo == since + i + 1
  }

  /** What one more piece does to a scan. */
  lemma NextLine<K>(c: Codec<K>, threadId: nat, lines: seq<Bytes>, idx: nat, seen: seq<Event<K>>, terminated: bool)
    requires idx < |lines|
    ensures var (line, decoded) := (lines[idx], c.decode(lines[idx]));
      ScanLines(c, threadId, lines[idx..], seen, terminated) ==
      if line == [] then ScanLines(c, threadId, lines[idx + 1..], seen, terminated)
      else if decoded.None? then if terminated then Broken(seen, Unparsable) else Torn(seen, line)
      else if decoded.value.threadId != threadId then Broken(seen, WrongThread(decoded.value.threadId))
      else if decoded.value.seqNo != |seen| + 1 then Broken(seen, NotContiguous(|seen| + 1, decoded.value.seqNo))
      else ScanLines(c, threadId, lines[idx + 1..], seen + [decoded.value], terminated)
  {
    assert lines[idx..][0] == lines[idx] && lines[idx..][1..] == lines[idx + 1..];
  }

  method ReadEventsSince<K>(c: Codec<K>, threadId: nat, file: LogFile, sinceSeq: nat) returns (r: Result<seq<Event<K>>, LogError>)
    ensures r == EventsSince(c, threadId, file.Bytes(), sinceSeq)
    ensures r.Ok? ==> forall e :: e in r.value <==> e in ScanLog(c, threadId, file.Bytes()).events && e.seqNo > sinceSeq
    ensures r.Ok? ==> IsNumberedFrom(r.value, sinceSeq, |ScanLog(c, threadId, file.Bytes()).events|)
  {
    if file.content.None? {
      ScanEmpty(c, threadId);
      return Ok([]);
    }
    ghost var scan := ScanLog(c, threadId, file.Bytes());
    var bytes := file.content.value;
    var out: seq<Event<K>> := [];
    var expectedNext := 1;
    var lines := Split(bytes);
    var idx := 0;
    ghost var seen: seq<Event<K>> := [];
    while idx < |lines|
      invariant 0 <= idx <= |lines|
      invariant expectedNext == |seen| + 1
      invariant out == seen[Min(sinceSeq, |seen|)..]
      invariant scan == ScanLines(c, threadId, lines[idx..], seen, Terminated(bytes))
    {
      var line := lines[idx];
      NextLine(c, threadId, lines, idx, seen, Terminated(bytes));
      idx := idx + 1;
      if line == [] {
        continue;
      }
      match c.decode(line) {
        case None =>
          if !Terminated(bytes) {
            assert scan == Torn(seen, line);
            break;
          }
          return Err(Unparsable);
        case Some(event) =>
          if event.threadId != threadId {
            return Err(WrongThread(event.threadId));
          }
          if event.seqNo != expectedNext {
            return Err(NotContiguous(expectedNext, event.seqNo));
          }
          expectedNext := event.seqNo + 1;
          SinceOneMore(seen, event, sinceSeq);
          if event.seqNo > sinceSeq {
            out := out + [event];
          }
          seen := seen + [event];
      }
    }
    SinceIsAbove(c, threadId, file.Bytes(), sinceSeq);
    return Ok(out);
  }

  class EventLogWriter<!K> {
    const codec: Codec<K>
    const threadId: nat
    const file: LogFile
    var nextSeq: nat

    constructor (codec: Codec<K>, threadId: nat, file: LogFile, nextSeq: nat)
      ensures this.codec == codec && this.threadId == threadId && this.file == file && this.nextSeq == nextSeq
    {
      this.codec, this.threadId, this.file, this.nextSeq := codec, threadId, file, nextSeq;
    }

    /** Writes one record and only then advances the sequence number. */
    method Append(kind: K, now: int) returns (event: Event<K>)
      modifies this, file
      ensures event == Event(old(nextSeq), now, threadId, kind)
      ensures file.content == Some(old(file.Bytes()) + Line(codec, event))
      ensures nextSeq == old(nextSeq) + 1
    {
      event := Event(nextSeq, now, threadId, kind);
      var line := codec.encode(event);
      file.content := Some(file.Bytes() + line);
      file.content := Some(file.Bytes() + [NEWLINE]);
      assert file.Bytes() == old(file.Bytes()) + (line + [NEWLINE]);
      nextSeq := nextSeq + 1;
    }
  }

  /** Repairs the file, then hands out the only writer together with the events it recovered. */
  method OpenWithEvents<K>(c: Codec<K>, threadId: nat, file: LogFile)
    returns (r: Result<(EventLogWriter<K>, seq<Event<K>>), LogError>)
    modifies file
    ensures match Sanitized(c, threadId, old(file.Bytes()))
            case Ok((events, bytes)) =>
              && r.Ok? && r.value.1 == events
              && file.content == Some(WithBoundary(bytes))
              && fresh(r.value.0) && r.value.0.codec == c && r.value.0.threadId == threadId && r.value.0.file == file
              && r.value.0.nextSeq == LastSeq(events) + 1
            case Err(error) => r == Err(error) && file.content == old(file.content)
  {
    var sanitized := SanitizeAndReadEvents(c, threadId, file);
    if sanitized.Err? {
      return Err(sanitized.error);
    }
    var events := sanitized.value;
    EnsureJsonlRecordBoundary(file);
    var lastSeq := LastSeq(events);
    if file.content.None? {
      file.content := Some([]);
    }
    var writer := new EventLogWriter(c, threadId, file, lastSeq + 1);
    return Ok((writer, events));
  }

  function LastSeq<K>(events: seq<Event<K>>): nat {
    if events == [] then 0 else events[|events| - 1].seqNo
  }

  // ----- Logs reachable by appends and crashes -----

  function Line<K>(c: Codec<K>, e: Event<K>): Bytes {
    c.encode(e) + [NEWLINE]
  }

  function Render<K>(c: Codec<K>, es: seq<Event<K>>): Bytes {
    if es == [] then [] else Render(c, es[..|es| - 1]) + Line(c, es[|es| - 1])
  }

  ghost predicate Numbered<K>(threadId: nat, es: seq<Event<K>>) {
    forall i :: 0 <= i < |es| ==> es[i].threadId == threadId && es[i].seqNo == i + 1
  }

  /** `bytes` after appending `es` in full and cutting the append of `next` after `cut` bytes. */
  ghost predicate CutAt<K>(c: Codec<K>, threadId: nat, es: seq<Event<K>>, next: Event<K>, cut: nat, bytes: Bytes) {
    && Numbered(threadId, es + [next])
    && cut <= |Line(c, next)|
    && bytes == Render(c, es) + Line(c, next)[..cut]
  }

  /** The events a torn log still holds: the last one counts when all its JSON bytes landed. */
  function Surviving<K>(c: Codec<K>, es: seq<Event<K>>, next: Event<K>, cut: nat): seq<Event<K>> {
    if cut < |c.encode(next)| then es else es + [next]
  }

  lemma {:induction false} SplitAppend(line: Bytes, rest: Bytes)
    requires NEWLINE !in line
    ensures Split(line) == [line]
    ensures Split(line + [NEWLINE] + rest) == [line] + Split(rest)
  {
    var s := line + [NEWLINE] + rest;
    if line == [] {
      assert s[1..] == rest;
    } else {
      SplitAppend(line[1..], rest);
      assert s[1..] == line[1..] + [NEWLINE] + rest;
      assert [line[0]] + line[1..] == line;
    }
  }

  function Encoded<K>(c: Codec<K>, es: seq<Event<K>>): seq<Bytes> {
    if es == [] then [] else Encoded(c, es[..|es| - 1]) + [c.encode(es[|es| - 1])]
  }

  lemma {:induction false} SplitRender<K(!new)>(c: Codec<K>, es: seq<Event<K>>, tail: Bytes)
    requires Lawful(c)
    ensures Split(Render(c, es) + tail) == Encoded(c, es) + Split(tail)
  {
    if es == [] {
      assert Render(c, es) + tail == tail;
    } else {
      var front, last := es[..|es| - 1], es[|es| - 1];
      assert NEWLINE !in c.encode(last);
      SplitRender(c, front, Line(c, last) + tail);
      SplitAppend(c.encode(last), tail);
      Regroup(Render(c, front), Line(c, last), tail);
      Regroup(Encoded(c, front), [c.encode(last)], Split(tail));
    }
  }

  lemma {:induction false} ScanEncoded<K(!new)>(c: Codec<K>, threadId: nat, es: seq<Event<K>>, rest: seq<Bytes>, terminated: bool)
    requires Lawful(c) && Numbered(threadId, es)
    ensures ScanLines(c, threadId, Encoded(c, es) + rest, [], terminated)
         == ScanLines(c, threadId, rest, StoredAll(c, es), terminated)
  {
    if es == [] {
      assert Encoded(c, es) + rest == rest;
    } else {
      var front, last := es[..|es| - 1], es[|es| - 1];
      ScanEncoded(c, threadId, front, [c.encode(last)] + rest, terminated);
      assert Encoded(c, es) + rest == Encoded(c, front) + ([c.encode(last)] + rest);
      assert c.decode(c.encode(last)) == Some(Stored(c, last));
      assert ([c.encode(last)] + rest)[1..] == rest;
    }
  }

  /** What a scan of a complete log followed by an unterminated piece amounts to. */
  lemma ScanReachable<K(!new)>(c: Codec<K>, threadId: nat, es: seq<Event<K>>, tail: Bytes)
    requires Lawful(c) && Numbered(threadId, es) && NEWLINE !in tail
    ensures ScanLog(c, threadId, Render(c, es) + tail)
         == ScanLines(c, threadId, [tail], StoredAll(c, es), Terminated(Render(c, es) + tail))
    ensures Terminated(Render(c, es) + tail) <==> tail == [] && es != []
  {
    SplitRender(c, es, tail);
    SplitAppend(tail, []);
    ScanEncoded(c, threadId, es, [tail], Terminated(Render(c, es) + tail));
    if tail != [] {
      assert (Render(c, es) + tail)[|Render(c, es) + tail| - 1] == tail[|tail| - 1];
    } else {
      assert Render(c, es) + tail == Render(c, es);
    }
  }

  lemma ScanRendered<K(!new)>(c: Codec<K>, threadId: nat, es: seq<Event<K>>)
    requires Lawful(c) && Numbered(threadId, es)
    ensures ScanLog(c, threadId, Render(c, es)) == Clean(StoredAll(c, es))
    ensures WithBoundary(Render(c, es)) == Render(c, es)
  {
    ScanReachable(c, threadId, es, []);
    assert Render(c, es) + [] == Render(c, es);
    var lines: seq<Bytes> := [[]];
    assert lines[1..] == [];
  }

  /** Crash recovery: wherever the append of `next` is cut, opening the log yields every committed
      event in order, and `next` exactly when all its JSON bytes landed (with or without the
      newline); what is left is a sequence of newline-ended records and the next sequence number
      is the event count plus one. */
  lemma CrashRecovery<K(!new)>(c: Codec<K>, threadId: nat, es: seq<Event<K>>, next: Event<K>, cut: nat, bytes: Bytes)
    requires Lawful(c) && CutAt(c, threadId, es, next, cut, bytes)
    ensures var kept := Surviving(c, es, next, cut);
      && Numbered(threadId, kept)
      && Sanitized(c, threadId, bytes).Ok?
      && Sanitized(c, threadId, bytes).value.0 == StoredAll(c, kept)
      && Sanitized(c, threadId, bytes).value.1 == (if cut < |c.encode(next)| then Render(c, es) else bytes)
      && WithBoundary(Sanitized(c, threadId, bytes).value.1) == Render(c, kept)
      && LastSeq(StoredAll(c, kept)) + 1 == |kept| + 1
  {
    var text := c.encode(next);
    var whole := es + [next];
    assert whole[..|whole| - 1] == es;
    assert Numbered(threadId, es) by {
      forall i | 0 <= i < |es| ensures es[i].threadId == threadId && es[i].seqNo == i + 1 { assert whole[i] == es[i]; }
    }
    if cut == |text| + 1 {
      assert Line(c, next)[..cut] == Line(c, next);
      ScanRendered(c, threadId, whole);
    } else {
      assert Line(c, next)[..cut] == text[..cut];
      if cut == |text| {
        assert text[..cut] == text;
        RecordWithoutNewline(c, threadId, es, next);
      } else {
        PartialRecord(c, threadId, es, next, cut);
      }
    }
  }

  lemma RecordWithoutNewline<K(!new)>(c: Codec<K>, threadId: nat, es: seq<Event<K>>, next: Event<K>)
    requires Lawful(c) && Numbered(threadId, es) && Numbered(threadId, es + [next])
    ensures var bytes := Render(c, es) + c.encode(next);
      && Sanitized(c, threadId, bytes) == Ok((StoredAll(c, es + [next]), bytes))
      && WithBoundary(bytes) == Render(c, es + [next])
  {
    var text, whole := c.encode(next), es + [next];
    assert whole[..|whole| - 1] == es && whole[|es|] == next;
    ScanReachable(c, threadId, es, text);
    assert [text][1..] == [];
    assert c.decode(text) == Some(Stored(c, next));
    assert Render(c, es) + text + [NEWLINE] == Render(c, es) + Line(c, next);
  }

  lemma PartialRecord<K(!new)>(c: Codec<K>, threadId: nat, es: seq<Event<K>>, next: Event<K>, cut: nat)
    requires Lawful(c) && Numbered(threadId, es) && cut < |c.encode(next)|
    ensures Sanitized(c, threadId, Render(c, es) + c.encode(next)[..cut]) == Ok((StoredAll(c, es), Render(c, es)))
    ensures WithBoundary(Render(c, es)) == Render(c, es)
  {
    var tail := c.encode(next)[..cut];
    ScanRendered(c, threadId, es);
    ScanReachable(c, threadId, es, tail);
    assert [tail][1..] == [];
    if cut == 0 {
      assert Render(c, es) + tail == Render(c, es);
    } else {
      assert c.decode(tail) == None;
      assert (Render(c, es) + tail)[..|Render(c, es)|] == Render(c, es);
    }
  }

  // ----- Every run of appends, crashes and reopenings -----

  /** `bytes` is a file that some crash can leave, and `es` are the events it still holds. */
  ghost predicate Reachable<K(!new)>(c: Codec<K>, threadId: nat, es: seq<Event<K>>, bytes: Bytes) {
    || (Numbered(threadId, es) && bytes == Render(c, es))
    || exists base, next, cut ::
         CutAt(c, threadId, base, next, cut, bytes) && es == Surviving(c, base, next, cut)
  }

  /** The repair alone keeps a reachable file reachable, so a crash inside it loses nothing. */
  lemma RecoverReachable<K(!new)>(c: Codec<K>, threadId: nat, es: seq<Event<K>>, bytes: Bytes)
    requires Lawful(c) && Reachable(c, threadId, es, bytes)
    ensures Numbered(threadId, es)
    ensures Sanitized(c, threadId, bytes).Ok?
    ensures Sanitized(c, threadId, bytes).value.0 == StoredAll(c, es)
    ensures WithBoundary(Sanitized(c, threadId, bytes).value.1) == Render(c, es)
    ensures Reachable(c, threadId, es, Sanitized(c, threadId, bytes).value.1)
    ensures LastSeq(StoredAll(c, es)) == |es|
  {
    if Numbered(threadId, es) && bytes == Render(c, es) {
      ScanRendered(c, threadId, es);
      return;
    }
    var base, next, cut :| CutAt(c, threadId, base, next, cut, bytes) && es == Surviving(c, base, next, cut);
    CrashRecovery(c, threadId, base, next, cut, bytes);
  }

  /** Cutting an append at any byte, or letting it finish, keeps the file reachable. */
  lemma CutIsReachable<K(!new)>(c: Codec<K>, threadId: nat, es: seq<Event<K>>, e: Event<K>, cut: nat)
    requires Lawful(c) && Numbered(threadId, es) && e.threadId == threadId && e.seqNo == |es| + 1
    requires cut <= |Line(c, e)|
    ensures Numbered(threadId, Surviving(c, es, e, cut))
    ensures Reachable(c, threadId, Surviving(c, es, e, cut), Render(c, es) + Line(c, e)[..cut])
  {
    assert CutAt(c, threadId, es, e, cut, Render(c, es) + Line(c, e)[..cut]);
  }

  lemma AppendIsReachable<K(!new)>(c: Codec<K>, threadId: nat, es: seq<Event<K>>, e: Event<K>)
    requires Lawful(c) && Numbered(threadId, es) && e.threadId == threadId && e.seqNo == |es| + 1
    ensures Numbered(threadId, es + [e])
    ensures Render(c, es + [e]) == Render(c, es) + Line(c, e)
    ensures Reachable(c, threadId, es + [e], Render(c, es) + Line(c, e))
  {
    assert (es + [e])[..|es|] == es;
  }

  /** The log between calls: its bytes and, while a writer is alive, that writer's next number. */
  datatype LogState = LogState(bytes: Bytes, writer: Option<nat>)

  datatype LogStep<+K> =
    | Open
    | OpenInterrupted                            // dies after the truncation, before the newline
    | Append(now: int, kind: K)
    | Crash(now: int, kind: K, cut: nat)         // dies after `cut` bytes of an append
    | Close

  predicate Enabled<K>(c: Codec<K>, threadId: nat, writer: Option<nat>, step: LogStep<K>) {
    match step
    case Open => writer.None?
    case OpenInterrupted => writer.None?
    case Append(_, _) => writer.Some?
    case Crash(now, kind, cut) => writer.Some? && cut <= |Line(c, Event(writer.value, now, threadId, kind))|
    case Close => writer.Some?
  }

  function StepLog<K>(c: Codec<K>, threadId: nat, s: LogState, step: LogStep<K>): Result<LogState, LogError>
    requires Enabled(c, threadId, s.writer, step)
  {
    match step
    case Open =>
      (match Sanitized(c, threadId, s.bytes)
       case Ok((events, bytes)) => Ok(LogState(WithBoundary(bytes), Some(LastSeq(events) + 1)))
       case Err(error) => Err(error))
    case OpenInterrupted =>
      (match Sanitized(c, threadId, s.bytes)
       case Ok((events, bytes)) => Ok(LogState(bytes, None))
       case Err(error) => Err(error))
    case Append(now, kind) =>
      Ok(LogState(s.bytes + Line(c, Event(s.writer.value, now, threadId, kind)), Some(s.writer.value + 1)))
    case Crash(now, kind, cut) =>
      Ok(LogState(s.bytes + Line(c, Event(s.writer.value, now, threadId, kind))[..cut], None))
    case Close =>
      Ok(s.(writer := None))
  }

  /** What a step commits, as its caller sees it: no bytes, no reading back. */
  function Commits<K>(c: Codec<K>, threadId: nat, committed: seq<Event<K>>, step: LogStep<K>): seq<Event<K>> {
    match step
    case Append(now, kind) => committed + [Event(|committed| + 1, now, threadId, kind)]
    case Crash(now, kind, cut) => Surviving(c, committed, Event(|committed| + 1, now, threadId, kind), cut)
    case _ => committed
  }

  function Committed<K>(c: Codec<K>, threadId: nat, steps: seq<LogStep<K>>): seq<Event<K>> {
    if steps == [] then []
    else Commits(c, threadId, Committed(c, threadId, steps[..|steps| - 1]), steps[|steps| - 1])
  }

  /** The alternation of openings and deaths that callers keep to: one writer at a time. */
  predicate Permitted<K>(c: Codec<K>, threadId: nat, steps: seq<LogStep<K>>) {
    steps == [] ||
    (var front, last := steps[..|steps| - 1], steps[|steps| - 1];
     Permitted(c, threadId, front) && Enabled(c, threadId, WriterAfter(c, threadId, front), last))
  }

  function WriterAfter<K>(c: Codec<K>, threadId: nat, steps: seq<LogStep<K>>): Option<nat> {
    if steps == [] then None
    else
      match steps[|steps| - 1]
      case Open => Some(|Committed(c, threadId, steps)| + 1)
      case Append(_, _) => Some(|Committed(c, threadId, steps)| + 1)
      case _ => None
  }

  function RunLog<K>(c: Codec<K>, threadId: nat, steps: seq<LogStep<K>>): Option<LogState> {
    if steps == [] then Some(LogState([], None))
    else
      match RunLog(c, threadId, steps[..|steps| - 1])
      case None => None
      case Some(s) =>
        var step := steps[|steps| - 1];
        if !Enabled(c, threadId, s.writer, step) then None
        else
          match StepLog(c, threadId, s, step)
          case Ok(s') => Some(s')
          case Err(_) => None
  }

  /** Over any number of append, crash and reopen cycles no opening ever fails, a live writer
      numbers on from the committed events and its file is exactly their records, and between
      writers the file still recovers to exactly the committed events. */
  lemma {:induction false} LogRunsRecover<K(!new)>(c: Codec<K>, threadId: nat, steps: seq<LogStep<K>>)
    requires Lawful(c) && Permitted(c, threadId, steps)
    ensures var es := Committed(c, threadId, steps);
      && RunLog(c, threadId, steps).Some?
      && var s := RunLog(c, threadId, steps).value;
      && Numbered(threadId, es)
      && s.writer == WriterAfter(c, threadId, steps)
      && (s.writer.Some? ==> s.bytes == Render(c, es) && s.writer.value == |es| + 1)
      && Reachable(c, threadId, es, s.bytes)
  {
    if steps == [] {
    } else {
      var front, step := steps[..|steps| - 1], steps[|steps| - 1];
      LogRunsRecover(c, threadId, front);
      var s := RunLog(c, threadId, front).value;
      var es := Committed(c, threadId, front);
      LogStepRecovers(c, threadId, es, s, step);
    }
  }

  lemma LogStepRecovers<K(!new)>(c: Codec<K>, threadId: nat, es: seq<Event<K>>, s: LogState, step: LogStep<K>)
    requires Lawful(c) && Numbered(threadId, es) && Enabled(c, threadId, s.writer, step)
    requires Reachable(c, threadId, es, s.bytes)
    requires s.writer.Some? ==> s.bytes == Render(c, es) && s.writer.value == |es| + 1
    ensures var es' := Commits(c, threadId, es, step);
      && Numbered(threadId, es')
      && StepLog(c, threadId, s, step).Ok?
      && var s' := StepLog(c, threadId, s, step).value;
      && Reachable(c, threadId, es', s'.bytes)
      && s'.writer == (if step.Open? || step.Append? then Some(|es'| + 1) else None)
      && (s'.writer.Some? ==> s'.bytes == Render(c, es'))
  {
    match step {
      case Open =>
        RecoverReachable(c, threadId, es, s.bytes);
      case OpenInterrupted =>
        RecoverReachable(c, threadId, es, s.bytes);
      case Append(now, kind) =>
        AppendIsReachable(c, threadId, es, Event(|es| + 1, now, threadId, kind));
      case Crash(now, kind, cut) =>
        CutIsReachable(c, threadId, es, Event(|es| + 1, now, threadId, kind), cut);
      case Close =>
    }
  }

  // ----- The readers and the repair -----

  /** On every reachable log, torn or not, the read-only reader returns the events recovery would
      return, less the first `since`, which are those numbered up to `since`, and running the repair does
      not change that. */
  lemma ReadersAgreeWithRecovery<K(!new)>(c: Codec<K>, threadId: nat, es: seq<Event<K>>, bytes: Bytes, since: nat)
    requires Lawful(c) && Reachable(c, threadId, es, bytes)
    ensures Sanitized(c, threadId, bytes).Ok?
    ensures var (events, repaired) := Sanitized(c, threadId, bytes).value;
      && events == StoredAll(c, es) && Numbered(threadId, events)
      && EventsSince(c, threadId, bytes, since) == Ok(events[Min(since, |events|)..])
      && EventsSince(c, threadId, repaired, since) == Ok(events[Min(since, |events|)..])
      && EventsSince(c, threadId, WithBoundary(repaired), since) == Ok(events[Min(since, |events|)..])
  {
    RecoverReachable(c, threadId, es, bytes);
    var repaired := Sanitized(c, threadId, bytes).value.1;
    RecoverReachable(c, threadId, es, repaired);
    ScanRendered(c, threadId, es);
  }

  /** The index of the first piece that is neither empty nor an event; |lines| when there is none. */
  function FirstBad<K>(c: Codec<K>, lines: seq<Bytes>): (r: nat)
    ensures r <= |lines|
  {
    if lines == [] || (lines[0] != [] && c.decode(lines[0]) == None) then 0 else 1 + FirstBad(c, lines[1..])
  }

  function Join(lines: seq<Bytes>): Bytes
    requires lines != []
  {
    if |lines| == 1 then lines[0] else lines[0] + [NEWLINE] + Join(lines[1..])
  }

  lemma {:induction false} JoinSplit(s: Bytes)
    ensures Join(Split(s)) == s
    ensures forall i :: 0 <= i < |Split(s)| ==> NEWLINE !in Split(s)[i]
  {
    if s != [] {
      JoinSplit(s[1..]);
      var rest := Split(s[1..]);
      if s[0] == NEWLINE {
        assert ([[]] + rest)[1..] == rest;
      } else {
        assert ([[s[0]] + rest[0]] + rest[1..])[1..] == rest[1..];
        assert Join(Split(s)) == [s[0]] + Join(rest);
      }
    }
  }

  /** `lines`, each ended by a newline. */
  function Ended(lines: seq<Bytes>): (r: Bytes)
    ensures r == [] || Terminated(r)
  {
    if lines == [] then [] else lines[0] + [NEWLINE] + Ended(lines[1..])
  }

  lemma {:induction false} JoinAt(lines: seq<Bytes>, k: nat)
    requires k < |lines|
    ensures Join(lines) == Ended(lines[..k]) + Join(lines[k..])
  {
    if k == 0 {
      assert lines[..k] == [] && lines[k..] == lines;
    } else {
      JoinAt(lines[1..], k - 1);
      assert lines[1..][..k - 1] == lines[..k][1..];
      assert lines[1..][k - 1..] == lines[k..];
    }
  }

  /** Whole lines in front of `t` do not change how `t` splits. */
  lemma {:induction false} SplitAfterLines(pre: seq<Bytes>, t: Bytes)
    requires forall i :: 0 <= i < |pre| ==> NEWLINE !in pre[i]
    ensures Split(Ended(pre) + t) == pre + Split(t)
  {
    if pre == [] {
      assert Ended(pre) + t == t;
    } else {
      var rest := Ended(pre[1..]) + t;
      SplitAfterLines(pre[1..], t);
      SplitAppend(pre[0], rest);
      Regroup(pre[0] + [NEWLINE], Ended(pre[1..]), t);
      Regroup([pre[0]], pre[1..], Split(t));
      assert pre == [pre[0]] + pre[1..];
    }
  }

  /** Up to the first bad piece the scan does not depend on what follows or how the file ends. */
  lemma {:induction false} ScanToFirstBad<K>(c: Codec<K>, threadId: nat, lines: seq<Bytes>, acc: seq<Event<K>>, rest: seq<Bytes>, terminated: bool)
    requires !ScanLines(c, threadId, lines, acc, false).Broken?
    ensures var k := FirstBad(c, lines);
      var events := ScanLines(c, threadId, lines, acc, false).events;
      && (ScanLines(c, threadId, lines, acc, false).Torn? <==> k < |lines|)
      && (k < |lines| ==> ScanLines(c, threadId, lines, acc, false) == Torn(events, lines[k]))
      && ScanLines(c, threadId, lines[..k] + rest, acc, terminated) == ScanLines(c, threadId, rest, events, terminated)
  {
    var k := FirstBad(c, lines);
    if k == 0 {
      assert lines[..k] + rest == rest;
    } else {
      var acc' := if lines[0] == [] then acc else acc + [c.decode(lines[0]).value];
      ScanToFirstBad(c, threadId, lines[1..], acc', rest, terminated);
      assert (lines[..k] + rest)[1..] == lines[1..][..k - 1] + rest;
    }
  }

  /** The torn-tail cut is measured from the end of the file, so it is right exactly when the
      undecodable piece is the last one: for every file the repair accepts, reading the repaired
      file gives the same events back if and only if no undecodable piece has another after it. */
  lemma RepairExact<K(!new)>(c: Codec<K>, threadId: nat, bytes: Bytes)
    requires Sanitized(c, threadId, bytes).Ok?
    ensures var (events, repaired) := Sanitized(c, threadId, bytes).value;
      ScanLog(c, threadId, WithBoundary(repaired)) == Clean(events)
      <==> FirstBad(c, Split(bytes)) >= |Split(bytes)| - 1
  {
    var lines := Split(bytes);
    var k := FirstBad(c, lines);
    JoinSplit(bytes);
    if Terminated(bytes) {
      TerminatedScan(c, threadId, lines, []);
    } else {
      ScanToFirstBad(c, threadId, lines, [], [], false);
      if k == |lines| {
        RepairUntorn(c, threadId, bytes);
      } else if k == |lines| - 1 {
        RepairLast(c, threadId, bytes);
      } else {
        RepairInner(c, threadId, bytes);
      }
    }
  }

  lemma {:induction false} TerminatedScan<K>(c: Codec<K>, threadId: nat, lines: seq<Bytes>, acc: seq<Event<K>>)
    requires !ScanLines(c, threadId, lines, acc, true).Broken?
    ensures ScanLines(c, threadId, lines, acc, true).Clean? && FirstBad(c, lines) == |lines|
  {
    if lines != [] {
      TerminatedScan(c, threadId, lines[1..], if lines[0] == [] then acc else acc + [c.decode(lines[0]).value]);
    }
  }

  const BLANK: seq<Bytes> := [[]]

  lemma RepairUntorn<K(!new)>(c: Codec<K>, threadId: nat, bytes: Bytes)
    requires !Terminated(bytes) && FirstBad(c, Split(bytes)) == |Split(bytes)|
    requires !ScanLog(c, threadId, bytes).Broken?
    ensures ScanLog(c, threadId, WithBoundary(bytes)) == ScanLog(c, threadId, bytes)
  {
    var lines := Split(bytes);
    JoinSplit(bytes);
    if bytes != [] {
      EndedIsJoin(lines);
      assert WithBoundary(bytes) == Ended(lines) + [];
      SplitAfterLines(lines, []);
      ScanToFirstBad(c, threadId, lines, [], BLANK, true);
      ScanToFirstBad(c, threadId, lines, [], [], false);
      assert lines[..|lines|] == lines && lines + [] == lines;
      assert BLANK[1..] == [];
    }
  }

  lemma {:induction false} EndedIsJoin(lines: seq<Bytes>)
    requires lines != []
    ensures Ended(lines) == Join(lines) + [NEWLINE]
  {
    if |lines| > 1 {
      EndedIsJoin(lines[1..]);
    }
  }

  /** The part of a file before its first bad piece. */
  function GoodPart<K>(c: Codec<K>, bytes: Bytes): Bytes {
    Ended(Split(bytes)[..FirstBad(c, Split(bytes))])
  }

  /** What follows the first bad piece of `lines`. */
  function AfterBad<K>(c: Codec<K>, lines: seq<Bytes>): Bytes {
    var k := FirstBad(c, lines);
    if k + 1 >= |lines| then [] else [NEWLINE] + Join(lines[k + 1..])
  }

  /** A torn file is its good part, the bad piece, and whatever follows that piece. */
  lemma TornLayout<K(!new)>(c: Codec<K>, threadId: nat, bytes: Bytes)
    requires ScanLog(c, threadId, bytes).Torn?
    ensures !Terminated(bytes)
    ensures var (lines, k) := (Split(bytes), FirstBad(c, Split(bytes)));
      && k < |lines| && ScanLog(c, threadId, bytes).line == lines[k]
      && lines[k] != [] && NEWLINE !in lines[k] && c.decode(lines[k]) == None
      && bytes == GoodPart(c, bytes) + (lines[k] + AfterBad(c, lines))
  {
    var lines := Split(bytes);
    if Terminated(bytes) {
      TerminatedScan(c, threadId, lines, []);
    }
    ScanToFirstBad(c, threadId, lines, [], [], false);
    BadPieceNonempty(c, lines);
    BadPieceLayout(c, bytes);
  }

  lemma {:induction false} BadPieceLayout<K(!new)>(c: Codec<K>, bytes: Bytes)
    requires FirstBad(c, Split(bytes)) < |Split(bytes)|
    ensures var (lines, k) := (Split(bytes), FirstBad(c, Split(bytes)));
      NEWLINE !in lines[k] && bytes == GoodPart(c, bytes) + (lines[k] + AfterBad(c, lines))
  {
    var lines := Split(bytes);
    LayoutAt(lines, FirstBad(c, lines));
    JoinSplit(bytes);
  }

  lemma {:induction false} LayoutAt(lines: seq<Bytes>, k: nat)
    requires k < |lines|
    ensures Join(lines) == Ended(lines[..k]) + (lines[k] + if k + 1 >= |lines| then [] else [NEWLINE] + Join(lines[k + 1..]))
  {
    JoinAt(lines, k);
    var rest := lines[k..];
    assert rest[0] == lines[k] && rest[1..] == lines[k + 1..];
    if |rest| > 1 {
      Regroup(lines[k], [NEWLINE], Join(lines[k + 1..]));
    }
  }

  lemma {:induction false} BadPieceNonempty<K(!new)>(c: Codec<K>, lines: seq<Bytes>)
    ensures var k := FirstBad(c, lines); k < |lines| ==> lines[k] != [] && c.decode(lines[k]) == None
  {
    if lines != [] {
      BadPieceNonempty(c, lines[1..]);
    }
  }

  /** Replacing everything after the good part of a torn file by `t`. */
  lemma ScanAfterGoodPart<K(!new)>(c: Codec<K>, threadId: nat, bytes: Bytes, t: Bytes)
    requires ScanLog(c, threadId, bytes).Torn?
    ensures ScanLog(c, threadId, GoodPart(c, bytes) + t)
         == ScanLines(c, threadId, Split(t), ScanLog(c, threadId, bytes).events, Terminated(GoodPart(c, bytes) + t))
  {
    var lines := Split(bytes);
    JoinSplit(bytes);
    SplitAfterLines(lines[..FirstBad(c, lines)], t);
    TornLayout(c, threadId, bytes);
    ScanToFirstBad(c, threadId, lines, [], Split(t), Terminated(GoodPart(c, bytes) + t));
  }

  lemma RepairLast<K(!new)>(c: Codec<K>, threadId: nat, bytes: Bytes)
    requires ScanLog(c, threadId, bytes).Torn? && FirstBad(c, Split(bytes)) == |Split(bytes)| - 1
    ensures var (events, repaired) := Sanitized(c, threadId, bytes).value;
      ScanLog(c, threadId, WithBoundary(repaired)) == Clean(events)
  {
    TornLayout(c, threadId, bytes);
    var good := GoodPart(c, bytes);
    assert Sanitized(c, threadId, bytes).value.1 == good;
    ScanAfterGoodPart(c, threadId, bytes, []);
    assert good + [] == good;
    assert BLANK[1..] == [];
  }

  lemma RepairInner<K(!new)>(c: Codec<K>, threadId: nat, bytes: Bytes)
    requires ScanLog(c, threadId, bytes).Torn? && FirstBad(c, Split(bytes)) < |Split(bytes)| - 1
    ensures var (events, repaired) := Sanitized(c, threadId, bytes).value;
      ScanLog(c, threadId, WithBoundary(repaired)) != Clean(events)
  {
    InnerCutSpoils(c, threadId, bytes);
    SanitizedTorn(c, threadId, bytes);
  }

  lemma SanitizedTorn<K>(c: Codec<K>, threadId: nat, bytes: Bytes)
    requires ScanLog(c, threadId, bytes).Torn?
    ensures var scan := ScanLog(c, threadId, bytes);
      Sanitized(c, threadId, bytes) == Ok((scan.events, bytes[..|bytes| - |scan.line|]))
  {
  }

  lemma {:induction false} InnerCutSpoils<K(!new)>(c: Codec<K>, threadId: nat, bytes: Bytes)
    requires ScanLog(c, threadId, bytes).Torn? && FirstBad(c, Split(bytes)) < |Split(bytes)| - 1
    ensures var scan := ScanLog(c, threadId, bytes);
      ScanLog(c, threadId, WithBoundary(bytes[..|bytes| - |scan.line|])) != Clean(scan.events)
  {
    var parts := TornParts(c, threadId, bytes);
    CutInside(c, threadId, bytes, parts);
  }

  datatype TornFile = TornFile(good: Bytes, bad: Bytes, after: Bytes) {
    /** What the cut leaves of the bad piece and the text after it. */
    function Kept(): Bytes {
      WithBoundary((bad + after)[..|after|])
    }
  }

  /** `parts` are the parts of a file torn before its last piece, and the scan goes on where it was cut. */
  ghost predicate TornInside<K(!new)>(c: Codec<K>, threadId: nat, bytes: Bytes, parts: TornFile) {
    && ScanLog(c, threadId, bytes).Torn? && ScanLog(c, threadId, bytes).line == parts.bad
    && bytes == parts.good + (parts.bad + parts.after)
    && parts.bad != [] && NEWLINE !in parts.bad && c.decode(parts.bad) == None
    && parts.after != [] && parts.after[0] == NEWLINE
    && ScanLog(c, threadId, parts.good + parts.Kept())
       == ScanLines(c, threadId, Split(parts.Kept()), ScanLog(c, threadId, bytes).events, Terminated(parts.good + parts.Kept()))
  }

  lemma CutInside<K(!new)>(c: Codec<K>, threadId: nat, bytes: Bytes, parts: TornFile)
    requires TornInside(c, threadId, bytes, parts)
    ensures var scan := ScanLog(c, threadId, bytes);
      ScanLog(c, threadId, WithBoundary(bytes[..|bytes| - |scan.line|])) != Clean(scan.events)
  {
    CutAfter(bytes, parts.good, parts.bad, parts.after);
    LeftoverIsNoLine(c, threadId, parts.bad, parts.after, ScanLog(c, threadId, bytes).events);
  }

  lemma TornParts<K(!new)>(c: Codec<K>, threadId: nat, bytes: Bytes) returns (parts: TornFile)
    requires ScanLog(c, threadId, bytes).Torn? && FirstBad(c, Split(bytes)) < |Split(bytes)| - 1
    ensures TornInside(c, threadId, bytes, parts)
  {
    var lines := Split(bytes);
    parts := TornFile(GoodPart(c, bytes), lines[FirstBad(c, lines)], AfterBad(c, lines));
    TornLayout(c, threadId, bytes);
    ScanAfterGoodPart(c, threadId, bytes, parts.Kept());
  }

  lemma CutAfter(bytes: Bytes, good: Bytes, bad: Bytes, after: Bytes)
    requires bytes == good + (bad + after) && bad != [] && after != []
    ensures WithBoundary(bytes[..|bytes| - |bad|]) == good + WithBoundary((bad + after)[..|after|])
    ensures Terminated(WithBoundary(bytes[..|bytes| - |bad|]))
  {
    var kept := (bad + after)[..|after|];
    assert bytes[..|bytes| - |bad|] == good + kept;
    assert (good + kept)[|good + kept| - 1] == kept[|kept| - 1];
    Regroup(good, kept, [NEWLINE]);
  }

  /** What the cut leaves of a bad piece and the text after it is a nonempty line, which either is
      no event or is one too many. */
  lemma LeftoverIsNoLine<K(!new)>(c: Codec<K>, threadId: nat, bad: Bytes, after: Bytes, events: seq<Event<K>>)
    requires bad != [] && NEWLINE !in bad && c.decode(bad) == None
    requires after != [] && after[0] == NEWLINE
    ensures var kept := WithBoundary((bad + after)[..|after|]);
      ScanLines(c, threadId, Split(kept), events, true) != Clean(events)
  {
    var kept := (bad + after)[..|after|];
    if |kept| <= |bad| {
      assert kept == bad[..|kept|];
      assert WithBoundary(kept) == kept + [NEWLINE] + [];
      SplitAppend(kept, []);
      assert Split([]) == BLANK;
      assert ([kept] + BLANK)[1..] == BLANK;
      assert BLANK[1..] == [];
      if c.decode(kept).Some? {
        var acc := events + [c.decode(kept).value];
        assert ScanLines(c, threadId, BLANK, acc, true) == ScanLines(c, threadId, BLANK[1..], acc, true);
        assert acc != events;
      }
    } else {
      var rest := WithBoundary(kept)[|bad| + 1..];
      assert kept[..|bad|] == bad && kept[|bad|] == after[0];
      assert WithBoundary(kept) == bad + [NEWLINE] + rest;
      SplitAppend(bad, rest);
    }
  }

  /** A file the repair spoils: the same undecodable piece twice, the second one unterminated. The
      cut removes the second copy and leaves the first, which no reader accepts any more. */
  lemma RepairCanMissTheTear<K(!new)>(c: Codec<K>, threadId: nat, bad: Bytes)
    requires bad != [] && NEWLINE !in bad && c.decode(bad) == None
    ensures var bytes := bad + [NEWLINE] + bad;
      && Sanitized(c, threadId, bytes) == Ok(([], bad + [NEWLINE]))
      && ScanLog(c, threadId, bad + [NEWLINE]) == Broken([], Unparsable)
  {
    var bytes := bad + [NEWLINE] + bad;
    SplitAppend(bad, bad);
    assert bytes[|bytes| - 1] == bad[|bad| - 1];
    assert bytes[..|bytes| - |bad|] == bad + [NEWLINE];
    SplitAppend(bad, []);
    assert bad + [NEWLINE] + [] == bad + [NEWLINE];
  }

  // ----- What a scan says about the file -----

  function NonEmpty(lines: seq<Bytes>): (r: seq<Bytes>)
    ensures |r| <= |lines| && forall line :: line in r <==> line in lines && line != []
  {
    if lines == [] then [] else (if lines[0] == [] then [] else [lines[0]]) + NonEmpty(lines[1..])
  }

  /** The first pieces are events of this thread, numbered on from `before`. */
  ghost predicate ReadFrom<K>(c: Codec<K>, threadId: nat, pieces: seq<Bytes>, before: nat, events: seq<Event<K>>) {
    && |events| <= |pieces|
    && forall i :: 0 <= i < |events| ==>
         c.decode(pieces[i]) == Some(events[i]) && events[i].threadId == threadId && events[i].seqNo == before + i + 1
  }

  /** What is wrong with a piece that should be event number `expected`. */
  ghost predicate IsAtFault<K>(c: Codec<K>, threadId: nat, piece: Bytes, expected: nat, terminated: bool, error: LogError) {
    match c.decode(piece)
    case None => terminated && error == Unparsable
    case Some(e) =>
      if e.threadId != threadId then error == WrongThread(e.threadId)
      else e.seqNo != expected && error == NotContiguous(expected, e.seqNo)
  }

  /** The first pieces are the events read after `before` earlier ones; the next piece, if there is one,
      ends the scan: torn when it does not decode and the file has no final newline, at fault otherwise. */
  ghost predicate IsVerdict<K>(c: Codec<K>, threadId: nat, pieces: seq<Bytes>, before: nat, events: seq<Event<K>>,
                               scan: Scan<K>, terminated: bool) {
    && ReadFrom(c, threadId, pieces, before, events)
    && match scan
       case Clean(_) => |events| == |pieces|
       case Torn(_, line) => |events| < |pieces| && line == pieces[|events|] && c.decode(line) == None && !terminated
       case Broken(_, error) =>
         |events| < |pieces| && IsAtFault(c, threadId, pieces[|events|], before + |events| + 1, terminated, error)
  }

  /** Every reader decides the same: the nonempty pieces between newlines are the events 1, 2, 3, ... of
      this thread, up to the first piece that is not. */
  lemma {:induction false} ScanExact<K>(c: Codec<K>, threadId: nat, bytes: Bytes)
    ensures var scan := ScanLog(c, threadId, bytes);
      IsVerdict(c, threadId, NonEmpty(Split(bytes)), 0, scan.events, scan, bytes != [] && bytes[|bytes| - 1] == NEWLINE)
  {
    var events := ScanLinesExact(c, threadId, Split(bytes), [], Terminated(bytes));
    assert [] + events == events;
  }

  lemma {:induction false} ScanLinesExact<K>(c: Codec<K>, threadId: nat, lines: seq<Bytes>, acc: seq<Event<K>>, terminated: bool)
    returns (events: seq<Event<K>>)
    ensures var scan := ScanLines(c, threadId, lines, acc, terminated);
      scan.events == acc + events && IsVerdict(c, threadId, NonEmpty(lines), |acc|, events, scan, terminated)
  {
    if lines == [] {
      events := [];
    } else if lines[0] == [] {
      events := ScanLinesExact(c, threadId, lines[1..], acc, terminated);
      assert NonEmpty(lines) == NonEmpty(lines[1..]);
    } else {
      var decoded := c.decode(lines[0]);
      assert NonEmpty(lines) == [lines[0]] + NonEmpty(lines[1..]);
      if decoded.Some? && decoded.value.threadId == threadId && decoded.value.seqNo == |acc| + 1 {
        var later := ScanLinesExact(c, threadId, lines[1..], acc + [decoded.value], terminated);
        events := [decoded.value] + later;
        Regroup(acc, [decoded.value], later);
        VerdictOneMore(c, threadId, lines[0], NonEmpty(lines[1..]), |acc|, decoded.value, later,
                       ScanLines(c, threadId, lines, acc, terminated), terminated);
      } else {
        events := [];
        ScanStops(c, threadId, lines, acc, terminated);
      }
    }
  }

  lemma ScanStops<K>(c: Codec<K>, threadId: nat, lines: seq<Bytes>, acc: seq<Event<K>>, terminated: bool)
    requires lines != [] && lines[0] != []
    requires match c.decode(lines[0]) case None => true case Some(e) => e.threadId != threadId || e.seqNo != |acc| + 1
    ensures var scan := ScanLines(c, threadId, lines, acc, terminated);
      scan.events == acc + [] && IsVerdict(c, threadId, NonEmpty(lines), |acc|, [], scan, terminated)
  {
    assert NonEmpty(lines)[0] == lines[0];
  }

  lemma VerdictOneMore<K>(c: Codec<K>, threadId: nat, piece: Bytes, pieces: seq<Bytes>, before: nat, e: Event<K>,
                          later: seq<Event<K>>, scan: Scan<K>, terminated: bool)
    requires c.decode(piece) == Some(e) && e.threadId == threadId && e.seqNo == before + 1
    requires IsVerdict(c, threadId, pieces, before + 1, later, scan, terminated)
    ensures IsVerdict(c, threadId, [piece] + pieces, before, [e] + later, scan, terminated)
  {
    var all, events := [piece] + pieces, [e] + later;
    forall i | 0 <= i < |events|
      ensures c.decode(all[i]) == Some(events[i]) && events[i].threadId == threadId && events[i].seqNo == before + i + 1
    {
      if i > 0 {
        assert all[i] == pieces[i - 1] && events[i] == later[i - 1];
      }
    }
  }

  lemma ScanIsNumbered<K>(c: Codec<K>, threadId: nat, bytes: Bytes)
    ensures forall i :: 0 <= i < |ScanLog(c, threadId, bytes).events| ==> ScanLog(c, threadId, bytes).events[i].seqNo == i + 1
  {
    ScanExact(c, threadId, bytes);
  }

  /** The events after the first `since` are those with a larger number, in order. */
  lemma SinceIsAbove<K>(c: Codec<K>, threadId: nat, bytes: Bytes, since: nat)
    ensures var (events, r) := (ScanLog(c, threadId, bytes).events, EventsSince(c, threadId, bytes, since));
      r.Ok? ==> (forall e :: e in r.value <==> e in events && e.seqNo > since) && IsNumberedFrom(r.value, since, |events|)
  {
    ScanIsNumbered(c, threadId, bytes);
    var events := ScanLog(c, threadId, bytes).events;
    var listed := events[Min(since, |events|)..];
    forall e ensures e in listed <==> e in events && e.seqNo > since {
      if e in events && e.seqNo > since {
        var i :| 0 <= i < |events| && events[i] == e;
        assert listed[i - since] == e;
      }
    }
  }
}
