/**
 The live handle of crates/core/src/threads.rs: it checks an event against a copy of its state,
 writes the event, and only then adopts the copy. The theorems compare the handle with what a
 replay of its log gives, over every run of appends, drains, crashes and reopenings.
 */
module ThreadHandles {
  import opened Basics
  import opened EventLog
  import opened Threads

  // ----- What serialisation keeps of an event -----

  function WireUsage(usage: Option<Usage>): Option<Usage> {
    if usage == Some(NullUsage) then None else usage
  }

  /** An optional field that holds a null is written as `null`, which reads back as an absent field.
      So a configuration update that clears the tool list (`Some(None)`) comes back as one that
      does not mention it. */
  function WireKind(k: Kind): Kind {
    match k
    case ThreadConfigUpdated(u) =>
      ThreadConfigUpdated(if u.allowedTools == Some(None) then u.(allowedTools := None) else u)
    case AgentStep(id, usage) => AgentStep(id, WireUsage(usage))
    case AssistantMessage(id, usage) => AssistantMessage(id, WireUsage(usage))
    case _ => k
  }

  ghost predicate ThreadCodec(c: Codec<Kind>) {
    Lawful(c) && forall k :: c.wire(k) == WireKind(k)
  }

  // ----- Runtime tracking -----

  function TrackProcess(active: set<Id>, kind: Kind): set<Id> {
    match kind
    case ProcessStarted(p) => active + {p}
    case ProcessExited(p, _) => active - {p}
    case _ => active
  }

  function TrackTool(active: set<Id>, kind: Kind): set<Id> {
    match kind
    case ToolStarted(t) => active + {t}
    case ToolCompleted(t) => active - {t}
    case _ => active
  }

  function ProcessesOf(es: seq<ThreadEvent>): set<Id> {
    if es == [] then {} else TrackProcess(ProcessesOf(es[..|es| - 1]), es[|es| - 1].kind)
  }

  function ToolsOf(es: seq<ThreadEvent>): set<Id> {
    if es == [] then {} else TrackTool(ToolsOf(es[..|es| - 1]), es[|es| - 1].kind)
  }

  datatype HandleView = HandleView(nextSeq: nat, state: State, activeProcesses: set<Id>, activeTools: set<Id>)

  /** The handle after an event that its state accepts. */
  function Advance(h: HandleView, e: ThreadEvent): Result<HandleView, ApplyError> {
    match ApplyEvent(h.state, e)
    case Err(error) => Err(error)
    case Ok(s) =>
      Ok(HandleView(h.nextSeq + 1, s, TrackProcess(h.activeProcesses, e.kind), TrackTool(h.activeTools, e.kind)))
  }

  function Drained(h: HandleView): HandleView {
    h.(state := h.state.(running := h.state.running - h.activeProcesses), activeProcesses := {})
  }

  /** The handle that opening a log with these bytes yields, and the bytes it leaves. */
  function Opened(c: Codec<Kind>, threadId: Id, bytes: Bytes): Result<(HandleView, Bytes), ReadError> {
    match Sanitized(c, threadId, bytes)
    case Err(error) => Err(BadLog(error))
    case Ok((events, repaired)) =>
      match Replay(threadId, events)
      case Err(cause) => Err(BadEvent(cause))
      case Ok(s) => Ok((HandleView(LastSeq(events) + 1, s, ProcessesOf(events), ToolsOf(events)), WithBoundary(repaired)))
  }

  class ThreadHandle {
    const threadId: Id
    const redact: Kind -> Kind
    const writer: EventLogWriter<Kind>
    var state: ThreadState
    var activeProcesses: set<Id>
    var activeTools: set<Id>

    function View(): HandleView
      reads this, writer, state
    {
      HandleView(writer.nextSeq, state.View(), activeProcesses, activeTools)
    }

    ghost predicate Valid()
      reads this
    {
      writer.threadId == threadId
    }

    constructor OpenNew(c: Codec<Kind>, threadId: Id, redact: Kind -> Kind, writer: EventLogWriter<Kind>)
      requires writer.threadId == threadId
      ensures Valid() && this.writer == writer && this.threadId == threadId && this.redact == redact
      ensures fresh(state)
      ensures View() == HandleView(writer.nextSeq, NewState(threadId), {}, {})
    {
      this.threadId, this.redact, this.writer := threadId, redact, writer;
      state := new ThreadState(threadId);
      activeProcesses, activeTools := {}, {};
    }

    /** An event the state rejects changes neither the log nor the handle; an accepted one is
        appended as a whole record before the handle moves on. */
    method Append(kind: Kind, checkedAt: int, writtenAt: int) returns (r: Result<ThreadEvent, ApplyError>)
      requires Valid()
      modifies this, writer, writer.file
      ensures Valid()
      ensures match Advance(old(View()), Event(old(writer.nextSeq), checkedAt, threadId, redact(kind)))
              case Err(error) =>
                r == Err(error) && View() == old(View()) && writer.file.content == old(writer.file.content)
              case Ok(h) =>
                var event := Event(old(writer.nextSeq), writtenAt, threadId, redact(kind));
                && r == Ok(event) && View() == h
                && writer.file.content == Some(old(writer.file.Bytes()) + Line(writer.codec, event))
    {
      var redacted := redact(kind);
      var event := Event(writer.nextSeq, checkedAt, threadId, redacted);
      var nextState := new ThreadState.CloneOf(state);
      var applied := nextState.Apply(event);
      if applied.Err? {
        return Err(applied.error);
      }
      var nextProcesses, nextTools := ApplyRuntimeEventTracking(activeProcesses, activeTools, redacted);
      var written := writer.Append(redacted, writtenAt);
      state := nextState;
      activeProcesses := nextProcesses;
      activeTools := nextTools;
      return Ok(written);
    }

    method EventsSince(sinceSeq: nat) returns (r: Result<seq<ThreadEvent>, LogError>)
      ensures r == EventLog.EventsSince(writer.codec, threadId, writer.file.Bytes(), sinceSeq)
      ensures r.Ok? ==> var events := ScanLog(writer.codec, threadId, writer.file.Bytes()).events;
        (forall e :: e in r.value <==> e in events && e.seqNo > sinceSeq) && IsNumberedFrom(r.value, sinceSeq, |events|)
    {
      SinceIsAbove(writer.codec, threadId, writer.file.Bytes(), sinceSeq);
      r := ReadEventsSince(writer.codec, threadId, writer.file, sinceSeq);
    }

    /** Drains the active processes and strikes each of them from the running set. */
    method TakeActiveProcessIds() returns (recovered: set<Id>)
      requires Valid()
      modifies this, state
      ensures Valid() && state == old(state)
      ensures recovered == old(activeProcesses) && View() == Drained(old(View()))
      ensures activeProcesses == {} && state.running == old(state.running) - recovered
    {
      recovered := activeProcesses;
      activeProcesses := {};
      var pending := recovered;
      while pending != {}
        invariant pending <= recovered
        invariant Valid() && state == old(state) && writer.nextSeq == old(writer.nextSeq)
        invariant activeProcesses == {} && activeTools == old(activeTools)
        invariant state.View() == old(state.View()).(running := old(state.running) - (recovered - pending))
        decreases pending
      {
        var processId :| processId in pending;
        state.running := state.running - {processId};
        pending := pending - {processId};
      }
    }
  }

  method ApplyRuntimeEventTracking(processes: set<Id>, tools: set<Id>, kind: Kind) returns (p: set<Id>, t: set<Id>)
    ensures p == TrackProcess(processes, kind) && t == TrackTool(tools, kind)
  {
    p, t := processes, tools;
    match kind {
      case ProcessStarted(id) => p := p + {id};
      case ProcessExited(id, _) => p := p - {id};
      case ToolStarted(id) => t := t + {id};
      case ToolCompleted(id) => t := t - {id};
      case _ =>
    }
  }

  /** Applies the events of a log in order and tracks what they start and end. */
  method ReplayEvents(threadId: Id, events: seq<ThreadEvent>) returns (r: Result<(ThreadState, set<Id>, set<Id>), ApplyError>)
    ensures match Replay(threadId, events)
            case Err(error) => r == Err(error)
            case Ok(s) => r.Ok? && fresh(r.value.0) && r.value.0.View() == s && r.value.1 == ProcessesOf(events) && r.value.2 == ToolsOf(events)
  {
    var state := new ThreadState(threadId);
    var processes: set<Id>, tools: set<Id> := {}, {};
    var i := 0;
    while i < |events|
      invariant 0 <= i <= |events|
      invariant fresh(state) && Replay(threadId, events[..i]) == Ok(state.View())
      invariant processes == ProcessesOf(events[..i]) && tools == ToolsOf(events[..i])
      modifies state
    {
      assert events[..i + 1][..i] == events[..i];
      var applied := state.Apply(events[i]);
      if applied.Err? {
        ReplayFails(threadId, events[..i + 1], events);
        return Err(applied.error);
      }
      processes, tools := ApplyRuntimeEventTracking(processes, tools, events[i].kind);
      i := i + 1;
    }
    assert events[..|events|] == events;
    return Ok((state, processes, tools));
  }

  method OpenExisting(c: Codec<Kind>, threadId: Id, redact: Kind -> Kind, file: LogFile)
    returns (r: Result<ThreadHandle, ReadError>)
    modifies file
    ensures match Opened(c, threadId, old(file.Bytes()))
            case Err(error) => r == Err(error)
            case Ok((h, bytes)) =>
              && r.Ok? && fresh(r.value) && fresh(r.value.writer) && fresh(r.value.state)
              && r.value.Valid() && r.value.View() == h
              && r.value.writer.file == file && r.value.writer.codec == c
              && r.value.threadId == threadId && r.value.redact == redact
              && file.content == Some(bytes)
    ensures var log := Sanitized(c, threadId, old(file.Bytes()));
      && (r.Ok? <==> log.Ok? && Replay(threadId, log.value.0).Ok?)
      && (r.Err? ==> (r.error.BadLog? <==> log.Err?))
      && (log.Err? ==> file.content == old(file.content))
      && (log.Ok? ==> file.content == Some(WithBoundary(log.value.1)))
  {
    var log := OpenWithEvents(c, threadId, file);
    if log.Err? {
      return Err(BadLog(log.error));
    }
    var writer, events := log.value.0, log.value.1;
    var replayed := ReplayEvents(threadId, events);
    if replayed.Err? {
      return Err(BadEvent(replayed.error));
    }
    var (state, processes, tools) := replayed.value;
    var handle := new ThreadHandle.OpenNew(c, threadId, redact, writer);
    handle.state := state;
    handle.activeProcesses := processes;
    handle.activeTools := tools;
    return Ok(handle);
  }
}
