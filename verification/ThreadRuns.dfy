/**
 Every run of a thread: appends (accepted or rejected), drains, crashes at any byte, clean closes
 and reopenings, in any order that keeps one handle alive at a time.
 */
module ThreadRuns {
  import opened Basics
  import opened EventLog
  import opened Threads
  import opened ThreadHandles

  datatype Step =
    | Open
    | OpenInterrupted
    | Append(kind: Kind, checkedAt: int, writtenAt: int)
    | CrashInAppend(kind: Kind, checkedAt: int, writtenAt: int, cut: nat)
    | Take
    | Close

  /** The world: the log's bytes and the live handle. The other three fields are what an observer of
      the run writes down: the events written so far, whether processes were drained since the last
      opening, and whether the last tool-list update accepted since then was a clear. */
  datatype World = World(
    bytes: Bytes,
    handle: Option<HandleView>,
    written: seq<ThreadEvent>,
    taken: bool,
    cleared: bool)

  const EMPTY := World([], None, [], false, false)

  function ClearedBy(cleared: bool, kind: Kind): bool {
    if kind.ThreadConfigUpdated? && kind.update.allowedTools.Some? then kind.update.allowedTools.value.None? else cleared
  }

  /** `None` when the step is not possible here; an error when an opening fails. */
  function Perform(c: Codec<Kind>, threadId: Id, redact: Kind -> Kind, w: World, step: Step): Option<Result<World, ReadError>> {
    match step
    case Open =>
      if w.handle.Some? then None
      else
        (match Opened(c, threadId, w.bytes)
         case Ok((h, bytes)) => Some(Ok(World(bytes, Some(h), w.written, false, false)))
         case Err(error) => Some(Err(error)))
    case OpenInterrupted =>
      if w.handle.Some? then None
      else
        (match Sanitized(c, threadId, w.bytes)
         case Ok((_, repaired)) => Some(Ok(w.(bytes := repaired)))
         case Err(error) => Some(Err(BadLog(error))))
    case Append(kind, checkedAt, writtenAt) =>
      if w.handle.None? then None
      else
        var h, k := w.handle.value, redact(kind);
        (match Advance(h, Event(h.nextSeq, checkedAt, threadId, k))
         case Err(_) => Some(Ok(w))
         case Ok(h') =>
           var e := Event(h.nextSeq, writtenAt, threadId, k);
           Some(Ok(World(w.bytes + Line(c, e), Some(h'), w.written + [e], w.taken, ClearedBy(w.cleared, k)))))
    case CrashInAppend(kind, checkedAt, writtenAt, cut) =>
      if w.handle.None? then None
      else
        var h, k := w.handle.value, redact(kind);
        (match Advance(h, Event(h.nextSeq, checkedAt, threadId, k))
         case Err(_) => Some(Ok(w.(handle := None)))
         case Ok(_) =>
           var e := Event(h.nextSeq, writtenAt, threadId, k);
           if cut > |Line(c, e)| then None
           else Some(Ok(w.(bytes := w.bytes + Line(c, e)[..cut], handle := None, written := Surviving(c, w.written, e, cut)))))
    case Take =>
      if w.handle.None? then None
      else Some(Ok(w.(handle := Some(Drained(w.handle.value)), taken := true)))
    case Close =>
      if w.handle.None? then None else Some(Ok(w.(handle := None)))
  }

  /** The world after `steps`; `None` when some step is not possible where it stands. */
  function Run(c: Codec<Kind>, threadId: Id, redact: Kind -> Kind, steps: seq<Step>): Option<Result<World, ReadError>> {
    if steps == [] then Some(Ok(EMPTY))
    else
      match Run(c, threadId, redact, steps[..|steps| - 1])
      case Some(Ok(w)) => Perform(c, threadId, redact, w, steps[|steps| - 1])
      case other => other
  }

  /** Live state against replayed state: equal but for the two timestamps, the drained processes,
      and a cleared tool list that the log does not record. */
  ghost predicate Refines(live: State, replayed: State, taken: bool, cleared: bool) {
    && live.threadId == replayed.threadId && live.lastSeq == replayed.lastSeq
    && live.cwd == replayed.cwd && live.prompt == replayed.prompt
    && live.turn == replayed.turn && live.lastTurn == replayed.lastTurn
    && live.pendingApprovals == replayed.pendingApprovals && live.failed == replayed.failed
    && live.tokens == replayed.tokens && live.countedIds == replayed.countedIds
    && live.archived.(at := None) == replayed.archived.(at := None)
    && live.paused.(at := None) == replayed.paused.(at := None)
    && live.running <= replayed.running
    && (!taken ==> live.running == replayed.running)
    && live.config == replayed.config.(allowedTools := if cleared then None else replayed.config.allowedTools)
  }

  ghost predicate Consistent(c: Codec<Kind>, threadId: Id, w: World) {
    && Reachable(c, threadId, w.written, w.bytes) && Numbered(threadId, w.written)
    && Replay(threadId, StoredAll(c, w.written)).Ok?
    && (w.handle.Some? ==>
          var (h, replayed) := (w.handle.value, Replay(threadId, StoredAll(c, w.written)).value);
          && w.bytes == Render(c, w.written)
          && h.nextSeq == |w.written| + 1 == h.state.lastSeq + 1
          && h.state.threadId == threadId
          && Refines(h.state, replayed, w.taken, w.cleared)
          && h.activeProcesses == h.state.running
          && h.activeTools == ToolsOf(StoredAll(c, w.written)))
  }

  /** In every run no opening fails, the log holds exactly the written events, and the live state
      is the replay of that log up to the documented differences. */
  lemma {:induction false} LiveStateRefinesReplay(c: Codec<Kind>, threadId: Id, redact: Kind -> Kind, steps: seq<Step>)
    requires ThreadCodec(c)
    ensures match Run(c, threadId, redact, steps)
            case None => true
            case Some(Ok(w)) => Consistent(c, threadId, w)
            case Some(Err(_)) => false
  {
    if steps != [] {
      var front := steps[..|steps| - 1];
      LiveStateRefinesReplay(c, threadId, redact, front);
      match Run(c, threadId, redact, front) {
        case Some(Ok(w)) => StepKeepsConsistent(c, threadId, redact, w, steps[|steps| - 1]);
        case _ =>
      }
    }
  }

  lemma StepKeepsConsistent(c: Codec<Kind>, threadId: Id, redact: Kind -> Kind, w: World, step: Step)
    requires ThreadCodec(c) && Consistent(c, threadId, w)
    ensures match Perform(c, threadId, redact, w, step)
            case None => true
            case Some(Ok(w')) => Consistent(c, threadId, w')
            case Some(Err(_)) => false
  {
    match step {
      case Open => OpenKeepsConsistent(c, threadId, redact, w);
      case OpenInterrupted => RepairKeepsConsistent(c, threadId, redact, w);
      case Append(_, _, _) => AppendStepKeepsConsistent(c, threadId, redact, w, step);
      case CrashInAppend(_, _, _, _) => CrashStepKeepsConsistent(c, threadId, redact, w, step);
      case Take =>
        if w.handle.Some? {
          TakeKeepsConsistent(c, threadId, w);
        }
      case Close =>
        if w.handle.Some? {
          CloseKeepsConsistent(c, threadId, w);
        }
    }
  }

  lemma AppendStepKeepsConsistent(c: Codec<Kind>, threadId: Id, redact: Kind -> Kind, w: World, step: Step)
    requires ThreadCodec(c) && Consistent(c, threadId, w) && step.Append?
    ensures match Perform(c, threadId, redact, w, step)
            case None => true
            case Some(Ok(w')) => Consistent(c, threadId, w')
            case Some(Err(_)) => false
  {
    if w.handle.Some? {
      AppendKeepsConsistent(c, threadId, w, redact(step.kind), step.checkedAt, step.writtenAt);
    }
  }

  lemma CrashStepKeepsConsistent(c: Codec<Kind>, threadId: Id, redact: Kind -> Kind, w: World, step: Step)
    requires ThreadCodec(c) && Consistent(c, threadId, w) && step.CrashInAppend?
    ensures match Perform(c, threadId, redact, w, step)
            case None => true
            case Some(Ok(w')) => Consistent(c, threadId, w')
            case Some(Err(_)) => false
  {
    if w.handle.Some? {
      CrashKeepsConsistent(c, threadId, w, redact(step.kind), step.checkedAt, step.writtenAt, step.cut);
    }
  }

  lemma TakeKeepsConsistent(c: Codec<Kind>, threadId: Id, w: World)
    requires Consistent(c, threadId, w) && w.handle.Some?
    ensures Consistent(c, threadId, w.(handle := Some(Drained(w.handle.value)), taken := true))
  {
  }

  lemma CloseKeepsConsistent(c: Codec<Kind>, threadId: Id, w: World)
    requires Consistent(c, threadId, w)
    ensures Consistent(c, threadId, w.(handle := None))
  {
  }

  lemma OpenKeepsConsistent(c: Codec<Kind>, threadId: Id, redact: Kind -> Kind, w: World)
    requires ThreadCodec(c) && Consistent(c, threadId, w)
    ensures match Perform(c, threadId, redact, w, Step.Open)
            case None => true
            case Some(Ok(w')) => Consistent(c, threadId, w')
            case Some(Err(_)) => false
  {
    if w.handle.None? {
      RecoverReachable(c, threadId, w.written, w.bytes);
      ReplayFacts(threadId, StoredAll(c, w.written));
    }
  }

  lemma RepairKeepsConsistent(c: Codec<Kind>, threadId: Id, redact: Kind -> Kind, w: World)
    requires ThreadCodec(c) && Consistent(c, threadId, w)
    ensures match Perform(c, threadId, redact, w, Step.OpenInterrupted)
            case None => true
            case Some(Ok(w')) => Consistent(c, threadId, w')
            case Some(Err(_)) => false
  {
    if w.handle.None? {
      RecoverReachable(c, threadId, w.written, w.bytes);
    }
  }

  lemma {:induction false} ReplayFacts(threadId: Id, es: seq<ThreadEvent>)
    requires Replay(threadId, es).Ok?
    ensures var s := Replay(threadId, es).value;
      s.threadId == threadId && s.lastSeq == |es| && ProcessesOf(es) == s.running && Numbered(threadId, es)
  {
    if es != [] {
      ReplayFacts(threadId, es[..|es| - 1]);
    }
  }

  /** The live check and the later replay of the stored event agree, and stay in step. */
  lemma ApplyBoth(live: State, replayed: State, taken: bool, cleared: bool, checked: ThreadEvent, stored: ThreadEvent)
    requires Refines(live, replayed, taken, cleared)
    requires stored == checked.(timestamp := stored.timestamp, kind := WireKind(checked.kind))
    ensures ApplyEvent(live, checked).Ok? <==> ApplyEvent(replayed, stored).Ok?
    ensures ApplyEvent(live, checked).Ok? ==>
      Refines(ApplyEvent(live, checked).value, ApplyEvent(replayed, stored).value, taken, ClearedBy(cleared, checked.kind))
  {
    var k := checked.kind;
    if k.AgentStep? || k.AssistantMessage? {
      var id := if k.AgentStep? then Some(k.responseId) else k.maybeResponseId;
      UsageBoth(live, replayed, taken, cleared, id, k.usage);
      assert ApplyKind(live, checked.timestamp, k) == Ok(RecordUsage(live, id, k.usage));
      assert ApplyKind(replayed, stored.timestamp, stored.kind) == Ok(RecordUsage(replayed, id, WireUsage(k.usage)));
    } else if k.ThreadConfigUpdated? {
      assert ApplyKind(live, checked.timestamp, k) == Ok(live.(config := ApplyConfig(live.config, k.update)));
      assert ApplyKind(replayed, stored.timestamp, stored.kind)
          == Ok(replayed.(config := ApplyConfig(replayed.config, stored.kind.update)));
    } else {
      assert stored.kind == k;
      KindBoth(live, replayed, taken, cleared, checked.timestamp, stored.timestamp, k);
    }
  }

  lemma KindBoth(live: State, replayed: State, taken: bool, cleared: bool, checkedAt: int, writtenAt: int, k: Kind)
    requires Refines(live, replayed, taken, cleared)
    requires !k.AgentStep? && !k.AssistantMessage? && !k.ThreadConfigUpdated?
    ensures ApplyKind(live, checkedAt, k).Ok? <==> ApplyKind(replayed, writtenAt, k).Ok?
    ensures ApplyKind(live, checkedAt, k).Ok? ==>
      Refines(ApplyKind(live, checkedAt, k).value, ApplyKind(replayed, writtenAt, k).value, taken, cleared)
  {
  }

  lemma UsageBoth(live: State, replayed: State, taken: bool, cleared: bool, id: Option<string>, usage: Option<Usage>)
    requires Refines(live, replayed, taken, cleared)
    ensures Refines(RecordUsage(live, id, usage), RecordUsage(replayed, id, WireUsage(usage)), taken, cleared)
  {
  }

  /** Storing one more event appends its stored form, and replay applies that. */
  lemma StoreOne(c: Codec<Kind>, threadId: Id, es: seq<ThreadEvent>, e: ThreadEvent)
    ensures StoredAll(c, es + [e]) == StoredAll(c, es) + [Stored(c, e)]
    ensures Replay(threadId, StoredAll(c, es)).Ok? ==>
      Replay(threadId, StoredAll(c, es + [e])) == ApplyEvent(Replay(threadId, StoredAll(c, es)).value, Stored(c, e))
    ensures ToolsOf(StoredAll(c, es + [e])) == TrackTool(ToolsOf(StoredAll(c, es)), Stored(c, e).kind)
  {
    assert (es + [e])[..|es|] == es;
    assert StoredAll(c, es + [e])[..|es|] == StoredAll(c, es);
  }

  lemma AppendKeepsConsistent(c: Codec<Kind>, threadId: Id, w: World, k: Kind, checkedAt: int, writtenAt: int)
    requires ThreadCodec(c) && Consistent(c, threadId, w) && w.handle.Some?
    ensures var h := w.handle.value;
      match Advance(h, Event(h.nextSeq, checkedAt, threadId, k))
      case Err(_) => true
      case Ok(h') =>
        var e := Event(h.nextSeq, writtenAt, threadId, k);
        Consistent(c, threadId, World(w.bytes + Line(c, e), Some(h'), w.written + [e], w.taken, ClearedBy(w.cleared, k)))
  {
    var h, replayed := w.handle.value, Replay(threadId, StoredAll(c, w.written)).value;
    var checked, e := Event(h.nextSeq, checkedAt, threadId, k), Event(h.nextSeq, writtenAt, threadId, k);
    if Advance(h, checked).Ok? {
      AppendIsReachable(c, threadId, w.written, e);
      StoreOne(c, threadId, w.written, e);
      ReplayOneMore(h, replayed, w.taken, w.cleared, checked, Stored(c, e));
    }
  }

  lemma ReplayOneMore(h: HandleView, replayed: State, taken: bool, cleared: bool, checked: ThreadEvent, stored: ThreadEvent)
    requires Refines(h.state, replayed, taken, cleared) && h.activeProcesses == h.state.running
    requires stored == checked.(timestamp := stored.timestamp, kind := WireKind(checked.kind))
    requires Advance(h, checked).Ok?
    ensures ApplyEvent(replayed, stored).Ok?
    ensures var h' := Advance(h, checked).value;
      && h'.nextSeq == h.nextSeq + 1 && h'.state.lastSeq == checked.seqNo && h'.state.threadId == checked.threadId
      && Refines(h'.state, ApplyEvent(replayed, stored).value, taken, ClearedBy(cleared, checked.kind))
      && h'.activeProcesses == h'.state.running
      && h'.activeTools == TrackTool(h.activeTools, stored.kind)
  {
    ApplyBoth(h.state, replayed, taken, cleared, checked, stored);
    TrackBoth(h.state, checked, h.activeProcesses);
  }

  lemma TrackBoth(s: State, e: ThreadEvent, active: set<Id>)
    requires active == s.running && ApplyEvent(s, e).Ok?
    ensures TrackProcess(active, e.kind) == ApplyEvent(s, e).value.running
    ensures ApplyEvent(s, e).value.lastSeq == e.seqNo && ApplyEvent(s, e).value.threadId == e.threadId
  {
  }

  lemma CrashKeepsConsistent(c: Codec<Kind>, threadId: Id, w: World, k: Kind, checkedAt: int, writtenAt: int, cut: nat)
    requires ThreadCodec(c) && Consistent(c, threadId, w) && w.handle.Some?
    ensures var h := w.handle.value;
      var e := Event(h.nextSeq, writtenAt, threadId, k);
      Advance(h, Event(h.nextSeq, checkedAt, threadId, k)).Ok? && cut <= |Line(c, e)| ==>
        Consistent(c, threadId,
                   w.(bytes := w.bytes + Line(c, e)[..cut], handle := None, written := Surviving(c, w.written, e, cut)))
  {
    var h := w.handle.value;
    var checked, e := Event(h.nextSeq, checkedAt, threadId, k), Event(h.nextSeq, writtenAt, threadId, k);
    if Advance(h, checked).Ok? && cut <= |Line(c, e)| {
      CutIsReachable(c, threadId, w.written, e, cut);
      SurvivorsReplay(c, threadId, w, checked, e);
      CrashedIsConsistent(c, threadId, w, w.bytes + Line(c, e)[..cut], Surviving(c, w.written, e, cut));
    }
  }

  lemma SurvivorsReplay(c: Codec<Kind>, threadId: Id, w: World, checked: ThreadEvent, e: ThreadEvent)
    requires ThreadCodec(c) && Consistent(c, threadId, w) && w.handle.Some?
    requires Advance(w.handle.value, checked).Ok? && e == checked.(timestamp := e.timestamp)
    ensures Replay(threadId, StoredAll(c, w.written + [e])).Ok?
  {
    StoreOne(c, threadId, w.written, e);
    ReplayOneMore(w.handle.value, Replay(threadId, StoredAll(c, w.written)).value, w.taken, w.cleared, checked, Stored(c, e));
  }

  lemma CrashedIsConsistent(c: Codec<Kind>, threadId: Id, w: World, bytes: Bytes, survivors: seq<ThreadEvent>)
    requires Reachable(c, threadId, survivors, bytes) && Numbered(threadId, survivors)
    requires Replay(threadId, StoredAll(c, survivors)).Ok?
    ensures Consistent(c, threadId, w.(bytes := bytes, handle := None, written := survivors))
  {
  }

  /** The event gives the thread a list of allowed tools. */
  predicate SetsToolList(e: ThreadEvent) {
    e.kind.ThreadConfigUpdated? && e.kind.update.allowedTools.Some? && e.kind.update.allowedTools.value.Some?
  }

  ghost predicate SomeSetsToolList(es: seq<ThreadEvent>) {
    exists e <- es :: SetsToolList(e)
  }

  lemma SomeSetsOneMore(es: seq<ThreadEvent>, e: ThreadEvent)
    ensures SomeSetsToolList(es + [e]) <==> SomeSetsToolList(es) || SetsToolList(e)
  {
    assert e in es + [e];
  }

  /** A reopening restores a tool list exactly when some event of the log has set one. */
  lemma {:induction false} ReplayedToolList(c: Codec<Kind>, threadId: Id, es: seq<ThreadEvent>)
    requires ThreadCodec(c) && Replay(threadId, StoredAll(c, es)).Ok?
    ensures Replay(threadId, StoredAll(c, es)).value.config.allowedTools.Some? <==> SomeSetsToolList(es)
  {
    if es != [] {
      var front, last := es[..|es| - 1], es[|es| - 1];
      assert es == front + [last];
      LastStoredEvent(c, threadId, front, last);
      ReplayedToolList(c, threadId, front);
      SomeSetsOneMore(front, last);
    }
  }

  lemma LastStoredEvent(c: Codec<Kind>, threadId: Id, es: seq<ThreadEvent>, e: ThreadEvent)
    requires ThreadCodec(c) && Replay(threadId, StoredAll(c, es + [e])).Ok?
    ensures Replay(threadId, StoredAll(c, es)).Ok?
    ensures var (before, after) := (Replay(threadId, StoredAll(c, es)).value, Replay(threadId, StoredAll(c, es + [e])).value);
      after.config.allowedTools.Some? <==> before.config.allowedTools.Some? || SetsToolList(e)
  {
    StoreOne(c, threadId, es, e);
    var stored := StoredAll(c, es) + [Stored(c, e)];
    assert stored[..|stored| - 1] == StoredAll(c, es);
    ToolListAfter(Replay(threadId, StoredAll(c, es)).value, Stored(c, e), e.kind);
  }

  /** A stored event sets the list or leaves it. */
  lemma ToolListAfter(s: State, stored: ThreadEvent, k: Kind)
    requires stored.kind == WireKind(k) && ApplyEvent(s, stored).Ok?
    ensures ApplyEvent(s, stored).value.config.allowedTools.Some? <==> s.config.allowedTools.Some? || SetsToolList(stored.(kind := k))
  {
  }

  /** The live tool list is the one a reopening would restore exactly when the last tool-list update
      accepted since the opening was not a clear, or no event of the log has ever set a list. */
  lemma ToolListSurvivesExactly(c: Codec<Kind>, threadId: Id, redact: Kind -> Kind, steps: seq<Step>)
    requires ThreadCodec(c)
    requires Run(c, threadId, redact, steps).Some? && Run(c, threadId, redact, steps).value.Ok?
    requires Run(c, threadId, redact, steps).value.value.handle.Some?
    ensures var w := Run(c, threadId, redact, steps).value.value;
      && Replay(threadId, StoredAll(c, w.written)).Ok?
      && var (live, replayed) := (w.handle.value.state, Replay(threadId, StoredAll(c, w.written)).value);
      && (live.config == replayed.config <==> !w.cleared || !SomeSetsToolList(w.written))
  {
    LiveStateRefinesReplay(c, threadId, redact, steps);
    ReplayedToolList(c, threadId, Run(c, threadId, redact, steps).value.value.written);
  }

  function ToolUpdate(tools: Option<seq<string>>): Kind {
    ThreadConfigUpdated(ConfigUpdate(AutoApprove, None, None, None, None, None, None, false, None, false, None, false,
                                     None, false, Some(tools), None, false))
  }

  function Unredacted(): Kind -> Kind {
    (k: Kind) => k
  }

  /** A thread that sets its tool list and then clears it. */
  const SET_THEN_CLEAR: seq<Step> :=
    [Step.Open, Step.Append(ToolUpdate(Some(["file/read"])), 1, 2), Step.Append(ToolUpdate(None), 3, 4)]

  /** The live tool list of that thread is cleared, and comes back on the next opening. */
  lemma ClearedToolListComesBack(c: Codec<Kind>, threadId: Id)
    requires ThreadCodec(c)
    ensures Run(c, threadId, Unredacted(), SET_THEN_CLEAR).Some?
    ensures Run(c, threadId, Unredacted(), SET_THEN_CLEAR).value.Ok?
    ensures var w := Run(c, threadId, Unredacted(), SET_THEN_CLEAR).value.value;
      && w.handle.Some? && w.handle.value.state.config.allowedTools == None
      && Opened(c, threadId, w.bytes).Ok?
      && Opened(c, threadId, w.bytes).value.0.state.config.allowedTools == Some(["file/read"])
  {
    var w := RunSetThenClear(c, threadId);
    ReadersSeeTheRun(c, threadId, Unredacted(), SET_THEN_CLEAR, 0);
    ToolListOnDisk(c, threadId, w.written);
  }

  lemma RunSetThenClear(c: Codec<Kind>, threadId: Id) returns (w: World)
    requires ThreadCodec(c)
    ensures Run(c, threadId, Unredacted(), SET_THEN_CLEAR) == Some(Ok(w))
    ensures w.handle.Some? && w.handle.value.state.config.allowedTools == None
    ensures |w.written| == 2 && w.written[0].kind == ToolUpdate(Some(["file/read"])) && w.written[1].kind == ToolUpdate(None)
  {
    var steps := SET_THEN_CLEAR;
    var w1 := FirstOpening(c, threadId);
    RunOneMore(c, threadId, Unredacted(), [], EMPTY, Step.Open);
    assert [] + [Step.Open] == [Step.Open];
    var w2 := ToolStep(c, threadId, w1, Some(["file/read"]), 1, 2);
    RunOneMore(c, threadId, Unredacted(), [Step.Open], w1, steps[1]);
    assert [Step.Open] + [steps[1]] == [Step.Open, steps[1]];
    w := ToolStep(c, threadId, w2, None, 3, 4);
    RunOneMore(c, threadId, Unredacted(), [Step.Open, steps[1]], w2, steps[2]);
    assert [Step.Open, steps[1]] + [steps[2]] == steps;
  }

  lemma RunOneMore(c: Codec<Kind>, threadId: Id, redact: Kind -> Kind, steps: seq<Step>, w: World, step: Step)
    requires Run(c, threadId, redact, steps) == Some(Ok(w))
    ensures Run(c, threadId, redact, steps + [step]) == Perform(c, threadId, redact, w, step)
  {
    assert (steps + [step])[..|steps|] == steps;
  }

  /** Updating the tool list of an open thread is always accepted and shows in the live state. */
  lemma ToolStep(c: Codec<Kind>, threadId: Id, w: World, tools: Option<seq<string>>, checkedAt: int, writtenAt: int) returns (w': World)
    requires w.handle.Some? && w.handle.value.state.threadId == threadId
    requires w.handle.value.nextSeq == w.handle.value.state.lastSeq + 1
    ensures Perform(c, threadId, Unredacted(), w, Step.Append(ToolUpdate(tools), checkedAt, writtenAt)) == Some(Ok(w'))
    ensures w'.handle.Some? && w'.handle.value.state.threadId == threadId
    ensures w'.handle.value.nextSeq == w'.handle.value.state.lastSeq + 1
    ensures w'.handle.value.state.config.allowedTools == tools
    ensures w'.written == w.written + [Event(w.handle.value.nextSeq, writtenAt, threadId, ToolUpdate(tools))]
  {
    w' := Perform(c, threadId, Unredacted(), w, Step.Append(ToolUpdate(tools), checkedAt, writtenAt)).value.value;
  }

  /** Replaying a log that sets the tool list and then clears it ends with the list set: the clear is
      stored as no update at all. */
  lemma ToolListOnDisk(c: Codec<Kind>, threadId: Id, es: seq<ThreadEvent>)
    requires ThreadCodec(c) && |es| == 2 && Replay(threadId, StoredAll(c, es)).Ok?
    requires es[0].kind == ToolUpdate(Some(["file/read"])) && es[1].kind == ToolUpdate(None)
    ensures Replay(threadId, StoredAll(c, es)).value.config.allowedTools == Some(["file/read"])
  {
    assert es == [es[0]] + [es[1]] && [] + [es[0]] == [es[0]];
    LastStoredUpdate(c, threadId, [es[0]], es[1]);
    LastStoredUpdate(c, threadId, [], es[0]);
  }

  lemma LastStoredUpdate(c: Codec<Kind>, threadId: Id, es: seq<ThreadEvent>, e: ThreadEvent)
    requires ThreadCodec(c) && Replay(threadId, StoredAll(c, es + [e])).Ok? && e.kind.ThreadConfigUpdated?
    ensures Replay(threadId, StoredAll(c, es)).Ok?
    ensures Replay(threadId, StoredAll(c, es + [e])).value.config
            == ApplyConfig(Replay(threadId, StoredAll(c, es)).value.config, WireKind(e.kind).update)
  {
    StoreOne(c, threadId, es, e);
    LastUpdate(threadId, StoredAll(c, es), Stored(c, e));
  }

  lemma LastUpdate(threadId: Id, es: seq<ThreadEvent>, e: ThreadEvent)
    requires Replay(threadId, es + [e]).Ok? && e.kind.ThreadConfigUpdated?
    ensures Replay(threadId, es).Ok?
    ensures Replay(threadId, es + [e]).value.config == ApplyConfig(Replay(threadId, es).value.config, e.kind.update)
  {
    assert (es + [e])[..|es|] == es;
  }

  lemma FirstOpening(c: Codec<Kind>, threadId: Id) returns (w: World)
    requires ThreadCodec(c)
    ensures w == World([], Some(HandleView(1, NewState(threadId), {}, {})), [], false, false)
    ensures Perform(c, threadId, Unredacted(), EMPTY, Step.Open) == Some(Ok(w))
  {
    ScanEmpty(c, threadId);
    w := World([], Some(HandleView(1, NewState(threadId), {}, {})), [], false, false);
  }

  /** Whatever a run leaves behind, torn or not, the folding reader returns the replay of the
      surviving events, the listing reader returns those events, and an opening restores exactly
      that state: repairing the file changes nothing a reader sees. */
  lemma {:induction false} ReadersSeeTheRun(c: Codec<Kind>, threadId: Id, redact: Kind -> Kind, steps: seq<Step>, since: nat)
    requires ThreadCodec(c)
    requires Run(c, threadId, redact, steps).Some? && Run(c, threadId, redact, steps).value.Ok?
    ensures var w := Run(c, threadId, redact, steps).value.value;
      var stored := StoredAll(c, w.written);
      && Numbered(threadId, stored) && Replay(threadId, stored).Ok?
      && var replayed := Replay(threadId, stored).value;
      && StateOf(c, threadId, w.bytes) == Ok(replayed)
      && EventsSince(c, threadId, w.bytes, since) == Ok(stored[Min(since, |stored|)..])
      && Opened(c, threadId, w.bytes) ==
           Ok((HandleView(|w.written| + 1, replayed, replayed.running, ToolsOf(stored)), Render(c, w.written)))
      && StateOf(c, threadId, Render(c, w.written)) == Ok(replayed)
      && EventsSince(c, threadId, Render(c, w.written), since) == Ok(stored[Min(since, |stored|)..])
  {
    LiveStateRefinesReplay(c, threadId, redact, steps);
    ReadersSeeLog(c, threadId, Run(c, threadId, redact, steps).value.value, since);
  }

  lemma ReadersSeeLog(c: Codec<Kind>, threadId: Id, w: World, since: nat)
    requires ThreadCodec(c) && Consistent(c, threadId, w)
    ensures var stored := StoredAll(c, w.written);
      && Numbered(threadId, stored) && Replay(threadId, stored).Ok?
      && var replayed := Replay(threadId, stored).value;
      && StateOf(c, threadId, w.bytes) == Ok(replayed)
      && EventsSince(c, threadId, w.bytes, since) == Ok(stored[Min(since, |stored|)..])
      && Opened(c, threadId, w.bytes) ==
           Ok((HandleView(|w.written| + 1, replayed, replayed.running, ToolsOf(stored)), Render(c, w.written)))
      && StateOf(c, threadId, Render(c, w.written)) == Ok(replayed)
      && EventsSince(c, threadId, Render(c, w.written), since) == Ok(stored[Min(since, |stored|)..])
  {
    RecoverReachable(c, threadId, w.written, w.bytes);
    ReadersAgreeWithRecovery(c, threadId, w.written, w.bytes, since);
    ScanRendered(c, threadId, w.written);
    ReplayFacts(threadId, StoredAll(c, w.written));
  }
}
