/**
 The thread state machine of crates/eventlog/src/lib.rs (`ThreadState`): the class that a
 replay and a live handle update in place, and the function of values it is proved against.
 */
module Threads {
  import opened Basics
  import opened EventLog
  import Text

  type Id = nat

  datatype TurnStatus = Completed | Interrupted | Failed | Cancelled | Stuck

  datatype ApprovalPolicy = AutoApprove | Manual | UnlessTrusted | AutoDeny

  datatype WriteScope = ReadOnly | WorkspaceWrite | FullAccess

  datatype NetworkAccess = Deny | Allow

  /** A token-usage value, seen through the five lookups `usage.get(name).as_u64()`. */
  datatype Usage =
    | NullUsage
    | UsageFields(total: Option<u64>, input: Option<u64>, output: Option<u64>,
                  cacheInput: Option<u64>, cacheCreation: Option<u64>)

  datatype ConfigUpdate = ConfigUpdate(
    approvalPolicy: ApprovalPolicy,
    sandboxPolicy: Option<WriteScope>,
    writableRoots: Option<seq<string>>,
    networkAccess: Option<NetworkAccess>,
    mode: Option<string>,
    role: Option<string>,
    model: Option<string>, clearModel: bool,
    thinking: Option<string>, clearThinking: bool,
    showThinking: Option<bool>, clearShowThinking: bool,
    baseUrl: Option<string>, clearBaseUrl: bool,
    allowedTools: Option<Option<seq<string>>>,
    execpolicyRules: Option<seq<string>>, clearExecpolicyRules: bool)

  /** The event kinds, with the fields that the state machine and the handle read; the kinds
      neither of them looks at are `Other`. */
  datatype Kind =
    | ThreadCreated(cwd: string)
    | SystemPromptSnapshot(sha256: string, text: string)
    | ThreadArchived(reason: Option<string>)
    | ThreadUnarchived
    | ThreadPaused(reason: Option<string>)
    | ThreadUnpaused
    | ThreadConfigUpdated(update: ConfigUpdate)
    | TurnStarted(turnId: Id)
    | TurnInterruptRequested(turnId: Id, reason: Option<string>)
    | TurnCompleted(turnId: Id, status: TurnStatus, reason: Option<string>)
    | ApprovalRequested(approvalId: Id)
    | ApprovalDecided(approvalId: Id)
    | ProcessStarted(processId: Id)
    | ProcessExited(processId: Id, exitCode: Option<int>)
    | ToolStarted(toolId: Id)
    | ToolCompleted(toolId: Id)
    | AgentStep(responseId: string, usage: Option<Usage>)
    | AssistantMessage(maybeResponseId: Option<string>, usage: Option<Usage>)
    | Other(tag: string)

  type ThreadEvent = Event<Kind>

  datatype Config = Config(
    approvalPolicy: ApprovalPolicy,
    sandboxPolicy: WriteScope,
    writableRoots: seq<string>,
    networkAccess: NetworkAccess,
    mode: string,
    role: string,
    model: Option<string>,
    thinking: Option<string>,
    showThinking: Option<bool>,
    baseUrl: Option<string>,
    allowedTools: Option<seq<string>>,
    execpolicyRules: seq<string>)

  const DEFAULT_CONFIG := Config(AutoApprove, WorkspaceWrite, [], Deny, "code", "coder", None, None, None, None, None, [])

  datatype Tokens = Tokens(total: nat, input: nat, output: nat, cacheInput: nat, cacheCreation: nat)

  /** The thread's system prompt; hash and text are recorded together and never change. */
  datatype Prompt = Prompt(sha256: Option<string>, text: Option<string>)

  /** The archived and the paused mark: a flag, when it was set, and why. */
  datatype Mark = Mark(on: bool, at: Option<int>, reason: Option<string>)

  datatype ActiveTurn = ActiveTurn(id: Option<Id>, interruptRequested: bool, interruptReason: Option<string>)

  datatype LastTurn = LastTurn(id: Option<Id>, status: Option<TurnStatus>, reason: Option<string>)

  /** The fields of the state; those that are always assigned together form one record. */
  datatype State = State(
    threadId: Id,
    cwd: Option<string>,
    prompt: Prompt,
    archived: Mark,
    paused: Mark,
    config: Config,
    lastSeq: nat,
    turn: ActiveTurn,
    lastTurn: LastTurn,
    pendingApprovals: set<Id>,
    running: set<Id>,
    failed: set<Id>,
    tokens: Tokens,
    countedIds: set<string>)

  const NO_MARK := Mark(false, None, None)

  const NO_TURN := ActiveTurn(None, false, None)

  function NewState(threadId: Id): State {
    State(threadId, None, Prompt(None, None), NO_MARK, NO_MARK, DEFAULT_CONFIG, 0, NO_TURN,
          LastTurn(None, None, None), {}, {}, {}, Tokens(0, 0, 0, 0, 0), {})
  }

  datatype ApplyError =
    | ThreadMismatch
    | NonContiguous
    | PromptHashChanged
    | PromptTextChanged
    | TurnAlreadyActive
    | InterruptForNonActiveTurn
    | CompletionForNonActiveTurn

  // ----- Token usage -----

  function SaturatingAdd(a: nat, b: nat): nat {
    Min(U64_MAX, a + b)
  }

  /** An explicit total wins; otherwise input plus output, unless that sum overflows. */
  function UsageTotal(u: Usage): Option<u64>
    requires u.UsageFields?
  {
    if u.total.Some? then u.total
    else if u.input.Some? && u.output.Some? then
      (if u.input.value + u.output.value <= U64_MAX then Some(u.input.value + u.output.value) else None)
    else if u.input.Some? then u.input
    else u.output
  }

  predicate HasNumbers(u: Usage) {
    u.UsageFields? &&
    (u.total.Some? || u.input.Some? || u.output.Some? || u.cacheInput.Some? || u.cacheCreation.Some?)
  }

  function AddIfSome(counter: nat, amount: Option<u64>): nat {
    if amount.Some? then SaturatingAdd(counter, amount.value) else counter
  }

  function AddUsage(t: Tokens, u: Usage): Tokens
    requires u.UsageFields?
  {
    Tokens(AddIfSome(t.total, UsageTotal(u)), AddIfSome(t.input, u.input), AddIfSome(t.output, u.output),
           AddIfSome(t.cacheInput, u.cacheInput), AddIfSome(t.cacheCreation, u.cacheCreation))
  }

  function RecordUsage(s: State, responseId: Option<string>, usage: Option<Usage>): State {
    if usage.None? || !HasNumbers(usage.value) then s
    else
      var id := if responseId.Some? then Text.Trim(responseId.value) else "";
      if id != "" && id in s.countedIds then s
      else s.(tokens := AddUsage(s.tokens, usage.value),
              countedIds := if id != "" then s.countedIds + {id} else s.countedIds)
  }

  // ----- Applying an event -----

  function ApplyConfig(g: Config, u: ConfigUpdate): Config {
    Config(
      u.approvalPolicy,
      Or(u.sandboxPolicy, g.sandboxPolicy),
      Or(u.writableRoots, g.writableRoots),
      Or(u.networkAccess, g.networkAccess),
      Or(u.mode, g.mode),
      Or(u.role, g.role),
      Override(u.clearModel, u.model, g.model),
      Override(u.clearThinking, u.thinking, g.thinking),
      Override(u.clearShowThinking, u.showThinking, g.showThinking),
      Override(u.clearBaseUrl, u.baseUrl, g.baseUrl),
      Or(u.allowedTools, g.allowedTools),
      if u.clearExecpolicyRules then [] else Or(u.execpolicyRules, g.execpolicyRules))
  }

  function Or<T>(update: Option<T>, current: T): T {
    if update.Some? then update.value else current
  }

  function Override<T>(clear: bool, update: Option<T>, current: Option<T>): Option<T> {
    if clear then None else if update.Some? then update else current
  }

  predicate IsTurnKind(kind: Kind) {
    kind.TurnStarted? || kind.TurnInterruptRequested? || kind.TurnCompleted?
  }

  predicate IsActivityKind(kind: Kind) {
    || kind.ApprovalRequested? || kind.ApprovalDecided? || kind.ProcessStarted? || kind.ProcessExited?
    || kind.AgentStep? || kind.AssistantMessage?
  }

  function ApplyKind(s: State, timestamp: int, kind: Kind): Result<State, ApplyError> {
    match kind
    case ThreadCreated(cwd) => Ok(s.(cwd := Some(cwd)))
    case SystemPromptSnapshot(sha256, text) =>
      if s.prompt.sha256.Some? && s.prompt.sha256.value != sha256 then Err(PromptHashChanged)
      else if s.prompt.text.Some? && s.prompt.text.value != text then Err(PromptTextChanged)
      else Ok(s.(prompt := Prompt(Some(sha256), Some(text))))
    case ThreadArchived(reason) => Ok(s.(archived := Mark(true, Some(timestamp), reason)))
    case ThreadUnarchived => Ok(s.(archived := NO_MARK))
    case ThreadPaused(reason) => Ok(s.(paused := Mark(true, Some(timestamp), reason)))
    case ThreadUnpaused => Ok(s.(paused := NO_MARK))
    case ThreadConfigUpdated(update) => Ok(s.(config := ApplyConfig(s.config, update)))
    case TurnStarted(turnId) =>
      if s.turn.id.Some? then Err(TurnAlreadyActive)
      else Ok(s.(turn := ActiveTurn(Some(turnId), false, None), failed := {}))
    case TurnInterruptRequested(turnId, reason) =>
      if s.turn.id != Some(turnId) then Err(InterruptForNonActiveTurn)
      else Ok(s.(turn := ActiveTurn(s.turn.id, true, reason)))
    case TurnCompleted(turnId, status, reason) =>
      if s.turn.id != Some(turnId) then Err(CompletionForNonActiveTurn)
      else Ok(s.(turn := NO_TURN, lastTurn := LastTurn(Some(turnId), Some(status), reason)))
    case ApprovalRequested(approvalId) => Ok(s.(pendingApprovals := s.pendingApprovals + {approvalId}))
    case ApprovalDecided(approvalId) => Ok(s.(pendingApprovals := s.pendingApprovals - {approvalId}))
    case ProcessStarted(processId) => Ok(s.(running := s.running + {processId}, failed := s.failed - {processId}))
    case ProcessExited(processId, exitCode) =>
      Ok(s.(running := s.running - {processId},
            failed := if exitCode.Some? && exitCode.value != 0 then s.failed + {processId} else s.failed - {processId}))
    case AgentStep(responseId, usage) => Ok(RecordUsage(s, Some(responseId), usage))
    case AssistantMessage(responseId, usage) => Ok(RecordUsage(s, responseId, usage))
    case _ => Ok(s)
  }

  function ApplyEvent(s: State, e: ThreadEvent): Result<State, ApplyError> {
    if e.threadId != s.threadId then Err(ThreadMismatch)
    else if e.seqNo != s.lastSeq + 1 then Err(NonContiguous)
    else
      match ApplyKind(s, e.timestamp, e.kind)
      case Ok(s') => Ok(s'.(lastSeq := e.seqNo))
      case Err(error) => Err(error)
  }

  /** The state after a whole log, or the first error met while replaying it. */
  function Replay(threadId: Id, es: seq<ThreadEvent>): Result<State, ApplyError> {
    if es == [] then Ok(NewState(threadId))
    else
      match Replay(threadId, es[..|es| - 1])
      case Ok(s) => ApplyEvent(s, es[|es| - 1])
      case Err(error) => Err(error)
  }

  // ----- The state as the program keeps it -----

  class ThreadState {
    var threadId: Id
    var cwd: Option<string>
    var prompt: Prompt
    var archived: Mark
    var paused: Mark
    var config: Config
    var lastSeq: nat
    var turn: ActiveTurn
    var lastTurn: LastTurn
    var pendingApprovals: set<Id>
    var running: set<Id>
    var failed: set<Id>
    var tokens: Tokens
    var countedIds: set<string>

    function View(): State
      reads this
    {
      State(threadId, cwd, prompt, archived, paused, config, lastSeq, turn, lastTurn, pendingApprovals, running,
            failed, tokens, countedIds)
    }

    constructor (threadId: Id)
      ensures View() == NewState(threadId)
    {
      this.threadId := threadId;
      cwd, prompt := None, Prompt(None, None);
      archived, paused := NO_MARK, NO_MARK;
      config, lastSeq := DEFAULT_CONFIG, 0;
      turn, lastTurn := NO_TURN, LastTurn(None, None, None);
      pendingApprovals, running, failed := {}, {}, {};
      tokens, countedIds := Tokens(0, 0, 0, 0, 0), {};
    }

    constructor CloneOf(other: ThreadState)
      ensures View() == other.View()
    {
      threadId, cwd, prompt := other.threadId, other.cwd, other.prompt;
      archived, paused := other.archived, other.paused;
      config, lastSeq := other.config, other.lastSeq;
      turn, lastTurn := other.turn, other.lastTurn;
      pendingApprovals, running, failed := other.pendingApprovals, other.running, other.failed;
      tokens, countedIds := other.tokens, other.countedIds;
    }

    /** A failing `Apply` leaves the whole state as it was. */
    method Apply(event: ThreadEvent) returns (r: Result<(), ApplyError>)
      modifies this
      ensures match ApplyEvent(old(View()), event)
              case Ok(s) => r == Ok(()) && View() == s
              case Err(error) => r == Err(error) && View() == old(View())
    {
      if event.threadId != threadId {
        return Err(ThreadMismatch);
      }
      if event.seqNo != lastSeq + 1 {
        return Err(NonContiguous);
      }
      if IsTurnKind(event.kind) {
        r := TrackTurn(event.kind);
      } else if IsActivityKind(event.kind) {
        TrackActivity(event.kind);
        r := Ok(());
      } else {
        r := TrackThread(event.timestamp, event.kind);
      }
      if r.Ok? {
        lastSeq := event.seqNo;
      }
    }

    /** The branches of the dispatch that concern the thread as a whole. */
    method TrackThread(timestamp: int, kind: Kind) returns (r: Result<(), ApplyError>)
      requires !IsTurnKind(kind) && !IsActivityKind(kind)
      modifies this`cwd, this`prompt, this`archived, this`paused, this`config
      ensures match ApplyKind(old(View()), timestamp, kind)
              case Ok(s) => r == Ok(()) && View() == s
              case Err(error) => r == Err(error) && View() == old(View())
    {
      match kind {
        case ThreadCreated(c) =>
          cwd := Some(c);
        case SystemPromptSnapshot(sha256, text) =>
          if prompt.sha256.Some? && prompt.sha256.value != sha256 {
            return Err(PromptHashChanged);
          }
          if prompt.text.Some? && prompt.text.value != text {
            return Err(PromptTextChanged);
          }
          prompt := Prompt(Some(sha256), Some(text));
        case ThreadArchived(reason) =>
          archived := Mark(true, Some(timestamp), reason);
        case ThreadUnarchived =>
          archived := NO_MARK;
        case ThreadPaused(reason) =>
          paused := Mark(true, Some(timestamp), reason);
        case ThreadUnpaused =>
          paused := NO_MARK;
        case ThreadConfigUpdated(update) =>
          UpdateConfig(update);
        case _ =>
      }
      return Ok(());
    }

    /** The branches of the dispatch that concern the turn protocol. */
    method TrackTurn(kind: Kind) returns (r: Result<(), ApplyError>)
      requires IsTurnKind(kind)
      modifies this`turn, this`lastTurn, this`failed
      ensures match ApplyKind(old(View()), 0, kind)
              case Ok(s) => r == Ok(()) && View() == s
              case Err(error) => r == Err(error) && View() == old(View())
    {
      match kind {
        case TurnStarted(turnId) =>
          if turn.id.Some? {
            return Err(TurnAlreadyActive);
          }
          turn := ActiveTurn(Some(turnId), false, None);
          failed := {};
        case TurnInterruptRequested(turnId, reason) =>
          if turn.id != Some(turnId) {
            return Err(InterruptForNonActiveTurn);
          }
          turn := turn.(interruptRequested := true, interruptReason := reason);
        case TurnCompleted(turnId, status, reason) =>
          if turn.id != Some(turnId) {
            return Err(CompletionForNonActiveTurn);
          }
          turn := NO_TURN;
          lastTurn := LastTurn(Some(turnId), Some(status), reason);
      }
      return Ok(());
    }

    /** The branches of the dispatch that concern approvals, processes and token usage. */
    method TrackActivity(kind: Kind)
      requires IsActivityKind(kind)
      modifies this`pendingApprovals, this`running, this`failed, this`tokens, this`countedIds
      ensures ApplyKind(old(View()), 0, kind) == Ok(View())
    {
      match kind {
        case ApprovalRequested(approvalId) =>
          pendingApprovals := pendingApprovals + {approvalId};
        case ApprovalDecided(approvalId) =>
          pendingApprovals := pendingApprovals - {approvalId};
        case ProcessStarted(processId) =>
          running := running + {processId};
          failed := failed - {processId};
        case ProcessExited(processId, exitCode) =>
          running := running - {processId};
          if exitCode.Some? && exitCode.value != 0 {
            failed := failed + {processId};
          } else {
            failed := failed - {processId};
          }
        case AgentStep(responseId, usage) =>
          RecordTokenUsage(Some(responseId), usage);
        case AssistantMessage(responseId, usage) =>
          RecordTokenUsage(responseId, usage);
      }
    }

    method UpdateConfig(u: ConfigUpdate)
      modifies this`config
      ensures config == ApplyConfig(old(config), u)
    {
      config := config.(approvalPolicy := u.approvalPolicy);
      if u.sandboxPolicy.Some? {
        config := config.(sandboxPolicy := u.sandboxPolicy.value);
      }
      if u.writableRoots.Some? {
        config := config.(writableRoots := u.writableRoots.value);
      }
      if u.networkAccess.Some? {
        config := config.(networkAccess := u.networkAccess.value);
      }
      if u.mode.Some? {
        config := config.(mode := u.mode.value);
      }
      if u.role.Some? {
        config := config.(role := u.role.value);
      }
      config := config.(model := Override(u.clearModel, u.model, config.model),
                        thinking := Override(u.clearThinking, u.thinking, config.thinking),
                        showThinking := Override(u.clearShowThinking, u.showThinking, config.showThinking),
                        baseUrl := Override(u.clearBaseUrl, u.baseUrl, config.baseUrl));
      if u.allowedTools.Some? {
        config := config.(allowedTools := u.allowedTools.value);
      }
      if u.clearExecpolicyRules {
        config := config.(execpolicyRules := []);
      } else if u.execpolicyRules.Some? {
        config := config.(execpolicyRules := u.execpolicyRules.value);
      }
    }

    method RecordTokenUsage(responseId: Option<string>, usage: Option<Usage>)
      modifies this`tokens, this`countedIds
      ensures View() == RecordUsage(old(View()), responseId, usage)
    {
      if usage.None? || !HasNumbers(usage.value) {
        return;
      }
      var u := usage.value;
      if responseId.Some? {
        var id := Text.Trim(responseId.value);
        if id != "" {
          if id in countedIds {
            return;
          }
          countedIds := countedIds + {id};
        }
      }
      tokens := tokens.(total := AddIfSome(tokens.total, UsageTotal(u)));
      tokens := tokens.(input := AddIfSome(tokens.input, u.input));
      tokens := tokens.(output := AddIfSome(tokens.output, u.output));
      tokens := tokens.(cacheInput := AddIfSome(tokens.cacheInput, u.cacheInput));
      tokens := tokens.(cacheCreation := AddIfSome(tokens.cacheCreation, u.cacheCreation));
    }
  }

  // ----- The read-only reader that folds the log into a state -----

  datatype ReadError = BadLog(error: LogError) | BadEvent(cause: ApplyError)

  /** The state of a log file: the fold of `ApplyEvent` over the events a scan yields. */
  function StateOf(c: Codec<Kind>, threadId: Id, bytes: Bytes): Result<State, ReadError> {
    var scan := ScanLog(c, threadId, bytes);
    match Replay(threadId, scan.events)
    case Err(cause) => Err(BadEvent(cause))
    case Ok(s) => if scan.Broken? then Err(BadLog(scan.error)) else Ok(s)
  }

  method ReadState(c: Codec<Kind>, threadId: Id, file: LogFile) returns (r: Result<ThreadState, ReadError>)
    ensures match StateOf(c, threadId, file.Bytes())
            case Ok(s) => r.Ok? && fresh(r.value) && r.value.View() == s
            case Err(error) => r == Err(error)
    ensures var scan := ScanLog(c, threadId, file.Bytes());
      && (r.Ok? <==> Replay(threadId, scan.events).Ok? && !scan.Broken?)
      && (r.Err? ==> (r.error.BadEvent? <==> Replay(threadId, scan.events).Err?))
  {
    var state := new ThreadState(threadId);
    if file.content.None? {
      ScanEmpty(c, threadId);
      return Ok(state);
    }
    var bytes := file.content.value;
    var expectedNext := 1;
    var lines := Split(bytes);
    var idx := 0;
    ghost var seen: seq<ThreadEvent> := [];
    while idx < |lines|
      invariant 0 <= idx <= |lines|
      invariant expectedNext == |seen| + 1
      invariant fresh(state) && Replay(threadId, seen) == Ok(state.View())
      invariant ScanLog(c, threadId, bytes) == ScanLines(c, threadId, lines[idx..], seen, Terminated(bytes))
      modifies state
    {
      var line := lines[idx];
      idx := idx + 1;
      if line == [] {
        continue;
      }
      match c.decode(line) {
        case None =>
          if !Terminated(bytes) {
            assert ScanLog(c, threadId, bytes) == Torn(seen, line);
            break;
          }
          return Err(BadLog(Unparsable));
        case Some(event) =>
          if event.threadId != threadId {
            return Err(BadLog(WrongThread(event.threadId)));
          }
          if event.seqNo != expectedNext {
            return Err(BadLog(NotContiguous(expectedNext, event.seqNo)));
          }
          expectedNext := event.seqNo + 1;
          var applied := state.Apply(event);
          ghost var front := seen;
          seen := seen + [event];
          assert seen[..|seen| - 1] == front;
          if applied.Err? {
            ScanExtends(c, threadId, lines[idx..], seen, Terminated(bytes));
            ReplayFails(threadId, seen, ScanLog(c, threadId, bytes).events);
            return Err(BadEvent(applied.error));
          }
      }
    }
    return Ok(state);
  }

  lemma {:induction false} ScanExtends<K>(c: Codec<K>, threadId: Id, lines: seq<Bytes>, acc: seq<Event<K>>, terminated: bool)
    ensures acc <= ScanLines(c, threadId, lines, acc, terminated).events
  {
    if lines != [] {
      if lines[0] == [] {
        ScanExtends(c, threadId, lines[1..], acc, terminated);
      } else if c.decode(lines[0]).Some? {
        ScanExtends(c, threadId, lines[1..], acc + [c.decode(lines[0]).value], terminated);
      }
    }
  }

  /** Replay stops at its first error. */
  lemma {:induction false} ReplayFails(threadId: Id, es: seq<ThreadEvent>, more: seq<ThreadEvent>)
    requires Replay(threadId, es).Err? && es <= more
    ensures Replay(threadId, more) == Replay(threadId, es)
  {
    if es != more {
      ReplayFails(threadId, es, more[..|more| - 1]);
    }
  }
}
