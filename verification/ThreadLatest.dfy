/**
 The fields of a thread's state that its latest relevant event decides: working directory, archived and
 paused marks, last turn, every setting of the configuration, and the tools a handle tracks.
 */
module ThreadLatest {
  import opened Basics
  import opened EventLog
  import opened Threads
  import opened ThreadHandles
  import opened ThreadHistory

  /** The last event that passes the test. */
  function Latest(es: seq<ThreadEvent>, test: Test): Option<ThreadEvent> {
    if es == [] then None
    else if test(es[|es| - 1].kind) then Some(es[|es| - 1])
    else Latest(es[..|es| - 1], test)
  }

  lemma {:induction false} LatestIsLast(es: seq<ThreadEvent>, test: Test)
    ensures match Latest(es, test)
            case None => forall i :: 0 <= i < |es| ==> !test(es[i].kind)
            case Some(e) => exists i :: 0 <= i < |es| && es[i] == e && test(e.kind) && NoneAfter(es, i, test)
  {
    if es != [] {
      var front, last := es[..|es| - 1], es[|es| - 1];
      LatestIsLast(front, test);
      if test(last.kind) {
        assert NoneAfter(es, |es| - 1, test);
      } else if Latest(front, test).Some? {
        var i :| 0 <= i < |front| && front[i] == Latest(front, test).value && NoneAfter(front, i, test);
        assert NoneAfter(es, i, test);
      }
    }
  }

  // ----- Directory, marks and last turn -----

  function Creation(): Test {
    (k: Kind) => k.ThreadCreated?
  }

  function ArchiveMark(): Test {
    (k: Kind) => k.ThreadArchived? || k.ThreadUnarchived?
  }

  function PauseMark(): Test {
    (k: Kind) => k.ThreadPaused? || k.ThreadUnpaused?
  }

  function Completion(): Test {
    (k: Kind) => k.TurnCompleted?
  }

  /** The mark that the latest setting or clearing event leaves. */
  function MarkOf(latest: Option<ThreadEvent>): Mark {
    match latest
    case Some(Event(_, at, _, ThreadArchived(reason))) => Mark(true, Some(at), reason)
    case Some(Event(_, at, _, ThreadPaused(reason))) => Mark(true, Some(at), reason)
    case _ => NO_MARK
  }

  /** The directory is the one of the latest creation. */
  predicate DirectoryFollows(s: State, latest: Option<ThreadEvent>) {
    match latest
    case None => s.cwd == None
    case Some(Event(_, _, _, ThreadCreated(cwd))) => s.cwd == Some(cwd)
    case Some(_) => false
  }

  /** The last turn is the latest completed one, with its outcome. */
  predicate LastTurnFollows(s: State, latest: Option<ThreadEvent>) {
    match latest
    case None => s.lastTurn == LastTurn(None, None, None)
    case Some(Event(_, _, _, TurnCompleted(id, status, reason))) => s.lastTurn == LastTurn(Some(id), Some(status), reason)
    case Some(_) => false
  }

  /** After any accepted log the archived and paused marks are what the latest marking event says. */
  lemma {:induction false} MarksFollowLatestEvents(threadId: Id, es: seq<ThreadEvent>)
    requires Replay(threadId, es).Ok?
    ensures Replay(threadId, es).value.archived == MarkOf(Latest(es, ArchiveMark()))
    ensures Replay(threadId, es).value.paused == MarkOf(Latest(es, PauseMark()))
  {
    if es != [] {
      MarksFollowLatestEvents(threadId, es[..|es| - 1]);
    }
  }

  lemma {:induction false} PlaceAndLastTurnFollowLatestEvents(threadId: Id, es: seq<ThreadEvent>)
    requires Replay(threadId, es).Ok?
    ensures DirectoryFollows(Replay(threadId, es).value, Latest(es, Creation()))
    ensures LastTurnFollows(Replay(threadId, es).value, Latest(es, Completion()))
  {
    if es != [] {
      PlaceAndLastTurnFollowLatestEvents(threadId, es[..|es| - 1]);
    }
  }

  // ----- Settings -----

  datatype Setting =
    | Approval
    | Sandbox
    | Roots
    | Network
    | Mode
    | Role
    | Model
    | Thinking
    | ShowThinking
    | BaseUrl
    | Tools
    | Rules

  /** The update says something about the setting. */
  predicate Mentions(u: ConfigUpdate, setting: Setting) {
    match setting
    case Approval => true
    case Sandbox => u.sandboxPolicy.Some?
    case Roots => u.writableRoots.Some?
    case Network => u.networkAccess.Some?
    case Mode => u.mode.Some?
    case Role => u.role.Some?
    case Model => u.clearModel || u.model.Some?
    case Thinking => u.clearThinking || u.thinking.Some?
    case ShowThinking => u.clearShowThinking || u.showThinking.Some?
    case BaseUrl => u.clearBaseUrl || u.baseUrl.Some?
    case Tools => u.allowedTools.Some?
    case Rules => u.clearExecpolicyRules || u.execpolicyRules.Some?
  }

  function UpdateOf(setting: Setting): Test {
    (k: Kind) => k.ThreadConfigUpdated? && Mentions(k.update, setting)
  }

  /** The setting has its initial value. */
  predicate IsInitial(g: Config, setting: Setting) {
    match setting
    case Approval => g.approvalPolicy == AutoApprove
    case Sandbox => g.sandboxPolicy == WorkspaceWrite
    case Roots => g.writableRoots == []
    case Network => g.networkAccess == Deny
    case Mode => g.mode == "code"
    case Role => g.role == "coder"
    case Model => g.model == None
    case Thinking => g.thinking == None
    case ShowThinking => g.showThinking == None
    case BaseUrl => g.baseUrl == None
    case Tools => g.allowedTools == None
    case Rules => g.execpolicyRules == []
  }

  /** The setting is what the update says about it; a clear wins over a value. */
  predicate IsAsUpdated(g: Config, u: ConfigUpdate, setting: Setting)
    requires Mentions(u, setting)
  {
    match setting
    case Approval => g.approvalPolicy == u.approvalPolicy
    case Sandbox => Some(g.sandboxPolicy) == u.sandboxPolicy
    case Roots => Some(g.writableRoots) == u.writableRoots
    case Network => Some(g.networkAccess) == u.networkAccess
    case Mode => Some(g.mode) == u.mode
    case Role => Some(g.role) == u.role
    case Model => g.model == if u.clearModel then None else u.model
    case Thinking => g.thinking == if u.clearThinking then None else u.thinking
    case ShowThinking => g.showThinking == if u.clearShowThinking then None else u.showThinking
    case BaseUrl => g.baseUrl == if u.clearBaseUrl then None else u.baseUrl
    case Tools => Some(g.allowedTools) == u.allowedTools
    case Rules => if u.clearExecpolicyRules then g.execpolicyRules == [] else Some(g.execpolicyRules) == u.execpolicyRules
  }

  /** After any accepted log every setting is what the latest update that mentions it says, and has its
      initial value when none does. */
  lemma {:induction false} SettingsFollowLatestUpdates(threadId: Id, es: seq<ThreadEvent>, setting: Setting)
    requires Replay(threadId, es).Ok?
    ensures var config := Replay(threadId, es).value.config;
      match Latest(es, UpdateOf(setting))
      case None => IsInitial(config, setting)
      case Some(e) => e.kind.ThreadConfigUpdated? && Mentions(e.kind.update, setting) && IsAsUpdated(config, e.kind.update, setting)
  {
    if es != [] {
      var front, last := es[..|es| - 1], es[|es| - 1];
      SettingsFollowLatestUpdates(threadId, front, setting);
      if last.kind.ThreadConfigUpdated? {
        UpdateOne(Replay(threadId, front).value.config, last.kind.update, setting);
      }
    }
  }

  lemma UpdateOne(g: Config, u: ConfigUpdate, setting: Setting)
    ensures Mentions(u, setting) ==> IsAsUpdated(ApplyConfig(g, u), u, setting)
    ensures !Mentions(u, setting) && IsInitial(g, setting) ==> IsInitial(ApplyConfig(g, u), setting)
    ensures !Mentions(u, setting) ==>
      forall u' | Mentions(u', setting) && IsAsUpdated(g, u', setting) :: IsAsUpdated(ApplyConfig(g, u), u', setting)
  {
  }

  // ----- Tools -----

  function StartOfTool(id: Id): Test {
    (k: Kind) => k == ToolStarted(id)
  }

  function EndOfTool(id: Id): Test {
    (k: Kind) => k == ToolCompleted(id)
  }

  /** A handle tracks a tool exactly when its latest event is a start. */
  lemma {:induction false} ToolsFollowLatestEvents(es: seq<ThreadEvent>, id: Id)
    ensures id in ToolsOf(es) <==> OpenSince(es, StartOfTool(id), EndOfTool(id))
  {
    if es != [] {
      ToolsFollowLatestEvents(es[..|es| - 1], id);
      OpenSinceLast(es, StartOfTool(id), EndOfTool(id));
    }
  }
}
