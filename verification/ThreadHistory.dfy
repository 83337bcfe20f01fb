/**
 What the state of a thread says about its log: the turn, the running processes, the open approvals,
 the token totals and the counted response ids are tied to properties of the whole event history
 that mention no state. ThreadLatest does the same for the fields that one latest event decides.
 */
module ThreadHistory {
  import opened Basics
  import opened EventLog
  import opened Threads
  import Text

  type Test = Kind -> bool

  /** Some event passes `opens` and no later one passes `closes`. */
  ghost predicate OpenSince(es: seq<ThreadEvent>, opens: Test, closes: Test) {
    exists i :: 0 <= i < |es| && opens(es[i].kind) && NoneAfter(es, i, closes)
  }

  ghost predicate NoneAfter(es: seq<ThreadEvent>, i: nat, closes: Test) {
    forall j :: i < j < |es| ==> !closes(es[j].kind)
  }

  lemma OpenSinceLast(es: seq<ThreadEvent>, opens: Test, closes: Test)
    requires es != []
    ensures var (front, last) := (es[..|es| - 1], es[|es| - 1].kind);
      OpenSince(es, opens, closes) <==> opens(last) || (OpenSince(front, opens, closes) && !closes(last))
  {
    var front, last := es[..|es| - 1], es[|es| - 1].kind;
    if opens(last) {
      assert NoneAfter(es, |es| - 1, closes);
    } else if OpenSince(front, opens, closes) && !closes(last) {
      var i :| 0 <= i < |front| && opens(front[i].kind) && NoneAfter(front, i, closes);
      assert NoneAfter(es, i, closes);
    }
    if OpenSince(es, opens, closes) {
      var i :| 0 <= i < |es| && opens(es[i].kind) && NoneAfter(es, i, closes);
      if i < |front| {
        assert NoneAfter(front, i, closes);
      }
    }
  }

  // ----- The turn protocol -----

  function TurnBoundary(): Test {
    (k: Kind) => k.TurnStarted? || k.TurnCompleted?
  }

  function StartOf(t: Id): Test {
    (k: Kind) => k == TurnStarted(t)
  }

  function Interrupt(): Test {
    (k: Kind) => k.TurnInterruptRequested?
  }

  function InterruptBecause(r: string): Test {
    (k: Kind) => k.TurnInterruptRequested? && k.reason == Some(r)
  }

  function TurnEvent(): Test {
    (k: Kind) => IsTurnKind(k)
  }

  /** Turn `t` has started and no turn has started or completed since. */
  ghost predicate TurnOpen(es: seq<ThreadEvent>, t: Id) {
    OpenSince(es, StartOf(t), TurnBoundary())
  }

  /** What event `kind` demands of the events before it. */
  ghost predicate TurnAllows(before: seq<ThreadEvent>, kind: Kind) {
    match kind
    case TurnStarted(_) => forall t: Id :: !TurnOpen(before, t)
    case TurnInterruptRequested(t, _) => TurnOpen(before, t)
    case TurnCompleted(t, _, _) => TurnOpen(before, t)
    case _ => true
  }

  ghost predicate TurnProtocol(es: seq<ThreadEvent>) {
    forall j :: 0 <= j < |es| ==> TurnAllows(es[..j], es[j].kind)
  }

  /** Every snapshot of the system prompt repeats the first one. */
  predicate PromptStable(es: seq<ThreadEvent>) {
    forall i, j :: 0 <= i < j < |es| && es[i].kind.SystemPromptSnapshot? && es[j].kind.SystemPromptSnapshot?
      ==> es[i].kind == es[j].kind
  }

  ghost predicate PromptAllows(before: seq<ThreadEvent>, kind: Kind) {
    kind.SystemPromptSnapshot? ==>
      forall i :: 0 <= i < |before| && before[i].kind.SystemPromptSnapshot? ==> before[i].kind == kind
  }

  /** The history behind the turn and prompt fields. */
  ghost predicate TurnFieldsMatch(es: seq<ThreadEvent>, s: State) {
    && (forall t: Id :: s.turn.id == Some(t) <==> TurnOpen(es, t))
    && (s.turn.interruptRequested <==> OpenSince(es, Interrupt(), TurnBoundary()))
    && (forall r :: s.turn.interruptReason == Some(r) <==> OpenSince(es, InterruptBecause(r), TurnEvent()))
    && (s.turn.id.None? ==> s.turn == NO_TURN)
    && (s.prompt.sha256.Some? <==> s.prompt.text.Some?)
    && (forall i :: 0 <= i < |es| && es[i].kind.SystemPromptSnapshot? ==>
          s.prompt == Prompt(Some(es[i].kind.sha256), Some(es[i].kind.text)))
    && (s.prompt.sha256.Some? ==> exists i :: 0 <= i < |es| && es[i].kind.SystemPromptSnapshot?)
  }

  /** A log replays exactly when it is numbered, keeps to the turn protocol and never changes the
      system prompt; the active turn is then the last one started and not completed, and the
      interrupt mark and its reason are those of that turn's last interrupt. */
  lemma {:induction false} AcceptedLogs(threadId: Id, es: seq<ThreadEvent>)
    ensures Replay(threadId, es).Ok? <==> Numbered(threadId, es) && TurnProtocol(es) && PromptStable(es)
    ensures Replay(threadId, es).Ok? ==>
      var s := Replay(threadId, es).value; s.threadId == threadId && s.lastSeq == |es| && TurnFieldsMatch(es, s)
  {
    if es != [] {
      var front, last := es[..|es| - 1], es[|es| - 1];
      AcceptedLogs(threadId, front);
      PrefixesOf(threadId, es);
      if Replay(threadId, front).Ok? {
        AcceptedStep(threadId, es, Replay(threadId, front).value);
      }
    }
  }

  /** Why the event that follows this history is refused. */
  ghost predicate IsRefusedAs(threadId: Id, es: seq<ThreadEvent>, e: ThreadEvent, error: ApplyError) {
    if error == ThreadMismatch then e.threadId != threadId
    else if error == NonContiguous then e.threadId == threadId && e.seqNo != |es| + 1
    else
      && e.threadId == threadId && e.seqNo == |es| + 1
      && match e.kind
         case SystemPromptSnapshot(sha256, text) =>
           exists i :: 0 <= i < |es| && es[i].kind.SystemPromptSnapshot? &&
             if es[i].kind.sha256 != sha256 then error == PromptHashChanged
             else es[i].kind.text != text && error == PromptTextChanged
         case TurnStarted(_) => error == TurnAlreadyActive && exists t: Id :: TurnOpen(es, t)
         case TurnInterruptRequested(t, _) => error == InterruptForNonActiveTurn && !TurnOpen(es, t)
         case TurnCompleted(t, _, _) => error == CompletionForNonActiveTurn && !TurnOpen(es, t)
         case _ => false
  }

  /** Each refusal has its own cause in the history. */
  lemma RefusalsExactly(threadId: Id, es: seq<ThreadEvent>, e: ThreadEvent, error: ApplyError)
    requires Replay(threadId, es).Ok?
    ensures ApplyEvent(Replay(threadId, es).value, e) == Err(error) <==> IsRefusedAs(threadId, es, e, error)
  {
    AcceptedLogs(threadId, es);
    RefusedStep(threadId, es, Replay(threadId, es).value, e, error);
  }

  lemma RefusedStep(threadId: Id, es: seq<ThreadEvent>, s: State, e: ThreadEvent, error: ApplyError)
    requires s.threadId == threadId && s.lastSeq == |es| && TurnFieldsMatch(es, s)
    ensures ApplyEvent(s, e) == Err(error) <==> IsRefusedAs(threadId, es, e, error)
  {
    assert forall t: Id :: s.turn.id == Some(t) <==> TurnOpen(es, t);
    if e.kind.TurnStarted? && s.turn.id.Some? {
      assert TurnOpen(es, s.turn.id.value);
    }
  }

  lemma PrefixesOf(threadId: Id, es: seq<ThreadEvent>)
    requires es != []
    ensures var (front, last) := (es[..|es| - 1], es[|es| - 1]);
      && (Numbered(threadId, es) <==> Numbered(threadId, front) && last.threadId == threadId && last.seqNo == |es|)
      && (TurnProtocol(es) <==> TurnProtocol(front) && TurnAllows(front, last.kind))
      && (PromptStable(es) <==> PromptStable(front) && PromptAllows(front, last.kind))
  {
    var front := es[..|es| - 1];
    assert forall j :: 0 <= j < |front| ==> front[..j] == es[..j];
    assert forall i :: 0 <= i < |front| ==> front[i] == es[i];
    if TurnProtocol(es) {
      assert TurnAllows(es[..|front|], es[|front|].kind);
      forall j | 0 <= j < |front| ensures TurnAllows(front[..j], front[j].kind) {
        assert TurnAllows(es[..j], es[j].kind);
      }
    }
  }

  lemma AcceptedStep(threadId: Id, es: seq<ThreadEvent>, s: State)
    requires es != []
    requires s.threadId == threadId && s.lastSeq == |es| - 1 && TurnFieldsMatch(es[..|es| - 1], s)
    ensures var (front, last) := (es[..|es| - 1], es[|es| - 1]);
      && (ApplyEvent(s, last).Ok? <==>
            last.threadId == threadId && last.seqNo == |es| && TurnAllows(front, last.kind) && PromptAllows(front, last.kind))
      && (ApplyEvent(s, last).Ok? ==>
            var s' := ApplyEvent(s, last).value;
            s'.threadId == threadId && s'.lastSeq == |es| && TurnFieldsMatch(es, s'))
  {
    var front, last := es[..|es| - 1], es[|es| - 1];
    assert forall t: Id :: s.turn.id == Some(t) <==> TurnOpen(front, t);
    if ApplyEvent(s, last).Ok? {
      var s' := ApplyEvent(s, last).value;
      TurnFieldsStep(es, s, s');
      PromptFieldsStep(es, s, s');
    }
  }

  lemma TurnFieldsStep(es: seq<ThreadEvent>, s: State, s': State)
    requires es != [] && ApplyEvent(s, es[|es| - 1]) == Ok(s')
    requires s.turn.id.None? ==> s.turn == NO_TURN
    requires forall t: Id :: s.turn.id == Some(t) <==> TurnOpen(es[..|es| - 1], t)
    requires s.turn.interruptRequested <==> OpenSince(es[..|es| - 1], Interrupt(), TurnBoundary())
    requires forall r :: s.turn.interruptReason == Some(r) <==> OpenSince(es[..|es| - 1], InterruptBecause(r), TurnEvent())
    ensures s'.turn.id.None? ==> s'.turn == NO_TURN
    ensures forall t: Id :: s'.turn.id == Some(t) <==> TurnOpen(es, t)
    ensures s'.turn.interruptRequested <==> OpenSince(es, Interrupt(), TurnBoundary())
    ensures forall r :: s'.turn.interruptReason == Some(r) <==> OpenSince(es, InterruptBecause(r), TurnEvent())
  {
    var front, last := es[..|es| - 1], es[|es| - 1].kind;
    var turn := s'.turn;
    assert turn == match last
                   case TurnStarted(t) => ActiveTurn(Some(t), false, None)
                   case TurnInterruptRequested(_, reason) => ActiveTurn(s.turn.id, true, reason)
                   case TurnCompleted(_, _, _) => NO_TURN
                   case _ => s.turn;
    forall t: Id ensures turn.id == Some(t) <==> TurnOpen(es, t) {
      OpenSinceLast(es, StartOf(t), TurnBoundary());
    }
    OpenSinceLast(es, Interrupt(), TurnBoundary());
    forall r ensures turn.interruptReason == Some(r) <==> OpenSince(es, InterruptBecause(r), TurnEvent()) {
      OpenSinceLast(es, InterruptBecause(r), TurnEvent());
    }
  }

  lemma PromptFieldsStep(es: seq<ThreadEvent>, s: State, s': State)
    requires es != [] && ApplyEvent(s, es[|es| - 1]) == Ok(s')
    requires TurnFieldsMatch(es[..|es| - 1], s)
    ensures s'.prompt.sha256.Some? <==> s'.prompt.text.Some?
    ensures forall i :: 0 <= i < |es| && es[i].kind.SystemPromptSnapshot? ==>
              s'.prompt == Prompt(Some(es[i].kind.sha256), Some(es[i].kind.text))
    ensures s'.prompt.sha256.Some? ==> exists i :: 0 <= i < |es| && es[i].kind.SystemPromptSnapshot?
  {
    var front, last := es[..|es| - 1], es[|es| - 1];
    assert forall i :: 0 <= i < |front| ==> front[i] == es[i];
    if last.kind.SystemPromptSnapshot? {
      assert es[|front|].kind.SystemPromptSnapshot?;
    } else {
      assert s'.prompt == s.prompt;
      if s.prompt.sha256.Some? {
        var i :| 0 <= i < |front| && front[i].kind.SystemPromptSnapshot?;
        assert es[i].kind.SystemPromptSnapshot?;
      }
    }
  }

  /** In every accepted log two starts have a completion of the first one's turn between them, with
      no other start or completion before it, and every completion or interrupt falls inside the
      turn it names: that turn was started and nothing started or completed in between. */
  lemma StartsAndCompletionsAlternate(threadId: Id, es: seq<ThreadEvent>, i: nat, j: nat)
    requires Replay(threadId, es).Ok? && i < j < |es|
    requires es[i].kind.TurnStarted? && es[j].kind.TurnStarted?
    ensures exists k :: i < k < j && es[k].kind.TurnCompleted? && es[k].kind.turnId == es[i].kind.turnId &&
              forall m :: i < m < k ==> !TurnBoundary()(es[m].kind)
  {
    var k := FirstBoundaryAfter(es, i);
    assert k <= j by {
      assert TurnBoundary()(es[j].kind);
    }
    TurnStillOpen(threadId, es, i, k);
  }

  /** The first start or completion after a start is the completion of the same turn. */
  lemma TurnStillOpen(threadId: Id, es: seq<ThreadEvent>, i: nat, k: nat)
    requires Replay(threadId, es).Ok? && i < k < |es| && es[i].kind.TurnStarted?
    requires TurnBoundary()(es[k].kind) && forall m :: i < m < k ==> !TurnBoundary()(es[m].kind)
    ensures es[k].kind.TurnCompleted? && es[k].kind.turnId == es[i].kind.turnId
  {
    var before := es[..k];
    AcceptedLogs(threadId, es);
    assert TurnAllows(es[..k], es[k].kind);
    assert NoneAfter(before, i, TurnBoundary());
    assert before[i].kind == TurnStarted(es[i].kind.turnId);
    assert TurnOpen(before, es[i].kind.turnId);
    AcceptedPrefix(threadId, es, k);
    AcceptedLogs(threadId, before);
  }

  /** The index of the first start or completion after `i`; |es| when there is none. */
  function FirstBoundaryAfter(es: seq<ThreadEvent>, i: nat): (k: nat)
    requires i < |es|
    ensures i < k <= |es|
    ensures forall m :: i < m < k ==> !TurnBoundary()(es[m].kind)
    ensures k < |es| ==> TurnBoundary()(es[k].kind)
    decreases |es| - i
  {
    if i + 1 == |es| || TurnBoundary()(es[i + 1].kind) then i + 1 else FirstBoundaryAfter(es, i + 1)
  }

  lemma {:induction false} AcceptedPrefix(threadId: Id, es: seq<ThreadEvent>, k: nat)
    requires Replay(threadId, es).Ok? && k <= |es|
    ensures Replay(threadId, es[..k]).Ok?
  {
    if k < |es| {
      AcceptedPrefix(threadId, es[..|es| - 1], k);
      assert es[..|es| - 1][..k] == es[..k];
    } else {
      assert es[..k] == es;
    }
  }

  lemma CompletionsAndInterruptsFallInTheirTurn(threadId: Id, es: seq<ThreadEvent>, j: nat)
    requires Replay(threadId, es).Ok? && j < |es|
    requires es[j].kind.TurnCompleted? || es[j].kind.TurnInterruptRequested?
    ensures exists i :: 0 <= i < j && es[i].kind == TurnStarted(es[j].kind.turnId) &&
              forall m :: i < m < j ==> !TurnBoundary()(es[m].kind)
  {
    AcceptedLogs(threadId, es);
    assert TurnAllows(es[..j], es[j].kind);
    var before := es[..j];
    var i :| 0 <= i < |before| && StartOf(es[j].kind.turnId)(before[i].kind) && NoneAfter(before, i, TurnBoundary());
    assert forall m :: i < m < j ==> before[m] == es[m];
  }

  // ----- Processes and approvals -----

  function RequestOf(a: Id): Test {
    (k: Kind) => k == ApprovalRequested(a)
  }

  function DecisionOn(a: Id): Test {
    (k: Kind) => k == ApprovalDecided(a)
  }

  function StartOfProcess(p: Id): Test {
    (k: Kind) => k == ProcessStarted(p)
  }

  function ExitOf(p: Id): Test {
    (k: Kind) => k.ProcessExited? && k.processId == p
  }

  function FailureOf(p: Id): Test {
    (k: Kind) => ExitOf(p)(k) && k.exitCode.Some? && k.exitCode.value != 0
  }

  function ClearsFailureOf(p: Id): Test {
    (k: Kind) => k.TurnStarted? || k == ProcessStarted(p) || ExitOf(p)(k)
  }

  /** After any accepted log a process is running when its latest start or exit is a start, an
      approval is pending when its latest event is the request, and a process has failed when its
      latest event is a nonzero exit with no turn started since; none is both running and failed. */
  lemma {:induction false} ProcessesAndApprovals(threadId: Id, es: seq<ThreadEvent>, id: Id)
    requires Replay(threadId, es).Ok?
    ensures var s := Replay(threadId, es).value;
      && (id in s.running <==> OpenSince(es, StartOfProcess(id), ExitOf(id)))
      && (id in s.pendingApprovals <==> OpenSince(es, RequestOf(id), DecisionOn(id)))
      && (id in s.failed <==> OpenSince(es, FailureOf(id), ClearsFailureOf(id)))
      && !(id in s.running && id in s.failed)
  {
    if es != [] {
      ProcessesAndApprovals(threadId, es[..|es| - 1], id);
      OpenSinceLast(es, StartOfProcess(id), ExitOf(id));
      OpenSinceLast(es, RequestOf(id), DecisionOn(id));
      OpenSinceLast(es, FailureOf(id), ClearsFailureOf(id));
    }
  }

  // ----- Token totals -----

  function UsageOf(k: Kind): Option<Usage> {
    if k.AgentStep? || k.AssistantMessage? then k.usage else None
  }

  /** The trimmed response id, empty when there is none. */
  function ResponseIdOf(k: Kind): string {
    if k.AgentStep? then Text.Trim(k.responseId)
    else if k.AssistantMessage? && k.maybeResponseId.Some? then Text.Trim(k.maybeResponseId.value)
    else ""
  }

  /** Some field of the usage is a number. */
  predicate Countable(k: Kind) {
    match UsageOf(k)
    case None => false
    case Some(u) => u.UsageFields? && exists which :: Field(which, u).Some?
  }

  function Field(which: Counter, u: Usage): Option<u64>
    requires u.UsageFields?
  {
    match which
    case Total => u.total
    case Input => u.input
    case Output => u.output
    case CacheInput => u.cacheInput
    case CacheCreation => u.cacheCreation
  }

  /** A field as a number, zero when it is absent. */
  function FieldOrZero(which: Counter, u: Usage): nat
    requires u.UsageFields?
  {
    if Field(which, u).Some? then Field(which, u).value else 0
  }

  /** Event `i` carries a number, and its response id is empty or unseen among earlier countable events. */
  predicate Counted(es: seq<ThreadEvent>, i: nat)
    requires i < |es|
  {
    Countable(es[i].kind) &&
    (ResponseIdOf(es[i].kind) == "" ||
     forall j :: 0 <= j < i && Countable(es[j].kind) ==> ResponseIdOf(es[j].kind) != ResponseIdOf(es[i].kind))
  }

  datatype Counter = Total | Input | Output | CacheInput | CacheCreation

  /** What an event adds to a counter: the field itself. A total that is not reported is input plus
      output; when both are present and their sum exceeds the largest u64, it is nothing. */
  function Amount(which: Counter, u: Usage): nat
    requires u.UsageFields?
  {
    if which != Total || u.total.Some? then FieldOrZero(which, u)
    else
      var sum := FieldOrZero(Input, u) + FieldOrZero(Output, u);
      if u.input.Some? && u.output.Some? && sum > 0xFFFF_FFFF_FFFF_FFFF then 0 else sum
  }

  function CounterOf(which: Counter, t: Tokens): nat {
    match which
    case Total => t.total
    case Input => t.input
    case Output => t.output
    case CacheInput => t.cacheInput
    case CacheCreation => t.cacheCreation
  }

  /** The unbounded sum of one counter over the counted events among the first `n`. */
  function SumCounted(which: Counter, es: seq<ThreadEvent>, n: nat): nat
    requires n <= |es|
  {
    if n == 0 then 0
    else
      SumCounted(which, es, n - 1) +
      (if Counted(es, n - 1) then Amount(which, UsageOf(es[n - 1].kind).value) else 0)
  }

  /** Each counter is the sum of its field over the counted events, or the largest u64 when the sum
      exceeds it, however agent steps and assistant messages repeat each other's response ids. */
  lemma {:induction false} TokenTotalsAreExact(threadId: Id, es: seq<ThreadEvent>, which: Counter)
    requires Replay(threadId, es).Ok?
    ensures CounterOf(which, Replay(threadId, es).value.tokens) == Min(U64_MAX, SumCounted(which, es, |es|))
  {
    if es != [] {
      var front := es[..|es| - 1];
      TokenTotalsAreExact(threadId, front, which);
      SumOfPrefix(which, es, |front|);
      CountedLast(threadId, es);
      UsageStep(Replay(threadId, front).value, es[|es| - 1], which);
    }
  }

  lemma CountableExactly(k: Kind)
    ensures Countable(k) <==> UsageOf(k).Some? && HasNumbers(UsageOf(k).value)
  {
    if UsageOf(k).Some? && UsageOf(k).value.UsageFields? {
      var u := UsageOf(k).value;
      assert Field(Total, u) == u.total && Field(Input, u) == u.input && Field(Output, u) == u.output;
      assert Field(CacheInput, u) == u.cacheInput && Field(CacheCreation, u) == u.cacheCreation;
    }
  }

  /** Adding a usage saturates each counter; whatever the total is taken from, this is what it adds. */
  lemma AddsAmount(t: Tokens, u: Usage, which: Counter)
    requires u.UsageFields? && CounterOf(which, t) <= U64_MAX
    ensures CounterOf(which, AddUsage(t, u)) == Min(U64_MAX, CounterOf(which, t) + Amount(which, u))
  {
  }

  /** What one event does to the remembered ids. */
  lemma IdStep(s: State, e: ThreadEvent)
    requires ApplyEvent(s, e).Ok?
    ensures ApplyEvent(s, e).value.countedIds ==
      if Countable(e.kind) && ResponseIdOf(e.kind) != "" then s.countedIds + {ResponseIdOf(e.kind)} else s.countedIds
  {
    CountableExactly(e.kind);
    if e.kind.AgentStep? || e.kind.AssistantMessage? {
      var responseId := if e.kind.AgentStep? then Some(e.kind.responseId) else e.kind.maybeResponseId;
      assert ApplyEvent(s, e).value == RecordUsage(s, responseId, e.kind.usage).(lastSeq := e.seqNo);
    }
  }

  /** What one event does to a counter. */
  lemma UsageStep(s: State, e: ThreadEvent, which: Counter)
    requires ApplyEvent(s, e).Ok? && CounterOf(which, s.tokens) <= U64_MAX
    ensures CounterOf(which, ApplyEvent(s, e).value.tokens) ==
      if Countable(e.kind) && (ResponseIdOf(e.kind) == "" || ResponseIdOf(e.kind) !in s.countedIds)
      then Min(U64_MAX, CounterOf(which, s.tokens) + Amount(which, UsageOf(e.kind).value))
      else CounterOf(which, s.tokens)
  {
    CountableExactly(e.kind);
    if e.kind.AgentStep? || e.kind.AssistantMessage? {
      var responseId := if e.kind.AgentStep? then Some(e.kind.responseId) else e.kind.maybeResponseId;
      assert ApplyEvent(s, e).value == RecordUsage(s, responseId, e.kind.usage).(lastSeq := e.seqNo);
      if Countable(e.kind) {
        AddsAmount(s.tokens, e.kind.usage.value, which);
      }
    }
  }

  lemma {:induction false} SumOfPrefix(which: Counter, es: seq<ThreadEvent>, n: nat)
    requires n < |es|
    ensures SumCounted(which, es, n) == SumCounted(which, es[..|es| - 1], n)
  {
    if n > 0 {
      SumOfPrefix(which, es, n - 1);
      assert forall j :: 0 <= j < n ==> es[..|es| - 1][j] == es[j];
    }
  }

  predicate SeenId(es: seq<ThreadEvent>, id: string) {
    id != "" && exists j :: 0 <= j < |es| && Countable(es[j].kind) && ResponseIdOf(es[j].kind) == id
  }

  /** The ids the state remembers are those of the countable events. */
  lemma {:induction false} CountedIds(threadId: Id, es: seq<ThreadEvent>, id: string)
    requires Replay(threadId, es).Ok?
    ensures id in Replay(threadId, es).value.countedIds <==> SeenId(es, id)
  {
    if es != [] {
      var front, last := es[..|es| - 1], es[|es| - 1];
      CountedIds(threadId, front, id);
      IdStep(Replay(threadId, front).value, last);
      assert forall j :: 0 <= j < |front| ==> front[j] == es[j];
      assert SeenId(es, id) <==> SeenId(front, id) || (id != "" && Countable(last.kind) && ResponseIdOf(last.kind) == id);
    }
  }

  lemma CountedLast(threadId: Id, es: seq<ThreadEvent>)
    requires es != [] && Replay(threadId, es).Ok?
    ensures var (s, last) := (Replay(threadId, es[..|es| - 1]).value, es[|es| - 1].kind);
      Counted(es, |es| - 1) <==> Countable(last) && (ResponseIdOf(last) == "" || ResponseIdOf(last) !in s.countedIds)
  {
    var front := es[..|es| - 1];
    CountedIds(threadId, front, ResponseIdOf(es[|es| - 1].kind));
    assert forall j :: 0 <= j < |front| ==> front[j] == es[j];
  }
}
