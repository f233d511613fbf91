/**
  The turn protocol of one agent: the main loop and the agent's worker thread share the
  thread flags, the state and the stored result.  The functions on `Agent` are the effects
  of the main-loop handlers; `Next` interleaves them with the worker's steps.
*/
module Turn {
  import opened Wrappers
  import opened Conversation
  import opened ToolCallExtraction

  datatype AgentState = Idle | WaitingForLlm | ExecutingTool

  datatype Finish = Stop | Length | ToolUse | ContentFilter | Error | Unknown

  /** The fields of the agent that take part; `crashed` records a failed assertion. */
  datatype Agent = Agent(
    state: AgentState,
    running: bool,             // tool_thread_running
    complete: bool,            // tool_thread_complete
    result: Option<string>,    // tool_thread_result
    pending: Option<CallData>, // pending_tool_call and what belongs to it
    interrupt: bool,           // interrupt_requested
    iterations: nat,           // tool_iteration_count
    finish: Option<Finish>,    // response_finish_reason
    httpError: bool,           // http_error_message != NULL
    response: string,          // assistant_response, empty when NULL
    streaming: bool,           // curl_still_running
    conv: Conv,
    crashed: bool)

  const FRESH := Agent(Idle, false, false, None, None, false, 0, None, false, "", false, EMPTY, false)

  // ----- State transitions, each guarded by an assertion

  function Crash(a: Agent): Agent { a.(crashed := true) }

  function ToWaiting(a: Agent): Agent {
    if a.state == Idle then a.(state := WaitingForLlm) else Crash(a)
  }

  function ToIdle(a: Agent): Agent {
    if a.state == WaitingForLlm then a.(state := Idle) else Crash(a)
  }

  function ToExecuting(a: Agent): Agent {
    if a.state == WaitingForLlm then a.(state := ExecutingTool) else Crash(a)
  }

  function FromExecuting(a: Agent): Agent {
    if a.state == ExecutingTool then a.(state := WaitingForLlm) else Crash(a)
  }

  // ----- Requests to the provider

  /** `startOk`: provider, request and stream could all be set up. */
  function StartStream(a: Agent, startOk: bool): Agent {
    if startOk then a.(streaming := true) else ToIdle(a)
  }

  function Send(a: Agent, text: string, configured: bool, startOk: bool): Agent {
    if !configured then a
    else
      StartStream(ToWaiting(a.(conv := a.conv.(messages := a.conv.messages + [TextMessage(User, text)]),
                               response := "", iterations := 0)),
                  startOk)
  }

  /** `limit` is max_tool_turns, or None without a configuration. */
  predicate ShouldContinue(a: Agent, limit: Option<int>) {
    a.finish == Some(ToolUse) && (limit.Some? ==> a.iterations < limit.value)
  }

  function Continue(a: Agent, startOk: bool): Agent {
    StartStream(a.(iterations := a.iterations + 1), startOk)
  }

  // ----- Running and harvesting a worker

  /** Sets the flags just before the thread is created. */
  function Launch(a: Agent): Agent { a.(complete := false, running := true) }

  function LaunchTool(a: Agent): Agent {
    if a.pending.None? || a.running then Crash(a) else Launch(a)
  }

  function ClearThread(a: Agent): Agent { a.(running := false, complete := false, result := None) }

  function CompleteTool(a: Agent): Agent
  {
    if !a.running || !a.complete || a.pending.None? || a.result.None? then Crash(a)
    else
      FromExecuting(ClearThread(a.(
        conv := a.conv.(messages := a.conv.messages + [CallMessage(a.pending.value),
                                                       ResultMessage(a.pending.value.id, a.result.value)]),
        pending := None)))
  }

  function Harvested(a: Agent): Agent {
    if a.pending.Some? then CompleteTool(a) else FromExecuting(ClearThread(a))
  }

  function ToolCompletion(a: Agent, limit: Option<int>, startOk: bool): Agent {
    var b := Harvested(a);
    if ShouldContinue(b, limit) then Continue(b, startOk) else ToIdle(b)
  }

  function FlagTurn(a: Agent): Agent { a.(conv := a.conv.(messages := InterruptTurn(a.conv.messages))) }

  function InterruptedCompletion(a: Agent): Agent {
    var b := a.(interrupt := false);
    if b.pending.None? then ToIdle(FromExecuting(ClearThread(b)))
    else ToIdle(FlagTurn(FromExecuting(ClearThread(b.(pending := None)))))
  }

  predicate Harvestable(a: Agent) { a.state == ExecutingTool && a.complete }

  function PollTool(a: Agent, limit: Option<int>, startOk: bool): Agent {
    if !Harvestable(a) then a
    else if a.interrupt then InterruptedCompletion(a)
    else ToolCompletion(a, limit, startOk)
  }

  // ----- The end of an LLM request

  /** What the provider reported while the last handle finished; `text` is the streamed response. */
  datatype Outcome =
    | Failed(text: string)
    | Silent(text: string)   // no completion callback, as after a cancelled request
    | Succeeded(text: string, finish: Finish, blocks: seq<Block>)

  function Callback(a: Agent, o: Outcome): Agent {
    a.(streaming := false, response := o.text, httpError := o.Failed?,
       finish := if o.Succeeded? then Some(o.finish) else a.finish,
       pending := if o.Succeeded? then Extract(o.blocks) else a.pending)
  }

  function InterruptedLlm(a: Agent): Agent {
    ToIdle(FlagTurn(a.(interrupt := false, httpError := false, response := "")))
  }

  function KeepResponse(a: Agent): Agent {
    if a.response == "" then a
    else a.(conv := a.conv.(messages := a.conv.messages + [TextMessage(Assistant, a.response)]), response := "")
  }

  /** Up to the point where a worker, if one is needed, has been launched but not yet announced. */
  function RequestSuccess(a: Agent, limit: Option<int>, startOk: bool): Agent {
    var b := KeepResponse(a);
    if b.pending.Some? then LaunchTool(b)
    else if ShouldContinue(b, limit) then Continue(b, startOk)
    else b
  }

  predicate Launches(a: Agent) { a.state == WaitingForLlm && !a.interrupt && !a.httpError && a.pending.Some? }

  function AfterCallback(a: Agent, limit: Option<int>, startOk: bool): Agent {
    if a.state != WaitingForLlm then a
    else if a.interrupt then InterruptedLlm(a)
    else
      var c := if a.httpError then a.(httpError := false, response := "") else RequestSuccess(a, limit, startOk);
      if Launches(a) then c
      else if c.state == WaitingForLlm then ToIdle(c)
      else c
  }

  function RequestInterrupt(a: Agent): Agent {
    if a.state == Idle then a else a.(interrupt := true)
  }

  // ----- Main loop and worker together

  datatype Task = RunTool(call: CallData) | RunWait

  datatype Worker = NoWorker | Computing | Stored | Signalled

  /** Between creating a thread and storing the new state the worker may already run. */
  datatype Pc = Boundary | Spawned(task: Task)

  datatype Harvest = Harvest(ticket: nat, call: CallData, result: string)

  /**
    The agent, its worker and a log: `started` numbers the workers, `produced` is what each tool
    worker stored, `harvested` what main loop appended, `cut` the tool calls that were interrupted.
  */
  datatype Sys = Sys(agent: Agent, worker: Worker, pc: Pc,
                     started: seq<Task>, produced: map<nat, string>,
                     harvested: seq<Harvest>, cut: seq<nat>, continuations: nat)

  const START := Sys(FRESH, NoWorker, Boundary, [], map[], [], [], 0)

  datatype Step =
    | Submit(text: string, configured: bool, startOk: bool)
    | Finished(outcome: Outcome, startOk: bool)
    | BeginWait(created: bool)
    | Announce                       // store EXECUTING_TOOL after pthread_create
    | Poll(startOk: bool)
    | Escape
    | Edit(op: Op)
    | StoreResult(value: string)     // worker
    | Signal                         // worker

  function Ticket(s: Sys): int { |s.started| - 1 }

  /** The last callbacks came in; a reply with a tool call creates a worker. */
  function SysFinished(limit: Option<int>, s: Sys, o: Outcome, startOk: bool): Sys {
    var b := Callback(s.agent, o);
    var done := s.(agent := AfterCallback(b, limit, startOk));
    if Launches(b) && !b.running then
      done.(worker := Computing, pc := Spawned(RunTool(b.pending.value)),
            started := s.started + [RunTool(b.pending.value)])
    else if b.state == WaitingForLlm && !b.interrupt && !b.httpError && b.pending.None? && ShouldContinue(b, limit) then
      done.(continuations := s.continuations + 1)
    else done
  }

  /** The join has returned; the main loop takes what the worker left. */
  function SysPolled(limit: Option<int>, s: Sys, startOk: bool): Sys
    requires s.started != []
  {
    var a := s.agent;
    var done := s.(agent := PollTool(a, limit, startOk), worker := NoWorker);
    if a.interrupt then
      if a.pending.Some? then done.(cut := s.cut + [Ticket(s)]) else done
    else
      var more := done.(continuations := s.continuations + if ShouldContinue(a, limit) then 1 else 0);
      if a.pending.Some? && a.result.Some?
      then more.(harvested := s.harvested + [Harvest(Ticket(s), a.pending.value, a.result.value)])
      else more
  }

  predicate IsEdit(op: Op) { op.PutMark? || op.Rewind? || op.ClearAll? }

  ghost predicate Next(limit: Option<int>, s: Sys, step: Step, t: Sys) {
    var a := s.agent;
    match step
    case Submit(text, configured, startOk) =>
      s.pc.Boundary? && t == s.(agent := Send(a, text, configured, startOk),
                                continuations := if configured then 0 else s.continuations)
    case Finished(o, startOk) =>
      s.pc.Boundary? && a.streaming && t == SysFinished(limit, s, o, startOk)
    case BeginWait(created) =>
      && s.pc.Boundary?
      && t == if created then s.(agent := Launch(a), worker := Computing, pc := Spawned(RunWait),
                                 started := s.started + [RunWait])
              else s.(agent := a.(complete := false, running := false))
    case Announce =>
      && s.pc.Spawned?
      && t == s.(agent := if s.pc.task.RunTool? then ToExecuting(a) else a.(state := ExecutingTool),
                 pc := Boundary)
    case Poll(startOk) =>
      && s.pc.Boundary?
      && if !Harvestable(a) then t == s
         else s.worker == Signalled && s.started != [] && t == SysPolled(limit, s, startOk)
    case Escape =>
      s.pc.Boundary? && t == s.(agent := RequestInterrupt(a))
    case Edit(op) =>
      && s.pc.Boundary? && IsEdit(op) && InRange(a.conv)
      && t == s.(agent := a.(conv := Apply(op, a.conv)))
    case StoreResult(value) =>
      && s.worker == Computing && s.started != []
      && t == if s.started[|s.started| - 1].RunTool?
              then s.(agent := a.(result := Some(value)), worker := Stored,
                      produced := s.produced[|s.started| - 1 := value])
              else s.(worker := Stored)
    case Signal =>
      s.worker == Stored && t == s.(agent := a.(complete := true), worker := Signalled)
  }

  // ----- The invariant

  function Tools(started: seq<Task>): nat {
    if started == [] then 0
    else Tools(started[..|started| - 1]) + if started[|started| - 1].RunTool? then 1 else 0
  }

  ghost predicate OwnResult(s: Sys, h: Harvest) {
    && h.ticket < |s.started| && s.started[h.ticket] == RunTool(h.call)
    && h.ticket in s.produced && s.produced[h.ticket] == h.result
  }

  ghost predicate RunsTool(s: Sys) {
    s.worker != NoWorker && s.started != [] && s.started[|s.started| - 1].RunTool?
  }

  ghost predicate FlagsAgree(s: Sys) {
    var a := s.agent;
    && !a.crashed
    && (s.pc.Boundary? ==> (a.state == ExecutingTool <==> a.running))
    && (s.pc.Spawned? ==> a.running && a.state == (if s.pc.task.RunTool? then WaitingForLlm else Idle)
                          && s.started != [] && s.started[|s.started| - 1] == s.pc.task)
    && (a.streaming <==> s.pc.Boundary? && a.state == WaitingForLlm)
    && (a.interrupt ==> s.pc.Boundary? && a.state != Idle)
  }

  ghost predicate WorkerAgrees(s: Sys) {
    var a := s.agent;
    && (a.running <==> s.worker != NoWorker)
    && (a.complete <==> s.worker == Signalled)
    && (s.worker != NoWorker ==>
          && s.started != []
          && (match s.started[|s.started| - 1]
              case RunTool(call) => a.pending == Some(call)
              case RunWait => a.pending == None))
    && (if RunsTool(s) && s.worker != Computing
        then |s.started| - 1 in s.produced && a.result == Some(s.produced[|s.started| - 1])
        else a.result == None)
  }

  ghost predicate LogAgrees(s: Sys) {
    && (forall h | h in s.harvested :: OwnResult(s, h))
    && (forall i, j | 0 <= i < j < |s.harvested| :: s.harvested[i].ticket < s.harvested[j].ticket)
    && (forall h | h in s.harvested :: s.worker != NoWorker ==> h.ticket < |s.started| - 1)
    && (forall n: nat | n in s.produced :: n < |s.started|)
    && (forall n: nat | n in s.cut :: n < |s.started| && s.started[n].RunTool?)
    && |s.harvested| + |s.cut| + (if RunsTool(s) then 1 else 0) == Tools(s.started)
  }

  ghost predicate Bounded(limit: Option<int>, s: Sys) {
    && s.continuations == s.agent.iterations
    && (limit.Some? ==> s.agent.iterations <= if limit.value < 0 then 0 else limit.value)
  }

  ghost predicate Inv(limit: Option<int>, s: Sys) {
    FlagsAgree(s) && WorkerAgrees(s) && LogAgrees(s) && Bounded(limit, s) && Sound(s.agent.conv)
  }

  // ----- When a step is safe

  /** The reply that makes the loop resubmit and then go idle with the new request in flight. */
  ghost predicate Strands(limit: Option<int>, a: Agent, o: Outcome, startOk: bool) {
    var b := Callback(a, o);
    !a.interrupt && !b.httpError && b.pending.None? && ShouldContinue(b, limit) && startOk
  }

  ghost predicate Gated(limit: Option<int>, s: Sys, step: Step) {
    var a := s.agent;
    match step
    case Submit(_, configured, _) => configured ==> a.state == Idle
    case BeginWait(created) => if created then a.state == Idle && a.pending.None? else a.state != ExecutingTool
    case Finished(o, startOk) => !Strands(limit, a, o, startOk)
    case _ => true
  }

  /** The assumption on providers: a tool-use reply carries a tool call, and silence follows a cancel. */
  ghost predicate Reliable(a: Agent, o: Outcome) {
    && (o.Succeeded? && o.finish == ToolUse ==> Extract(o.blocks).Some?)
    && (o.Silent? ==> a.interrupt)
  }

  lemma ReliableIsGated(limit: Option<int>, a: Agent, o: Outcome, startOk: bool)
    requires Reliable(a, o)
    ensures !Strands(limit, a, o, startOk)
  {
  }

  // ----- One lemma per kind of step: the invariant survives exactly the gated ones

  lemma SubmitExact(limit: Option<int>, s: Sys, step: Step, t: Sys)
    requires Inv(limit, s) && step.Submit? && Next(limit, s, step, t)
    ensures Inv(limit, t) <==> Gated(limit, s, step)
  {
    hide Sound, InterruptTurn;
    SayKeepsSound(s.agent.conv, User, step.text);
  }

  lemma LogGrows(s: Sys, task: Task)
    requires LogAgrees(s) && s.worker == NoWorker
    ensures LogAgrees(s.(worker := Computing, started := s.started + [task]))
  {
    var t := s.(worker := Computing, started := s.started + [task]);
    assert t.started[..|s.started|] == s.started;
    forall h | h in t.harvested ensures OwnResult(t, h) {
      assert OwnResult(s, h);
    }
  }

  lemma FinishedLaunches(limit: Option<int>, s: Sys, step: Step, t: Sys)
    requires Inv(limit, s) && step.Finished? && Next(limit, s, step, t)
    requires Launches(Callback(s.agent, step.outcome))
    ensures Inv(limit, t)
  {
    LaunchShape(limit, s, step, t);
    SayKeepsSound(s.agent.conv, Assistant, step.outcome.text);
    hide Sound, InterruptTurn, Next, Callback, Launches, SysFinished, Extract, LogAgrees;
    LogGrows(s, t.pc.task);
    LogRests(s.(worker := Computing, started := s.started + [t.pc.task]), t);
  }

  /** A reply with a tool call: its text is kept and a worker is launched, nothing else changes. */
  lemma LaunchShape(limit: Option<int>, s: Sys, step: Step, t: Sys)
    requires Inv(limit, s) && step.Finished? && Next(limit, s, step, t)
    requires Launches(Callback(s.agent, step.outcome))
    ensures t.pc.Spawned? && t.pc.task.RunTool? && s.worker == NoWorker
    ensures t == s.(agent := t.agent, worker := Computing, pc := t.pc, started := s.started + [t.pc.task])
    ensures var a := t.agent;
            && a.running && !a.complete && a.result == s.agent.result && a.pending == Some(t.pc.task.call)
            && a.state == WaitingForLlm && !a.streaming && !a.interrupt && !a.crashed
            && a.iterations == s.agent.iterations
            && a.conv == (if step.outcome.text == "" then s.agent.conv
                          else Apply(Say(Assistant, step.outcome.text), s.agent.conv))
  {
    hide Sound, InterruptTurn, LogAgrees, Extract;
  }

  lemma LogRests(s: Sys, t: Sys)
    requires LogAgrees(s)
    requires t == s.(agent := t.agent, pc := t.pc, continuations := t.continuations)
    ensures LogAgrees(t)
  {
    forall h | h in t.harvested ensures OwnResult(t, h) {
      assert OwnResult(s, h);
    }
  }

  lemma FinishedStops(limit: Option<int>, s: Sys, step: Step, t: Sys)
    requires Inv(limit, s) && step.Finished? && Next(limit, s, step, t)
    requires s.agent.interrupt || step.outcome.Failed?
    ensures Inv(limit, t)
  {
    hide Sound, InterruptTurn;
    ApplyKeepsSound(Interrupt, s.agent.conv);
    LogRests(s, t);
  }

  lemma FinishedRests(limit: Option<int>, s: Sys, step: Step, t: Sys)
    requires Inv(limit, s) && step.Finished? && Next(limit, s, step, t)
    requires !s.agent.interrupt && !step.outcome.Failed? && !Launches(Callback(s.agent, step.outcome))
    ensures Inv(limit, t) <==> Gated(limit, s, step)
  {
    hide Sound, InterruptTurn;
    SayKeepsSound(s.agent.conv, Assistant, step.outcome.text);
    LogRests(s, t);
  }

  lemma FinishedExact(limit: Option<int>, s: Sys, step: Step, t: Sys)
    requires Inv(limit, s) && step.Finished? && Next(limit, s, step, t)
    ensures Inv(limit, t) <==> Gated(limit, s, step)
  {
    if Launches(Callback(s.agent, step.outcome)) {
      FinishedLaunches(limit, s, step, t);
    } else if s.agent.interrupt || step.outcome.Failed? {
      FinishedStops(limit, s, step, t);
    } else {
      FinishedRests(limit, s, step, t);
    }
  }

  lemma BeginWaitExact(limit: Option<int>, s: Sys, step: Step, t: Sys)
    requires Inv(limit, s) && step.BeginWait? && Next(limit, s, step, t)
    ensures Inv(limit, t) <==> Gated(limit, s, step)
  {
    hide Sound, InterruptTurn;
    if step.created {
      WaitCreated(limit, s, step, t);
    } else {
      hide LogAgrees;
      LogRests(s, t);
    }
  }

  lemma WaitCreated(limit: Option<int>, s: Sys, step: Step, t: Sys)
    requires Inv(limit, s) && step == BeginWait(true) && Next(limit, s, step, t)
    ensures Inv(limit, t) <==> Gated(limit, s, step)
  {
    hide Sound, InterruptTurn, LogAgrees;
    if s.worker == NoWorker {
      LogGrows(s, RunWait);
      LogRests(s.(worker := Computing, started := s.started + [RunWait]), t);
    }
  }

  /** An assistant message that ends with the call and has the thinking in front of it. */
  ghost predicate Carries(m: Message, call: CallData) {
    var n := |m.blocks|;
    && m.role == Assistant && m.metadata.None? && !m.interrupted
    && n == 1 + (if call.thinking.Some? then 1 else 0) + (if call.redacted.Some? then 1 else 0)
    && m.blocks[n - 1] == Call(call.id, call.name, call.arguments, call.thoughtSignature)
    && (call.thinking.Some? ==> m.blocks[0] == Thinking(call.thinking, call.thinkingSignature))
    && (call.redacted.Some? ==> m.blocks[n - 2] == Redacted(call.redacted))
  }

  /** Behind the old messages stand the one with the call and the one with its result. */
  ghost predicate AppendsPair(before: seq<Message>, call: CallData, result: string, after: seq<Message>) {
    && |after| == |before| + 2 && after[..|before|] == before
    && Carries(after[|before|], call)
    && after[|before| + 1] == Message(Tool, [Answer(call.id, result, false)], None, false)
  }

  lemma PairAppended(before: seq<Message>, call: CallData, result: string)
    ensures AppendsPair(before, call, result, before + [CallMessage(call), ResultMessage(call.id, result)])
  {
    var after := before + [CallMessage(call), ResultMessage(call.id, result)];
    assert after[|before|] == CallMessage(call) && after[..|before|] == before;
  }

  /**
    What harvesting a finished tool does: its own call and what its own worker stored are appended,
    and nothing else.
  */
  lemma PollHarvests(limit: Option<int>, s: Sys, step: Step, t: Sys)
    requires Inv(limit, s) && step.Poll? && Next(limit, s, step, t)
    requires Harvestable(s.agent) && RunsTool(s) && !s.agent.interrupt
    ensures var n := |s.started| - 1;
            var call := s.started[n].call;
            && n in s.produced
            && t.agent.conv == Apply(Pair(call, s.produced[n]), s.agent.conv)
            && AppendsPair(s.agent.conv.messages, call, s.produced[n], t.agent.conv.messages)
            && t.agent.conv.marks == s.agent.conv.marks
            && t.harvested == s.harvested + [Harvest(n, call, s.produced[n])] && t.cut == s.cut
            && !t.agent.running && t.agent.pending.None? && t.agent.state != ExecutingTool && !t.agent.crashed
  {
    PairAppended(s.agent.conv.messages, s.started[|s.started| - 1].call, s.produced[|s.started| - 1]);
    hide AppendsPair;
  }

  /** What an interrupt does to a finished tool: no pair, and the turn is flagged. */
  lemma PollCuts(limit: Option<int>, s: Sys, step: Step, t: Sys)
    requires Inv(limit, s) && step.Poll? && Next(limit, s, step, t)
    requires Harvestable(s.agent) && RunsTool(s) && s.agent.interrupt
    ensures t.agent.conv == Apply(Interrupt, s.agent.conv) && t.agent.state == Idle
    ensures t.harvested == s.harvested && t.cut == s.cut + [|s.started| - 1]
    ensures !t.agent.running && t.agent.pending.None? && !t.agent.interrupt && !t.agent.crashed
  {
  }

  /** After the join the log accounts for the worker that ended, whatever became of the agent. */
  lemma LogTakes(s: Sys, t: Sys)
    requires LogAgrees(s) && s.worker != NoWorker && s.started != []
    requires t == s.(agent := t.agent, worker := NoWorker, harvested := t.harvested, cut := t.cut,
                     continuations := t.continuations)
    requires if !RunsTool(s) then t.harvested == s.harvested && t.cut == s.cut
             else || (t.harvested == s.harvested && t.cut == s.cut + [Ticket(s)])
                  || (&& t.cut == s.cut && Ticket(s) in s.produced
                      && t.harvested == s.harvested + [Harvest(Ticket(s), s.started[Ticket(s)].call,
                                                               s.produced[Ticket(s)])])
    ensures LogAgrees(t)
  {
    forall h | h in t.harvested ensures OwnResult(t, h) {
      assert h in s.harvested ==> OwnResult(s, h);
    }
  }

  lemma PollPair(limit: Option<int>, s: Sys, startOk: bool)
    requires FlagsAgree(s) && WorkerAgrees(s) && Bounded(limit, s)
    requires s.pc.Boundary? && Harvestable(s.agent) && RunsTool(s) && !s.agent.interrupt
    ensures var t := SysPolled(limit, s, startOk); FlagsAgree(t) && WorkerAgrees(t) && Bounded(limit, t)
  {
  }

  lemma PollCut(limit: Option<int>, s: Sys, startOk: bool)
    requires FlagsAgree(s) && WorkerAgrees(s) && Bounded(limit, s)
    requires s.pc.Boundary? && Harvestable(s.agent) && s.agent.interrupt
    ensures var t := SysPolled(limit, s, startOk); FlagsAgree(t) && WorkerAgrees(t) && Bounded(limit, t)
    ensures !RunsTool(s) ==> SysPolled(limit, s, startOk).agent.conv == s.agent.conv
  {
  }

  lemma PollWait(limit: Option<int>, s: Sys, startOk: bool)
    requires FlagsAgree(s) && WorkerAgrees(s) && Bounded(limit, s)
    requires s.pc.Boundary? && Harvestable(s.agent) && !RunsTool(s) && !s.agent.interrupt
    ensures var t := SysPolled(limit, s, startOk); FlagsAgree(t) && WorkerAgrees(t) && Bounded(limit, t)
    ensures SysPolled(limit, s, startOk).agent.conv == s.agent.conv
  {
  }

  /** A finished /wait starts a stream of its own if the last reply asked for a tool; nobody submitted anything. */
  lemma WaitReentersLoop(limit: Option<int>, s: Sys, step: Step, t: Sys)
    requires Inv(limit, s) && step.Poll? && Next(limit, s, step, t)
    requires Harvestable(s.agent) && !RunsTool(s) && !s.agent.interrupt
    ensures t.agent.streaming <==> ShouldContinue(s.agent, limit) && step.startOk
    ensures t.agent.conv == s.agent.conv
  {
    hide Sound, LogAgrees, Bounded;
  }

  lemma PollKeeps(limit: Option<int>, s: Sys, step: Step, t: Sys)
    requires Inv(limit, s) && step.Poll? && Next(limit, s, step, t)
    ensures Inv(limit, t)
  {
    hide LogAgrees, Sound, FlagsAgree, Bounded, PollTool, InterruptTurn;
    if Harvestable(s.agent) {
      if s.agent.interrupt {
        PollCut(limit, s, step.startOk);
        ApplyKeepsSound(Interrupt, s.agent.conv);
        if RunsTool(s) {
          PollCuts(limit, s, step, t);
        }
      } else if RunsTool(s) {
        PollPair(limit, s, step.startOk);
        PollHarvests(limit, s, step, t);
        ApplyKeepsSound(Pair(s.started[Ticket(s)].call, s.produced[Ticket(s)]), s.agent.conv);
      } else {
        PollWait(limit, s, step.startOk);
      }
      LogTakes(s, t);
    }
  }

  lemma WorkerKeeps(limit: Option<int>, s: Sys, step: Step, t: Sys)
    requires Inv(limit, s) && (step.StoreResult? || step.Signal?) && Next(limit, s, step, t)
    ensures Inv(limit, t)
  {
    hide Sound, InterruptTurn, Tools;
    assert forall h | h in s.harvested :: OwnResult(s, h);
  }

  lemma OtherKeeps(limit: Option<int>, s: Sys, step: Step, t: Sys)
    requires Inv(limit, s) && (step.Announce? || step.Escape? || step.Edit?) && Next(limit, s, step, t)
    ensures Inv(limit, t)
  {
    hide Sound, InterruptTurn;
    if step.Edit? {
      ApplyKeepsSound(step.op, s.agent.conv);
    }
  }

  /** From a good state, a step leads to a good state exactly when it is gated. */
  lemma StepExact(limit: Option<int>, s: Sys, step: Step, t: Sys)
    requires Inv(limit, s) && Next(limit, s, step, t)
    ensures Inv(limit, t) <==> Gated(limit, s, step)
  {
    match step
    case Submit(_, _, _) => SubmitExact(limit, s, step, t);
    case Finished(_, _) => FinishedExact(limit, s, step, t);
    case BeginWait(_) => BeginWaitExact(limit, s, step, t);
    case Poll(_) => PollKeeps(limit, s, step, t);
    case StoreResult(_) => WorkerKeeps(limit, s, step, t);
    case Signal => WorkerKeeps(limit, s, step, t);
    case _ => OtherKeeps(limit, s, step, t);
  }

  // ----- Whole runs

  ghost predicate Chain(limit: Option<int>, trace: seq<Sys>, steps: seq<Step>) {
    |trace| == |steps| + 1 && forall i: nat | i < |steps| :: Next(limit, trace[i], steps[i], trace[i + 1])
  }

  /** An agent begins idle, with any sound conversation: empty, copied by a fork or restored. */
  ghost predicate Starts(s: Sys) {
    Sound(s.agent.conv) && s == START.(agent := FRESH.(conv := s.agent.conv))
  }

  ghost predicate IsRun(limit: Option<int>, trace: seq<Sys>, steps: seq<Step>) {
    Chain(limit, trace, steps) && Starts(trace[0])
  }

  ghost predicate GatedUpTo(limit: Option<int>, trace: seq<Sys>, steps: seq<Step>, n: nat)
    requires |trace| == |steps| + 1 && n <= |steps|
  {
    forall i: nat | i < n :: Gated(limit, trace[i], steps[i])
  }

  lemma {:induction false} RunKeepsInv(limit: Option<int>, trace: seq<Sys>, steps: seq<Step>, n: nat)
    requires IsRun(limit, trace, steps) && n <= |steps| && GatedUpTo(limit, trace, steps, n)
    ensures Inv(limit, trace[n])
  {
    if n > 0 {
      RunKeepsInv(limit, trace, steps, n - 1);
      StepExact(limit, trace[n - 1], steps[n - 1], trace[n]);
    }
  }

  /** The first ungated step of a run is where the protocol breaks; until then it is sound. */
  lemma RunIsSafeUntilUngated(limit: Option<int>, trace: seq<Sys>, steps: seq<Step>, n: nat)
    requires IsRun(limit, trace, steps) && n < |steps| && GatedUpTo(limit, trace, steps, n)
    ensures Inv(limit, trace[n + 1]) <==> Gated(limit, trace[n], steps[n])
  {
    RunKeepsInv(limit, trace, steps, n);
    StepExact(limit, trace[n], steps[n], trace[n + 1]);
  }

  /**
    In every interleaving whose steps are gated: no assertion fails, at each main-loop boundary the
    agent executes a tool exactly while its thread runs, every harvested result is the one its own
    worker stored, started = completed + interrupted + running, the loop is bounded and the
    conversation stays paired.
  */
  lemma RunIsSafe(limit: Option<int>, trace: seq<Sys>, steps: seq<Step>, n: nat)
    requires IsRun(limit, trace, steps) && n <= |steps| && GatedUpTo(limit, trace, steps, n)
    ensures Safe(limit, trace[n])
  {
    RunKeepsInv(limit, trace, steps, n);
    InvIsSafe(limit, trace[n]);
  }

  /** The promises of the protocol, in terms of the agent and the log alone. */
  ghost predicate Safe(limit: Option<int>, s: Sys) {
    var a := s.agent;
    && !a.crashed
    && (s.pc.Boundary? ==> (a.state == ExecutingTool <==> a.running))
    && (a.complete ==> a.running)
    && (forall h | h in s.harvested ::
          && h.ticket < |s.started| && s.started[h.ticket] == RunTool(h.call)
          && h.ticket in s.produced && s.produced[h.ticket] == h.result)
    && (forall i, j | 0 <= i < j < |s.harvested| :: s.harvested[i].ticket < s.harvested[j].ticket)
    && Tools(s.started) == |s.harvested| + |s.cut| + (if RunsTool(s) then 1 else 0)
    && (limit.Some? ==> s.continuations <= if limit.value < 0 then 0 else limit.value)
    && Paired(a.conv.messages)
  }

  lemma InvIsSafe(limit: Option<int>, s: Sys)
    requires Inv(limit, s)
    ensures Safe(limit, s)
  {
    forall h | h in s.harvested
      ensures h.ticket < |s.started| && s.started[h.ticket] == RunTool(h.call)
              && h.ticket in s.produced && s.produced[h.ticket] == h.result
    {
      assert OwnResult(s, h);
    }
  }

  // ----- Providers that cancel: IDLE is gate enough

  /** The gate a user sees: submissions and /wait start in IDLE. */
  predicate StartsIdle(a: Agent, step: Step) {
    match step
    case Submit(_, configured, _) => configured ==> a.state == Idle
    case BeginWait(_) => a.state == Idle
    case _ => true
  }

  /** Cancelling works: an interrupted request delivers no tool call any more. */
  predicate Cancels(a: Agent, o: Outcome) {
    a.interrupt ==> !o.Succeeded? || Extract(o.blocks).None?
  }

  ghost predicate WellServed(a: Agent, step: Step) {
    step.Finished? ==> Reliable(a, step.outcome) && Cancels(a, step.outcome)
  }

  ghost predicate NothingStale(s: Sys) { s.worker == NoWorker ==> s.agent.pending.None? }

  lemma IdleStepIsGated(limit: Option<int>, s: Sys, step: Step, t: Sys)
    requires Inv(limit, s) && NothingStale(s) && Next(limit, s, step, t)
    requires StartsIdle(s.agent, step) && WellServed(s.agent, step)
    ensures Gated(limit, s, step) && NothingStale(t)
  {
    hide Sound, InterruptTurn, LogAgrees, Bounded, Tools;
  }

  /**
    With providers that cancel and report tool use only with a tool call, starting submissions and
    /wait in IDLE gates every step, so every such run is safe.
  */
  lemma {:induction false} IdleRunIsSafe(limit: Option<int>, trace: seq<Sys>, steps: seq<Step>, n: nat)
    requires IsRun(limit, trace, steps) && n <= |steps|
    requires forall i: nat | i < n :: StartsIdle(trace[i].agent, steps[i]) && WellServed(trace[i].agent, steps[i])
    ensures GatedUpTo(limit, trace, steps, n) && NothingStale(trace[n]) && Safe(limit, trace[n])
  {
    hide *;
    StartRests(limit, trace, steps);
    if n > 0 {
      IdleRunIsSafe(limit, trace, steps, n - 1);
      RunKeepsInv(limit, trace, steps, n - 1);
      RunStep(limit, trace, steps, n - 1);
      IdleStepIsGated(limit, trace[n - 1], steps[n - 1], trace[n]);
      GatedOneMore(limit, trace, steps, n - 1);
    }
    RunIsSafe(limit, trace, steps, n);
  }

  lemma StartRests(limit: Option<int>, trace: seq<Sys>, steps: seq<Step>)
    requires IsRun(limit, trace, steps)
    ensures |trace| == |steps| + 1 && GatedUpTo(limit, trace, steps, 0) && NothingStale(trace[0])
  {
    hide Next, Sound;
  }

  lemma RunStep(limit: Option<int>, trace: seq<Sys>, steps: seq<Step>, i: nat)
    requires IsRun(limit, trace, steps) && i < |steps|
    ensures |trace| == |steps| + 1 && Next(limit, trace[i], steps[i], trace[i + 1])
  {
    hide Next;
  }

  lemma GatedOneMore(limit: Option<int>, trace: seq<Sys>, steps: seq<Step>, n: nat)
    requires n < |steps| && |trace| == |steps| + 1 && GatedUpTo(limit, trace, steps, n)
    requires Gated(limit, trace[n], steps[n])
    ensures GatedUpTo(limit, trace, steps, n + 1)
  {
    hide Gated;
  }

  lemma PollStep(limit: Option<int>, s: Sys) returns (t: Sys)
    requires Inv(limit, s) && s.pc.Boundary? && s.worker == Signalled
    ensures Next(limit, s, Poll(true), t) && !t.agent.running
  {
    hide Sound, InterruptTurn;
    t := SysPolled(limit, s, true);
  }

  lemma ChainCons(limit: Option<int>, s: Sys, step: Step, trace: seq<Sys>, steps: seq<Step>)
    requires Chain(limit, trace, steps) && Next(limit, s, step, trace[0])
    ensures Chain(limit, [s] + trace, [step] + steps)
  {
    forall i: nat | i <= |steps|
      ensures Next(limit, ([s] + trace)[i], ([step] + steps)[i], ([s] + trace)[i + 1])
    {
      assert i > 0 ==> Next(limit, trace[i - 1], steps[i - 1], trace[i]);
    }
  }

  ghost predicate BringsHome(limit: Option<int>, s: Sys, steps: seq<Step>, trace: seq<Sys>) {
    && Chain(limit, trace, steps) && trace[0] == s
    && (forall step | step in steps :: step.StoreResult? || step.Signal? || step.Poll?)
    && Inv(limit, trace[|steps|])
    && !trace[|steps|].agent.running && trace[|steps|].agent.state != ExecutingTool
  }

  lemma HomeFromSignalled(limit: Option<int>, s: Sys) returns (steps: seq<Step>, trace: seq<Sys>)
    requires Inv(limit, s) && s.pc.Boundary? && s.worker == Signalled
    ensures |steps| == 1 && BringsHome(limit, s, steps, trace)
  {
    var t := PollStep(limit, s);
    PollKeeps(limit, s, Poll(true), t);
    steps, trace := [Poll(true)], [s, t];
  }

  lemma HomeFromStored(limit: Option<int>, s: Sys) returns (steps: seq<Step>, trace: seq<Sys>)
    requires Inv(limit, s) && s.pc.Boundary? && s.worker == Stored
    ensures |steps| == 2 && BringsHome(limit, s, steps, trace)
  {
    hide Sound, InterruptTurn, LogAgrees, FlagsAgree, WorkerAgrees, Bounded, Inv;
    var t := s.(agent := s.agent.(complete := true), worker := Signalled);
    WorkerKeeps(limit, s, Signal, t);
    steps, trace := HomeFromSignalled(limit, t);
    ChainCons(limit, s, Signal, trace, steps);
    steps, trace := [Signal] + steps, [s] + trace;
  }

  /** A running worker can always be brought home by its own steps and one poll. */
  lemma WorkerComesHome(limit: Option<int>, s: Sys) returns (steps: seq<Step>, trace: seq<Sys>)
    requires Inv(limit, s) && s.pc.Boundary? && s.agent.running
    ensures |steps| <= 3 && BringsHome(limit, s, steps, trace)
  {
    hide Sound, InterruptTurn, LogAgrees, FlagsAgree, Bounded;
    if s.worker == Signalled {
      steps, trace := HomeFromSignalled(limit, s);
    } else if s.worker == Stored {
      steps, trace := HomeFromStored(limit, s);
    } else {
      var n := |s.started| - 1;
      var t := if s.started[n].RunTool?
               then s.(agent := s.agent.(result := Some("")), worker := Stored, produced := s.produced[n := ""])
               else s.(worker := Stored);
      WorkerKeeps(limit, s, StoreResult(""), t);
      steps, trace := HomeFromStored(limit, t);
      ChainCons(limit, s, StoreResult(""), trace, steps);
      steps, trace := [StoreResult("")] + steps, [s] + trace;
    }
  }

  // ----- The two ways out of the protocol, as concrete runs

  const ASKED := Conv([TextMessage(User, "x")], [])
  const ASKED_CUT := Conv([TextMessage(User, "x").(interrupted := true)], [])

  /** The agent after the interrupted reply: idle, with the call still pending. */
  function Stale(call: CallData, state: AgentState, running: bool, complete: bool): Agent {
    Agent(state, running, complete, None, Some(call), false, 0, Some(ToolUse), false, "", false, ASKED_CUT, false)
  }

  lemma ChainJoin(limit: Option<int>, a: seq<Sys>, xs: seq<Step>, b: seq<Sys>, ys: seq<Step>)
    requires Chain(limit, a, xs) && Chain(limit, b, ys) && a[|xs|] == b[0]
    ensures Chain(limit, a + b[1..], xs + ys)
  {
    var c, zs := a + b[1..], xs + ys;
    forall i: nat | i < |zs| ensures Next(limit, c[i], zs[i], c[i + 1]) {
      if i < |xs| {
        assert Next(limit, a[i], xs[i], a[i + 1]);
      } else {
        assert c[i] == b[i - |xs|];
        assert Next(limit, b[i - |xs|], ys[i - |xs|], b[i - |xs| + 1]);
      }
    }
  }

  lemma StaleCallArises(call: CallData) returns (trace: seq<Sys>, steps: seq<Step>)
    requires call.thinking.None? ==> call.thinkingSignature.None?
    ensures |steps| == 3 && IsRun(None, trace, steps) && GatedUpTo(None, trace, steps, 3) && trace[0] == START
    ensures trace[3] == START.(agent := Stale(call, Idle, false, false))
  {
    var reply := Succeeded("", ToolUse, CallMessage(call).blocks);
    StoredCallIsExtracted(call);
    steps := [Submit("x", true, true), Escape, Finished(reply, true)];
    var s1 := START.(agent := Send(FRESH, "x", true, true));
    var s2 := s1.(agent := RequestInterrupt(s1.agent));
    var s3 := SysFinished(None, s2, reply, true);
    assert s2.agent.conv.messages == ASKED.messages;
    AskedIsCut();
    hide Extract, CallMessage, InterruptTurn, Sound;
    assert s3 == START.(agent := Stale(call, Idle, false, false));
    trace := [START, s1, s2, s3];
    assert Starts(START) by { EmptyIsSound(); }
  }

  lemma AskedIsCut()
    ensures InterruptTurn(ASKED.messages) == ASKED_CUT.messages
  {
    assert LastUser(ASKED.messages) == 0;
  }

  lemma EmptyIsSound()
    ensures Sound(EMPTY)
  {
  }

  lemma StalePoll(call: CallData, s: Sys)
    requires s.agent == Stale(call, ExecutingTool, true, true) && s.started != []
    ensures SysPolled(None, s, true).agent.crashed
  {
    assert CompleteTool(s.agent).crashed;
  }

  lemma StaleCallHarvested(call: CallData) returns (trace: seq<Sys>, steps: seq<Step>)
    ensures |steps| == 5 && Chain(None, trace, steps) && steps[0] == BeginWait(true)
    ensures trace[0] == START.(agent := Stale(call, Idle, false, false))
    ensures forall i: nat | 0 < i < 5 :: Gated(None, trace[i], steps[i])
    ensures trace[5].agent.crashed
  {
    steps := [BeginWait(true), Announce, StoreResult(""), Signal, Poll(true)];
    var s3 := START.(agent := Stale(call, Idle, false, false));
    var s4 := Sys(Stale(call, Idle, true, false), Computing, Spawned(RunWait), [RunWait], map[], [], [], 0);
    var s5 := s4.(agent := Stale(call, ExecutingTool, true, false), pc := Boundary);
    var s6 := s5.(worker := Stored);
    var s7 := s6.(agent := Stale(call, ExecutingTool, true, true), worker := Signalled);
    StalePoll(call, s7);
    hide PollTool, AfterCallback, Send, Extract;
    trace := [s3, s4, s5, s6, s7, SysPolled(None, s7, true)];
  }

  /**
    A provider without a cancel operation may still deliver a tool call to an interrupted request (the
    providers in the repository all cancel, see `Cancels`); the call stays pending in IDLE, and a
    /wait issued then is harvested as if it were that call, with no result.
  */
  lemma StaleCallCrashes(call: CallData) returns (trace: seq<Sys>, steps: seq<Step>)
    requires call.thinking.None? ==> call.thinkingSignature.None?
    ensures IsRun(None, trace, steps) && |steps| == 8 && trace[0] == START
    ensures steps[3] == BeginWait(true)
    ensures trace[3].agent.state == Idle && trace[3].agent.pending == Some(call)
    ensures forall i: nat | i < 8 && i != 3 :: Gated(None, trace[i], steps[i])
    ensures trace[8].agent.crashed
  {
    var a, xs := StaleCallArises(call);
    var b, ys := StaleCallHarvested(call);
    ChainJoin(None, a, xs, b, ys);
    trace, steps := a + b[1..], xs + ys;
    forall i: nat | i < 8 && i != 3 ensures Gated(None, trace[i], steps[i]) {
      assert i < 3 ==> Gated(None, a[i], xs[i]);
      assert i > 3 ==> Gated(None, b[i - 3], ys[i - 3]);
    }
  }

  /** A tool-use reply without a tool call leaves the agent IDLE with a request in flight. */
  lemma BareToolUseStrands() returns (trace: seq<Sys>, steps: seq<Step>)
    ensures IsRun(None, trace, steps) && |steps| == 2 && trace[0] == START
    ensures steps[1] == Finished(Succeeded("", ToolUse, []), true)
    ensures trace[2].agent.state == Idle && trace[2].agent.streaming
  {
    steps := [Submit("x", true, true), Finished(Succeeded("", ToolUse, []), true)];
    var s0 := START;
    var s1 := s0.(agent := Send(s0.agent, "x", true, true));
    var s2 := SysFinished(None, s1, Succeeded("", ToolUse, []), true);
    trace := [s0, s1, s2];
  }
}
