/**
  The handlers of the main loop and of the worker as they update an agent in place.
  Each is proved against its effect in `Turn`; the preconditions are the program's assertions,
  which `Turn.RunIsSafe` shows to hold in every gated run.
*/
module TurnAgent {
  import opened Wrappers
  import opened Conversation
  import opened MessageStorage
  import opened ToolCallExtraction
  import opened Turn

  /** The thread of a finished tool is still there, and so is the result its call is answered with. */
  predicate ReadyToHarvest(a: Agent) { a.running && (a.pending.Some? && !a.interrupt ==> a.result.Some?) }

  class AgentContext {
    var state: AgentState
    var running: bool
    var complete: bool
    var result: Option<string>
    var pending: Option<CallData>
    var interrupt: bool
    var iterations: nat
    var finish: Option<Finish>
    var httpError: bool
    var response: string
    var streaming: bool
    const log: MessageStore

    ghost predicate Valid()
      reads this, log
    {
      log.Valid()
    }

    ghost function Abs(): Agent
      requires Valid()
      reads this, log, log.store
    {
      Agent(state, running, complete, result, pending, interrupt, iterations, finish, httpError,
            response, streaming, log.Abs(), false)
    }

    constructor ()
      ensures Valid() && fresh(log) && fresh(log.store)
      ensures Abs() == Turn.FRESH
    {
      state, running, complete, result, pending := Idle, false, false, None, None;
      interrupt, iterations, finish, httpError := false, 0, None, false;
      response, streaming := "", false;
      log := new MessageStore();
    }

    // ----- agent_state.c

    method TransitionToWaitingForLlm()
      requires Valid() && state == Idle
      modifies this`state
      ensures Valid() && Abs() == ToWaiting(old(Abs()))
    {
      state := WaitingForLlm;
    }

    method TransitionToIdle()
      requires Valid() && state == WaitingForLlm
      modifies this`state
      ensures Valid() && Abs() == ToIdle(old(Abs()))
    {
      state := Idle;
    }

    method TransitionToExecutingTool()
      requires Valid() && state == WaitingForLlm
      modifies this`state
      ensures Valid() && Abs() == ToExecuting(old(Abs()))
    {
      state := ExecutingTool;
    }

    method TransitionFromExecutingTool()
      requires Valid() && state == ExecutingTool
      modifies this`state
      ensures Valid() && Abs() == FromExecuting(old(Abs()))
    {
      state := WaitingForLlm;
    }

    // ----- Requests

    method SubmitToolLoopContinuation(startOk: bool)
      requires Valid() && state == WaitingForLlm
      modifies this
      ensures Valid() && Abs() == StartStream(old(Abs()), startOk)
    {
      if startOk {
        streaming := true;
      } else {
        TransitionToIdle();
      }
    }

    method SendToLlm(text: string, configured: bool, startOk: bool)
      requires Valid() && (configured ==> state == Idle)
      modifies this, log, log.store
      ensures Valid() && (log.store == old(log.store) || fresh(log.store))
      ensures Abs() == Send(old(Abs()), text, configured, startOk)
    {
      if !configured {
        return;
      }
      log.AddMessage(TextMessage(User, text));
      response := "";
      iterations := 0;
      TransitionToWaitingForLlm();
      SubmitToolLoopContinuation(startOk);
    }

    // ----- repl_tool.c

    /** Up to and including the creation of the thread; `TransitionToExecutingTool` comes after it. */
    method StartToolExecution()
      requires Valid() && pending.Some? && !running
      modifies this
      ensures Valid() && Abs() == LaunchTool(old(Abs()))
    {
      complete := false;
      running := true;
    }

    method WorkerStore(value: string)
      requires Valid()
      modifies this`result
      ensures Valid() && Abs() == old(Abs()).(result := Some(value))
    {
      result := Some(value);
    }

    method WorkerSignal()
      requires Valid()
      modifies this`complete
      ensures Valid() && Abs() == old(Abs()).(complete := true)
    {
      complete := true;
    }

    method CleanupThread()
      requires Valid() && state == ExecutingTool
      modifies this
      ensures Valid() && Abs() == FromExecuting(ClearThread(old(Abs())))
    {
      running := false;
      complete := false;
      result := None;
      TransitionFromExecutingTool();
    }

    method CompleteToolExecution()
      requires Valid() && state == ExecutingTool && running && complete && pending.Some? && result.Some?
      modifies this, log, log.store
      ensures Valid() && (log.store == old(log.store) || fresh(log.store))
      ensures Abs() == CompleteTool(old(Abs()))
    {
      var call, json := pending.value, result.value;
      log.AddMessage(CallMessage(call));
      log.AddMessage(ResultMessage(call.id, json));
      ghost var before := old(log.Abs()).messages;
      assert log.Abs().messages == before + [CallMessage(call), ResultMessage(call.id, json)];
      pending := None;
      CleanupThread();
    }

    // ----- repl_tool_completion.c

    /** A tool's result becomes a pair; a finished /wait leaves nothing to keep. */
    method Harvest()
      requires Valid() && state == ExecutingTool && running && complete
      requires pending.Some? ==> result.Some?
      modifies this, log, log.store
      ensures Valid() && (log.store == old(log.store) || fresh(log.store))
      ensures Abs() == Harvested(old(Abs())) && state == WaitingForLlm
    {
      if pending.Some? {
        CompleteToolExecution();
      } else {
        CleanupThread();
      }
    }

    method HandleToolCompletion(limit: Option<int>, startOk: bool)
      requires Valid() && state == ExecutingTool && running && complete
      requires pending.Some? ==> result.Some?
      modifies this, log, log.store
      ensures Valid() && (log.store == old(log.store) || fresh(log.store))
      ensures Abs() == ToolCompletion(old(Abs()), limit, startOk)
    {
      hide Harvested;
      Harvest();
      if finish == Some(ToolUse) && (limit.Some? ==> iterations < limit.value) {
        iterations := iterations + 1;
        SubmitToolLoopContinuation(startOk);
      } else {
        TransitionToIdle();
      }
    }

    method HandleInterruptedToolCompletion()
      requires Valid() && state == ExecutingTool
      modifies this, log.store
      ensures Valid()
      ensures Abs() == InterruptedCompletion(old(Abs()))
    {
      interrupt := false;
      if pending.None? {
        CleanupThread();
        TransitionToIdle();
        return;
      }
      pending := None;
      CleanupThread();
      log.InterruptLastTurn();
      TransitionToIdle();
    }

    method PollCompletion(limit: Option<int>, startOk: bool)
      requires Valid()
      requires Harvestable(Abs()) ==> ReadyToHarvest(Abs())
      modifies this, log, log.store
      ensures Valid() && (log.store == old(log.store) || fresh(log.store))
      ensures Abs() == PollTool(old(Abs()), limit, startOk)
    {
      if state == ExecutingTool && complete {
        if interrupt {
          HandleInterruptedToolCompletion();
        } else {
          HandleToolCompletion(limit, startOk);
        }
      }
    }

    // ----- repl_event_handlers.c

    method HandleInterruptedLlmCompletion()
      requires Valid() && state == WaitingForLlm
      modifies this, log.store
      ensures Valid()
      ensures Abs() == InterruptedLlm(old(Abs()))
    {
      interrupt := false;
      httpError := false;
      response := "";
      log.InterruptLastTurn();
      TransitionToIdle();
    }

    method KeepResponseText()
      requires Valid()
      modifies this, log, log.store
      ensures Valid() && (log.store == old(log.store) || fresh(log.store))
      ensures Abs() == KeepResponse(old(Abs()))
    {
      if response != "" {
        log.AddMessage(TextMessage(Assistant, response));
      }
      response := "";
    }

    method HandleRequestSuccess(limit: Option<int>, startOk: bool)
      requires Valid() && state == WaitingForLlm && !running
      modifies this, log, log.store
      ensures Valid() && (log.store == old(log.store) || fresh(log.store))
      ensures Abs() == RequestSuccess(old(Abs()), limit, startOk)
    {
      hide LaunchTool, StartStream;
      KeepResponseText();
      if pending.Some? {
        StartToolExecution();
        return;
      }
      if finish == Some(ToolUse) && (limit.Some? ==> iterations < limit.value) {
        iterations := iterations + 1;
        SubmitToolLoopContinuation(startOk);
      }
    }

    /** What the provider's last callbacks leave in the agent. */
    method CompletionCallback(o: Outcome)
      requires Valid()
      modifies this
      ensures Valid() && Abs() == Callback(old(Abs()), o)
    {
      streaming := false;
      response := o.text;
      httpError := o.Failed?;
      if o.Succeeded? {
        finish := Some(o.finish);
        pending := Extract(o.blocks);
      }
    }

    method ProcessCompletedRequest(limit: Option<int>, startOk: bool)
      requires Valid() && !running
      modifies this, log, log.store
      ensures Valid() && (log.store == old(log.store) || fresh(log.store))
      ensures Abs() == AfterCallback(old(Abs()), limit, startOk)
    {
      if state != WaitingForLlm {
        return;
      }
      if interrupt {
        HandleInterruptedLlmCompletion();
        return;
      }
      if httpError {
        httpError := false;
        response := "";
        TransitionToIdle();
        return;
      }
      var launches := pending.Some?;
      HandleRequestSuccess(limit, startOk);
      if !launches && state == WaitingForLlm {
        TransitionToIdle();
      }
    }

    method InterruptRequest()
      requires Valid()
      modifies this`interrupt
      ensures Valid() && Abs() == RequestInterrupt(old(Abs()))
    {
      if state == Idle {
        return;
      }
      interrupt := true;
    }

    // ----- commands_wait.c

    method BeginWait(created: bool)
      requires Valid()
      modifies this
      ensures Valid()
      ensures Abs() == if created then Launch(old(Abs())) else old(Abs()).(complete := false, running := false)
    {
      complete := false;
      running := true;
      if !created {
        running := false;
      }
    }

    method AnnounceWait()
      requires Valid()
      modifies this`state
      ensures Valid() && Abs() == old(Abs()).(state := ExecutingTool)
    {
      state := ExecutingTool;
    }
  }

  ghost predicate Apart(agents: seq<AgentContext>)
    reads agents, set a | a in agents :: a.log
  {
    forall i, j | 0 <= i < j < |agents| ::
      agents[i] != agents[j] && agents[i].log != agents[j].log && agents[i].log.store != agents[j].log.store
  }

  /** The agents a poll looks at: all in the array, or the current one while the array is empty. */
  function Polled(agents: seq<AgentContext>, current: AgentContext?): seq<AgentContext> {
    if agents != [] then agents else if current != null then [current] else []
  }

  /** Polls those agents; each sees exactly its own completion. */
  method PollToolCompletions(agents: seq<AgentContext>, current: AgentContext?, limit: Option<int>, startOk: seq<bool>)
    requires Apart(Polled(agents, current)) && |startOk| == |Polled(agents, current)|
    requires forall a | a in Polled(agents, current) :: a.Valid()
    requires forall a | a in Polled(agents, current) :: Harvestable(a.Abs()) ==> ReadyToHarvest(a.Abs())
    modifies Polled(agents, current), set a | a in Polled(agents, current) :: a.log
    modifies set a | a in Polled(agents, current) :: a.log.store
    ensures forall i | 0 <= i < |Polled(agents, current)| ::
              var a := Polled(agents, current)[i];
              a.Valid() && a.Abs() == PollTool(old(a.Abs()), limit, startOk[i])
  {
    var polled := Polled(agents, current);
    PollEach(polled, limit, startOk);
  }

  method PollEach(agents: seq<AgentContext>, limit: Option<int>, startOk: seq<bool>)
    requires Apart(agents) && |startOk| == |agents|
    requires forall a | a in agents :: a.Valid()
    requires forall a | a in agents :: Harvestable(a.Abs()) ==> ReadyToHarvest(a.Abs())
    modifies agents, set a | a in agents :: a.log, set a | a in agents :: a.log.store
    ensures Apart(agents)
    ensures forall i | 0 <= i < |agents| ::
              agents[i].Valid() && agents[i].Abs() == PollTool(old(agents[i].Abs()), limit, startOk[i])
  {
    hide PollTool, Harvestable, ReadyToHarvest, AgentContext.Valid, AgentContext.Abs;
    var i := 0;
    while i < |agents|
      invariant 0 <= i <= |agents|
      invariant Apart(agents)
      invariant forall j | 0 <= j < |agents| :: agents[j].Valid()
      invariant forall j | 0 <= j < |agents| ::
                  agents[j].log.store == old(agents[j].log.store) || fresh(agents[j].log.store)
      invariant forall j | i <= j < |agents| ::
                  agents[j].log.store == old(agents[j].log.store) && agents[j].Abs() == old(agents[j].Abs())
      invariant forall j | 0 <= j < i :: agents[j].Abs() == PollTool(old(agents[j].Abs()), limit, startOk[j])
    {
      assert agents[i] in agents;
      label before:
      agents[i].PollCompletion(limit, startOk[i]);
      forall j | 0 <= j < |agents| && j != i
        ensures agents[j].log.store == old@before(agents[j].log.store)
        ensures agents[j].Valid() && agents[j].Abs() == old@before(agents[j].Abs())
      {
        assert agents[j] != agents[i] && agents[j].log != agents[i].log;
      }
      i := i + 1;
    }
  }
}
