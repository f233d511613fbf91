/**
  What the steps of a turn do to the conversation and to the tool loop, said in terms of messages,
  states and counts alone.
*/
module TurnEffects {
  import opened Wrappers
  import opened Sequences
  import opened Conversation
  import opened ToolCallExtraction
  import opened Turn

  /** Message `i` belongs to the last turn: a user message is there or earlier, and none comes later. */
  ghost predicate InLastTurn(ms: seq<Message>, i: nat) {
    && (exists j | 0 <= j <= i && j < |ms| :: ms[j].role == User)
    && forall j | i < j < |ms| :: ms[j].role != User
  }

  /** The messages of the last turn are flagged, the others are as they were. */
  ghost predicate LastTurnFlagged(before: seq<Message>, after: seq<Message>) {
    && |after| == |before|
    && forall i | 0 <= i < |before| ::
         after[i] == if InLastTurn(before, i) then before[i].(interrupted := true) else before[i]
  }

  lemma InterruptFlags(ms: seq<Message>)
    ensures LastTurnFlagged(ms, InterruptTurn(ms))
  {
    var k := LastUser(ms);
    forall i | 0 <= i < |ms| ensures InLastTurn(ms, i) <==> k <= i {
      if k <= i {
        assert ms[k].role == User;
      }
    }
  }

  // ----- Messages

  /** A submission appends the user's text, whenever a model is configured. */
  lemma SubmitStores(limit: Option<int>, s: Sys, step: Step, t: Sys)
    requires Inv(limit, s) && step.Submit? && Next(limit, s, step, t)
    ensures t.agent.conv.marks == s.agent.conv.marks
    ensures t.agent.conv.messages ==
            s.agent.conv.messages +
            if step.configured then [Message(User, [Text(step.text)], None, false)] else []
  {
    hide Sound, LogAgrees, WorkerAgrees, Bounded;
  }

  /**
    The end of a request: an interrupt flags the last turn, an error stores nothing, and otherwise
    the streamed text is appended as the assistant's message, if there is any.
  */
  lemma FinishedStores(limit: Option<int>, s: Sys, step: Step, t: Sys)
    requires Inv(limit, s) && step.Finished? && Next(limit, s, step, t)
    ensures var was, text := s.agent.conv.messages, step.outcome.text;
            && t.agent.conv.marks == s.agent.conv.marks
            && (s.agent.interrupt ==> LastTurnFlagged(was, t.agent.conv.messages))
            && (!s.agent.interrupt && step.outcome.Failed? ==> t.agent.conv.messages == was)
            && (!s.agent.interrupt && !step.outcome.Failed? ==>
                  t.agent.conv.messages ==
                  was + if text == "" then [] else [Message(Assistant, [Text(text)], None, false)])
  {
    hide Sound, InterruptTurn, LogAgrees, WorkerAgrees, Bounded, Extract, LastTurnFlagged;
    if s.agent.interrupt {
      InterruptFlags(s.agent.conv.messages);
    } else {
      KeptResponse(limit, s, step, t);
    }
  }

  lemma KeptResponse(limit: Option<int>, s: Sys, step: Step, t: Sys)
    requires Inv(limit, s) && step.Finished? && Next(limit, s, step, t) && !s.agent.interrupt
    ensures t.agent.conv.marks == s.agent.conv.marks
    ensures t.agent.conv.messages ==
            s.agent.conv.messages +
            if step.outcome.Failed? || step.outcome.text == "" then []
            else [Message(Assistant, [Text(step.outcome.text)], None, false)]
  {
    hide AfterCallback, Sound, LogAgrees, Bounded, Extract;
    RequestDone(Callback(s.agent, step.outcome), limit, step.startOk);
  }

  /** The text of a response becomes a message; nothing else changes but the response itself. */
  lemma KeptText(a: Agent)
    ensures var b := KeepResponse(a);
            && b == a.(conv := b.conv, response := "") && b.conv.marks == a.conv.marks
            && b.conv.messages ==
               a.conv.messages + if a.response == "" then [] else [Message(Assistant, [Text(a.response)], None, false)]
  {
    Nothing(a.conv.messages);
  }

  lemma SuccessKeeps(a: Agent, limit: Option<int>, startOk: bool)
    requires a.state == WaitingForLlm && !a.streaming
    ensures RequestSuccess(a, limit, startOk).conv == KeepResponse(a).conv
    ensures var again := a.finish == Some(ToolUse) && (limit.None? || a.iterations < limit.value);
            var b := RequestSuccess(a, limit, startOk);
            a.pending.None? ==>
              && b.iterations == a.iterations + (if again then 1 else 0)
              && b.streaming == (again && startOk)
              && b.state == (if again && !startOk then Idle else WaitingForLlm)
              && b.finish == a.finish && b.pending.None?
  {
    var b := KeepResponse(a);
    KeptText(a);
    hide KeepResponse, Continue, LaunchTool;
    AgainIs(b, startOk);
    LaunchKeeps(b);
  }

  lemma AgainIs(a: Agent, startOk: bool)
    requires a.state == WaitingForLlm && !a.streaming
    ensures Continue(a, startOk) == a.(iterations := a.iterations + 1, streaming := startOk,
                                       state := if startOk then WaitingForLlm else Idle)
  {
  }

  lemma LaunchKeeps(a: Agent)
    ensures LaunchTool(a).conv == a.conv
  {
  }

  /** What is kept of a request that was not interrupted. */
  lemma RequestDone(a: Agent, limit: Option<int>, startOk: bool)
    requires a.state == WaitingForLlm && !a.interrupt && !a.streaming
    ensures var b := AfterCallback(a, limit, startOk);
            && b.conv.marks == a.conv.marks
            && b.conv.messages ==
               a.conv.messages +
               if a.httpError || a.response == "" then []
               else [Message(Assistant, [Text(a.response)], None, false)]
  {
    KeptText(a);
    SuccessKeeps(a, limit, startOk);
    hide KeepResponse, RequestSuccess;
    Nothing(a.conv.messages);
  }

  /** Polling appends the pair of a finished tool, flags the turn of an interrupted one, or stores nothing. */
  lemma PollStores(limit: Option<int>, s: Sys, step: Step, t: Sys)
    requires Inv(limit, s) && step.Poll? && Next(limit, s, step, t)
    ensures var was := s.agent.conv.messages;
            var done := s.agent.state == ExecutingTool && s.agent.complete;
            && t.agent.conv.marks == s.agent.conv.marks
            && (done ==> s.started != [])
            && (!done || s.started[|s.started| - 1].RunWait? ==> t.agent.conv.messages == was)
            && (done && s.started[|s.started| - 1].RunTool? && s.agent.interrupt ==>
                  LastTurnFlagged(was, t.agent.conv.messages))
            && (done && s.started[|s.started| - 1].RunTool? && !s.agent.interrupt ==>
                  |s.started| - 1 in s.produced &&
                  AppendsPair(was, s.started[|s.started| - 1].call, s.produced[|s.started| - 1],
                              t.agent.conv.messages))
  {
    if Harvestable(s.agent) {
      if RunsTool(s) && !s.agent.interrupt {
        PollHarvests(limit, s, step, t);
      } else if RunsTool(s) {
        PollCuts(limit, s, step, t);
        InterruptFlags(s.agent.conv.messages);
      } else if s.agent.interrupt {
        PollCut(limit, s, step.startOk);
      } else {
        PollWait(limit, s, step.startOk);
      }
    }
    hide Sound, InterruptTurn, LogAgrees, Bounded, AppendsPair, LastTurnFlagged, PollTool, CallMessage, ResultMessage;
  }

  /** No other step touches the conversation but an edit by the user. */
  lemma OthersStoreNothing(limit: Option<int>, s: Sys, step: Step, t: Sys)
    requires Inv(limit, s) && Next(limit, s, step, t)
    requires !step.Submit? && !step.Finished? && !step.Poll?
    ensures !step.Edit? ==> t.agent.conv == s.agent.conv
    ensures step.Edit? && step.op.PutMark? ==>
              var c := s.agent.conv;
              t.agent.conv == Conv(c.messages, c.marks + [Mark(step.op.tag, |c.messages|)])
    ensures step.Edit? && step.op.ClearAll? ==> t.agent.conv == Conv([], [])
  {
    hide Sound, LogAgrees, WorkerAgrees, Bounded;
  }

  // ----- The tool loop

  /** The first tool call of a reply starts a worker; the others do not. */
  lemma CallStartsWorker(limit: Option<int>, s: Sys, step: Step, t: Sys, k: nat)
    requires Inv(limit, s) && step.Finished? && Next(limit, s, step, t) && !s.agent.interrupt
    requires step.outcome.Succeeded? && k < |step.outcome.blocks| && step.outcome.blocks[k].Call?
    requires forall j | 0 <= j < k :: !step.outcome.blocks[j].Call?
    ensures |t.started| == |s.started| + 1 && t.started[..|s.started|] == s.started
    ensures var task, b := t.started[|s.started|], step.outcome.blocks[k];
            && task.RunTool? && t.pc == Spawned(task) && t.agent.pending == Some(task.call)
            && task.call.id == b.id && task.call.name == b.name && task.call.arguments == b.arguments
            && task.call.thoughtSignature == b.thoughtSignature
    ensures t.agent.running && !t.agent.complete && t.agent.finish == Some(step.outcome.finish)
  {
    assert FirstCall(step.outcome.blocks) == k;
    hide Sound, InterruptTurn, LogAgrees, Bounded, FirstCall, LastGiven;
  }

  /** A reply without a tool call starts another request exactly if it asked for tools within the limit. */
  lemma FinishedContinues(limit: Option<int>, s: Sys, step: Step, t: Sys)
    requires Inv(limit, s) && step.Finished? && Next(limit, s, step, t) && !s.agent.interrupt
    requires step.outcome.Succeeded? && forall b | b in step.outcome.blocks :: !b.Call?
    ensures var again := step.outcome.finish == ToolUse && (limit.None? || s.agent.iterations < limit.value);
            && t.agent.iterations == s.agent.iterations + (if again then 1 else 0)
            && t.agent.streaming == (again && step.startOk)
            && t.agent.finish == Some(step.outcome.finish)
            && t.agent.state == Idle && t.started == s.started && t.agent.pending.None?
  {
    NoCallInside(step.outcome.blocks);
    hide AfterCallback, Sound, LogAgrees, Bounded, Extract;
    ReplyDone(Callback(s.agent, step.outcome), limit, step.startOk);
  }

  lemma ReplyDone(a: Agent, limit: Option<int>, startOk: bool)
    requires a.state == WaitingForLlm && !a.interrupt && !a.httpError && !a.streaming && a.pending.None?
    ensures var again := a.finish == Some(ToolUse) && (limit.None? || a.iterations < limit.value);
            var b := AfterCallback(a, limit, startOk);
            && b.iterations == a.iterations + (if again then 1 else 0)
            && b.streaming == (again && startOk)
            && b.finish == a.finish && b.state == Idle && b.pending.None?
  {
    SuccessKeeps(a, limit, startOk);
    hide RequestSuccess;
  }

  lemma NoCallInside(blocks: seq<Block>)
    requires forall b | b in blocks :: !b.Call?
    ensures Extract(blocks).None?
  {
    assert forall j | 0 <= j < |blocks| :: !blocks[j].Call?;
  }

  /** So does a harvested worker, by the reply that was kept. */
  lemma PollContinues(limit: Option<int>, s: Sys, step: Step, t: Sys)
    requires Inv(limit, s) && step.Poll? && Next(limit, s, step, t)
    requires s.agent.state == ExecutingTool && s.agent.complete && !s.agent.interrupt
    ensures var again := s.agent.finish == Some(ToolUse) && (limit.None? || s.agent.iterations < limit.value);
            && t.agent.iterations == s.agent.iterations + (if again then 1 else 0)
            && t.agent.streaming == (again && step.startOk)
            && t.agent.state == (if again && step.startOk then WaitingForLlm else Idle)
            && t.agent.finish == s.agent.finish
  {
    hide PollTool, Sound, LogAgrees, Bounded;
    ToolDone(s.agent, limit, step.startOk);
  }

  lemma ToolDone(a: Agent, limit: Option<int>, startOk: bool)
    requires a.state == ExecutingTool && a.running && a.complete && !a.interrupt && !a.streaming
    requires a.pending.Some? ==> a.result.Some?
    ensures var again := a.finish == Some(ToolUse) && (limit.None? || a.iterations < limit.value);
            var b := PollTool(a, limit, startOk);
            && b.iterations == a.iterations + (if again then 1 else 0)
            && b.streaming == (again && startOk)
            && b.state == (if again && startOk then WaitingForLlm else Idle)
            && b.finish == a.finish
  {
    hide CallMessage, ResultMessage, InterruptTurn;
  }

  /** ESC asks for an interrupt unless the agent is idle; nothing else changes. */
  lemma EscapeAsks(limit: Option<int>, s: Sys, step: Step, t: Sys)
    requires Inv(limit, s) && step.Escape? && Next(limit, s, step, t)
    ensures t == s.(agent := s.agent.(interrupt := s.agent.state != Idle))
  {
    hide Sound, LogAgrees, WorkerAgrees, Bounded;
  }

  /** A request that was interrupted or failed leaves the agent idle, and what earlier replies left stays. */
  lemma FinishedStopsIdle(limit: Option<int>, s: Sys, step: Step, t: Sys)
    requires Inv(limit, s) && step.Finished? && Next(limit, s, step, t) && !step.outcome.Succeeded?
    requires s.agent.interrupt || step.outcome.Failed?
    ensures t.agent.state == Idle && !t.agent.streaming && !t.agent.interrupt && !t.agent.httpError
    ensures t.agent.response == "" && t.started == s.started
    ensures t.agent.finish == s.agent.finish && t.agent.pending == s.agent.pending
  {
    hide Sound, InterruptTurn, LogAgrees, WorkerAgrees, Bounded, Extract;
  }

  /** A submission in IDLE is in flight, or the agent is idle again; the count of the tool loop starts over. */
  lemma SubmitStarts(limit: Option<int>, s: Sys, step: Step, t: Sys)
    requires Inv(limit, s) && step.Submit? && Next(limit, s, step, t) && s.agent.state == Idle && step.configured
    ensures t.agent.state == (if step.startOk then WaitingForLlm else Idle) && t.agent.streaming == step.startOk
    ensures t.agent.iterations == 0 && t.agent.response == "" && t.started == s.started
  {
    hide Sound, LogAgrees, WorkerAgrees, Bounded;
  }
}
