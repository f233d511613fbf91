/**
  Waits of several agents at once.  Each agent has its own inbox and channel, but agents may use one
  connection, and whoever reads from a connection takes all its notifications.
*/
module SharedWaits {
  import opened Wrappers
  import opened Sequences
  import opened MailWait

  /** Agent `who` or somebody who writes to it does a step. */
  datatype Move = Move(who: nat, step: Step)

  /** Agents on one connection see the same notifications; `conn` gives the connection of each. */
  ghost predicate Agrees(conn: seq<nat>, all: seq<Sys>) {
    && |all| == |conn|
    && forall v, w | 0 <= v < |conn| && 0 <= w < |conn| && conn[v] == conn[w] :: all[v].queued == all[w].queued
  }

  /** What a step of one agent leaves of another one. */
  function Beside(conn: seq<nat>, v: nat, other: Sys, w: nat, now: Sys): Sys
    requires v < |conn| && w < |conn|
  {
    if conn[v] == conn[w] then other.(queued := now.queued) else other
  }

  ghost predicate Moves(conn: seq<nat>, s: seq<Sys>, m: Move, t: seq<Sys>) {
    && |s| == |t| == |conn| && m.who < |conn|
    && Next(s[m.who], m.step, t[m.who])
    && forall v | 0 <= v < |conn| && v != m.who :: t[v] == Beside(conn, v, s[v], m.who, t[m.who])
  }

  ghost predicate AllInv(all: seq<Sys>) {
    forall w | 0 <= w < |all| :: Inv(all[w])
  }

  /** Asleep over mail of which nothing will be heard but what is queued. */
  ghost predicate NeedsQueue(s: Sys) {
    s.waiter == Selecting && exists id :: id in s.inbox && id !in s.pendingSends
  }

  /** The third harmful step: an agent takes the notification that another one on its connection needs. */
  ghost predicate Steals(conn: seq<nat>, s: seq<Sys>, m: Move)
    requires |s| == |conn| && m.who < |conn|
  {
    m.step.Consume? && exists v | 0 <= v < |conn| && v != m.who && conn[v] == conn[m.who] :: NeedsQueue(s[v])
  }

  lemma MoveAgrees(conn: seq<nat>, s: seq<Sys>, m: Move, t: seq<Sys>)
    requires Agrees(conn, s) && Moves(conn, s, m, t)
    ensures Agrees(conn, t)
  {
    hide Next;
  }

  lemma HonestWhateverIsQueued(s: Sys, queued: nat)
    requires Honest(s)
    ensures Honest(s.(queued := queued))
  {
  }

  /** What a step of one agent does to another one on its connection. */
  lemma BesideExact(s: Sys, step: Step, t: Sys, other: Sys)
    requires Inv(other) && Next(s, step, t) && other.queued == s.queued
    ensures Inv(other.(queued := t.queued)) <==> !(step.Consume? && NeedsQueue(other))
  {
    HonestWhateverIsQueued(other, t.queued);
    hide Honest;
    assert step.Consume? ==> t.queued == 0;
    assert !step.Consume? ==> t.queued >= s.queued;
  }

  /**
    Whoever shares connections with whom: all the waits stay in a good state over a step if and only
    if it loses no wake-up of its own agent and takes no notification that another one needs.
  */
  lemma MoveExact(conn: seq<nat>, s: seq<Sys>, m: Move, t: seq<Sys>)
    requires Agrees(conn, s) && AllInv(s) && Moves(conn, s, m, t)
    ensures Agrees(conn, t)
    ensures AllInv(t) <==> !LosesWakeUp(s[m.who], m.step) && !Steals(conn, s, m)
  {
    MoveAgrees(conn, s, m, t);
    StepExact(s[m.who], m.step, t[m.who]);
    hide Next, Inv, LosesWakeUp, NeedsQueue;
    forall v | 0 <= v < |conn| && v != m.who
      ensures Inv(t[v]) <==> !(m.step.Consume? && conn[v] == conn[m.who] && NeedsQueue(s[v]))
    {
      assert t[v] == Beside(conn, v, s[v], m.who, t[m.who]);
      if conn[v] == conn[m.who] {
        BesideExact(s[m.who], m.step, t[m.who], s[v]);
      }
    }
    assert Inv(t[m.who]) <==> !LosesWakeUp(s[m.who], m.step);
  }

  // ----- Whole runs

  ghost predicate IsRun(conn: seq<nat>, trace: seq<seq<Sys>>, moves: seq<Move>) {
    && |trace| == |moves| + 1 && Agrees(conn, trace[0])
    && (forall w | 0 <= w < |conn| :: Initial(trace[0][w]))
    && forall i: nat | i < |moves| :: Moves(conn, trace[i], moves[i], trace[i + 1])
  }

  /** Every send notifies and every look succeeds. */
  predicate AllSucceed(moves: seq<Move>) {
    forall m | m in moves :: !m.step.SkipNotify? && !m.step.LookFails?
  }

  /** Asleep over mail, with nothing queued and nothing due. */
  ghost predicate Overslept(s: Sys) {
    && s.waiter == Selecting && s.inbox != map[] && s.queued == 0
    && forall id | id in s.inbox :: id !in s.pendingSends
  }

  ghost predicate NobodyOversleeps(all: seq<Sys>) {
    forall w | 0 <= w < |all| :: !Overslept(all[w])
  }

  lemma InitialInv(s: Sys)
    requires Initial(s)
    ensures Inv(s)
  {
    assert s.inbox + s.removed == s.inbox;
  }

  lemma InvIsAwake(s: Sys)
    requires Inv(s)
    ensures !Overslept(s)
  {
    if s.inbox != map[] {
      var id :| id in s.inbox;
    }
  }

  lemma {:induction false} ApartKeepInv(conn: seq<nat>, trace: seq<seq<Sys>>, moves: seq<Move>, n: nat)
    requires NoRepeats(conn) && IsRun(conn, trace, moves) && AllSucceed(moves) && n <= |moves|
    ensures |trace[n]| == |conn| && Agrees(conn, trace[n]) && AllInv(trace[n])
  {
    if n > 0 {
      ApartKeepInv(conn, trace, moves, n - 1);
      var m := moves[n - 1];
      assert m in moves && Moves(conn, trace[n - 1], m, trace[n - 1 + 1]);
      MoveExact(conn, trace[n - 1], m, trace[n]);
      hide Moves, Inv, Next, Agrees, NeedsQueue;
      assert !LosesWakeUp(trace[n - 1][m.who], m.step) && !Steals(conn, trace[n - 1], m);
    } else {
      forall w | 0 <= w < |conn| ensures Inv(trace[0][w]) {
        InitialInv(trace[0][w]);
      }
    }
  }

  /** Sharing or not, no wait deletes more than the one mail it reports. */
  lemma {:induction false} AllStayHonest(conn: seq<nat>, trace: seq<seq<Sys>>, moves: seq<Move>, n: nat, w: nat)
    requires IsRun(conn, trace, moves) && n <= |moves| && w < |conn|
    ensures |trace[n]| == |conn| && Honest(trace[n][w])
  {
    if n > 0 {
      AllStayHonest(conn, trace, moves, n - 1, w);
      var s, m, t := trace[n - 1], moves[n - 1], trace[n];
      assert Moves(conn, s, m, trace[n - 1 + 1]);
      if w == m.who {
        StepKeepsHonest(s[w], m.step, t[w]);
      } else {
        HonestWhateverIsQueued(s[w], t[m.who].queued);
      }
    } else {
      InitialInv(trace[0][w]);
    }
  }

  lemma SharedWaitsConserve(conn: seq<nat>, trace: seq<seq<Sys>>, moves: seq<Move>, n: nat, w: nat)
    requires IsRun(conn, trace, moves) && n <= |moves| && w < |conn|
    ensures |trace[n]| == |conn|
    ensures var s := trace[n][w];
            && s.sent == s.inbox + s.removed && s.inbox.Keys !! s.removed.Keys
            && (s.picked.None? ==> s.removed == map[])
            && (s.picked.Some? ==> s.removed.Keys <= {s.picked.value})
            && forall id | id in s.removed :: s.report == Some(FromAgent(s.removed[id].sender, s.removed[id].body))
  {
    AllStayHonest(conn, trace, moves, n, w);
  }

  // ----- Two agents on one connection

  const AWAY := Sys(map[], 0, {}, false, 0, NotStarted, None, None, map[], map[])

  /** Agents `i` and `j` as given, all others away. */
  function Two(conn: seq<nat>, i: nat, j: nat, a: Sys, b: Sys): seq<Sys>
    requires i < j < |conn| && conn[i] == conn[j]
  {
    seq(|conn|, v requires 0 <= v < |conn| =>
      if v == i then a else if v == j then b else Beside(conn, v, AWAY, i, a))
  }

  lemma FirstMoves(conn: seq<nat>, i: nat, j: nat, a: Sys, b: Sys, step: Step, next: Sys)
    requires i < j < |conn| && conn[i] == conn[j] && Next(a, step, next)
    ensures Moves(conn, Two(conn, i, j, a, b), Move(i, step), Two(conn, i, j, next, b.(queued := next.queued)))
  {
    hide Next;
  }

  lemma SecondMoves(conn: seq<nat>, i: nat, j: nat, a: Sys, b: Sys, step: Step, next: Sys)
    requires i < j < |conn| && conn[i] == conn[j] && Next(b, step, next)
    ensures Moves(conn, Two(conn, i, j, a, b), Move(j, step), Two(conn, i, j, a.(queued := next.queued), next))
  {
    hide Next;
  }

  /** The steps of two agents that both fall asleep; mail for the second one is announced. */
  lemma LosingSteps(mail: Mail) returns (looking: Sys, asleep: Sys, sending: Sys, due: Sys, woken: Sys, served: Sys)
    ensures Next(AWAY, Listen(true), looking) && Next(looking, Look(None), asleep)
    ensures looking.queued == asleep.queued == sending.queued == served.queued == 0 && due.queued == woken.queued == 1
    ensures Next(asleep, Insert(mail), sending) && Next(sending, Notify(0), due)
    ensures Next(asleep.(queued := 1), SelectReady, woken) && Next(woken, Consume, served)
    ensures Overslept(due.(queued := 0))
  {
    looking := AWAY.(waiter := Looking(false), listening := true);
    asleep := looking.(waiter := Selecting);
    sending := asleep.(inbox := map[0 := mail], nextId := 1, pendingSends := {0}, sent := map[0 := mail]);
    due := sending.(pendingSends := {}, queued := 1);
    woken := asleep.(waiter := Consuming, queued := 1);
    served := woken.(waiter := Looking(true), queued := 0);
    assert 0 in due.inbox;
  }

  lemma TwoAway(conn: seq<nat>, i: nat, j: nat)
    requires i < j < |conn| && conn[i] == conn[j]
    ensures var s := Two(conn, i, j, AWAY, AWAY); Agrees(conn, s) && forall w | 0 <= w < |conn| :: Initial(s[w])
  {
  }

  /** The first agent takes the notification that the second one needs. */
  lemma SharingLosesWakeUp(conn: seq<nat>, i: nat, j: nat, mail: Mail) returns (trace: seq<seq<Sys>>, moves: seq<Move>)
    requires i < j < |conn| && conn[i] == conn[j]
    ensures IsRun(conn, trace, moves) && AllSucceed(moves)
    ensures |trace[|moves|]| == |conn| && Overslept(trace[|moves|][j])
  {
    var looking, asleep, sending, due, woken, served := LosingSteps(mail);
    moves := [Move(i, Listen(true)), Move(i, Look(None)), Move(j, Listen(true)), Move(j, Look(None)),
              Move(j, Insert(mail)), Move(j, Notify(0)), Move(i, SelectReady), Move(i, Consume)];
    trace := [Two(conn, i, j, AWAY, AWAY), Two(conn, i, j, looking, AWAY), Two(conn, i, j, asleep, AWAY),
              Two(conn, i, j, asleep, looking), Two(conn, i, j, asleep, asleep), Two(conn, i, j, asleep, sending),
              Two(conn, i, j, asleep.(queued := 1), due), Two(conn, i, j, woken, due),
              Two(conn, i, j, served, due.(queued := 0))];
    TwoAway(conn, i, j);
    hide Next, Moves, Two, Initial, Agrees, Overslept;
    FirstMoves(conn, i, j, AWAY, AWAY, Listen(true), looking);
    FirstMoves(conn, i, j, looking, AWAY, Look(None), asleep);
    SecondMoves(conn, i, j, asleep, AWAY, Listen(true), looking);
    SecondMoves(conn, i, j, asleep, looking, Look(None), asleep);
    SecondMoves(conn, i, j, asleep, asleep, Insert(mail), sending);
    SecondMoves(conn, i, j, asleep, sending, Notify(0), due);
    FirstMoves(conn, i, j, asleep.(queued := 1), due, SelectReady, woken);
    FirstMoves(conn, i, j, woken, due, Consume, served);
    SecondStands(conn, i, j, served, due.(queued := 0));
  }

  lemma SecondStands(conn: seq<nat>, i: nat, j: nat, a: Sys, b: Sys)
    requires i < j < |conn| && conn[i] == conn[j]
    ensures |Two(conn, i, j, a, b)| == |conn| && Two(conn, i, j, a, b)[j] == b
  {
  }

  /**
    With sends that notify and looks that succeed nobody oversleeps in any run if and only if no two
    agents wait on one connection.
  */
  lemma NobodyOversleepsExactly(conn: seq<nat>)
    ensures (forall trace, moves | IsRun(conn, trace, moves) && AllSucceed(moves) ::
               NobodyOversleeps(trace[|moves|])) <==> NoRepeats(conn)
  {
    if NoRepeats(conn) {
      forall trace, moves | IsRun(conn, trace, moves) && AllSucceed(moves) ensures NobodyOversleeps(trace[|moves|]) {
        ApartKeepInv(conn, trace, moves, |moves|);
        forall w | 0 <= w < |conn| ensures !Overslept(trace[|moves|][w]) {
          InvIsAwake(trace[|moves|][w]);
        }
      }
    } else {
      var i, j :| 0 <= i < j < |conn| && conn[i] == conn[j];
      var trace, moves := SharingLosesWakeUp(conn, i, j, Mail("", "", false, 0));
      assert !NobodyOversleeps(trace[|moves|]);
    }
  }
}
