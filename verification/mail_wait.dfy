/**
  Sending mail and waiting for it.  Senders insert a row and then notify the recipient's channel;
  the waiter listens, looks, and then sleeps in select until a notification makes the connection
  readable.  `Next` interleaves any number of senders with the waits of one agent, one after another.
*/
module MailWait {
  import opened Wrappers

  /** One row of the recipient's inbox. */
  datatype Mail = Mail(sender: string, body: string, read: bool, timestamp: int)

  datatype Report = FromAgent(sender: string, body: string) | Note(text: string)

  /** Where the waiter stands between its calls to the database. */
  datatype Waiter =
    | NotStarted
    | Looking(again: bool)            // about to query the inbox; `again` after a notification
    | Picked(id: nat)                 // result filled in, row not yet deleted
    | Selecting
    | Consuming                       // select returned with input
    | Leaving                         // about to UNLISTEN
    | Done

  datatype Sys = Sys(
    inbox: map<nat, Mail>,
    nextId: nat,
    pendingSends: set<nat>,           // inserted, notification still to come
    listening: bool,
    queued: nat,                      // notifications the waiter's connection has received
    waiter: Waiter,
    report: Option<Report>,
    picked: Option<nat>,              // the mail the report was made from
    removed: map<nat, Mail>,          // rows deleted so far by this wait
    sent: map<nat, Mail>)             // every row that was there since this wait began

  datatype Step =
    | Insert(mail: Mail)
    | Notify(id: nat)
    | SkipNotify(id: nat)             // inside a transaction, or NOTIFY failed
    | Listen(ok: bool)
    | Look(choice: Option<nat>)
    | LookFails                       // the query failed, which reads as an empty inbox
    | Delete(ok: bool)
    | SelectReady
    | SelectGivesUp(why: string)      // interrupted, timed out or failed
    | Consume
    | Unlisten
    | WaitAgain                       // the agent begins another wait

  /** The inbox query's order: unread before read, then newest first. */
  predicate Before(m: Mail, n: Mail) {
    (!m.read && n.read) || (m.read == n.read && m.timestamp >= n.timestamp)
  }

  ghost predicate HeadOfInbox(inbox: map<nat, Mail>, id: nat) {
    id in inbox && forall j | j in inbox :: Before(inbox[id], inbox[j])
  }

  /** The head is unread unless nothing is, and the newest among its kind. */
  lemma HeadIsNewest(inbox: map<nat, Mail>, id: nat)
    ensures HeadOfInbox(inbox, id) <==>
            && id in inbox
            && (inbox[id].read ==> forall j | j in inbox :: inbox[j].read)
            && forall j | j in inbox && inbox[j].read == inbox[id].read :: inbox[j].timestamp <= inbox[id].timestamp
  {
    if id in inbox && (inbox[id].read ==> forall j | j in inbox :: inbox[j].read)
       && forall j | j in inbox && inbox[j].read == inbox[id].read :: inbox[j].timestamp <= inbox[id].timestamp {
      forall j | j in inbox ensures Before(inbox[id], inbox[j]) {
      }
    }
  }

  function Pick(s: Sys, id: nat): Sys
    requires id in s.inbox
  {
    s.(waiter := Picked(id), picked := Some(id), report := Some(FromAgent(s.inbox[id].sender, s.inbox[id].body)))
  }

  ghost predicate Next(s: Sys, step: Step, t: Sys) {
    match step
    case Insert(mail) =>
      t == s.(inbox := s.inbox[s.nextId := mail], nextId := s.nextId + 1,
              pendingSends := s.pendingSends + {s.nextId}, sent := s.sent[s.nextId := mail])
    case Notify(id) =>
      && id in s.pendingSends
      && t == s.(pendingSends := s.pendingSends - {id}, queued := if s.listening then s.queued + 1 else s.queued)
    case SkipNotify(id) =>
      id in s.pendingSends && t == s.(pendingSends := s.pendingSends - {id})
    case Listen(ok) =>
      && s.waiter == NotStarted
      && t == if ok then s.(waiter := Looking(false), listening := true)
              else s.(waiter := Done, report := Some(Note("Failed to LISTEN")))
    case Look(choice) =>
      && s.waiter.Looking?
      && (if choice.None? then s.inbox == map[] && t == s.(waiter := Selecting)
          else HeadOfInbox(s.inbox, choice.value) && t == Pick(s, choice.value))
    case LookFails =>
      s.waiter.Looking? && t == s.(waiter := Selecting)
    case Delete(ok) =>
      && s.waiter.Picked?
      && t == s.(waiter := Leaving,
                 inbox := if ok then s.inbox - {s.waiter.id} else s.inbox,
                 removed := if ok && s.waiter.id in s.inbox
                            then s.removed[s.waiter.id := s.inbox[s.waiter.id]] else s.removed)
    case SelectReady =>
      s.waiter == Selecting && t == s.(waiter := Consuming)
    case SelectGivesUp(why) =>
      s.waiter == Selecting && t == s.(waiter := Leaving, report := Some(Note(why)))
    case Consume =>
      s.waiter == Consuming && t == s.(waiter := Looking(true), queued := 0)
    case Unlisten =>
      s.waiter == Leaving && t == s.(waiter := Done, listening := false)
    case WaitAgain =>
      && s.waiter == Done
      && t == s.(waiter := NotStarted, report := None, picked := None, removed := map[], sent := s.inbox)
  }

  /**
    Mail and notifications may already be there, and senders may be in the middle of a send, when the
    first wait begins.
  */
  ghost predicate Initial(s: Sys) {
    && s.waiter == NotStarted && !s.listening
    && s.report.None? && s.picked.None? && s.removed == map[] && s.sent == s.inbox
    && (forall id | id in s.inbox :: id < s.nextId)
    && (forall id | id in s.pendingSends :: id < s.nextId)
  }

  ghost predicate Asleep(w: Waiter) { w == Selecting || w == Consuming }

  /** Stronger and inductive: each single mail that came in while asleep is on its way. */
  ghost predicate EachDue(s: Sys) {
    s.waiter == Selecting ==> forall id | id in s.inbox :: s.queued > 0 || id in s.pendingSends
  }

  ghost predicate RemovalAgrees(s: Sys) {
    && (s.waiter.NotStarted? || s.waiter.Looking? || Asleep(s.waiter) ==>
          s.report.None? && s.picked.None? && s.removed == map[])
    && (s.waiter.Picked? ==> s.removed == map[] && s.picked == Some(s.waiter.id) && s.waiter.id in s.inbox)
    && (s.picked.None? ==> s.removed == map[] && (s.report.Some? ==> s.report.value.Note?))
    && (s.picked.Some? ==> s.report.Some? && s.removed.Keys <= {s.picked.value})
    && (s.waiter.Leaving? || s.waiter.Done? ==> s.report.Some?)
    && (s.waiter.Picked? ==> s.report.value == FromAgent(s.inbox[s.waiter.id].sender, s.inbox[s.waiter.id].body))
    && (forall id | id in s.removed :: s.report == Some(FromAgent(s.removed[id].sender, s.removed[id].body)))
  }

  /**
    Every mail there since this wait began is still in the inbox or was removed by this wait,
    unchanged, and not both.
  */
  ghost predicate Conserved(s: Sys) {
    s.inbox.Keys !! s.removed.Keys && s.sent == s.inbox + s.removed
  }

  /** What every run keeps, notified or not. */
  ghost predicate Honest(s: Sys) {
    && RemovalAgrees(s)
    && (s.listening <==> !(s.waiter.NotStarted? || s.waiter.Done?))
    && (forall id | id in s.inbox :: id < s.nextId)
    && (forall id | id in s.pendingSends :: id < s.nextId)
    && (forall id | id in s.removed :: id < s.nextId)
    && Conserved(s)
  }

  ghost predicate Inv(s: Sys) { EachDue(s) && Honest(s) }

  /**
    The two harmful steps: no notification for mail that came in while nothing else would wake the
    waiter, and a failed look over mail of which nothing more will be heard.
  */
  ghost predicate LosesWakeUp(s: Sys, step: Step) {
    || (step.SkipNotify? && s.waiter == Selecting && step.id in s.inbox && s.queued == 0)
    || (step.LookFails? && s.queued == 0 && exists id :: id in s.inbox && id !in s.pendingSends)
  }

  lemma StepConserves(s: Sys, step: Step, t: Sys)
    requires Conserved(s) && Next(s, step, t)
    requires (forall id | id in s.removed :: id < s.nextId) && (forall id | id in s.inbox :: id < s.nextId)
    requires s.waiter.Picked? ==> s.waiter.id in s.inbox
    ensures Conserved(t) && forall id | id in t.removed :: id < t.nextId
  {
    match step
    case Insert(mail) =>
      OneMoreMail(s.inbox, s.removed, s.nextId, mail);
    case Delete(ok) =>
      OneMailMoves(s.inbox, s.removed, s.waiter.id);
    case _ =>
  }

  lemma OneMoreMail(inbox: map<nat, Mail>, removed: map<nat, Mail>, id: nat, mail: Mail)
    requires id !in removed
    ensures (inbox + removed)[id := mail] == inbox[id := mail] + removed
  {
  }

  lemma OneMailMoves(inbox: map<nat, Mail>, removed: map<nat, Mail>, id: nat)
    requires id in inbox && id !in removed
    ensures inbox + removed == (inbox - {id}) + removed[id := inbox[id]]
  {
  }

  lemma StepKeepsHonest(s: Sys, step: Step, t: Sys)
    requires Honest(s) && Next(s, step, t)
    ensures Honest(t)
  {
    StepConserves(s, step, t);
    hide Conserved;
  }

  lemma StepExact(s: Sys, step: Step, t: Sys)
    requires Inv(s) && Next(s, step, t)
    ensures Inv(t) <==> !LosesWakeUp(s, step)
  {
    StepKeepsHonest(s, step, t);
    hide Conserved;
  }

  ghost predicate IsRun(trace: seq<Sys>, steps: seq<Step>) {
    && |trace| == |steps| + 1 && Initial(trace[0])
    && forall i: nat | i < |steps| :: Next(trace[i], steps[i], trace[i + 1])
  }

  lemma {:induction false} RunKeepsInv(trace: seq<Sys>, steps: seq<Step>, n: nat)
    requires IsRun(trace, steps) && n <= |steps|
    requires forall i: nat | i < n :: !LosesWakeUp(trace[i], steps[i])
    ensures Inv(trace[n])
  {
    if n > 0 {
      RunKeepsInv(trace, steps, n - 1);
      StepExact(trace[n - 1], steps[n - 1], trace[n]);
    } else {
      assert trace[0].inbox + trace[0].removed == trace[0].inbox;
    }
  }

  /**
    No lost wake-up, in every interleaving of senders that all notify with a waiter whose looks all
    succeed: whenever the waiter sleeps over a non-empty inbox, a notification is queued or some
    sender is between insert and notify.
  */
  lemma NoLostWakeUp(trace: seq<Sys>, steps: seq<Step>, n: nat)
    requires IsRun(trace, steps) && n <= |steps|
    requires forall step | step in steps :: !step.SkipNotify? && !step.LookFails?
    ensures var s := trace[n];
            s.waiter == Selecting && s.inbox != map[] ==>
              s.queued > 0 || exists id :: id in s.inbox && id in s.pendingSends
  {
    forall i: nat | i < n ensures !LosesWakeUp(trace[i], steps[i]) {
      assert steps[i] in steps;
    }
    RunKeepsInv(trace, steps, n);
    var s := trace[n];
    if s.inbox != map[] {
      var id :| id in s.inbox;
    }
  }

  lemma {:induction false} RunIsHonest(trace: seq<Sys>, steps: seq<Step>, n: nat)
    requires IsRun(trace, steps) && n <= |steps|
    ensures Honest(trace[n])
  {
    if n > 0 {
      RunIsHonest(trace, steps, n - 1);
      StepKeepsHonest(trace[n - 1], steps[n - 1], trace[n]);
    } else {
      assert trace[0].inbox + trace[0].removed == trace[0].inbox;
    }
  }

  /**
    In every run, notified or not: a wait deletes at most one mail, the one it reports, and all other
    mail stays as it was.
  */
  lemma WaitTakesOnlyWhatItReports(trace: seq<Sys>, steps: seq<Step>, n: nat)
    requires IsRun(trace, steps) && n <= |steps|
    ensures var s := trace[n];
            && s.sent == s.inbox + s.removed && s.inbox.Keys !! s.removed.Keys
            && (s.picked.None? ==> s.removed == map[])
            && (s.picked.Some? ==> s.removed.Keys <= {s.picked.value})
            && (forall id | id in s.removed :: s.report == Some(FromAgent(s.removed[id].sender, s.removed[id].body)))
            && (s.waiter == Done ==> s.report.Some? && !s.listening)
  {
    RunIsHonest(trace, steps, n);
  }

  /** One send inside a transaction is enough to leave the waiter asleep over its mail. */
  lemma SilentSendLosesWakeUp(mail: Mail) returns (trace: seq<Sys>, steps: seq<Step>)
    ensures IsRun(trace, steps) && |steps| == 4
    ensures steps[3] == SkipNotify(0)
    ensures var s := trace[4]; s.waiter == Selecting && 0 in s.inbox && s.queued == 0 && s.pendingSends == {}
  {
    steps := [Listen(true), Look(None), Insert(mail), SkipNotify(0)];
    var s0 := Sys(map[], 0, {}, false, 0, NotStarted, None, None, map[], map[]);
    var s1 := s0.(waiter := Looking(false), listening := true);
    var s2 := s1.(waiter := Selecting);
    var s3 := s2.(inbox := map[0 := mail], nextId := 1, pendingSends := {0}, sent := map[0 := mail]);
    var s4 := s3.(pendingSends := {});
    trace := [s0, s1, s2, s3, s4];
  }

  /** So is one failed look over mail that was there before. */
  lemma FailedLookLosesWakeUp(mail: Mail) returns (trace: seq<Sys>, steps: seq<Step>)
    ensures IsRun(trace, steps) && steps == [Listen(true), LookFails]
    ensures var s := trace[2]; s.waiter == Selecting && 0 in s.inbox && s.queued == 0 && s.pendingSends == {}
  {
    steps := [Listen(true), LookFails];
    var s0 := Sys(map[0 := mail], 1, {}, false, 0, NotStarted, None, None, map[], map[0 := mail]);
    var s1 := s0.(waiter := Looking(false), listening := true);
    var s2 := s1.(waiter := Selecting);
    trace := [s0, s1, s2];
  }

  /** A wait that has reported a mail has also deleted it, unless the delete failed. */
  lemma {:induction false} ReportedIsDeleted(trace: seq<Sys>, steps: seq<Step>, n: nat)
    requires IsRun(trace, steps) && n <= |steps| && forall i: nat | i < n :: steps[i] != Delete(false)
    ensures var s := trace[n];
            (s.waiter.Leaving? || s.waiter.Done?) && s.picked.Some? ==>
              && s.picked.value in s.removed && s.picked.value !in s.inbox
              && s.report == Some(FromAgent(s.removed[s.picked.value].sender, s.removed[s.picked.value].body))
  {
    RunIsHonest(trace, steps, n);
    if n > 0 {
      ReportedIsDeleted(trace, steps, n - 1);
      RunIsHonest(trace, steps, n - 1);
      assert Next(trace[n - 1], steps[n - 1], trace[n - 1 + 1]);
    }
  }
}
