/**
  The mail table and the two operations that work on it in place: sending, and one round of a
  fan-in wait, which fills in an entry per target and deletes the mail it used.
*/
module MailDatabase {
  import opened Wrappers
  import opened MailWait

  datatype Life = Alive | Dead | Reaped

  datatype AgentRow = AgentRow(life: Life, idle: bool)

  datatype Row = Row(recipient: string, mail: Mail)

  datatype SendResult = Sent | EmptyBody | UnknownRecipient | RecipientDead | InsertFailed

  datatype Status = Running | Received | IdleAgent | DeadAgent

  datatype Entry = Entry(target: string, status: Status, message: Option<string>)

  ghost predicate Addressed(row: Row, me: string, sender: Option<string>) {
    row.recipient == me && (sender.Some? ==> row.mail.sender == sender.value)
  }

  /** Which of the calls to the database for one entry succeed. */
  datatype Luck = Luck(query: bool, agent: bool, delete: bool)

  /** What a target with no mail for us resolves to; only "dead" counts, not "reaped". */
  function WithoutMail(agents: map<string, AgentRow>, target: string): Status {
    if target !in agents then Running
    else if agents[target].life.Dead? then DeadAgent
    else if agents[target].idle then IdleAgent
    else Running
  }

  class Database {
    var agents: map<string, AgentRow>
    var mail: map<nat, Row>
    var nextId: nat
    var inTransaction: bool
    var notified: seq<string>   // recipients whose channel was notified, in order

    ghost predicate Valid()
      reads this
    {
      forall id | id in mail :: id < nextId
    }

    /** Insert first, notify second, and only outside a transaction; nothing changes on an error. */
    method SendCore(sender: string, recipient: string, body: string, now: int, insertOk: bool, notifyOk: bool)
      returns (r: SendResult)
      requires Valid()
      modifies this
      ensures Valid()
      ensures agents == old(agents) && inTransaction == old(inTransaction)
      ensures r == if body == "" then EmptyBody
                   else if recipient !in agents then UnknownRecipient
                   else if !agents[recipient].life.Alive? then RecipientDead
                   else if !insertOk then InsertFailed else Sent
      ensures r != Sent ==> mail == old(mail) && nextId == old(nextId) && notified == old(notified)
      ensures r == Sent ==>
                && old(nextId) !in old(mail) && nextId == old(nextId) + 1
                && mail == old(mail)[old(nextId) := Row(recipient, Mail(sender, body, false, now))]
                && notified == old(notified) + if !inTransaction && notifyOk then [recipient] else []
    {
      if |body| == 0 {
        return EmptyBody;
      }
      if recipient !in agents {
        return UnknownRecipient;
      }
      if !agents[recipient].life.Alive? {
        return RecipientDead;
      }
      if !insertOk {
        return InsertFailed;
      }
      mail := mail[nextId := Row(recipient, Mail(sender, body, false, now))];
      nextId := nextId + 1;
      if !inTransaction && notifyOk {
        notified := notified + [recipient];
      }
      return Sent;
    }

    /** The first row of the inbox query, unread before read, then newest first; a failed query gives none. */
    method CheckMail(me: string, sender: Option<string>, ok: bool) returns (r: Option<nat>)
      ensures r.None? <==> !ok || forall id | id in mail :: !Addressed(mail[id], me, sender)
      ensures r.Some? ==> r.value in mail && Addressed(mail[r.value], me, sender)
                          && forall id | id in mail && Addressed(mail[id], me, sender) ::
                               Before(mail[r.value].mail, mail[id].mail)
    {
      r := None;
      if !ok {
        return;
      }
      var todo := mail.Keys;
      while todo != {}
        invariant todo <= mail.Keys
        invariant r.None? ==> forall id | id in mail && id !in todo :: !Addressed(mail[id], me, sender)
        invariant r.Some? ==> r.value in mail && Addressed(mail[r.value], me, sender)
                              && forall id | id in mail && id !in todo && Addressed(mail[id], me, sender) ::
                                   Before(mail[r.value].mail, mail[id].mail)
        decreases |todo|
      {
        var id :| id in todo;
        if mail[id].recipient == me && (sender.None? || mail[id].mail.sender == sender.value) {
          if r.None? || !Before(mail[r.value].mail, mail[id].mail) {
            r := Some(id);
          }
        }
        todo := todo - {id};
      }
    }

    /** Resolves one target if it can; `taken` is the row whose body the entry now carries. */
    method UpdateTargetStatus(me: string, entry: Entry, luck: Luck)
      returns (resolved: bool, e: Entry, taken: Option<nat>)
      requires Valid()
      modifies this`mail
      ensures Valid()
      ensures resolved == (e.status != Running) && e.target == entry.target
      ensures Reported(me, agents, old(mail), entry, luck, taken, e) && NoneLeft(me, mail, entry, luck, taken)
      ensures mail == old(mail) - (if taken.Some? && luck.delete then {taken.value} else {})
    {
      if entry.status != Running {
        return true, entry, None;
      }
      var msg := CheckMail(me, Some(entry.target), luck.query);
      if msg.Some? {
        e := Entry(entry.target, Received, Some(mail[msg.value].mail.body));
        if luck.delete {
          mail := mail - {msg.value};
        }
        return true, e, msg;
      }
      if luck.agent && entry.target in agents {
        if agents[entry.target].life.Dead? {
          return true, entry.(status := DeadAgent), None;
        } else if agents[entry.target].idle {
          return true, entry.(status := IdleAgent), None;
        }
      }
      return false, entry, None;
    }
  }

  /** The rows a round deleted, each for an entry it resolved by mail. */
  function DeletedIds(taken: seq<Option<nat>>, lucks: seq<Luck>): set<nat>
    requires |taken| <= |lucks|
  {
    set i | 0 <= i < |taken| && taken[i].Some? && lucks[i].delete :: taken[i].value
  }

  /** What became of one entry: a row reported, or another answer, or nothing. */
  ghost predicate Reported(me: string, agents: map<string, AgentRow>, mail: map<nat, Row>,
                           before: Entry, luck: Luck, taken: Option<nat>, after: Entry)
  {
    match taken
    case Some(id) =>
      && id in mail && Addressed(mail[id], me, Some(before.target)) && before.status == Running
      && after == Entry(before.target, Received, Some(mail[id].mail.body))
    case None =>
      after == if before.status == Running && luck.agent
               then before.(status := WithoutMail(agents, before.target)) else before
  }

  /** No mail for an entry that was open and got none, when the query worked. */
  ghost predicate NoneLeft(me: string, mail: map<nat, Row>, before: Entry, luck: Luck, taken: Option<nat>) {
    before.status == Running && taken.None? && luck.query ==>
      forall id | id in mail :: !Addressed(mail[id], me, Some(before.target))
  }

  /** What one round saw and left: mail and entries before and after, and the rows it used. */
  datatype Round = Round(agents: map<string, AgentRow>, start: map<nat, Row>, before: seq<Entry>, lucks: seq<Luck>,
                         taken: seq<Option<nat>>, after: seq<Entry>, end: map<nat, Row>)

  /** A row answers again only if deleting it failed. */
  ghost predicate Different(taken: seq<Option<nat>>, lucks: seq<Luck>)
    requires |taken| <= |lucks|
  {
    forall i, j | 0 <= i < j < |taken| && taken[i].Some? && lucks[i].delete :: taken[i] != taken[j]
  }

  /** Each row deleted is reported by exactly one entry that was open; the rest stays. */
  ghost predicate Reports(me: string, r: Round) {
    && |r.before| == |r.lucks| == |r.taken| == |r.after|
    && r.end == r.start - DeletedIds(r.taken, r.lucks)
    && Different(r.taken, r.lucks)
    && (forall i | 0 <= i < |r.taken| ::
          Reported(me, r.agents, r.start, r.before[i], r.lucks[i], r.taken[i], r.after[i]))
    && (forall i | 0 <= i < |r.taken| :: NoneLeft(me, r.end, r.before[i], r.lucks[i], r.taken[i]))
  }

  lemma OneMoreTaken(me: string, agents: map<string, AgentRow>, start: map<nat, Row>, mail: map<nat, Row>,
                     taken: seq<Option<nat>>, lucks: seq<Luck>, before: Entry, t: Option<nat>, after: Entry)
    requires |taken| < |lucks| && mail == start - DeletedIds(taken, lucks) && Different(taken, lucks)
    requires Reported(me, agents, mail, before, lucks[|taken|], t, after)
    ensures Different(taken + [t], lucks) && Reported(me, agents, start, before, lucks[|taken|], t, after)
    ensures DeletedIds(taken + [t], lucks) ==
            DeletedIds(taken, lucks) + if t.Some? && lucks[|taken|].delete then {t.value} else {}
  {
    forall i | 0 <= i < |taken| && taken[i].Some? && lucks[i].delete ensures taken[i] != t {
      assert taken[i].value in DeletedIds(taken, lucks);
    }
    var more := taken + [t];
    assert forall i | 0 <= i < |taken| :: more[i] == taken[i];
    assert more[|taken|] == t;
  }

  lemma StillNoneLeft(me: string, mail: map<nat, Row>, gone: set<nat>, before: Entry, luck: Luck, taken: Option<nat>)
    requires NoneLeft(me, mail, before, luck, taken)
    ensures NoneLeft(me, mail - gone, before, luck, taken)
  {
  }

  /**
    One round of the fan-in loop.  Resolved entries stay; every row deleted is the one a newly received
    entry reports, no row deleted serves another entry, and all other mail is untouched.
  */
  method FaninRound(db: Database, me: string, entries: array<Entry>, lucks: seq<Luck>)
    returns (allResolved: bool, taken: seq<Option<nat>>)
    requires db.Valid() && |lucks| == entries.Length
    modifies db`mail, entries
    ensures db.Valid()
    ensures allResolved <==> forall i | 0 <= i < entries.Length :: entries[i].status != Running
    ensures Reports(me, Round(db.agents, old(db.mail), old(entries[..]), lucks, taken, entries[..], db.mail))
  {
    allResolved, taken := true, [];
    ghost var open := 0;
    var i := 0;
    hide Reported, NoneLeft, Different, Addressed, DeletedIds;
    NoneTaken(lucks);
    while i < entries.Length
      invariant 0 <= i <= entries.Length && |taken| == i
      invariant db.Valid() && db.mail == old(db.mail) - DeletedIds(taken, lucks) && Different(taken, lucks)
      invariant forall j | i <= j < entries.Length :: entries[j] == old(entries[j])
      invariant allResolved ==> forall j | 0 <= j < i :: entries[j].status != Running
      invariant !allResolved ==> open < i && entries[open].status == Running
      invariant forall j | 0 <= j < i ::
                  Reported(me, db.agents, old(db.mail), old(entries[j]), lucks[j], taken[j], entries[j])
      invariant forall j | 0 <= j < i :: NoneLeft(me, db.mail, old(entries[j]), lucks[j], taken[j])
    {
      ghost var mail := db.mail;
      var resolved, e, t := db.UpdateTargetStatus(me, entries[i], lucks[i]);
      OneMoreTaken(me, db.agents, old(db.mail), mail, taken, lucks, entries[i], t, e);
      ghost var gone := if t.Some? && lucks[i].delete then {t.value} else {};
      forall j | 0 <= j < i ensures NoneLeft(me, db.mail, old(entries[j]), lucks[j], taken[j]) {
        StillNoneLeft(me, mail, gone, old(entries[j]), lucks[j], taken[j]);
      }
      entries[i] := e;
      if !resolved {
        allResolved := false;
        open := i;
      }
      taken := taken + [t];
      i := i + 1;
    }
  }

  lemma NoneTaken(lucks: seq<Luck>)
    ensures Different([], lucks) && DeletedIds([], lucks) == {}
  {
  }
}
