/**
  A whole fan-in wait: rounds over the same entries, while other agents keep sending between them.
*/
module FaninWait {
  import opened Wrappers
  import opened Sequences
  import opened MailWait
  import opened MailDatabase

  /**
    Each round starts from the entries the last one left.  In between mail may only come in, under
    ids the database has not used before.
  */
  ghost predicate Follows(rounds: seq<Round>, k: nat)
    requires k + 1 < |rounds|
  {
    && rounds[k + 1].before == rounds[k].after
    && (forall id | id in rounds[k].end :: id in rounds[k + 1].start && rounds[k + 1].start[id] == rounds[k].end[id])
    && forall id | id in rounds[k + 1].start && id !in rounds[k].end :: Unused(rounds, k, id)
  }

  ghost predicate Unused(rounds: seq<Round>, k: nat, id: nat)
    requires k < |rounds|
  {
    forall j | 0 <= j <= k :: id !in rounds[j].start
  }

  ghost predicate IsWait(me: string, rounds: seq<Round>) {
    && |rounds| > 0
    && (forall k | 0 <= k < |rounds| :: Reports(me, rounds[k]))
    && (forall k: nat | k + 1 < |rounds| :: Follows(rounds, k))
    && (forall e | e in rounds[0].before :: e.status == Running && e.message.None?)
  }

  lemma {:induction false} EntriesStay(me: string, rounds: seq<Round>, k: nat)
    requires IsWait(me, rounds) && k < |rounds|
    ensures |rounds[k].before| == |rounds[k].taken| == |rounds[k].after| == |rounds[0].before|
  {
    assert Reports(me, rounds[k]);
    if k > 0 {
      EntriesStay(me, rounds, k - 1);
      assert Follows(rounds, k - 1);
    }
  }

  /** Row `id` answered entry `i` in round `k`. */
  ghost predicate Served(rounds: seq<Round>, k: nat, i: nat, id: nat) {
    k < |rounds| && i < |rounds[k].taken| && rounds[k].taken[i] == Some(id)
  }

  /** What is deleted never comes back. */
  lemma {:induction false} GoneForGood(me: string, rounds: seq<Round>, k: nat, l: nat, id: nat)
    requires IsWait(me, rounds) && k < l < |rounds| && id in rounds[k].start && id !in rounds[k].end
    ensures id !in rounds[l].start
    decreases l
  {
    assert Follows(rounds, l - 1) && Reports(me, rounds[l - 1]);
    if k < l - 1 {
      GoneForGood(me, rounds, k, l - 1, id);
    }
    assert !Unused(rounds, l - 1, id);
  }

  lemma ServedIsReported(me: string, rounds: seq<Round>, k: nat, i: nat, id: nat)
    requires IsWait(me, rounds) && Served(rounds, k, i, id)
    ensures i < |rounds[k].before| == |rounds[k].after|
    ensures |rounds[k].lucks| == |rounds[k].before|
    ensures id in rounds[k].start && (rounds[k].lucks[i].delete ==> id !in rounds[k].end)
    ensures rounds[k].before[i].status == Running
    ensures rounds[k].start[id].recipient == me && rounds[k].start[id].mail.sender == rounds[k].before[i].target
    ensures rounds[k].after[i] == Entry(rounds[k].before[i].target, Received, Some(rounds[k].start[id].mail.body))
  {
    assert Reports(me, rounds[k]);
    assert Reported(me, rounds[k].agents, rounds[k].start, rounds[k].before[i],
                    rounds[k].lucks[i], rounds[k].taken[i], rounds[k].after[i]);
    assert rounds[k].lucks[i].delete ==> id in DeletedIds(rounds[k].taken, rounds[k].lucks);
  }

  /** A mail answers once, in all the rounds, unless deleting it after an answer fails. */
  lemma EachMailServesOnce(me: string, rounds: seq<Round>, k: nat, i: nat, l: nat, j: nat, id: nat)
    requires IsWait(me, rounds) && Served(rounds, k, i, id) && Served(rounds, l, j, id)
    requires k < l || (k == l && i < j)
    ensures |rounds[k].lucks| == |rounds[k].taken| && !rounds[k].lucks[i].delete
  {
    ServedIsReported(me, rounds, k, i, id);
    ServedIsReported(me, rounds, l, j, id);
    if k < l {
      if id !in rounds[k].end {
        GoneForGood(me, rounds, k, l, id);
      }
    } else {
      assert Reports(me, rounds[k]) && Different(rounds[k].taken, rounds[k].lucks);
    }
  }

  /** It does happen then: one mail, its sender named twice, and a delete that fails. */
  lemma FailedDeleteServesTwice(me: string, sender: string, body: string)
    ensures var mail := map[0 := Row(me, Mail(sender, body, false, 0))];
            var open := Entry(sender, Running, None);
            var got := Entry(sender, Received, Some(body));
            var r := Round(map[], mail, [open, open], [Luck(true, true, false), Luck(true, true, true)],
                           [Some(0), Some(0)], [got, got], map[]);
            IsWait(me, [r]) && Served([r], 0, 0, 0) && Served([r], 0, 1, 0)
  {
    var mail := map[0 := Row(me, Mail(sender, body, false, 0))];
    var lucks, taken := [Luck(true, true, false), Luck(true, true, true)], [Some(0), Some(0)];
    assert taken[1].Some? && lucks[1].delete;
    assert DeletedIds(taken, lucks) == {0} && mail - {0} == map[];
    assert Addressed(mail[0], me, Some(sender));
  }

  /** An answered entry stays as it is. */
  lemma {:induction false} ResolvedStays(me: string, rounds: seq<Round>, k: nat, l: nat, i: nat)
    requires IsWait(me, rounds) && k <= l < |rounds| && i < |rounds[0].before|
    requires |rounds[k].after| == |rounds[0].before| && rounds[k].after[i].status != Running
    ensures |rounds[l].after| == |rounds[0].before| && rounds[l].after[i] == rounds[k].after[i]
    ensures k < l ==> |rounds[l].taken| == |rounds[0].before| && rounds[l].taken[i].None?
    decreases l
  {
    if k < l {
      ResolvedStays(me, rounds, k, l - 1, i);
      EntriesStay(me, rounds, l);
      assert Follows(rounds, l - 1) && Reports(me, rounds[l]);
      assert Reported(me, rounds[l].agents, rounds[l].start, rounds[l].before[i],
                      rounds[l].lucks[i], rounds[l].taken[i], rounds[l].after[i]);
    }
  }

  /** What one round makes of an entry. */
  lemma EntryInRound(me: string, rounds: seq<Round>, n: nat, i: nat)
    requires IsWait(me, rounds) && n < |rounds| && i < |rounds[0].before|
    requires |rounds[n].before| == |rounds[n].taken| == |rounds[n].after| == |rounds[0].before|
    ensures n == 0 ==> rounds[n].before[i].status == Running && rounds[n].before[i].message.None?
    ensures n > 0 ==> rounds[n - 1].after == rounds[n].before
    ensures rounds[n].after[i].target == rounds[n].before[i].target
    ensures rounds[n].taken[i].Some? ==> rounds[n].after[i].status == Received
    ensures rounds[n].taken[i].None? ==>
              (rounds[n].after[i].status == Received <==> rounds[n].before[i].status == Received)
    ensures rounds[n].taken[i].None? ==> rounds[n].after[i].message == rounds[n].before[i].message
  {
    assert Reports(me, rounds[n]);
    assert Reported(me, rounds[n].agents, rounds[n].start, rounds[n].before[i], rounds[n].lucks[i],
                    rounds[n].taken[i], rounds[n].after[i]);
    if n > 0 {
      assert Follows(rounds, n - 1);
    } else {
      assert rounds[0].before[i] in rounds[0].before;
    }
  }

  lemma ServedNow(rounds: seq<Round>, n: nat, i: nat)
    requires n < |rounds| && i < |rounds[n].taken|
    ensures forall id: nat :: Served(rounds, n, i, id) <==> rounds[n].taken[i] == Some(id)
  {
  }

  lemma {:induction false} TargetStays(me: string, rounds: seq<Round>, n: nat, i: nat)
    requires IsWait(me, rounds) && n < |rounds| && i < |rounds[0].before|
    ensures |rounds[n].before| == |rounds[0].before| && rounds[n].before[i].target == rounds[0].before[i].target
  {
    EntriesStay(me, rounds, n);
    if n > 0 {
      TargetStays(me, rounds, n - 1, i);
      EntriesStay(me, rounds, n - 1);
      EntryInRound(me, rounds, n - 1, i);
      EntryInRound(me, rounds, n, i);
    }
  }

  /** The body of a mail that answered stays in the entry. */
  lemma ServedStays(me: string, rounds: seq<Round>, k: nat, n: nat, i: nat, id: nat)
    requires IsWait(me, rounds) && k <= n < |rounds| && i < |rounds[0].before| && Served(rounds, k, i, id)
    ensures |rounds[n].after| == |rounds[0].before| && rounds[n].after[i].status == Received
    ensures id in rounds[k].start && rounds[k].start[id].recipient == me
    ensures rounds[k].start[id].mail.sender == rounds[0].before[i].target
    ensures rounds[n].after[i].message == Some(rounds[k].start[id].mail.body)
  {
    EntriesStay(me, rounds, k);
    TargetStays(me, rounds, k, i);
    hide *;
    ServedIsReported(me, rounds, k, i, id);
    ResolvedStays(me, rounds, k, n, i);
  }

  /**
    After any number of rounds an entry is received exactly when one mail answered it: mail to this
    agent from that target, whose body it carries.  Otherwise it carries nothing.
  */
  lemma {:induction false} EntryIsExact(me: string, rounds: seq<Round>, n: nat, i: nat)
    requires IsWait(me, rounds) && n < |rounds| && i < |rounds[0].before|
    ensures |rounds[n].after| == |rounds[0].before|
    ensures rounds[n].after[i].target == rounds[0].before[i].target
    ensures rounds[n].after[i].status == Received <==> exists k: nat, id: nat | k <= n :: Served(rounds, k, i, id)
    ensures rounds[n].after[i].status != Received ==> rounds[n].after[i].message.None?
    ensures forall k: nat, id: nat | k <= n && Served(rounds, k, i, id) ::
              && id in rounds[k].start && rounds[k].start[id].recipient == me
              && rounds[k].start[id].mail.sender == rounds[0].before[i].target
              && rounds[n].after[i].message == Some(rounds[k].start[id].mail.body)
    decreases n
  {
    EntriesStay(me, rounds, n);
    EntryInRound(me, rounds, n, i);
    var t := rounds[n].taken[i];
    hide *;
    if n > 0 {
      EntryIsExact(me, rounds, n - 1, i);
    }
    assert t.Some? <==> exists id: nat :: Served(rounds, n, i, id) by {
      ServedNow(rounds, n, i);
    }
    forall k: nat, id: nat | k <= n && Served(rounds, k, i, id)
      ensures id in rounds[k].start && rounds[k].start[id].recipient == me
              && rounds[k].start[id].mail.sender == rounds[0].before[i].target
              && rounds[n].after[i].message == Some(rounds[k].start[id].mail.body)
              && rounds[n].after[i].status == Received
    {
      ServedStays(me, rounds, k, n, i, id);
    }
  }

  /** Mail there at the start is still there at the end or answered an entry; none disappears. */
  lemma {:induction false} WaitConserves(me: string, rounds: seq<Round>, n: nat, id: nat)
    requires IsWait(me, rounds) && n < |rounds| && id in rounds[0].start
    ensures (id in rounds[n].end && rounds[n].end[id] == rounds[0].start[id])
            || exists k: nat, i: nat | k <= n :: Served(rounds, k, i, id)
    decreases n
  {
    if n > 0 {
      WaitConserves(me, rounds, n - 1, id);
      assert Follows(rounds, n - 1);
    }
    assert Reports(me, rounds[n]);
    if id in rounds[n].start && id !in rounds[n].end {
      assert id in DeletedIds(rounds[n].taken, rounds[n].lucks);
      var i :| 0 <= i < |rounds[n].taken| && rounds[n].taken[i] == Some(id);
      assert Served(rounds, n, i, id);
    }
  }

  // ----- When a mail may answer twice at all

  /** A row keeps its id and its contents for as long as it is there. */
  lemma {:induction false} SameRow(me: string, rounds: seq<Round>, k: nat, l: nat, id: nat)
    requires IsWait(me, rounds) && k <= l < |rounds| && id in rounds[k].start && id in rounds[l].start
    ensures rounds[l].start[id] == rounds[k].start[id]
    decreases l
  {
    if k < l {
      assert Follows(rounds, l - 1) && Reports(me, rounds[l - 1]);
      assert !Unused(rounds, l - 1, id);
      SameRow(me, rounds, k, l - 1, id);
    }
  }

  /** An entry takes one mail at most. */
  lemma EntryServedOnce(me: string, rounds: seq<Round>, k: nat, l: nat, i: nat, id: nat, jd: nat)
    requires IsWait(me, rounds) && Served(rounds, k, i, id) && Served(rounds, l, i, jd)
    ensures k == l && id == jd
  {
    if k < l {
      EntriesStay(me, rounds, k);
      ServedIsReported(me, rounds, k, i, id);
      ResolvedStays(me, rounds, k, l, i);
    } else if l < k {
      EntriesStay(me, rounds, l);
      ServedIsReported(me, rounds, l, i, jd);
      ResolvedStays(me, rounds, l, k, i);
    }
  }

  /** Two entries answered by one mail name the same target. */
  lemma SecondAnswerSameTarget(me: string, rounds: seq<Round>, k: nat, i: nat, l: nat, j: nat, id: nat)
    requires IsWait(me, rounds) && Served(rounds, k, i, id) && Served(rounds, l, j, id)
    ensures i < |rounds[0].before| && j < |rounds[0].before|
    ensures rounds[0].before[i].target == rounds[0].before[j].target
  {
    EntriesStay(me, rounds, k);
    EntriesStay(me, rounds, l);
    EntryIsExact(me, rounds, k, i);
    EntryIsExact(me, rounds, l, j);
    if k <= l {
      ServedIsReported(me, rounds, l, j, id);
      SameRow(me, rounds, k, l, id);
    } else {
      ServedIsReported(me, rounds, k, i, id);
      SameRow(me, rounds, l, k, id);
    }
  }

  ghost predicate IsWaitFor(me: string, targets: seq<string>, rounds: seq<Round>) {
    && IsWait(me, rounds) && |rounds[0].before| == |targets|
    && forall i | 0 <= i < |targets| :: rounds[0].before[i].target == targets[i]
  }

  /** No mail answers twice. */
  ghost predicate ServesOnce(rounds: seq<Round>) {
    forall k, i, l, j, id | Served(rounds, k, i, id) && Served(rounds, l, j, id) :: k == l && i == j
  }

  lemma DistinctServeOnce(me: string, targets: seq<string>, rounds: seq<Round>)
    requires NoRepeats(targets) && IsWaitFor(me, targets, rounds)
    ensures ServesOnce(rounds)
  {
    forall k, i, l, j, id | Served(rounds, k, i, id) && Served(rounds, l, j, id) ensures k == l && i == j {
      SecondAnswerSameTarget(me, rounds, k, i, l, j, id);
      if i == j {
        EntryServedOnce(me, rounds, k, l, i, id, id);
      }
    }
  }

  /** One round over a list that names a target twice: one mail from it, two answers, no delete. */
  function TwiceRound(me: string, targets: seq<string>, i: nat, j: nat): (r: Round)
    requires i < j < |targets|
    ensures |r.before| == |r.lucks| == |r.taken| == |r.after| == |targets|
  {
    var n := |targets|;
    Round(map[],
          map[0 := Row(me, Mail(targets[i], "", false, 0))],
          seq(n, x requires 0 <= x < n => Entry(targets[x], Running, None)),
          seq(n, x requires 0 <= x < n => Luck(x == i || x == j, false, false)),
          seq(n, x requires 0 <= x < n => if x == i || x == j then Some(0) else None),
          seq(n, x requires 0 <= x < n => if x == i || x == j then Entry(targets[x], Received, Some(""))
                                          else Entry(targets[x], Running, None)),
          map[0 := Row(me, Mail(targets[i], "", false, 0))])
  }

  lemma RepeatedServesTwice(me: string, targets: seq<string>, i: nat, j: nat)
    requires i < j < |targets| && targets[i] == targets[j]
    ensures var rounds := [TwiceRound(me, targets, i, j)];
            IsWaitFor(me, targets, rounds) && Served(rounds, 0, i, 0) && Served(rounds, 0, j, 0)
  {
    var r := TwiceRound(me, targets, i, j);
    assert DeletedIds(r.taken, r.lucks) == {};
    assert r.end == r.start - {};
    forall x | 0 <= x < |targets|
      ensures Reported(me, r.agents, r.start, r.before[x], r.lucks[x], r.taken[x], r.after[x])
      ensures NoneLeft(me, r.end, r.before[x], r.lucks[x], r.taken[x])
    {
      assert x == i || x == j ==> Addressed(r.start[0], me, Some(targets[x]));
    }
    assert Reports(me, r);
  }

  /** Waits for a list of targets answer with each mail once, whatever fails, exactly if no target is named twice. */
  lemma ServesOnceExactly(me: string, targets: seq<string>)
    ensures (forall rounds | IsWaitFor(me, targets, rounds) :: ServesOnce(rounds)) <==> NoRepeats(targets)
  {
    if NoRepeats(targets) {
      forall rounds | IsWaitFor(me, targets, rounds) ensures ServesOnce(rounds) {
        DistinctServeOnce(me, targets, rounds);
      }
    } else {
      var i, j :| 0 <= i < j < |targets| && targets[i] == targets[j];
      RepeatedServesTwice(me, targets, i, j);
      var rounds := [TwiceRound(me, targets, i, j)];
      assert !ServesOnce(rounds);
    }
  }

  // ----- Answers without mail

  /** Round `k` found entry `i` open, no mail for it, and its agent's row; `row` says what was in it. */
  ghost predicate Asked(rounds: seq<Round>, k: nat, i: nat)
    requires k < |rounds| && i < |rounds[k].before|
    requires |rounds[k].before| == |rounds[k].taken| == |rounds[k].lucks|
  {
    && rounds[k].before[i].status == Running && rounds[k].taken[i].None?
    && rounds[k].lucks[i].agent && rounds[k].before[i].target in rounds[k].agents
  }

  /** What one round makes of an entry without mail: dead before idle, and otherwise still open. */
  lemma StatusInRound(me: string, rounds: seq<Round>, k: nat, i: nat)
    requires IsWait(me, rounds) && k < |rounds| && i < |rounds[0].before|
    ensures |rounds[k].before| == |rounds[k].taken| == |rounds[k].lucks| == |rounds[k].after| == |rounds[0].before|
    ensures var b, a := rounds[k].before[i], rounds[k].after[i];
            && (Asked(rounds, k, i) && rounds[k].agents[b.target].life == Dead ==> a.status == DeadAgent)
            && (Asked(rounds, k, i) && rounds[k].agents[b.target].life != Dead ==>
                  a.status == if rounds[k].agents[b.target].idle then IdleAgent else Running)
            && (!Asked(rounds, k, i) && rounds[k].taken[i].None? ==> a.status == b.status)
            && (rounds[k].taken[i].Some? ==> a.status == Received)
  {
    EntriesStay(me, rounds, k);
    assert Reports(me, rounds[k]);
    assert Reported(me, rounds[k].agents, rounds[k].start, rounds[k].before[i], rounds[k].lucks[i],
                    rounds[k].taken[i], rounds[k].after[i]);
  }

  ghost predicate FoundDead(rounds: seq<Round>, k: nat, i: nat) {
    && k < |rounds| && i < |rounds[k].before| == |rounds[k].taken| == |rounds[k].lucks|
    && Asked(rounds, k, i) && rounds[k].agents[rounds[k].before[i].target].life == Dead
  }

  ghost predicate FoundIdle(rounds: seq<Round>, k: nat, i: nat) {
    && k < |rounds| && i < |rounds[k].before| == |rounds[k].taken| == |rounds[k].lucks|
    && Asked(rounds, k, i) && rounds[k].agents[rounds[k].before[i].target].life != Dead
    && rounds[k].agents[rounds[k].before[i].target].idle
  }

  /** An entry is reported dead or idle exactly if some round found its agent so while it was open. */
  lemma {:induction false} StatusIsExact(me: string, rounds: seq<Round>, n: nat, i: nat)
    requires IsWait(me, rounds) && n < |rounds| && i < |rounds[0].before|
    ensures |rounds[n].after| == |rounds[0].before|
    ensures rounds[n].after[i].status == DeadAgent <==> exists k: nat | k <= n :: FoundDead(rounds, k, i)
    ensures rounds[n].after[i].status == IdleAgent <==> exists k: nat | k <= n :: FoundIdle(rounds, k, i)
    decreases n
  {
    StatusInRound(me, rounds, n, i);
    EntryInRound(me, rounds, n, i);
    if n > 0 {
      StatusIsExact(me, rounds, n - 1, i);
    }
    assert FoundDead(rounds, n, i) ==> rounds[n].after[i].status == DeadAgent;
    assert FoundIdle(rounds, n, i) ==> rounds[n].after[i].status == IdleAgent;
    assert rounds[n].after[i].status == DeadAgent ==>
             FoundDead(rounds, n, i) || (n > 0 && rounds[n - 1].after[i].status == DeadAgent);
    assert rounds[n].after[i].status == IdleAgent ==>
             FoundIdle(rounds, n, i) || (n > 0 && rounds[n - 1].after[i].status == IdleAgent);
    assert n > 0 && rounds[n - 1].after[i].status != Running ==>
             rounds[n].after[i].status == rounds[n - 1].after[i].status by {
      assert Reports(me, rounds[n]);
      assert Reported(me, rounds[n].agents, rounds[n].start, rounds[n].before[i], rounds[n].lucks[i],
                      rounds[n].taken[i], rounds[n].after[i]);
    }
    hide *;
  }
}
