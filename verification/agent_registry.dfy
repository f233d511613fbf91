/**
  The agent array of the terminal program and the commands working on it in place.  Agents are
  objects; victims are collected in a fixed array of pointers.
*/
module AgentRegistry {
  import opened Wrappers
  import opened Sequences
  import opened Forest
  import opened ForestRuns

  class Agent {
    const uuid: string
    const parent: Option<string>
    var dead: bool

    constructor (uuid: string, parent: Option<string>)
      ensures this.uuid == uuid && this.parent == parent && !dead
    {
      this.uuid, this.parent, this.dead := uuid, parent, false;
    }

    function Row(): Record
      reads this
    {
      Record(uuid, parent, dead)
    }
  }

  /** The later agents move down by one. */
  function Dropped<T>(s: seq<T>, k: nat): seq<T>
    requires k < |s|
  {
    s[..k] + s[k + 1..]
  }

  ghost function Rows(agents: seq<Agent>): (r: seq<Record>)
    reads agents
    ensures |r| == |agents| && forall i | 0 <= i < |agents| :: r[i] == agents[i].Row()
  {
    seq(|agents|, i requires 0 <= i < |agents| reads agents => agents[i].Row())
  }

  lemma RowsDropped(agents: seq<Agent>, k: nat)
    requires k < |agents|
    ensures Rows(Dropped(agents, k)) == Dropped(Rows(agents), k)
  {
    hide Rows;
  }

  class Registry {
    var agents: seq<Agent>
    var current: Agent?

    ghost function Records(): (r: seq<Record>)
      reads this`agents, agents
      ensures |r| == |agents|
    {
      Rows(agents)
    }

    ghost predicate Valid()
      reads this, agents
    {
      Sound(Records()) && current in agents
    }

    /** The state as the commands see it; the rows of the database are not in memory. */
    ghost function View(): Repl
      requires current != null
      reads this, agents
    {
      Repl(Records(), current.uuid, map[], {})
    }

    constructor (root: Agent)
      requires root.parent.None? && !root.dead && |root.uuid| == UUID_LENGTH
      ensures Valid() && View() == Repl([root.Row()], root.uuid, map[], {})
    {
      agents := [root];
      current := root;
    }

    /** Position of an agent object. */
    ghost function At(x: Agent): (i: nat)
      requires x in agents
      reads this
      ensures i < |agents| && agents[i] == x
    {
      var i :| 0 <= i < |agents| && agents[i] == x;
      i
    }

    method AddAgent(x: Agent)
      modifies this`agents
      ensures agents == old(agents) + [x]
      ensures Records() == old(Records()) + [x.Row()]
    {
      agents := agents + [x];
    }

    /**
      The fork command for a new id: before anything is added it may be refused, after that a
      failing database step leaves the child in the array without switching to it.
    */
    method CmdFork(id: string, end: ForkEnd)
      requires Valid() && |id| == UUID_LENGTH
      requires forall x | x in agents :: x.uuid != id && x.parent != Some(id)
      modifies this
      ensures Valid()
      ensures View() == ForkStep(old(View()), id, end).(rows := map[], issued := {})
    {
      TargetOfCurrent();
      NewId(id);
      AddKeepsMemory(View(), id, current.uuid);
      hide Rows, InMemory, Sound, IndexFrom;
      if end == Refused {
        return;
      }
      var child := new Agent(id, Some(current.uuid));
      AddAgent(child);
      assert child in agents && forall x | x in old(agents) :: x in agents;
      if end == Switched {
        var _ := SwitchAgent(child);
      }
      ValidAgain();
    }

    lemma NewId(id: string)
      requires Valid() && forall x | x in agents :: x.uuid != id && x.parent != Some(id)
      ensures forall i | 0 <= i < |agents| :: Records()[i].uuid != id && Records()[i].parent != Some(id)
      ensures InMemory(View()) && current.uuid != id
    {
      TargetOfCurrent();
      forall i | 0 <= i < |agents| ensures Records()[i].uuid != id && Records()[i].parent != Some(id) {
        assert agents[i] in agents && Records()[i] == agents[i].Row();
      }
    }

    method IndexOf(uuid: string) returns (i: nat)
      ensures i == IndexFrom(Records(), uuid, 0)
    {
      i := 0;
      while i < |agents| && agents[i].uuid != uuid
        invariant i <= |agents|
        invariant IndexFrom(Records(), uuid, 0) == IndexFrom(Records(), uuid, i)
      {
        i := i + 1;
      }
    }

    method RemoveAgent(uuid: string) returns (ok: bool)
      requires Distinct(Records())
      modifies this
      ensures ok <==> IndexFrom(old(Records()), uuid, 0) < |old(agents)|
      ensures Records() == Without(old(Records()), {uuid})
      ensures ok ==> agents == Dropped(old(agents), IndexFrom(old(Records()), uuid, 0))
      ensures !ok ==> agents == old(agents)
      ensures current ==
              if ok && old(agents)[IndexFrom(old(Records()), uuid, 0)] == old(current) then null else old(current)
    {
      var k := IndexOf(uuid);
      if k == |agents| {
        WithoutNone(Records(), {uuid});
        return false;
      }
      WithoutOne(Records(), uuid, k);
      hide *;
      RowsDropped(agents, k);
      if agents[k] == current {
        current := null;
      }
      agents := Dropped(agents, k);
      return true;
    }

    method FindAgent(prefix: string) returns (x: Agent?)
      ensures x == null <==> Find(Records(), prefix).None?
      ensures x != null ==> x == agents[Find(Records(), prefix).value]
    {
      if |prefix| < 4 {
        return null;
      }
      var k := IndexOf(prefix);
      if k < |agents| {
        return agents[k];
      }
      var i, found := 0, 0;
      x := null;
      ghost var a := Records();
      while i < |agents|
        invariant 0 <= i <= |agents| && 0 <= found <= 1
        invariant found == 0 ==> x == null && PrefixFrom(a, prefix, 0) == PrefixFrom(a, prefix, i)
        invariant found == 1 ==> PrefixFrom(a, prefix, 0) < i && x == agents[PrefixFrom(a, prefix, 0)]
        invariant found == 1 ==> PrefixFrom(a, prefix, PrefixFrom(a, prefix, 0) + 1) == PrefixFrom(a, prefix, i)
      {
        if |prefix| <= |agents[i].uuid| && agents[i].uuid[..|prefix|] == prefix {
          if found == 1 {
            return null;
          }
          x, found := agents[i], 1;
        }
        i := i + 1;
      }
    }

    method UuidAmbiguous(prefix: string) returns (b: bool)
      ensures b <==> Ambiguous(Records(), prefix)
    {
      if |prefix| < 4 {
        return false;
      }
      var i: nat, found: nat := 0, 0;
      ghost var a := Records();
      ghost var first := 0;
      while i < |agents|
        invariant i <= |agents| && found <= 1
        invariant found == 0 ==> forall k | 0 <= k < i :: !HasPrefix(a[k].uuid, prefix)
        invariant found == 1 ==> 0 <= first < i && HasPrefix(a[first].uuid, prefix)
        invariant found == 1 ==> forall k | 0 <= k < i && k != first :: !HasPrefix(a[k].uuid, prefix)
      {
        if |prefix| <= |agents[i].uuid| && agents[i].uuid[..|prefix|] == prefix {
          assert HasPrefix(a[i].uuid, prefix);
          if found == 1 {
            return true;
          }
          found, first := 1, i;
        }
        i := i + 1;
      }
      return false;
    }

    method SwitchAgent(x: Agent?) returns (ok: bool)
      modifies this`current
      ensures ok <==> x != null
      ensures current == if x == null then old(current) else x
    {
      if x == null {
        return false;
      }
      current := x;
      return true;
    }

    /** Writes the first descendants of the agent `p`, at most `max`, from `off` on. */
    method CollectDescendants(uuid: string, ghost p: nat, out: array<Agent?>, off: nat, max: nat) returns (count: nat)
      requires Distinct(Records()) && Ordered(Records())
      requires p < |agents| && agents[p].uuid == uuid && off + max <= out.Length
      modifies out
      ensures Written(agents, old(out[..]), out[..], off, Collect(Records(), p, 0), count, max)
      decreases |agents| - p, 0
    {
      count := 0;
      var i: nat := 0;
      ghost var a := Records();
      ghost var done: seq<nat> := [];
      hide *;
      WrittenNothing(agents, out[..], off, max);
      while i < |agents| && count < max
        invariant i <= |agents| && count <= max && a == Records()
        invariant Collect(a, p, 0) == done + Collect(a, p, i)
        invariant Written(agents, old(out[..]), out[..], off, done, count, max)
      {
        ghost var rest := Collect(a, p, i + 1);
        CollectOne(a, p, i);
        ChildTest(i, p);
        if agents[i].parent == Some(uuid) {
          ghost var below := Collect(a, i, 0);
          count := CollectChild(i, out, off, count, max, old(out[..]), done);
          Regroup(done, below + [i], rest);
          Regroup(done, below, [i]);
          done := done + below + [i];
        }
        i := i + 1;
      }
      if i == |agents| {
        CollectEnd(a, p);
        assert done + [] == done;
      } else {
        WrittenFull(agents, old(out[..]), out[..], off, done, Collect(a, p, i), max);
      }
    }

    /** First what is below the child, then the child itself. */
    method CollectChild(i: nat, out: array<Agent?>, off: nat, from: nat, max: nat,
                        ghost start: seq<Agent?>, ghost done: seq<nat>)
      returns (count: nat)
      requires Distinct(Records()) && Ordered(Records()) && i < |agents| && from < max && off + max <= out.Length
      requires Written(agents, start, out[..], off, done, from, max)
      modifies out
      ensures count <= max
      ensures Written(agents, start, out[..], off, done + Collect(Records(), i, 0) + [i], count, max)
      decreases |agents| - i, 1
    {
      hide *;
      ghost var below := Collect(Records(), i, 0);
      ghost var before := out[..];
      var more := CollectDescendants(agents[i].uuid, i, out, off + from, max - from);
      WrittenBoth(agents, start, before, out[..], off, done, below, from, more, max);
      count := from + more;
      WrittenOne(agents, start, out[..], off, done + below, i, count, max);
      if count < max {
        Put(out, off + count, agents[i]);
        count := count + 1;
      }
    }

    lemma ChildTest(i: nat, p: nat)
      requires i < |agents| && p < |agents|
      ensures agents[i].parent == Some(agents[p].uuid) <==> IsChild(Records(), i, p)
    {
    }

    /** Sets the dead flag of one agent. */
    method MarkAgent(x: Agent, ghost i: nat)
      requires Distinct(Records()) && i < |agents| && agents[i] == x
      modifies x`dead
      ensures Records() == MarkDead(old(Records()), [i])
    {
      assert forall j | 0 <= j < |agents| && j != i :: Records()[j].uuid != Records()[i].uuid;
      x.dead := true;
    }

    lemma SameCurrent(p: nat)
      requires Distinct(Records()) && current in agents && p < |agents|
      ensures current.uuid == agents[p].uuid <==> current == agents[p]
    {
      var i := At(current);
      assert Records()[i].uuid == current.uuid && Records()[p].uuid == agents[p].uuid;
    }

    /** Marks the target and its victims until notification number `notified` fails. */
    method MarkVictims(target: Agent, ghost p: nat, victims: array<Agent?>, ghost list: seq<nat>,
                       count: nat, notified: nat)
      returns (completed: bool)
      requires Distinct(Records()) && notified >= 1 && p < |agents| && agents[p] == target
      requires ListedIn(agents, victims[..], list, count)
      modifies agents
      ensures completed <==> notified > count + 1
      ensures Distinct(Records())
      ensures Records() == MarkDead(old(Records()), Take([p] + list, notified))
    {
      ghost var a := Records();
      hide *;
      MarkAgent(target, p);
      MarkedKeepIds(a, [p]);
      TakeOrder(p, list, 0);
      ListedCount(agents, victims[..], list, count);
      assert [p] + list[..0] == [p];
      if notified == 1 {
        return false;
      }
      var i: nat := 0;
      while i < count
        invariant i <= count && i + 1 < notified
        invariant i <= |list| && Records() == MarkDead(a, [p] + list[..i]) && Distinct(Records())
      {
        ListedAt(agents, victims[..], list, count, i);
        MarkAgent(victims[i], list[i]);
        MarkMore(a, [p] + list[..i], list[i]);
        assert [p] + list[..i] + [list[i]] == [p] + list[..i + 1];
        MarkedKeepIds(a, [p] + list[..i + 1]);
        i := i + 1;
        if i + 1 == notified {
          TakeOrder(p, list, i);
          return false;
        }
      }
      TakeOrder(p, list, notified - 1);
      assert list[..count] == list;
      return true;
    }

    method KillCascade(target: Agent, ghost p: nat, committed: bool, notified: nat)
      requires Valid() && notified >= 1 && p < |agents| && agents[p] == target && target.parent.Some?
      modifies this`current, agents
      ensures Valid() && View() == Cascade(old(View()), p, committed, notified)
    {
      TargetOfCurrent();
      ValidIds();
      CascadeKeepsMemory(View(), p, committed, notified);
      hide *;
      var count, victims := CollectVictims(target, p);
      if committed {
        ghost var list := Take(Collect(Records(), p, 0), MAX_VICTIMS);
        ListedCount(agents, victims[..], list, count);
        CascadeIs(View(), p, notified);
        var completed := MarkVictims(target, p, victims, list, count, notified);
        if completed {
          LeaveTarget(target);
        }
      } else {
        NothingCommitted(View(), p, notified);
      }
      ValidAgain();
    }

    lemma ValidAgain()
      requires current in agents && InMemory(View())
      ensures Valid()
    {
    }

    method CollectVictims(target: Agent, ghost p: nat) returns (count: nat, victims: array<Agent?>)
      requires Distinct(Records()) && Ordered(Records()) && p < |agents| && agents[p] == target
      ensures fresh(victims) && ListedIn(agents, victims[..], Take(Collect(Records(), p, 0), MAX_VICTIMS), count)
    {
      hide Rows, Collect, Written, ListedIn, Distinct, Ordered;
      victims := new Agent?[MAX_VICTIMS](_ => null);
      count := CollectDescendants(target.uuid, p, victims, 0, MAX_VICTIMS);
      WrittenTaken(agents, victims[..], Collect(Records(), p, 0), count, MAX_VICTIMS);
    }

    method LeaveTarget(target: Agent)
      requires target.parent.Some? && current != null && current in agents && target in agents && Distinct(Records())
      modifies this`current
      ensures current in agents && View() == LeaveKilled(old(View()), target.uuid, target.parent)
    {
      hide Rows, Find;
      SameCurrent(At(target));
      if target == current {
        var parent := FindAgent(target.parent.value);
        if parent != null {
          var _ := SwitchAgent(parent);
        }
      }
    }

    method CmdKill(arg: string, committed: bool, notified: nat)
      requires Valid() && notified >= 1
      modifies this`current, agents
      ensures Valid() && View() == KillStep(old(View()), arg, committed, notified)
    {
      hide Cascade, Find;
      TargetOfCurrent();
      if arg == "" {
        if current.parent.Some? {
          KillCascade(current, IndexFrom(Records(), current.uuid, 0), committed, notified);
        }
        return;
      }
      var target := FindAgent(arg);
      if target == null || target.parent.None? {
        return;
      }
      KillCascade(target, Find(Records(), arg).value, committed, notified);
    }

    lemma TargetOfCurrent()
      requires Valid()
      ensures IndexFrom(Records(), current.uuid, 0) < |agents|
      ensures agents[IndexFrom(Records(), current.uuid, 0)] == current
    {
      var i := At(current);
      assert Records()[i].uuid == current.uuid;
      assert Records()[IndexFrom(Records(), current.uuid, 0)].uuid == current.uuid;
    }

    /** The kill tool's completion: the id the worker stored, which is not a root's. */
    method KillOnComplete(uuid: string)
      requires Valid() && agents != [] && agents[0].uuid != uuid
      modifies agents
      ensures Valid() && Records() == MarkedId(old(Records()), uuid)
    {
      TargetOfCurrent();
      MarkedIdKeepsMemory(View(), uuid);
      var j := IndexOf(uuid);
      if j < |agents| {
        MarkAgent(agents[j], j);
      }
    }

    method FindFirstLiving() returns (x: Agent?)
      ensures x == if LivingFrom(Records(), 0) < |agents| then agents[LivingFrom(Records(), 0)] else null
    {
      var i := 0;
      while i < |agents|
        invariant 0 <= i <= |agents|
        invariant LivingFrom(Records(), 0) == LivingFrom(Records(), i)
      {
        if !agents[i].dead {
          return agents[i];
        }
        i := i + 1;
      }
      return null;
    }

    method IsVictim(agent: Agent, ghost c: nat, victims: array<Agent?>, count: nat, ghost list: seq<nat>)
      returns (b: bool)
      requires Distinct(Records()) && c < |agents| && agents[c] == agent
      requires ListedIn(agents, victims[..], list, count)
      ensures b <==> c in list
    {
      var i := 0;
      while i < count
        invariant 0 <= i <= count && c !in list[..i]
      {
        ListedAt(agents, victims[..], list, count, i);
        if victims[i] == agent {
          SamePlace(c, list[i]);
          return true;
        }
        i := i + 1;
      }
      assert list[..count] == list;
      return false;
    }

    /** Whether the parent of the agent `at` is a victim. */
    method IsVictimId(uuid: string, ghost at: nat, victims: array<Agent?>, count: nat, ghost list: seq<nat>)
      returns (b: bool)
      requires Distinct(Records()) && at < |agents| && agents[at].parent == Some(uuid)
      requires ListedIn(agents, victims[..], list, count)
      ensures b <==> Parent(Records(), at).Some? && Parent(Records(), at).value in list
    {
      ghost var q := Parent(Records(), at);
      var i := 0;
      while i < count
        invariant 0 <= i <= count && (q.Some? ==> q.value !in list[..i])
      {
        ListedAt(agents, victims[..], list, count, i);
        if victims[i].uuid == uuid {
          SameId(list[i], at);
          return true;
        }
        i := i + 1;
      }
      assert list[..count] == list;
      return false;
    }

    /** Walks up the parents; terminates because a parent stands before its child. */
    method IsAffected(agent: Agent, ghost c: nat, victims: array<Agent?>, count: nat, ghost list: seq<nat>)
      returns (b: bool)
      requires Distinct(Records()) && Ordered(Records()) && c < |agents| && agents[c] == agent
      requires ListedIn(agents, victims[..], list, count)
      ensures b <==> Affected(Records(), c, list)
    {
      hide Rows, ListedIn;
      b := IsVictim(agent, c, victims, count, list);
      if b {
        return;
      }
      var check := agent.parent;
      ghost var at: nat := c;
      while check.Some?
        invariant at < |agents| && check == agents[at].parent && at !in list
        invariant Affected(Records(), c, list) <==> Affected(Records(), at, list)
        decreases at
      {
        b := IsVictimId(check.value, at, victims, count, list);
        if b {
          return;
        }
        var k := IndexOf(check.value);
        if k == |agents| {
          return;
        }
        SameId(k, at);
        check, at := agents[k].parent, k;
      }
    }

    lemma SamePlace(i: nat, j: nat)
      requires Distinct(Records()) && i < |agents| && j < |agents| && agents[i] == agents[j]
      ensures i == j
    {
      assert Records()[i] == Records()[j];
    }

    lemma SameId(i: nat, at: nat)
      requires Distinct(Records()) && i < |agents| && at < |agents| && agents[at].parent == Some(agents[i].uuid)
      ensures Parent(Records(), at) == Some(i)
    {
      assert IsChild(Records(), at, i);
      ParentOf(Records(), at, i);
    }

    /** Bulk mode: the first dead agents. */
    method CollectDead(victims: array<Agent?>) returns (count: nat)
      requires victims.Length == MAX_VICTIMS
      modifies victims
      ensures ListedIn(agents, victims[..], Take(DeadFrom(Records(), 0), MAX_VICTIMS), count)
    {
      count := 0;
      var i: nat := 0;
      ghost var a := Records();
      ghost var done: seq<nat> := [];
      while i < |agents| && count < MAX_VICTIMS
        invariant i <= |agents| && count <= MAX_VICTIMS && a == Records()
        invariant DeadFrom(a, 0) == done + DeadFrom(a, i)
        invariant ListedIn(agents, victims[..], done, count)
      {
        ghost var rest := DeadFrom(a, i + 1);
        if agents[i].dead {
          Put(victims, count, agents[i]);
          count := count + 1;
          assert done + ([i] + rest) == done + [i] + rest;
          done := done + [i];
        }
        i := i + 1;
      }
      assert i == |agents| ==> done + [] == done;
      assert Take(DeadFrom(a, 0), MAX_VICTIMS) == done;
    }

    /** The array holds the agents `all`, described by `a`, except those with the ids `gone`. */
    method RemoveVictim(x: Agent, ghost all: seq<Agent>, ghost a: seq<Record>, ghost gone: set<string>)
      requires Distinct(a) && |a| == |all| && forall i | 0 <= i < |a| :: a[i].uuid == all[i].uuid
      requires Records() == Without(a, gone) && Distinct(Records()) && forall y | y in agents :: y in all
      requires x in all && x != current && current != null
      modifies this
      ensures current == old(current)
      ensures Records() == Without(a, gone + {x.uuid}) && Distinct(Records())
      ensures forall y | y in agents :: y in all
    {
      WithoutMore(a, gone, x.uuid);
      ghost var k := IndexFrom(Records(), x.uuid, 0);
      if k < |agents| {
        assert agents[k] in all && agents[k].uuid == Records()[k].uuid;
        SameAgent(all, a, agents[k], x);
      }
      hide Without, Distinct;
      var _ := RemoveAgent(x.uuid);
    }

    /**
      Removes the victims, all different, one by one until the database write number `recorded`
      fails.
    */
    method RemoveVictims(victims: array<Agent?>, count: nat, ghost list: seq<nat>, recorded: nat)
      requires Valid() && recorded >= 1 && ListedIn(agents, victims[..], list, count)
      requires forall x | 0 <= x < count :: victims[x] != current
      modifies this
      ensures current == old(current)
      ensures Records() == Without(old(Records()), Ids(old(Records()), Take(list, recorded)))
      ensures forall x | x in agents :: x in old(agents)
    {
      hide *;
      ghost var a := Records();
      ghost var all := agents;
      var i: nat := 0;
      ListedCount(agents, victims[..], list, count);
      ValidIds();
      WithoutNone(a, {});
      NoIds(a, list[..0]);
      while i < count && i < recorded
        invariant i <= count && i <= recorded && current == old(current)
        invariant ListedIn(all, victims[..], list, count)
        invariant Records() == Without(a, Ids(a, list[..i])) && Distinct(Records())
        invariant forall x | x in agents :: x in all
      {
        ListedAt(all, victims[..], list, count, i);
        RemoveVictim(victims[i], all, a, Ids(a, list[..i]));
        IdsMore(a, list, i);
        i := i + 1;
      }
      TakeFirst(list, recorded, i);
    }

    lemma ValidIds()
      requires Valid()
      ensures Distinct(Records()) && Ordered(Records()) && current in agents
      ensures forall i | 0 <= i < |agents| :: Records()[i].uuid == agents[i].uuid
    {
    }

    /** Switches to the first living agent when the current one or an ancestor of it is a victim. */
    method LeaveVictims(victims: array<Agent?>, count: nat, ghost list: seq<nat>, ghost c: nat) returns (ghost at: nat)
      requires Valid() && c < |agents| && agents[c] == current && 0 !in list
      requires ListedIn(agents, victims[..], list, count)
      modifies this`current
      ensures at == if Affected(Records(), c, list) then 0 else c
      ensures current == agents[at] && at !in list
    {
      assert Records()[0] == agents[0].Row();
      at := c;
      var needSwitch := IsAffected(current, c, victims, count, list);
      if needSwitch {
        var living := FindFirstLiving();
        var _ := SwitchAgent(living);
        at := 0;
      }
    }

    method ReapVictims(victims: array<Agent?>, count: nat, ghost arg: string, recorded: nat)
      requires Valid() && recorded >= 1 && count > 0
      requires ListedIn(agents, victims[..], Victims(View(), arg), count)
      modifies this
      ensures Valid() && View() == ReapStep(old(View()), arg, recorded)
    {
      ghost var all, a := agents, Records();
      ghost var list := Victims(View(), arg);
      ghost var c := IndexFrom(a, current.uuid, 0);
      TargetOfCurrent();
      ValidIds();
      ReapKeepsMemory(View(), arg, recorded);
      VictimsSpareRoot(View(), arg);
      ListedCount(agents, victims[..], list, count);
      assert LivingFrom(Records(), 0) == 0;
      hide Victims, LivingFrom, Sound, Distinct, ListedIn, Affected, InMemory, IndexFrom, Without;
      ghost var at := LeaveVictims(victims, count, list, c);
      forall x | 0 <= x < count ensures victims[x] != current {
        ListedAt(agents, victims[..], list, count, x);
        OtherPlace(list[x], at);
      }
      RemoveVictims(victims, count, list, recorded);
      StillThere(all, a);
    }

    /** The current agent's id is in the array only if the agent is. */
    lemma StillThere(all: seq<Agent>, a: seq<Record>)
      requires current in all && Distinct(a) && |a| == |all| && forall i | 0 <= i < |a| :: a[i].uuid == all[i].uuid
      requires (forall x | x in agents :: x in all) && current != null && InMemory(View())
      ensures Valid()
    {
      var k := IndexFrom(Records(), current.uuid, 0);
      SameAgent(all, a, agents[k], current);
    }

    lemma OtherPlace(i: nat, j: nat)
      requires Sound(Records()) && i < |agents| && j < |agents|
      ensures i != j ==> agents[i] != agents[j]
    {
      assert Records()[i] == agents[i].Row() && Records()[j] == agents[j].Row();
    }

    /** Targeted mode: the target, then what is below it, dead or alive. */
    method CollectTarget(target: Agent, ghost t: nat, victims: array<Agent?>) returns (count: nat)
      requires Distinct(Records()) && Ordered(Records()) && t < |agents| && agents[t] == target
      requires victims.Length == MAX_VICTIMS
      modifies victims
      ensures count > 0
      ensures ListedIn(agents, victims[..], [t] + Take(Collect(Records(), t, 0), MAX_VICTIMS - 1), count)
    {
      hide Rows, Collect, Written, ListedIn, Distinct, Ordered;
      Put(victims, 0, target);
      ghost var before := victims[..];
      var more := CollectDescendants(target.uuid, t, victims, 1, MAX_VICTIMS - 1);
      WrittenBehind(agents, before, victims[..], t, Collect(Records(), t, 0), more, MAX_VICTIMS - 1);
      count := 1 + more;
    }

    method CmdReap(arg: string, recorded: nat)
      requires Valid() && recorded >= 1
      modifies this
      ensures Valid() && View() == ReapStep(old(View()), arg, recorded)
    {
      hide Rows, Collect, DeadFrom, Find, Written, ListedIn, Affected, IndexFrom, ReapStep;
      var victims := new Agent?[MAX_VICTIMS](_ => null);
      var count: nat;
      NothingToReap(View(), arg, recorded);
      if arg == "" {
        count := CollectDead(victims);
        ListedCount(agents, victims[..], Victims(View(), arg), count);
        if count == 0 {
          return;
        }
      } else {
        var target := FindAgent(arg);
        if target == null || !target.dead {
          return;
        }
        count := CollectTarget(target, Find(Records(), arg).value, victims);
      }
      ReapVictims(victims, count, arg, recorded);
    }
  }

  lemma SameAgent(all: seq<Agent>, a: seq<Record>, x: Agent, y: Agent)
    requires Distinct(a) && |a| == |all| && forall i | 0 <= i < |a| :: a[i].uuid == all[i].uuid
    requires x in all && y in all && x.uuid == y.uuid
    ensures x == y
  {
    var i :| 0 <= i < |all| && all[i] == x;
    var j :| 0 <= j < |all| && all[j] == y;
    assert a[i].uuid == a[j].uuid;
  }

  lemma {:induction false} WithoutTwice(a: seq<Record>, gone: set<string>, uuid: string)
    ensures Without(Without(a, gone), {uuid}) == Without(a, gone + {uuid})
  {
    if a != [] {
      WithoutTwice(a[1..], gone, uuid);
      var w := Without(a[1..], gone);
      if a[0].uuid !in gone {
        assert Without(a, gone) == [a[0]] + w && ([a[0]] + w)[1..] == w;
      } else {
        assert Without(a, gone) == [] + w == w;
      }
    }
  }

  lemma WithoutMore(a: seq<Record>, gone: set<string>, uuid: string)
    requires Distinct(a)
    ensures Without(Without(a, gone), {uuid}) == Without(a, gone + {uuid})
    ensures Distinct(Without(a, gone + {uuid}))
  {
    WithoutTwice(a, gone, uuid);
    var w := Without(a, gone + {uuid});
    forall i, j | 0 <= i < j < |w| ensures w[i].uuid != w[j].uuid {
      var x := SurvivorOrigin(a, gone + {uuid}, i);
      var y := SurvivorOrigin(a, gone + {uuid}, j);
    }
  }

  lemma NoIds(a: seq<Record>, list: seq<nat>)
    requires list == []
    ensures Ids(a, list) == {}
  {
  }

  lemma IdsMore(a: seq<Record>, list: seq<nat>, i: nat)
    requires i < |list| && list[i] < |a|
    ensures Ids(a, list[..i + 1]) == Ids(a, list[..i]) + {a[list[i]].uuid}
  {
    assert list[..i + 1] == list[..i] + [list[i]];
  }

  lemma ListedAt(agents: seq<Agent>, now: seq<Agent?>, list: seq<nat>, count: nat, i: nat)
    requires i < count && ListedIn(agents, now, list, count)
    ensures i < |list| && count <= |now| && list[i] < |agents| && now[i] == agents[list[i]]
  {
  }

  /** An array of pointers that starts with the agents of the listing. */
  ghost predicate ListedIn(agents: seq<Agent>, now: seq<Agent?>, list: seq<nat>, count: nat) {
    count == |list| <= |now| && forall x | 0 <= x < count :: list[x] < |agents| && now[x] == agents[list[x]]
  }

  lemma ListedCount(agents: seq<Agent>, now: seq<Agent?>, list: seq<nat>, count: nat)
    requires ListedIn(agents, now, list, count)
    ensures count == |list|
  {
  }

  lemma NothingToReap(s: Repl, arg: string, recorded: nat)
    requires Ordered(s.agents)
    ensures Victims(s, arg) == [] ==> ReapStep(s, arg, recorded) == s
  {
  }

  lemma CascadeIs(s: Repl, p: nat, notified: nat)
    requires Ordered(s.agents) && p < |s.agents|
    ensures var order := [p] + Take(Collect(s.agents, p, 0), MAX_VICTIMS);
            var marked := s.(agents := MarkDead(s.agents, Take(order, notified)));
            Cascade(s, p, true, notified) ==
            if notified <= |order| then marked else LeaveKilled(marked, s.agents[p].uuid, s.agents[p].parent)
  {
  }

  lemma NothingCommitted(s: Repl, p: nat, notified: nat)
    requires Ordered(s.agents) && p < |s.agents|
    ensures Cascade(s, p, false, notified) == s
  {
  }

  lemma TakeFirst(list: seq<nat>, n: nat, i: nat)
    requires i <= |list| && (i == n || i == |list| <= n)
    ensures Take(list, n) == list[..i]
  {
  }

  lemma TakeOrder(p: nat, list: seq<nat>, k: nat)
    ensures Take([p] + list, k + 1) == if k <= |list| then [p] + list[..k] else [p] + list
  {
  }

  lemma MarkMore(a: seq<Record>, who: seq<nat>, i: nat)
    ensures MarkDead(MarkDead(a, who), [i]) == MarkDead(a, who + [i])
  {
  }

  lemma MarkedKeepIds(a: seq<Record>, who: seq<nat>)
    ensures Distinct(a) ==> Distinct(MarkDead(a, who))
    ensures Sound(a) && 0 !in who ==> Sound(MarkDead(a, who))
  {
  }

  lemma WrittenTaken(agents: seq<Agent>, now: seq<Agent?>, list: seq<nat>, count: nat, max: nat)
    requires exists before :: Written(agents, before, now, 0, list, count, max)
    ensures ListedIn(agents, now, Take(list, max), count)
  {
    var before :| Written(agents, before, now, 0, list, count, max);
    assert forall x | 0 <= x < count :: now[0 + x] == now[x];
  }

  lemma WrittenBehind(agents: seq<Agent>, before: seq<Agent?>, now: seq<Agent?>, first: nat, list: seq<nat>,
                      count: nat, max: nat)
    requires Written(agents, before, now, 1, list, count, max)
    requires |before| > 0 && first < |agents| && before[0] == agents[first]
    ensures ListedIn(agents, now, [first] + Take(list, max), count + 1)
  {
    assert now[0] == now[..1][0] == before[..1][0];
    assert forall x | 0 <= x < count :: now[1 + x] == agents[list[x]];
  }

  /**
    From `off` on `now` holds the first agents of the listing, as many as fit, and otherwise what
    `before` held.
  */
  ghost predicate Written(agents: seq<Agent>, before: seq<Agent?>, now: seq<Agent?>, off: nat, list: seq<nat>,
                          count: nat, max: nat)
  {
    && count == (if |list| < max then |list| else max) && |now| == |before| && off + count <= |now|
    && (forall x | 0 <= x < count :: list[x] < |agents| && now[off + x] == agents[list[x]])
    && now[..off] == before[..off] && now[off + count..] == before[off + count..]
  }

  lemma WrittenNothing(agents: seq<Agent>, out: seq<Agent?>, off: nat, max: nat)
    requires off + max <= |out|
    ensures Written(agents, out, out, off, [], 0, max)
  {
  }

  lemma WrittenFull(agents: seq<Agent>, before: seq<Agent?>, now: seq<Agent?>, off: nat, list: seq<nat>,
                    more: seq<nat>, max: nat)
    requires Written(agents, before, now, off, list, max, max)
    ensures Written(agents, before, now, off, list + more, max, max)
  {
  }

  lemma WrittenBoth(agents: seq<Agent>, before: seq<Agent?>, mid: seq<Agent?>, now: seq<Agent?>, off: nat,
                    list: seq<nat>, more: seq<nat>, count: nat, added: nat, max: nat)
    requires count < max && Written(agents, before, mid, off, list, count, max)
    requires Written(agents, mid, now, off + count, more, added, max - count)
    ensures count + added <= max && Written(agents, before, now, off, list + more, count + added, max)
  {
    forall x | 0 <= x < count + added ensures (list + more)[x] < |agents| && now[off + x] == agents[(list + more)[x]] {
      if x < count {
        assert now[off + x] == now[..off + count][off + x] == mid[off + x];
      } else {
        assert now[off + x] == now[off + count + (x - count)];
      }
    }
    assert now[..off] == now[..off + count][..off] == mid[..off];
    assert mid[off + count + added..] == mid[off + count..][added..] == before[off + count + added..];
  }

  lemma WrittenOne(agents: seq<Agent>, before: seq<Agent?>, now: seq<Agent?>, off: nat, list: seq<nat>, i: nat,
                   count: nat, max: nat)
    requires i < |agents| && off + max <= |now| && Written(agents, before, now, off, list, count, max)
    ensures count == max ==> Written(agents, before, now, off, list + [i], count, max)
    ensures count < max ==> Written(agents, before, now[off + count := agents[i]], off, list + [i], count + 1, max)
  {
    if count < max {
      var next := now[off + count := agents[i]];
      assert next[..off] == now[..off];
      assert next[off + count + 1..] == now[off + count..][1..];
      assert before[off + count..][1..] == before[off + count + 1..];
    }
  }

  lemma CollectOne(a: seq<Record>, p: nat, i: nat)
    requires Ordered(a) && p < |a| && i < |a|
    ensures IsChild(a, i, p) ==> p < i && Collect(a, p, i) == Collect(a, i, 0) + [i] + Collect(a, p, i + 1)
    ensures !IsChild(a, i, p) ==> Collect(a, p, i) == Collect(a, p, i + 1)
  {
  }

  lemma CollectEnd(a: seq<Record>, p: nat)
    requires Ordered(a) && p < |a|
    ensures Collect(a, p, |a|) == []
  {
  }

  lemma {:induction false} WithoutNone(a: seq<Record>, gone: set<string>)
    requires forall j | 0 <= j < |a| :: a[j].uuid !in gone
    ensures Without(a, gone) == a
  {
    if a != [] {
      WithoutNone(a[1..], gone);
    }
  }

  /** Removing one id shifts the rest down by one. */
  lemma {:induction false} WithoutOne(a: seq<Record>, uuid: string, k: nat)
    requires k < |a| && a[k].uuid == uuid && forall j | 0 <= j < |a| && j != k :: a[j].uuid != uuid
    ensures Without(a, {uuid}) == Dropped(a, k)
  {
    if k == 0 {
      WithoutNone(a[1..], {uuid});
    } else {
      WithoutOne(a[1..], uuid, k - 1);
      assert Dropped(a, k) == [a[0]] + Dropped(a[1..], k - 1);
    }
  }

  method Put(out: array<Agent?>, k: nat, x: Agent)
    requires k < out.Length
    modifies out
    ensures out[..] == old(out[..])[k := x]
  {
    out[k] := x;
  }
}
