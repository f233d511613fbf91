/**
  Whom a command means: the text behind it names one agent, and that agent and those below it are
  the ones that die or go.
*/
module CommandTargets {
  import opened Wrappers
  import opened Forest
  import opened ForestRuns

  /** The text is a full id, or a prefix of at least four characters that fits nobody else. */
  ghost predicate Names(a: seq<Record>, arg: string, i: nat) {
    && i < |a| && |arg| >= 4 && arg <= a[i].uuid
    && (|arg| == UUID_LENGTH || forall k | 0 <= k < |a| && k != i :: !(arg <= a[k].uuid))
  }

  /** Whom a kill means: the agent named, or the current one when nothing is said. */
  ghost predicate Means(s: Repl, arg: string, i: nat) {
    if arg == "" then i < |s.agents| && s.agents[i].uuid == s.current else Names(s.agents, arg, i)
  }

  /** Being below an agent: its child, or below a child of it. */
  lemma BelowByParent(a: seq<Record>, j: nat, p: nat)
    requires Distinct(a) && Ordered(a) && j < |a| && p < |a|
    ensures Under(a, j, p) <==>
            exists q | 0 <= q < |a| && a[j].parent == Some(a[q].uuid) :: q == p || Under(a, q, p)
  {
    UnderStep(a, j, p);
    forall q | 0 <= q < |a| ensures a[j].parent == Some(a[q].uuid) <==> Parent(a, j) == Some(q) {
      if a[j].parent == Some(a[q].uuid) {
        ParentOf(a, j, q);
      }
    }
    hide Under, Parent;
  }

  lemma UnderStep(a: seq<Record>, j: nat, p: nat)
    requires Ordered(a) && j < |a|
    ensures Under(a, j, p) <==> Parent(a, j).Some? && (Parent(a, j).value == p || Under(a, Parent(a, j).value, p))
  {
  }

  ghost function Below(a: seq<Record>, p: nat): set<nat>
    requires Ordered(a)
  {
    set j: nat | j < |a| && Under(a, j, p)
  }

  lemma TargetIsMeant(s: Repl, arg: string, i: nat)
    requires InMemory(s) && i < |s.agents|
    ensures Target(s, arg) == Some(i) <==> Means(s, arg, i)
  {
    if arg == "" {
      var k := IndexFrom(s.agents, s.current, 0);
      assert s.agents[k].uuid == s.current;
    } else {
      FindIsExact(s.agents, arg, i);
      PrefixesAre(s.agents, arg);
    }
  }

  lemma PrefixesAre(a: seq<Record>, arg: string)
    ensures forall k | 0 <= k < |a| :: HasPrefix(a[k].uuid, arg) <==> arg <= a[k].uuid
  {
  }

  // ----- How many stand below an agent

  ghost function Members(r: seq<nat>): set<nat> { set k | k in r }

  lemma {:induction false} CountOnce(r: seq<nat>)
    requires forall x, y | 0 <= x < y < |r| :: r[x] != r[y]
    ensures |Members(r)| == |r|
  {
    if r != [] {
      var last, rest := r[|r| - 1], r[..|r| - 1];
      CountOnce(rest);
      assert r == rest + [last];
      assert last !in Members(rest) && Members(r) == Members(rest) + {last};
    }
  }

  lemma BelowIsCollected(a: seq<Record>, p: nat)
    requires Distinct(a) && Ordered(a) && p < |a|
    ensures |Collect(a, p, 0)| == |Below(a, p)|
  {
    var r := Collect(a, p, 0);
    CollectIsSubtree(a, p);
    forall x, y | 0 <= x < y < |r| ensures r[x] != r[y] {
      BelowStandsBefore(a, r, x, y);
    }
    CountOnce(r);
    assert Members(r) == Below(a, p);
  }

  // ----- Kill

  /** Agent `p` and everyone below it are dead, nobody else changed, and the view left a killed agent. */
  ghost predicate KilledExactly(s: Repl, p: nat, r: Repl)
    requires Ordered(s.agents) && p < |s.agents|
  {
    && |r.agents| == |s.agents| && r.rows == s.rows && r.issued == s.issued
    && (forall j | 0 <= j < |s.agents| ::
          && r.agents[j].uuid == s.agents[j].uuid && r.agents[j].parent == s.agents[j].parent
          && (r.agents[j].dead <==> s.agents[j].dead || j == p || Under(s.agents, j, p)))
    && (s.current != s.agents[p].uuid ==> r.current == s.current)
    && (s.current == s.agents[p].uuid ==>
          forall q | 0 <= q < |s.agents| && s.agents[p].parent == Some(s.agents[q].uuid) ::
            r.current == s.agents[q].uuid)
  }

  /** A completed kill over at most 256 descendants kills the agent that is meant, with all below it. */
  lemma KillMeansItsTarget(s: Repl, arg: string, i: nat, notified: nat)
    requires Inv(s) && Means(s, arg, i) && s.agents[i].parent.Some?
    requires |Below(s.agents, i)| <= MAX_VICTIMS && notified > |Below(s.agents, i)| + 1
    ensures KilledExactly(s, i, Step(s, Kill(arg, true, notified)))
  {
    TargetIsMeant(s, arg, i);
    BelowIsCollected(s.agents, i);
    KillStepIs(s, arg, i, notified);
    hide *;
    CascadeKills(s, i, notified);
  }

  lemma KillStepIs(s: Repl, arg: string, i: nat, notified: nat)
    requires Ordered(s.agents) && Target(s, arg) == Some(i) && s.agents[i].parent.Some?
    ensures Step(s, Kill(arg, true, notified)) == Cascade(s, i, true, notified)
  {
    hide Target, Cascade;
  }

  lemma CascadeKills(s: Repl, p: nat, notified: nat)
    requires Inv(s) && p < |s.agents|
    requires |Collect(s.agents, p, 0)| <= MAX_VICTIMS && notified > |Collect(s.agents, p, 0)| + 1
    ensures KilledExactly(s, p, Cascade(s, p, true, notified))
  {
    var a := s.agents;
    KillIsExact(s, p, notified);
    CascadeKeepsRest(s, p, notified);
    forall q | 0 <= q < |a| && a[p].parent == Some(a[q].uuid) ensures Parent(a, p) == Some(q) {
      ParentOf(a, p, q);
    }
    hide Cascade, Collect, Under, Parent, Sound, Inv;
  }

  lemma CascadeKeepsRest(s: Repl, p: nat, notified: nat)
    requires Ordered(s.agents) && p < |s.agents|
    ensures var r := Cascade(s, p, true, notified); r.rows == s.rows && r.issued == s.issued
  {
  }

  /** A kill that means nobody or a root, or is not committed, changes nothing. */
  lemma KillRefused(s: Repl, arg: string, committed: bool, notified: nat)
    requires Inv(s)
    requires !committed || forall i: nat | Means(s, arg, i) :: s.agents[i].parent.None?
    ensures Step(s, Kill(arg, committed, notified)) == s
  {
    var t := Target(s, arg);
    if t.Some? {
      TargetIsMeant(s, arg, t.value);
    }
  }

  /** In particular an ambiguous prefix kills nobody. */
  lemma AmbiguousKillsNobody(s: Repl, arg: string, i: nat, k: nat, committed: bool, notified: nat)
    requires Inv(s) && 0 < |arg| < UUID_LENGTH && i < k < |s.agents|
    requires arg <= s.agents[i].uuid && arg <= s.agents[k].uuid
    ensures Step(s, Kill(arg, committed, notified)) == s
  {
    forall j: nat ensures !Means(s, arg, j) {
      assert j == i ==> k != j;
    }
    KillRefused(s, arg, committed, notified);
  }

  /** The kill tool marks the agent with the target's id and nobody else, unless it is refused. */
  lemma KillToolMeansItsTarget(s: Repl, caller: string, target: string, running: bool, j: nat)
    requires Inv(s) && j < |s.agents|
    ensures var r := Step(s, KillTool(caller, target, running));
            var allowed := && running && target in s.rows && s.rows[target].Some?
                           && caller in s.rows && s.rows[caller] != Some(target);
            && r == s.(agents := r.agents) && |r.agents| == |s.agents|
            && r.agents[j] == s.agents[j].(dead := s.agents[j].dead || (allowed && s.agents[j].uuid == target))
  {
    var k := IndexFrom(s.agents, target, 0);
    assert s.agents[j].uuid == target ==> k == j;
  }

  // ----- Fork and switch

  /** The new agent stands last and alive, below the agent that was current; only a complete fork moves there. */
  lemma ForkAddsChild(s: Repl, id: string, end: ForkEnd)
    requires Inv(s)
    ensures var r := Step(s, Fork(id, end));
            var child := Record(id, Some(s.current), false);
            && r.agents == s.agents + (if end == Refused then [] else [child])
            && r.current == (if end == Switched then id else s.current)
            && r.rows == (if end == Switched then s.rows[id := Some(s.current)] else s.rows)
  {
    assert s.agents + [] == s.agents;
  }

  lemma ForkToolAddsChild(s: Repl, id: string, parent: string)
    requires Inv(s)
    ensures var r := Step(s, ForkTool(id, parent));
            && r.agents == s.agents + [Record(id, Some(parent), false)] && r.current == s.current
            && r.rows == s.rows[id := Some(parent)]
  {
  }

  lemma SwitchMoves(s: Repl, to: string)
    requires Inv(s)
    ensures Step(s, Switch(to)) ==
            s.(current := if exists i | 0 <= i < |s.agents| :: s.agents[i].uuid == to then to else s.current)
  {
    var k := IndexFrom(s.agents, to, 0);
    assert k < |s.agents| ==> s.agents[k].uuid == to;
  }

  // ----- Reap

  /** A reap that names a dead agent removes it and everyone below it, dead or alive, and nobody else. */
  lemma ReapMeansItsTarget(s: Repl, arg: string, i: nat, recorded: nat, j: nat)
    requires Inv(s) && Names(s.agents, arg, i) && s.agents[i].dead && j < |s.agents|
    requires |Below(s.agents, i)| < MAX_VICTIMS && recorded > |Below(s.agents, i)|
    ensures var r := Step(s, Reap(arg, recorded));
            && (s.agents[j] in r.agents <==> j != i && !Under(s.agents, j, i))
            && (s.agents[j].uuid == s.current ==>
                  r.current == if j == i || Under(s.agents, j, i) then s.agents[0].uuid else s.current)
  {
    NamedVictims(s, arg, i);
    InvParts(s);
    hide *;
    ReapStepIs(s, arg, recorded);
    NamedReap(s, arg, recorded);
    StaysExactly(s.agents, Victims(s, arg), j);
    CurrentAfterReap(s, arg, i, recorded, j);
  }

  lemma ReapStepIs(s: Repl, arg: string, recorded: nat)
    requires Ordered(s.agents)
    ensures Step(s, Reap(arg, recorded)) == ReapStep(s, arg, recorded)
  {
    hide ReapStep;
  }

  lemma CurrentAfterReap(s: Repl, arg: string, i: nat, recorded: nat, j: nat)
    requires Inv(s) && j < |s.agents| && i < |s.agents| && 0 < |Victims(s, arg)| <= recorded
    requires forall k | 0 <= k < |s.agents| :: k in Victims(s, arg) <==> k == i || Under(s.agents, k, i)
    ensures s.agents[j].uuid == s.current ==>
              ReapStep(s, arg, recorded).current ==
              if j == i || Under(s.agents, j, i) then s.agents[0].uuid else s.current
  {
    InvParts(s);
    hide *;
    CurrentIsAt(s, j);
    NamedReap(s, arg, recorded);
    AffectedByNamed(s.agents, j, i, Victims(s, arg));
  }

  lemma InvParts(s: Repl)
    requires Inv(s)
    ensures Distinct(s.agents) && Ordered(s.agents) && |s.agents| > 0
  {
  }

  lemma CurrentIsAt(s: Repl, j: nat)
    requires Inv(s) && j < |s.agents|
    ensures s.agents[j].uuid == s.current ==> IndexFrom(s.agents, s.current, 0) == j
  {
  }

  /** A reap that records all its victims. */
  lemma NamedReap(s: Repl, arg: string, recorded: nat)
    requires Inv(s) && Victims(s, arg) != [] && |Victims(s, arg)| <= recorded
    ensures var r, c := ReapStep(s, arg, recorded), IndexFrom(s.agents, s.current, 0);
            && r.agents == Without(s.agents, Ids(s.agents, Victims(s, arg)))
            && r.current == if Affected(s.agents, c, Victims(s, arg)) then s.agents[0].uuid else s.current
  {
    hide Victims, Ids, Without, Affected;
    assert LivingFrom(s.agents, 0) == 0;
  }

  lemma NamedVictims(s: Repl, arg: string, i: nat)
    requires Inv(s) && Names(s.agents, arg, i) && s.agents[i].dead && |Below(s.agents, i)| < MAX_VICTIMS
    ensures |Victims(s, arg)| == |Below(s.agents, i)| + 1
    ensures forall k | 0 <= k < |s.agents| :: k in Victims(s, arg) <==> k == i || Under(s.agents, k, i)
  {
    var a := s.agents;
    BelowIsCollected(a, i);
    FindIsExact(a, arg, i);
    PrefixesAre(a, arg);
    CollectIsSubtree(a, i);
    assert Victims(s, arg) == [i] + Collect(a, i, 0);
    hide Victims, Collect, Under;
  }

  /** The walk up from `j` meets a victim exactly if `j` is the named agent or below it. */
  lemma {:induction false} AffectedByNamed(a: seq<Record>, j: nat, i: nat, victims: seq<nat>)
    requires Ordered(a) && j < |a| && i < |a|
    requires forall k | 0 <= k < |a| :: k in victims <==> k == i || Under(a, k, i)
    ensures Affected(a, j, victims) <==> j == i || Under(a, j, i)
    decreases j
  {
    var p := Parent(a, j);
    if p.Some? {
      AffectedByNamed(a, p.value, i, victims);
    }
  }

  /** A reap that names nobody, or an agent that lives, changes nothing. */
  lemma ReapRefused(s: Repl, arg: string, recorded: nat)
    requires Inv(s) && arg != "" && forall i: nat | Names(s.agents, arg, i) :: !s.agents[i].dead
    ensures Step(s, Reap(arg, recorded)) == s
  {
    var t := Find(s.agents, arg);
    if t.Some? {
      FindIsExact(s.agents, arg, t.value);
      PrefixesAre(s.agents, arg);
    }
  }
}
