/**
  The commands that change the set of agents: fork, kill, the kill tool, reap and switch.  A
  command may be cut short by a failing database step; the parameters of `Op` say where.
*/
module ForestRuns {
  import opened Wrappers
  import opened Forest

  /** `rows` are the parents in the database; `issued` holds every id ever made, rolled back or not. */
  datatype Repl = Repl(agents: seq<Record>, current: string, rows: map<string, Option<string>>, issued: set<string>)

  datatype ForkEnd = Refused | AddedOnly | Switched

  datatype Op =
    | Fork(id: string, end: ForkEnd)
    | ForkTool(id: string, parent: string)
    | Kill(arg: string, committed: bool, notified: nat)
    | KillTool(caller: string, target: string, running: bool)
    | Reap(arg: string, recorded: nat)
    | Switch(to: string)

  const MAX_VICTIMS := 256

  /** What the program has in memory: a forest with a living root, and the current agent in it. */
  ghost predicate InMemory(s: Repl) {
    Sound(s.agents) && IndexFrom(s.agents, s.current, 0) < |s.agents|
  }

  ghost predicate Inv(s: Repl) {
    && InMemory(s)
    && (forall i | 0 <= i < |s.agents| ::
          && s.agents[i].uuid in s.issued && (s.agents[i].parent.Some? ==> s.agents[i].parent.value in s.issued)
          && (s.agents[i].uuid in s.rows ==> s.rows[s.agents[i].uuid] == s.agents[i].parent))
    && s.rows.Keys <= s.issued
  }

  /** New ids are new; a fork's parent is an agent that exists or has existed. */
  predicate Allowed(s: Repl, op: Op) {
    match op
    case Fork(id, _) => id !in s.issued && |id| == UUID_LENGTH
    case ForkTool(id, parent) => id !in s.issued && |id| == UUID_LENGTH && parent in s.issued
    case Kill(_, _, notified) => notified >= 1
    case Reap(_, recorded) => recorded >= 1
    case _ => true
  }

  // ----- Fork

  function Add(s: Repl, id: string, parent: string): Repl {
    s.(agents := s.agents + [Record(id, Some(parent), false)], issued := s.issued + {id})
  }

  /** The database keeps the new row; when the fork fails late it is rolled back instead. */
  function Recorded(s: Repl, id: string, parent: string): Repl {
    s.(rows := s.rows[id := Some(parent)])
  }

  function ForkStep(s: Repl, id: string, end: ForkEnd): Repl {
    match end
    case Refused => s
    case AddedOnly => Add(s, id, s.current)
    case Switched => Recorded(Add(s, id, s.current), id, s.current).(current := id)
  }

  // ----- Kill

  function MarkDead(a: seq<Record>, who: seq<nat>): (r: seq<Record>)
    ensures |r| == |a|
  {
    seq(|a|, i requires 0 <= i < |a| => if i in who then a[i].(dead := true) else a[i])
  }

  function Take<T>(s: seq<T>, n: nat): (r: seq<T>)
    ensures forall x | x in r :: x in s
  {
    if n < |s| then s[..n] else s
  }

  function KillOrder(a: seq<Record>, p: nat): seq<nat>
    requires Ordered(a) && p < |a|
  {
    [p] + Take(Collect(a, p, 0), MAX_VICTIMS)
  }

  /** From a killed current agent the view moves to its parent, if that is still there. */
  function LeaveKilled(s: Repl, uuid: string, parent: Option<string>): Repl {
    if s.current != uuid || parent.None? then s
    else
      var k := Find(s.agents, parent.value);
      if k.None? then s else s.(current := s.agents[k.value].uuid)
  }

  /**
    When the notification number `notified` fails, the agents after it stay unmarked and the
    current agent stays.
  */
  function Cascade(s: Repl, p: nat, committed: bool, notified: nat): Repl
    requires Ordered(s.agents) && p < |s.agents|
  {
    if !committed then s
    else
      var order := KillOrder(s.agents, p);
      var marked := s.(agents := MarkDead(s.agents, Take(order, notified)));
      if notified <= |order| then marked else LeaveKilled(marked, s.agents[p].uuid, s.agents[p].parent)
  }

  function Target(s: Repl, arg: string): (t: Option<nat>)
    ensures t.Some? ==> t.value < |s.agents|
  {
    if arg == "" then
      var i := IndexFrom(s.agents, s.current, 0);
      if i < |s.agents| then Some(i) else None
    else Find(s.agents, arg)
  }

  function KillStep(s: Repl, arg: string, committed: bool, notified: nat): Repl
    requires Ordered(s.agents)
  {
    var t := Target(s, arg);
    if t.None? || s.agents[t.value].parent.None? then s else Cascade(s, t.value, committed, notified)
  }

  function MarkedId(a: seq<Record>, uuid: string): seq<Record> {
    var i := IndexFrom(a, uuid, 0);
    if i == |a| then a else MarkDead(a, [i])
  }

  /** The tool consults the database, refuses the root and the caller's parent, and does not cascade. */
  function KillToolStep(s: Repl, caller: string, target: string, running: bool): Repl {
    if target !in s.rows || !running || s.rows[target].None? then s
    else if caller !in s.rows || s.rows[caller] == Some(target) then s
    else s.(agents := MarkedId(s.agents, target))
  }

  // ----- Reap

  function DeadFrom(a: seq<Record>, i: nat): (r: seq<nat>)
    requires i <= |a|
    ensures forall k | k in r :: i <= k < |a| && a[k].dead
    decreases |a| - i
  {
    if i == |a| then [] else if a[i].dead then [i] + DeadFrom(a, i + 1) else DeadFrom(a, i + 1)
  }

  function Victims(s: Repl, arg: string): (r: seq<nat>)
    requires Ordered(s.agents)
    ensures forall k | k in r :: k < |s.agents|
  {
    if arg == "" then Take(DeadFrom(s.agents, 0), MAX_VICTIMS)
    else
      var t := Find(s.agents, arg);
      if t.None? || !s.agents[t.value].dead then []
      else [t.value] + Take(Collect(s.agents, t.value, 0), MAX_VICTIMS - 1)
  }

  function LivingFrom(a: seq<Record>, i: nat): (k: nat)
    requires i <= |a|
    ensures i <= k <= |a| && (k < |a| ==> !a[k].dead)
    ensures forall j | i <= j < k :: a[j].dead
    decreases |a| - i
  {
    if i == |a| || !a[i].dead then i else LivingFrom(a, i + 1)
  }

  predicate Affected(a: seq<Record>, c: nat, victims: seq<nat>)
    requires Ordered(a) && c < |a|
    decreases c
  {
    c in victims || (Parent(a, c).Some? && Affected(a, Parent(a, c).value, victims))
  }

  function Ids(a: seq<Record>, who: seq<nat>): set<string> {
    set k | k in who && k < |a| :: a[k].uuid
  }

  function Without(a: seq<Record>, gone: set<string>): seq<Record> {
    if a == [] then []
    else (if a[0].uuid in gone then [] else [a[0]]) + Without(a[1..], gone)
  }

  function ReapStep(s: Repl, arg: string, recorded: nat): Repl
    requires Ordered(s.agents)
  {
    var victims := Victims(s, arg);
    var c := IndexFrom(s.agents, s.current, 0);
    var living := LivingFrom(s.agents, 0);
    var needSwitch := c < |s.agents| && Affected(s.agents, c, victims);
    if victims == [] || (needSwitch && living == |s.agents|) then s
    else s.(agents := Without(s.agents, Ids(s.agents, Take(victims, recorded))),
            current := if needSwitch then s.agents[living].uuid else s.current)
  }

  function SwitchStep(s: Repl, to: string): Repl {
    if IndexFrom(s.agents, to, 0) < |s.agents| then s.(current := to) else s
  }

  function Step(s: Repl, op: Op): Repl
    requires Ordered(s.agents)
  {
    match op
    case Fork(id, end) => ForkStep(s, id, end)
    case ForkTool(id, parent) => Recorded(Add(s, id, parent), id, parent)
    case Kill(arg, committed, notified) => KillStep(s, arg, committed, notified)
    case KillTool(caller, target, running) => KillToolStep(s, caller, target, running)
    case Reap(arg, recorded) => ReapStep(s, arg, recorded)
    case Switch(to) => SwitchStep(s, to)
  }

  // ----- Each command keeps the forest

  lemma Present(a: seq<Record>, uuid: string, i: nat)
    requires i < |a| && a[i].uuid == uuid
    ensures IndexFrom(a, uuid, 0) < |a|
  {
  }

  /** A new id is nobody's id and nobody's parent. */
  lemma AddKeepsMemory(s: Repl, id: string, parent: string)
    requires InMemory(s) && |id| == UUID_LENGTH && parent != id
    requires forall i | 0 <= i < |s.agents| :: s.agents[i].uuid != id && s.agents[i].parent != Some(id)
    ensures InMemory(Add(s, id, parent)) && InMemory(Add(s, id, parent).(current := id))
    ensures Add(s, id, parent).agents[0] == s.agents[0]
  {
    var r := Add(s, id, parent);
    Present(r.agents, s.current, IndexFrom(s.agents, s.current, 0));
    Present(r.agents, id, |s.agents|);
  }

  lemma AddKeepsInv(s: Repl, id: string, parent: string)
    requires Inv(s) && id !in s.issued && |id| == UUID_LENGTH && parent in s.issued
    ensures Inv(Add(s, id, parent))
    ensures Inv(Recorded(Add(s, id, parent), id, parent))
    ensures Inv(Recorded(Add(s, id, parent), id, parent).(current := id))
    ensures Add(s, id, parent).agents[0] == s.agents[0]
  {
    AddKeepsMemory(s, id, parent);
    hide InMemory;
  }

  /** Marking anyone but the root dead. */
  lemma MarkKeepsMemory(s: Repl, who: seq<nat>)
    requires InMemory(s) && 0 !in who
    ensures InMemory(s.(agents := MarkDead(s.agents, who)))
  {
    Present(MarkDead(s.agents, who), s.current, IndexFrom(s.agents, s.current, 0));
  }

  lemma CollectIsBelow(a: seq<Record>, p: nat)
    requires Distinct(a) && Ordered(a) && p < |a|
    ensures forall k | k in Collect(a, p, 0) :: p < k
  {
    forall k | k in Collect(a, p, 0) ensures p < k {
      BelowBefore(a, p, k);
      UnderIsLater(a, k, p);
    }
  }

  lemma CascadeKeepsMemory(s: Repl, p: nat, committed: bool, notified: nat)
    requires InMemory(s) && p < |s.agents| && s.agents[p].parent.Some?
    ensures InMemory(Cascade(s, p, committed, notified))
    ensures Cascade(s, p, committed, notified).agents[0] == s.agents[0]
  {
    CollectIsBelow(s.agents, p);
    var who := Take(KillOrder(s.agents, p), notified);
    MarkKeepsMemory(s, who);
    var marked := MarkDead(s.agents, who);
    var k := Find(marked, s.agents[p].parent.value);
    if k.Some? {
      Present(marked, marked[k.value].uuid, k.value);
    }
  }

  lemma KillKeepsMemory(s: Repl, arg: string, committed: bool, notified: nat)
    requires InMemory(s)
    ensures InMemory(KillStep(s, arg, committed, notified))
    ensures KillStep(s, arg, committed, notified).agents[0] == s.agents[0]
  {
    var t := Target(s, arg);
    if t.Some? && s.agents[t.value].parent.Some? {
      CascadeKeepsMemory(s, t.value, committed, notified);
    }
  }

  /** Ids, parents and rows do not change when agents die. */
  lemma KillKeepsInv(s: Repl, arg: string, committed: bool, notified: nat)
    requires Inv(s)
    ensures Inv(KillStep(s, arg, committed, notified))
    ensures KillStep(s, arg, committed, notified).agents[0] == s.agents[0]
  {
    KillKeepsMemory(s, arg, committed, notified);
    KillKeepsIds(s, arg, committed, notified);
    hide KillStep, InMemory;
    assert |s.agents| > 0 by { InvParts(s); }
  }

  lemma KillKeepsIds(s: Repl, arg: string, committed: bool, notified: nat)
    requires Ordered(s.agents)
    ensures var r := KillStep(s, arg, committed, notified);
            && r.rows == s.rows && r.issued == s.issued && |r.agents| == |s.agents|
            && forall i | 0 <= i < |s.agents| ::
                 r.agents[i].uuid == s.agents[i].uuid && r.agents[i].parent == s.agents[i].parent
  {
    hide Collect, Find, KillOrder, Take, IndexFrom, Ordered;
  }

  lemma MarkedIdKeepsMemory(s: Repl, uuid: string)
    requires InMemory(s) && s.agents[0].uuid != uuid
    ensures InMemory(s.(agents := MarkedId(s.agents, uuid)))
    ensures MarkedId(s.agents, uuid)[0] == s.agents[0]
  {
    var i := IndexFrom(s.agents, uuid, 0);
    if i < |s.agents| {
      MarkKeepsMemory(s, [i]);
    }
  }

  lemma KillToolKeepsInv(s: Repl, caller: string, target: string, running: bool)
    requires Inv(s)
    ensures Inv(KillToolStep(s, caller, target, running))
    ensures KillToolStep(s, caller, target, running).agents[0] == s.agents[0]
  {
    if target in s.rows && s.rows[target].Some? {
      MarkedIdKeepsMemory(s, target);
    }
    hide InMemory;
  }

  /** Who stays, and how many stay before it. */
  lemma {:induction false} SurvivorPlace(a: seq<Record>, gone: set<string>, i: nat)
    requires i < |a| && a[i].uuid !in gone
    ensures |Without(a[..i], gone)| < |Without(a, gone)|
    ensures Without(a, gone)[|Without(a[..i], gone)|] == a[i]
  {
    if i > 0 {
      SurvivorPlace(a[1..], gone, i - 1);
      assert a[..i][1..] == a[1..][..i - 1];
    }
  }

  /** Everyone who stays was there, in an order-preserving place. */
  lemma {:induction false} SurvivorOrigin(a: seq<Record>, gone: set<string>, k: nat) returns (i: nat)
    requires k < |Without(a, gone)|
    ensures i < |a| && a[i] == Without(a, gone)[k] && a[i].uuid !in gone
    ensures |Without(a[..i], gone)| == k
  {
    if a[0].uuid in gone {
      var j := SurvivorOrigin(a[1..], gone, k);
      i := j + 1;
      assert a[..i][1..] == a[1..][..j];
    } else if k == 0 {
      i := 0;
      assert a[..0] == [];
    } else {
      var j := SurvivorOrigin(a[1..], gone, k - 1);
      i := j + 1;
      assert a[..i][1..] == a[1..][..j];
    }
  }

  lemma {:induction false} FewerBefore(a: seq<Record>, gone: set<string>, i: nat, j: nat)
    requires i <= j <= |a|
    ensures |Without(a[..i], gone)| <= |Without(a[..j], gone)|
  {
    if i > 0 {
      FewerBefore(a[1..], gone, i - 1, j - 1);
      assert a[..i][1..] == a[1..][..i - 1] && a[..j][1..] == a[1..][..j - 1];
    } else {
      assert a[..0] == [];
    }
  }

  lemma EarlierPlace(a: seq<Record>, gone: set<string>, i: nat, j: nat)
    requires i < j <= |a| && a[i].uuid !in gone
    ensures |Without(a[..i], gone)| < |Without(a[..j], gone)|
  {
    SurvivorPlace(a[..i + 1], gone, i);
    assert a[..i + 1][..i] == a[..i];
    FewerBefore(a, gone, i + 1, j);
  }

  lemma WithoutKeepsSound(a: seq<Record>, gone: set<string>)
    requires Sound(a) && a[0].uuid !in gone
    ensures Sound(Without(a, gone)) && Without(a, gone)[0] == a[0]
  {
    var w := Without(a, gone);
    forall i, j | 0 <= i <= j < |w|
      ensures (i < j ==> w[i].uuid != w[j].uuid) && w[i].parent != Some(w[j].uuid)
      ensures |w[i].uuid| == UUID_LENGTH && (0 < i ==> w[i].parent.Some?)
    {
      var x := SurvivorOrigin(a, gone, i);
      var y := SurvivorOrigin(a, gone, j);
      if y < x {
        EarlierPlace(a, gone, y, x);
      }
      assert 0 < i ==> x != 0 by { assert a[..0] == []; }
    }
    assert w[0] == a[0];
  }

  lemma {:induction false} AffectedIsAncestor(a: seq<Record>, c: nat, victims: seq<nat>)
    requires Ordered(a) && c < |a| && forall k | k in victims :: k < |a|
    ensures Affected(a, c, victims) <==> exists v | v in victims :: c == v || Under(a, c, v)
    decreases c
  {
    var q := Parent(a, c);
    if q.Some? {
      AffectedIsAncestor(a, q.value, victims);
    }
  }

  lemma VictimsSpareRoot(s: Repl, arg: string)
    requires Sound(s.agents)
    ensures 0 !in Victims(s, arg)
  {
    var t := Find(s.agents, arg);
    if arg != "" && t.Some? && s.agents[t.value].dead {
      CollectIsBelow(s.agents, t.value);
    }
  }

  lemma WithoutKeepsMemory(s: Repl, gone: set<string>, current: string)
    requires InMemory(s) && s.agents[0].uuid !in gone
    requires IndexFrom(s.agents, current, 0) < |s.agents| && current !in gone
    ensures InMemory(s.(agents := Without(s.agents, gone), current := current))
    ensures Without(s.agents, gone) != [] && Without(s.agents, gone)[0] == s.agents[0]
  {
    var w := Without(s.agents, gone);
    var c := IndexFrom(s.agents, current, 0);
    WithoutKeepsSound(s.agents, gone);
    SurvivorPlace(s.agents, gone, c);
    Present(w, current, |Without(s.agents[..c], gone)|);
  }

  lemma StaysHere(a: seq<Record>, who: seq<nat>, c: nat)
    requires Distinct(a) && c < |a| && c !in who
    ensures a[c].uuid !in Ids(a, who)
  {
  }

  lemma ReapKeepsMemory(s: Repl, arg: string, recorded: nat)
    requires InMemory(s)
    ensures InMemory(ReapStep(s, arg, recorded))
    ensures ReapStep(s, arg, recorded).agents[0] == s.agents[0]
  {
    var victims := Victims(s, arg);
    VictimsSpareRoot(s, arg);
    assert LivingFrom(s.agents, 0) == 0;
    if victims != [] {
      var who := Take(victims, recorded);
      var c := IndexFrom(s.agents, s.current, 0);
      var stay := if Affected(s.agents, c, victims) then 0 else c;
      assert stay !in victims && stay !in who && 0 !in who;
      Present(s.agents, s.agents[stay].uuid, stay);
      hide Victims, Affected, Ids, Without, LivingFrom, IndexFrom, Take;
      StaysHere(s.agents, who, stay);
      StaysHere(s.agents, who, 0);
      WithoutKeepsMemory(s, Ids(s.agents, who), s.agents[stay].uuid);
      hide InMemory;
    }
  }

  lemma ReapKeepsInv(s: Repl, arg: string, recorded: nat)
    requires Inv(s)
    ensures Inv(ReapStep(s, arg, recorded))
    ensures ReapStep(s, arg, recorded).agents[0] == s.agents[0]
  {
    ReapKeepsMemory(s, arg, recorded);
    hide InMemory, Victims, Affected, LivingFrom, IndexFrom, Without;
    var r := ReapStep(s, arg, recorded);
    var gone := Ids(s.agents, Take(Victims(s, arg), recorded));
    if r.agents != s.agents {
      forall k | 0 <= k < |r.agents|
        ensures r.agents[k] in s.agents
      {
        var i := SurvivorOrigin(s.agents, gone, k);
      }
    }
  }

  lemma SwitchKeepsInv(s: Repl, to: string)
    requires Inv(s)
    ensures Inv(SwitchStep(s, to)) && SwitchStep(s, to).agents[0] == s.agents[0]
  {
  }

  lemma InvParts(s: Repl)
    requires Inv(s)
    ensures Ordered(s.agents) && |s.agents| > 0 && s.current in s.issued
  {
  }

  lemma StepKeepsInv(s: Repl, op: Op)
    requires Inv(s) && Allowed(s, op)
    ensures Inv(Step(s, op)) && Step(s, op).agents[0] == s.agents[0]
  {
    InvParts(s);
    hide Inv, InMemory, Ordered, KillStep, KillToolStep, ReapStep, SwitchStep, Add;
    match op
    case Fork(id, _) =>
      AddKeepsInv(s, id, s.current);
    case ForkTool(id, parent) =>
      AddKeepsInv(s, id, parent);
    case Kill(arg, committed, notified) =>
      KillKeepsInv(s, arg, committed, notified);
    case KillTool(caller, target, running) =>
      KillToolKeepsInv(s, caller, target, running);
    case Reap(arg, recorded) =>
      ReapKeepsInv(s, arg, recorded);
    case Switch(to) =>
      SwitchKeepsInv(s, to);
  }

  // ----- Whole runs

  /** One root, as at start-up. */
  function Boot(root: string): Repl {
    Repl([Record(root, None, false)], root, map[root := None], {root})
  }

  ghost predicate AllowedRun(s: Repl, ops: seq<Op>)
    requires Inv(s)
    decreases |ops|
  {
    ops == [] || (Allowed(s, ops[0]) && (StepKeepsInv(s, ops[0]); AllowedRun(Step(s, ops[0]), ops[1..])))
  }

  ghost function Run(s: Repl, ops: seq<Op>): (r: Repl)
    requires Inv(s) && AllowedRun(s, ops)
    ensures Inv(r) && r.agents[0] == s.agents[0]
    decreases |ops|
  {
    StepKeepsInv(s, if ops == [] then Switch("") else ops[0]);
    if ops == [] then s else Run(Step(s, ops[0]), ops[1..])
  }

  /**
    After any run the root is still first, alive and the only root, the current agent is in the
    array, no id occurs twice and no parent stands behind its child.
  */
  lemma RunIsSafe(root: string, ops: seq<Op>)
    requires |root| == UUID_LENGTH
    ensures Inv(Boot(root))
    ensures AllowedRun(Boot(root), ops) ==>
              var r := Run(Boot(root), ops);
              && r.agents[0] == Record(root, None, false)
              && (forall i | 0 < i < |r.agents| :: r.agents[i].parent.Some?)
              && (exists i | 0 <= i < |r.agents| :: r.agents[i].uuid == r.current)
              && Distinct(r.agents) && Ordered(r.agents)
  {
    assert IndexFrom(Boot(root).agents, root, 0) == 0;
    if AllowedRun(Boot(root), ops) {
      var r := Run(Boot(root), ops);
      var i := IndexFrom(r.agents, r.current, 0);
      assert r.agents[i].uuid == r.current;
    }
  }

  // ----- What kill and reap do exactly

  lemma MarkedFind(a: seq<Record>, who: seq<nat>, prefix: string)
    ensures Find(MarkDead(a, who), prefix) == Find(a, prefix)
  {
    SameSearch(a, MarkDead(a, who), prefix, 0);
    if PrefixFrom(a, prefix, 0) < |a| {
      SameSearch(a, MarkDead(a, who), prefix, PrefixFrom(a, prefix, 0) + 1);
    }
  }

  lemma SameSearch(a: seq<Record>, b: seq<Record>, text: string, i: nat)
    requires |a| == |b| && i <= |a| && forall j | 0 <= j < |a| :: a[j].uuid == b[j].uuid
    ensures IndexFrom(a, text, i) == IndexFrom(b, text, i) && PrefixFrom(a, text, i) == PrefixFrom(b, text, i)
  {
  }

  lemma ParentIsFound(a: seq<Record>, p: nat, q: nat)
    requires Distinct(a) && FullIds(a) && p < |a| && q < |a| && IsChild(a, p, q)
    ensures Find(a, a[p].parent.value) == Some(q)
  {
    assert HasPrefix(a[q].uuid, a[q].uuid);
    FindIsExact(a, a[q].uuid, q);
  }

  lemma MarkedExactly(a: seq<Record>, p: nat, j: nat)
    requires Distinct(a) && Ordered(a) && p < |a| && j < |a| && |Collect(a, p, 0)| <= MAX_VICTIMS
    ensures var r := MarkDead(a, KillOrder(a, p));
            && r[j].uuid == a[j].uuid && r[j].parent == a[j].parent
            && (r[j].dead <==> a[j].dead || j == p || Under(a, j, p))
  {
    CollectIsSubtree(a, p);
    assert KillOrder(a, p) == [p] + Collect(a, p, 0);
  }

  /** A kill of at most 256 descendants that completes marks the target's subtree and nobody else. */
  lemma KillIsExact(s: Repl, p: nat, notified: nat)
    requires Inv(s) && p < |s.agents|
    requires |Collect(s.agents, p, 0)| <= MAX_VICTIMS && notified > |Collect(s.agents, p, 0)| + 1
    ensures var r := Cascade(s, p, true, notified);
            && |r.agents| == |s.agents|
            && (forall j | 0 <= j < |s.agents| ::
                  && r.agents[j].uuid == s.agents[j].uuid && r.agents[j].parent == s.agents[j].parent
                  && (r.agents[j].dead <==> s.agents[j].dead || j == p || Under(s.agents, j, p)))
            && (s.current != s.agents[p].uuid ==> r.current == s.current)
            && (s.current == s.agents[p].uuid && Parent(s.agents, p).Some? ==>
                  r.current == s.agents[Parent(s.agents, p).value].uuid)
  {
    var a := s.agents;
    if Parent(a, p).Some? {
      ParentIsFound(a, p, Parent(a, p).value);
      MarkedFind(a, KillOrder(a, p), a[p].parent.value);
    }
    forall j | 0 <= j < |a|
      ensures var r := MarkDead(a, KillOrder(a, p));
              && r[j].uuid == a[j].uuid && r[j].parent == a[j].parent
              && (r[j].dead <==> a[j].dead || j == p || Under(a, j, p))
    {
      MarkedExactly(a, p, j);
    }
    assert Take(KillOrder(a, p), notified) == KillOrder(a, p);
    hide MarkDead, Under, Collect, KillOrder, Find, Parent;
  }

  lemma BelowStandsBefore(a: seq<Record>, r: seq<nat>, x: nat, y: nat)
    requires Ordered(a) && PostOrder(a, r) && x < |r| && y < |r|
    ensures x < y ==> Apart(a, r[x], r[y])
  {
  }

  lemma NobodyTwice(a: seq<Record>, p: nat, x: nat, y: nat)
    requires Distinct(a) && Ordered(a) && p < |a| && x < y < |KillOrder(a, p)|
    ensures KillOrder(a, p)[x] != KillOrder(a, p)[y]
  {
    CollectIsPostOrder(a, p, 0);
    CollectIsBelow(a, p);
    var r := Collect(a, p, 0);
    if x > 0 {
      BelowStandsBefore(a, r, x - 1, y - 1);
    } else {
      assert r[y - 1] in r;
    }
  }

  /** The ids the database holds dead after the commit. */
  function KilledRows(a: seq<Record>, p: nat): set<string>
    requires Ordered(a) && p < |a|
  {
    Ids(a, KillOrder(a, p))
  }

  /** Notification number `notified` failing does not show: everyone it keeps from being marked was dead. */
  ghost predicate Unnoticed(a: seq<Record>, p: nat, notified: nat)
    requires Ordered(a) && p < |a|
  {
    var order := KillOrder(a, p);
    forall x | notified <= x < |order| :: order[x] < |a| && a[order[x]].dead
  }

  lemma OrderInRange(a: seq<Record>, p: nat)
    requires Ordered(a) && p < |a|
    ensures forall x | 0 <= x < |KillOrder(a, p)| :: KillOrder(a, p)[x] < |a|
  {
    assert forall x | 0 < x < |KillOrder(a, p)| :: KillOrder(a, p)[x] in Collect(a, p, 0);
  }

  /** What is marked is dead; what is not keeps its flag. */
  lemma MarkedSoFar(a: seq<Record>, p: nat, notified: nat, x: nat)
    requires Distinct(a) && Ordered(a) && p < |a| && x < |KillOrder(a, p)|
    ensures var order := KillOrder(a, p);
            && order[x] < |a|
            && (MarkDead(a, Take(order, notified))[order[x]].dead <==> x < notified || a[order[x]].dead)
  {
    var order := KillOrder(a, p);
    OrderInRange(a, p);
    if x < notified {
      assert Take(order, notified)[x] == order[x];
    } else if order[x] in Take(order, notified) {
      var y :| 0 <= y < |Take(order, notified)| && Take(order, notified)[y] == order[x];
      NobodyTwice(a, p, y, x);
    }
  }

  /**
    After a committed kill memory and database agree on the killed agents exactly when the
    notification that failed, if one did, goes unnoticed.  This holds for any number of descendants.
  */
  lemma MemoryAgreesExactly(s: Repl, p: nat, notified: nat)
    requires Inv(s) && p < |s.agents|
    ensures (forall i | 0 <= i < |s.agents| && s.agents[i].uuid in KilledRows(s.agents, p) ::
               Cascade(s, p, true, notified).agents[i].dead)
            <==> Unnoticed(s.agents, p, notified)
  {
    var a := s.agents;
    var order := KillOrder(a, p);
    var r := MarkDead(a, Take(order, notified));
    OrderInRange(a, p);
    forall x | 0 <= x < |order| ensures r[order[x]].dead <==> x < notified || a[order[x]].dead {
      MarkedSoFar(a, p, notified, x);
    }
    forall i | 0 <= i < |a| ensures a[i].uuid in KilledRows(a, p) <==> i in order {
      InIds(a, order, i);
    }
    hide *;
    CascadeAgents(s, p, notified);
    NoticedSomewhere(a, p, notified);
  }

  lemma CascadeAgents(s: Repl, p: nat, notified: nat)
    requires Ordered(s.agents) && p < |s.agents|
    ensures Cascade(s, p, true, notified).agents == MarkDead(s.agents, Take(KillOrder(s.agents, p), notified))
  {
  }

  lemma NoticedSomewhere(a: seq<Record>, p: nat, notified: nat)
    requires Ordered(a) && p < |a|
    requires forall x | 0 <= x < |KillOrder(a, p)| :: KillOrder(a, p)[x] < |a|
    ensures Unnoticed(a, p, notified) <==>
            forall x | 0 <= x < |KillOrder(a, p)| :: x < notified || a[KillOrder(a, p)[x]].dead
  {
  }

  /**
    Over at most 256 descendants a committed kill marks exactly the target's subtree if and only if a
    failing notification goes unnoticed.
  */
  lemma KillExactIff(s: Repl, p: nat, notified: nat)
    requires Inv(s) && p < |s.agents| && |Collect(s.agents, p, 0)| <= MAX_VICTIMS
    ensures (forall j | 0 <= j < |s.agents| ::
               Cascade(s, p, true, notified).agents[j].dead <==> s.agents[j].dead || j == p || Under(s.agents, j, p))
            <==> Unnoticed(s.agents, p, notified)
  {
    var a := s.agents;
    var order := KillOrder(a, p);
    OrderInRange(a, p);
    forall j | 0 <= j < |a| ensures j == p || Under(a, j, p) <==> j in order {
      InKillOrder(a, p, j);
    }
    hide *;
    CascadeAgents(s, p, notified);
    NoticedSomewhere(a, p, notified);
    if forall x | 0 <= x < |order| :: x < notified || a[order[x]].dead {
      MarksAll(a, p, notified);
    } else {
      var x :| 0 <= x < |order| && !(x < notified || a[order[x]].dead);
      MarkedSoFar(a, p, notified, x);
      assert order[x] in order;
    }
  }

  lemma MarksAll(a: seq<Record>, p: nat, notified: nat)
    requires Distinct(a) && Ordered(a) && p < |a|
    requires forall x | 0 <= x < |KillOrder(a, p)| ::
               KillOrder(a, p)[x] < |a| && (x < notified || a[KillOrder(a, p)[x]].dead)
    ensures forall j | 0 <= j < |a| ::
              MarkDead(a, Take(KillOrder(a, p), notified))[j].dead <==> a[j].dead || j in KillOrder(a, p)
  {
    var order := KillOrder(a, p);
    var r := MarkDead(a, Take(order, notified));
    forall j | 0 <= j < |a| ensures r[j].dead <==> a[j].dead || j in order {
      if j in order {
        var x :| 0 <= x < |order| && order[x] == j;
        MarkedSoFar(a, p, notified, x);
      }
    }
  }

  lemma InKillOrder(a: seq<Record>, p: nat, j: nat)
    requires Distinct(a) && Ordered(a) && p < |a| && j < |a| && |Collect(a, p, 0)| <= MAX_VICTIMS
    ensures j == p || Under(a, j, p) <==> j in KillOrder(a, p)
  {
    CollectIsSubtree(a, p);
    assert KillOrder(a, p) == [p] + Collect(a, p, 0);
  }

  /** A root, its child and its grandchild; the first notification of killing the child fails. */
  lemma FailedNotificationShows(root: string, child: string, grandchild: string)
    requires |root| == |child| == |grandchild| == UUID_LENGTH
    requires root != child && root != grandchild && child != grandchild
    ensures var a := [Record(root, None, false), Record(child, Some(root), false),
                      Record(grandchild, Some(child), false)];
            var rows := map[root := None, child := Some(root), grandchild := Some(child)];
            var s := Repl(a, root, rows, {root, child, grandchild});
            var r := Cascade(s, 1, true, 1);
            && Inv(s) && KilledRows(a, 1) == {child, grandchild}
            && r.agents[1].dead && !r.agents[2].dead
  {
    var a := [Record(root, None, false), Record(child, Some(root), false), Record(grandchild, Some(child), false)];
    assert IndexFrom(a, root, 0) == 0;
    assert IsChild(a, 2, 1) && !IsChild(a, 0, 1) && !IsChild(a, 1, 1);
    assert Collect(a, 2, 3) == [] && Collect(a, 2, 2) == [] && Collect(a, 2, 1) == [] && Collect(a, 2, 0) == [];
    assert Collect(a, 1, 3) == [] && Collect(a, 1, 2) == [2];
    assert Collect(a, 1, 1) == [2] && Collect(a, 1, 0) == [2];
    assert KillOrder(a, 1) == [1, 2] && Take([1, 2], 1) == [1];
    assert KilledRows(a, 1) == {child, grandchild};
  }

  /** However many victims fit, whoever is among them has everything below it among them. */
  lemma VictimsAreClosed(a: seq<Record>, p: nat, max: nat, j: nat, k: nat)
    requires Distinct(a) && Ordered(a) && p < |a| && k < |a| && j in Take(Collect(a, p, 0), max) && Under(a, k, j)
    ensures k in Take(Collect(a, p, 0), max)
  {
    var r := Collect(a, p, 0);
    CollectIsSubtree(a, p);
    UnderTransitive(a, k, j, p);
    var y :| 0 <= y < |r| && r[y] == k;
    var x :| 0 <= x < |Take(r, max)| && r[x] == j;
    UnderIsLater(a, k, j);
    BelowStandsBefore(a, r, x, y);
    assert Take(r, max)[y] == k;
  }

  lemma InIds(a: seq<Record>, who: seq<nat>, i: nat)
    requires Distinct(a) && i < |a|
    ensures i in who <==> a[i].uuid in Ids(a, who)
  {
    if a[i].uuid in Ids(a, who) {
      var k :| k in who && k < |a| && a[k].uuid == a[i].uuid;
    }
  }

  lemma StaysExactly(a: seq<Record>, who: seq<nat>, i: nat)
    requires Distinct(a) && i < |a|
    ensures i in who <==> a[i].uuid in Ids(a, who)
    ensures i in who <==> a[i] !in Without(a, Ids(a, who))
  {
    InIds(a, who, i);
    hide Ids, Without;
    var gone := Ids(a, who);
    var r := Without(a, gone);
    if a[i] in r {
      var k :| 0 <= k < |r| && r[k] == a[i];
      var o := SurvivorOrigin(a, gone, k);
    } else if i !in who {
      SurvivorPlace(a, gone, i);
    }
  }

  lemma StayInOrder(a: seq<Record>, gone: set<string>, i: nat, j: nat)
    requires i < j < |a| && a[i].uuid !in gone && a[j].uuid !in gone
    ensures var r := Without(a, gone);
            exists x, y | 0 <= x < y < |r| :: r[x] == a[i] && r[y] == a[j]
  {
    SurvivorPlace(a, gone, i);
    SurvivorPlace(a, gone, j);
    EarlierPlace(a, gone, i, j);
  }

  /** Reaping removes the recorded victims and nobody else; the others keep their order. */
  lemma ReapIsExact(s: Repl, arg: string, recorded: nat, i: nat, j: nat)
    requires Inv(s) && Victims(s, arg) != [] && i < j < |s.agents|
    ensures var r := ReapStep(s, arg, recorded);
            var gone := Take(Victims(s, arg), recorded);
            && (i in gone <==> s.agents[i] !in r.agents)
            && (j in gone <==> s.agents[j] !in r.agents)
            && (i !in gone && j !in gone ==>
                  exists x, y | 0 <= x < y < |r.agents| :: r.agents[x] == s.agents[i] && r.agents[y] == s.agents[j])
  {
    var a := s.agents;
    var who := Take(Victims(s, arg), recorded);
    assert LivingFrom(a, 0) == 0;
    StaysExactly(a, who, i);
    StaysExactly(a, who, j);
    if i !in who && j !in who {
      StayInOrder(a, Ids(a, who), i, j);
    }
  }

  lemma {:induction false} DeadAreListed(a: seq<Record>, i: nat, k: nat)
    requires i <= k < |a| && a[k].dead
    ensures k in DeadFrom(a, i)
    decreases |a| - i
  {
    if i < k {
      DeadAreListed(a, i + 1, k);
    }
  }

  /** A complete bulk reap of at most 256 dead agents leaves exactly the living, one of them current. */
  lemma BulkReapLeavesTheLiving(s: Repl, recorded: nat)
    requires Inv(s) && 0 < |DeadFrom(s.agents, 0)| <= MAX_VICTIMS <= recorded
    ensures var r := ReapStep(s, "", recorded);
            && (forall x | x in r.agents :: !x.dead)
            && (forall x | x in s.agents && !x.dead :: x in r.agents)
            && exists x | x in r.agents :: x.uuid == r.current && !x.dead
  {
    var a := s.agents;
    var dead := DeadFrom(a, 0);
    assert Victims(s, "") == dead && Take(dead, recorded) == dead;
    assert LivingFrom(a, 0) == 0;
    ReapKeepsInv(s, "", recorded);
    var r := ReapStep(s, "", recorded);
    assert r.agents == Without(a, Ids(a, dead));
    forall x | x in r.agents ensures !x.dead {
      var k :| 0 <= k < |r.agents| && r.agents[k] == x;
      var i := SurvivorOrigin(a, Ids(a, dead), k);
      if x.dead { DeadAreListed(a, 0, i); }
    }
    forall x | x in a && !x.dead ensures x in r.agents {
      var i :| 0 <= i < |a| && a[i] == x;
      assert i !in dead;
      SurvivorPlace(a, Ids(a, dead), i);
    }
    assert r.agents[IndexFrom(r.agents, r.current, 0)] in r.agents;
  }
}
