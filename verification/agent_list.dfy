/**
  The `/agents` listing: a breadth-first walk over the rows of the session, with a queue of fixed
  size.  Rows come in any order and may name parents that are missing.
*/
module AgentList {
  import opened Wrappers

  datatype Row = Row(uuid: string, parent: Option<string>, status: string)

  datatype Visit = Visit(index: nat, depth: nat)

  ghost predicate UniqueIds(rows: seq<Row>) {
    forall i, j | 0 <= i < j < |rows| :: rows[i].uuid != rows[j].uuid
  }

  predicate IsChild(rows: seq<Row>, i: nat, p: nat)
    requires i < |rows| && p < |rows|
  {
    rows[i].parent == Some(rows[p].uuid)
  }

  /** `i` stands `d` levels below a root. */
  ghost predicate HasDepth(rows: seq<Row>, i: nat, d: nat)
    requires i < |rows|
    decreases d
  {
    if d == 0 then rows[i].parent.None?
    else exists p | 0 <= p < |rows| && IsChild(rows, i, p) :: HasDepth(rows, p, d - 1)
  }

  /** An agent has one depth at most. */
  lemma {:induction false} DepthIsUnique(rows: seq<Row>, i: nat, d: nat, e: nat)
    requires UniqueIds(rows) && i < |rows| && HasDepth(rows, i, d) && HasDepth(rows, i, e)
    ensures d == e
    decreases d
  {
    if d > 0 {
      assert e > 0;
      var p :| 0 <= p < |rows| && IsChild(rows, i, p) && HasDepth(rows, p, d - 1);
      var q :| 0 <= q < |rows| && IsChild(rows, i, q) && HasDepth(rows, q, e - 1);
      assert p == q;
      DepthIsUnique(rows, p, d - 1, e - 1);
    }
  }

  // ----- The queue

  ghost predicate Sane(rows: seq<Row>, q: seq<Visit>) {
    && (forall x | 0 <= x < |q| :: q[x].index < |rows| && HasDepth(rows, q[x].index, q[x].depth))
    && (forall x, y | 0 <= x < y < |q| :: q[x].index != q[y].index && q[x].depth <= q[y].depth)
  }

  ghost predicate Has(q: seq<Visit>, i: nat) {
    exists x | 0 <= x < |q| :: q[x].index == i
  }

  /** Whoever is in the queue with a parent came in when the parent was taken out. */
  ghost predicate Justified(rows: seq<Row>, q: seq<Visit>, start: nat)
    requires Sane(rows, q) && start <= |q|
  {
    forall y | 0 <= y < |q| && rows[q[y].index].parent.Some? ::
      exists x | 0 <= x < start :: IsChild(rows, q[y].index, q[x].index)
  }

  /** The roots among the first `n` rows are in. */
  ghost predicate RootsIn(rows: seq<Row>, q: seq<Visit>, n: nat)
    requires n <= |rows|
  {
    forall i | 0 <= i < n && rows[i].parent.None? :: Has(q, i)
  }

  /** So are the children of everyone taken out. */
  ghost predicate ChildrenIn(rows: seq<Row>, q: seq<Visit>, start: nat)
    requires Sane(rows, q) && start <= |q|
  {
    forall i, x | 0 <= i < |rows| && 0 <= x < start && IsChild(rows, i, q[x].index) :: Has(q, i)
  }

  /** Depths in the queue differ by at most one. */
  ghost predicate Level(q: seq<Visit>, start: nat) {
    start < |q| ==> q[|q| - 1].depth <= q[start].depth + 1
  }

  lemma {:induction false} Pigeonhole(q: seq<Visit>, n: nat)
    requires forall x | 0 <= x < |q| :: q[x].index < n
    requires forall x, y | 0 <= x < y < |q| :: q[x].index != q[y].index
    ensures |q| <= n
    decreases n
  {
    if |q| > 0 {
      assert q[0].index < n;
      if x :| 0 <= x < |q| && q[x].index == n - 1 {
        var rest := q[..x] + q[x + 1..];
        Pigeonhole(rest, n - 1);
      } else {
        Pigeonhole(q, n - 1);
      }
    }
  }

  lemma QueueFits(rows: seq<Row>, q: seq<Visit>, i: nat)
    requires Sane(rows, q) && i < |rows| && !Has(q, i)
    ensures |q| < |rows|
  {
    Pigeonhole(q + [Visit(i, 0)], |rows|);
  }

  lemma SameParent(rows: seq<Row>, i: nat, p: nat, e: nat)
    requires UniqueIds(rows) && i < |rows| && p < |rows| && e < |rows| && IsChild(rows, i, p) && IsChild(rows, i, e)
    ensures p == e
  {
  }

  /** A child of the agent just taken out is not in the queue yet. */
  lemma NotYetIn(rows: seq<Row>, q: seq<Visit>, start: nat, i: nat)
    requires UniqueIds(rows) && Sane(rows, q) && start < |q| && Justified(rows, q, start)
    requires i < |rows| && IsChild(rows, i, q[start].index)
    ensures !Has(q, i)
  {
    if Has(q, i) {
      var y :| 0 <= y < |q| && q[y].index == i;
      var x :| 0 <= x < start && IsChild(rows, i, q[x].index);
      SameParent(rows, i, q[x].index, q[start].index);
    }
  }

  /** Nobody with a depth is missing once the queue is empty. */
  lemma {:induction false} AllFound(rows: seq<Row>, q: seq<Visit>, i: nat, d: nat)
    requires Sane(rows, q) && RootsIn(rows, q, |rows|) && ChildrenIn(rows, q, |q|)
    requires i < |rows| && HasDepth(rows, i, d)
    ensures Has(q, i)
    decreases d
  {
    if d > 0 {
      var p :| 0 <= p < |rows| && IsChild(rows, i, p) && HasDepth(rows, p, d - 1);
      AllFound(rows, q, p, d - 1);
      var x :| 0 <= x < |q| && q[x].index == p;
      assert IsChild(rows, i, q[x].index);
    }
  }

  function Running(rows: seq<Row>, q: seq<Visit>): nat
  {
    if q == [] then 0
    else
      var i := q[|q| - 1].index;
      Running(rows, q[..|q| - 1]) + if i < |rows| && rows[i].status == "running" then 1 else 0
  }

  /** Every agent below a root once, at its depth, level by level. */
  ghost predicate LevelOrder(rows: seq<Row>, q: seq<Visit>) {
    && Sane(rows, q)
    && forall i, d: nat | 0 <= i < |rows| && HasDepth(rows, i, d) :: Visit(i, d) in q
  }

  // ----- The command

  ghost predicate Holds(queueIdx: array<nat>, queueDepth: array<nat>, q: seq<Visit>)
    reads queueIdx, queueDepth
  {
    && queueIdx != queueDepth && |q| <= queueIdx.Length == queueDepth.Length
    && forall x | 0 <= x < |q| :: queueIdx[x] == q[x].index && queueDepth[x] == q[x].depth
  }

  method Enqueue(queueIdx: array<nat>, queueDepth: array<nat>, ghost q: seq<Visit>, end: nat, v: Visit)
    requires Holds(queueIdx, queueDepth, q) && end == |q| < queueIdx.Length
    modifies queueIdx, queueDepth
    ensures Holds(queueIdx, queueDepth, q + [v])
  {
    queueIdx[end] := v.index;
    queueDepth[end] := v.depth;
  }

  lemma RootJoins(rows: seq<Row>, q: seq<Visit>, i: nat)
    requires Sane(rows, q) && i < |rows| && RootsIn(rows, q, i)
    requires forall x | 0 <= x < |q| :: q[x].depth == 0 && q[x].index < i
    ensures rows[i].parent.None? ==> Sane(rows, q + [Visit(i, 0)]) && RootsIn(rows, q + [Visit(i, 0)], i + 1)
    ensures rows[i].parent.Some? ==> RootsIn(rows, q, i + 1)
    ensures |q| < |rows|
  {
    QueueFits(rows, q, i);
    if rows[i].parent.None? {
      var r := q + [Visit(i, 0)];
      forall j | 0 <= j < i + 1 && rows[j].parent.None? ensures Has(r, j) {
        if j < i {
          var x :| 0 <= x < |q| && q[x].index == j;
          assert r[x].index == j;
        } else {
          assert r[|q|].index == i;
        }
      }
    }
  }

  method QueueRoots(rows: seq<Row>, queueIdx: array<nat>, queueDepth: array<nat>)
    returns (end: nat, ghost q: seq<Visit>)
    requires Holds(queueIdx, queueDepth, []) && queueIdx.Length == |rows|
    modifies queueIdx, queueDepth
    ensures end == |q| && Holds(queueIdx, queueDepth, q)
    ensures Sane(rows, q) && RootsIn(rows, q, |rows|) && forall x | 0 <= x < |q| :: q[x].depth == 0
  {
    end, q := 0, [];
    var i: nat := 0;
    while i < |rows|
      invariant i <= |rows| && end == |q| && Holds(queueIdx, queueDepth, q)
      invariant Sane(rows, q) && RootsIn(rows, q, i)
      invariant forall x | 0 <= x < |q| :: q[x].depth == 0 && q[x].index < i
    {
      RootJoins(rows, q, i);
      if rows[i].parent.None? {
        Enqueue(queueIdx, queueDepth, q, end, Visit(i, 0));
        q := q + [Visit(i, 0)];
        end := end + 1;
      }
      i := i + 1;
    }
  }

  /** While children of `q[start]` are added: the rows before `i` are done. */
  ghost predicate Growing(rows: seq<Row>, was: seq<Visit>, q: seq<Visit>, start: nat, i: nat) {
    && Sane(rows, q) && start < |was| && was <= q
    && (forall y | |was| <= y < |q| ::
          q[y].index < i && IsChild(rows, q[y].index, q[start].index) && q[y].depth == q[start].depth + 1)
    && forall j | 0 <= j < i && j < |rows| && IsChild(rows, j, q[start].index) :: Has(q, j)
  }

  lemma ChildAbsent(rows: seq<Row>, was: seq<Visit>, q: seq<Visit>, start: nat, i: nat)
    requires UniqueIds(rows) && Sane(rows, was) && start < |was| && Justified(rows, was, start)
    requires Growing(rows, was, q, start, i) && i < |rows| && IsChild(rows, i, q[start].index)
    ensures forall y | 0 <= y < |q| :: q[y].index != i
  {
    NotYetIn(rows, was, start, i);
    forall y | 0 <= y < |q| ensures q[y].index != i {
      if y < |was| {
        assert q[y] == was[y];
      }
    }
  }

  lemma DepthBound(rows: seq<Row>, was: seq<Visit>, q: seq<Visit>, start: nat, i: nat)
    requires Sane(rows, was) && start < |was| && Level(was, start) && Growing(rows, was, q, start, i)
    ensures forall y | 0 <= y < |q| :: q[y].depth <= q[start].depth + 1
  {
    forall y | 0 <= y < |q| ensures q[y].depth <= q[start].depth + 1 {
      if y < |was| {
        assert q[y] == was[y] && q[start] == was[start];
        assert y < |was| - 1 ==> was[y].depth <= was[|was| - 1].depth;
      }
    }
  }

  /** Appending an absent agent of the right depth. */
  lemma AppendSane(rows: seq<Row>, q: seq<Visit>, v: Visit)
    requires Sane(rows, q) && v.index < |rows| && HasDepth(rows, v.index, v.depth)
    requires forall y | 0 <= y < |q| :: q[y].index != v.index && q[y].depth <= v.depth
    ensures Sane(rows, q + [v])
  {
  }

  lemma AppendHas(q: seq<Visit>, v: Visit, j: nat)
    ensures Has(q + [v], j) <==> Has(q, j) || j == v.index
  {
    if Has(q, j) {
      var x :| 0 <= x < |q| && q[x].index == j;
      assert (q + [v])[x].index == j;
    }
    assert (q + [v])[|q|] == v;
  }

  lemma ChildJoins(rows: seq<Row>, was: seq<Visit>, q: seq<Visit>, start: nat, i: nat, v: Visit)
    requires UniqueIds(rows) && Sane(rows, was) && start < |was| && Justified(rows, was, start) && Level(was, start)
    requires Growing(rows, was, q, start, i) && i < |rows| && v == Visit(i, q[start].depth + 1)
    ensures IsChild(rows, i, q[start].index) ==> |q| < |rows| && Growing(rows, was, q + [v], start, i + 1)
    ensures !IsChild(rows, i, q[start].index) ==> Growing(rows, was, q, start, i + 1)
  {
    if IsChild(rows, i, q[start].index) {
      ChildAbsent(rows, was, q, start, i);
      DepthBound(rows, was, q, start, i);
      QueueFits(rows, q, i);
      assert HasDepth(rows, i, v.depth);
      AppendSane(rows, q, v);
      hide Sane, HasDepth, Has, Justified, Level, UniqueIds;
      forall j | 0 <= j < i + 1 && IsChild(rows, j, q[start].index) ensures Has(q + [v], j) {
        AppendHas(q, v, j);
      }
    }
  }

  lemma HasMore(was: seq<Visit>, q: seq<Visit>, i: nat)
    requires was <= q && Has(was, i)
    ensures Has(q, i)
  {
    var x :| 0 <= x < |was| && was[x].index == i;
    assert q[x].index == i;
  }

  /** What holds whenever the next agent is about to be taken out. */
  ghost predicate Walk(rows: seq<Row>, q: seq<Visit>, start: nat) {
    && Sane(rows, q) && start <= |q| && Justified(rows, q, start) && Level(q, start)
    && RootsIn(rows, q, |rows|) && ChildrenIn(rows, q, start)
  }

  lemma StillJustified(rows: seq<Row>, was: seq<Visit>, q: seq<Visit>, start: nat)
    requires Walk(rows, was, start) && start < |was| && Growing(rows, was, q, start, |rows|)
    ensures Justified(rows, q, start + 1)
  {
    forall y | 0 <= y < |q| && rows[q[y].index].parent.Some?
      ensures exists x | 0 <= x < start + 1 :: IsChild(rows, q[y].index, q[x].index)
    {
      if y < |was| {
        assert q[y] == was[y];
        var x :| 0 <= x < start && IsChild(rows, was[y].index, was[x].index);
        assert IsChild(rows, q[y].index, q[x].index);
      } else {
        assert IsChild(rows, q[y].index, q[start].index);
      }
    }
  }

  lemma StillLevel(rows: seq<Row>, was: seq<Visit>, q: seq<Visit>, start: nat)
    requires Walk(rows, was, start) && start < |was| && Growing(rows, was, q, start, |rows|)
    ensures Level(q, start + 1)
  {
    DepthBound(rows, was, q, start, |rows|);
    if start + 1 < |q| {
      assert q[start].depth <= q[start + 1].depth;
    }
  }

  /** After the scan the agent at `start` counts as taken out. */
  lemma TakenOut(rows: seq<Row>, was: seq<Visit>, q: seq<Visit>, start: nat)
    requires Walk(rows, was, start) && start < |was| && Growing(rows, was, q, start, |rows|)
    ensures Walk(rows, q, start + 1)
  {
    WalkParts(rows, was, start);
    GrowingKeeps(rows, was, q, start, |rows|);
    StillJustified(rows, was, q, start);
    StillLevel(rows, was, q, start);
    RootsStay(rows, was, q, start);
    ChildrenStay(rows, was, q, start);
    hide *;
    WalkOf(rows, q, start + 1);
  }

  lemma WalkOf(rows: seq<Row>, q: seq<Visit>, start: nat)
    requires Sane(rows, q) && start <= |q| && Justified(rows, q, start) && Level(q, start)
    requires RootsIn(rows, q, |rows|) && ChildrenIn(rows, q, start)
    ensures Walk(rows, q, start)
  {
  }

  lemma RootsStay(rows: seq<Row>, was: seq<Visit>, q: seq<Visit>, start: nat)
    requires Walk(rows, was, start) && start < |was| && Growing(rows, was, q, start, |rows|)
    ensures RootsIn(rows, q, |rows|)
  {
    hide Sane, Has, Justified, Level, ChildrenIn;
    forall i | 0 <= i < |rows| && rows[i].parent.None? ensures Has(q, i) {
      HasMore(was, q, i);
    }
  }

  lemma ChildrenStay(rows: seq<Row>, was: seq<Visit>, q: seq<Visit>, start: nat)
    requires Walk(rows, was, start) && start < |was| && Growing(rows, was, q, start, |rows|)
    ensures Sane(rows, q) && start < |q| && ChildrenIn(rows, q, start + 1)
  {
    hide Sane, Has, Justified, Level, RootsIn, IsChild;
    IndicesInRange(rows, q);
    forall i, x | 0 <= i < |rows| && 0 <= x < start + 1 && IsChild(rows, i, q[x].index) ensures Has(q, i) {
      if x < start {
        assert q[x] == was[x];
        HasMore(was, q, i);
      }
    }
  }

  lemma IndicesInRange(rows: seq<Row>, q: seq<Visit>)
    requires Sane(rows, q)
    ensures forall x | 0 <= x < |q| :: q[x].index < |rows|
  {
  }

  lemma OneMoreRunning(rows: seq<Row>, q: seq<Visit>, start: nat)
    requires start < |q| && forall x | 0 <= x < |q| :: q[x].index < |rows|
    ensures Running(rows, q[..start + 1]) ==
            Running(rows, q[..start]) + if rows[q[start].index].status == "running" then 1 else 0
  {
    assert q[..start + 1][..start] == q[..start];
  }

  /** Queues row `i` if it is a child of the agent taken out. */
  method ScanRow(rows: seq<Row>, queueIdx: array<nat>, queueDepth: array<nat>, ghost before: seq<Visit>, start: nat,
                 ghost q: seq<Visit>, end: nat, i: nat, idx: nat, depth: nat)
    returns (newEnd: nat, ghost more: seq<Visit>)
    requires UniqueIds(rows) && Walk(rows, before, start) && start < |before| && before[start] == Visit(idx, depth)
    requires Growing(rows, before, q, start, i) && i < |rows|
    requires Holds(queueIdx, queueDepth, q) && end == |q| && queueIdx.Length == |rows|
    modifies queueIdx, queueDepth
    ensures newEnd == |more| && Holds(queueIdx, queueDepth, more) && Growing(rows, before, more, start, i + 1)
  {
    hide *;
    var v := Visit(i, depth + 1);
    ScanStep(rows, before, q, start, i, idx, v);
    newEnd, more := end, q;
    if rows[i].parent == Some(rows[idx].uuid) {
      Enqueue(queueIdx, queueDepth, q, end, v);
      newEnd, more := end + 1, q + [v];
    }
  }

  /** The loop over all rows, with the agent taken out at hand. */
  method ScanRows(rows: seq<Row>, queueIdx: array<nat>, queueDepth: array<nat>, ghost before: seq<Visit>, start: nat,
                  from: nat, idx: nat, depth: nat)
    returns (end: nat, ghost q: seq<Visit>)
    requires UniqueIds(rows) && Walk(rows, before, start) && start < |before| && before[start] == Visit(idx, depth)
    requires Growing(rows, before, before, start, 0)
    requires Holds(queueIdx, queueDepth, before) && from == |before| && queueIdx.Length == |rows|
    modifies queueIdx, queueDepth
    ensures end == |q| && Holds(queueIdx, queueDepth, q) && Growing(rows, before, q, start, |rows|)
  {
    hide *;
    end, q := from, before;
    var i: nat := 0;
    while i < |rows|
      invariant i <= |rows| && end == |q|
      invariant Holds(queueIdx, queueDepth, q) && Growing(rows, before, q, start, i)
    {
      end, q := ScanRow(rows, queueIdx, queueDepth, before, start, q, end, i, idx, depth);
      i := i + 1;
    }
  }

  /** Scans the rows for the children of the agent taken out at `start`. */
  method QueueChildren(rows: seq<Row>, queueIdx: array<nat>, queueDepth: array<nat>,
                       ghost before: seq<Visit>, start: nat, from: nat)
    returns (end: nat, ghost q: seq<Visit>)
    requires UniqueIds(rows) && Walk(rows, before, start) && start < |before| && from == |before|
    requires Holds(queueIdx, queueDepth, before) && queueIdx.Length == |rows|
    modifies queueIdx, queueDepth
    ensures end == |q| && Holds(queueIdx, queueDepth, q) && Walk(rows, q, start + 1) && before <= q
  {
    hide *;
    HoldsAt(queueIdx, queueDepth, before, start);
    WalkParts(rows, before, start);
    GrowingStart(rows, before, start);
    end, q := ScanRows(rows, queueIdx, queueDepth, before, start, from, queueIdx[start], queueDepth[start]);
    GrowingKeeps(rows, before, q, start, |rows|);
    TakenOut(rows, before, q, start);
  }

  lemma WalkParts(rows: seq<Row>, q: seq<Visit>, start: nat)
    requires Walk(rows, q, start)
    ensures Sane(rows, q) && Justified(rows, q, start) && Level(q, start)
  {
  }

  lemma ScanStep(rows: seq<Row>, was: seq<Visit>, q: seq<Visit>, start: nat, i: nat, idx: nat, v: Visit)
    requires UniqueIds(rows) && Walk(rows, was, start) && start < |was| && Growing(rows, was, q, start, i) && i < |rows|
    requires was[start].index == idx && v == Visit(i, was[start].depth + 1)
    ensures idx < |rows|
    ensures rows[i].parent == Some(rows[idx].uuid) ==> |q| < |rows| && Growing(rows, was, q + [v], start, i + 1)
    ensures rows[i].parent != Some(rows[idx].uuid) ==> Growing(rows, was, q, start, i + 1)
  {
    hide *;
    WalkParts(rows, was, start);
    GrowingStart(rows, was, start);
    GrowingKeeps(rows, was, q, start, i);
    ChildIs(rows, i, idx);
    ChildJoins(rows, was, q, start, i, v);
  }

  lemma ChildIs(rows: seq<Row>, i: nat, p: nat)
    requires i < |rows| && p < |rows|
    ensures IsChild(rows, i, p) <==> rows[i].parent == Some(rows[p].uuid)
  {
  }

  lemma GrowingStart(rows: seq<Row>, q: seq<Visit>, start: nat)
    requires Sane(rows, q) && start < |q|
    ensures Growing(rows, q, q, start, 0) && q[start].index < |rows|
  {
  }

  lemma GrowingKeeps(rows: seq<Row>, was: seq<Visit>, q: seq<Visit>, start: nat, i: nat)
    requires Growing(rows, was, q, start, i)
    ensures Sane(rows, q) && was <= q && start < |q| && q[start] == was[start]
  {
  }

  method ListAgents(rows: seq<Row>) returns (visits: seq<Visit>, running: nat, dead: nat)
    requires UniqueIds(rows)
    ensures LevelOrder(rows, visits)
    ensures running == Running(rows, visits) && running + dead == |visits|
  {
    hide *;
    var queueIdx := new nat[|rows|](_ => 0);
    var queueDepth := new nat[|rows|](_ => 0);
    HoldsNone(queueIdx, queueDepth);
    running, dead, visits := 0, 0, [];
    var start: nat := 0;
    var end: nat;
    ghost var queue;
    end, queue := QueueRoots(rows, queueIdx, queueDepth);
    WalkStart(rows, queue);
    NoneRunning(rows);
    assert queue[..0] == [];
    while start < end
      invariant start <= end == |queue|
      invariant Holds(queueIdx, queueDepth, queue)
      invariant Walk(rows, queue, start)
      invariant visits == queue[..start] && running + dead == start
      invariant running == Running(rows, visits)
      decreases |rows| - start
    {
      WalkIndices(rows, queue, start);
      HoldsAt(queueIdx, queueDepth, queue, start);
      var idx, depth := queueIdx[start], queueDepth[start];
      OneMoreRunning(rows, queue, start);
      if rows[idx].status == "running" {
        running := running + 1;
      } else {
        dead := dead + 1;
      }
      visits := visits + [Visit(idx, depth)];
      assert visits == queue[..start + 1];
      ghost var before := queue;
      end, queue := QueueChildren(rows, queueIdx, queueDepth, before, start, end);
      assert queue[..start + 1] == before[..start + 1];
      start := start + 1;
    }
    assert visits == queue;
    AllVisited(rows, visits);
  }

  lemma NoneRunning(rows: seq<Row>)
    ensures Running(rows, []) == 0
  {
  }

  lemma HoldsNone(queueIdx: array<nat>, queueDepth: array<nat>)
    requires queueIdx != queueDepth && queueIdx.Length == queueDepth.Length
    ensures Holds(queueIdx, queueDepth, [])
  {
  }

  lemma HoldsAt(queueIdx: array<nat>, queueDepth: array<nat>, q: seq<Visit>, x: nat)
    requires Holds(queueIdx, queueDepth, q) && x < |q|
    ensures |q| <= queueIdx.Length == queueDepth.Length && q[x] == Visit(queueIdx[x], queueDepth[x])
  {
  }

  lemma WalkStart(rows: seq<Row>, q: seq<Visit>)
    requires Sane(rows, q) && RootsIn(rows, q, |rows|) && forall x | 0 <= x < |q| :: q[x].depth == 0
    ensures Walk(rows, q, 0)
  {
    assert forall x | 0 <= x < |q| :: HasDepth(rows, q[x].index, 0);
  }

  lemma WalkIndices(rows: seq<Row>, q: seq<Visit>, start: nat)
    requires Walk(rows, q, start)
    ensures forall x | 0 <= x < |q| :: q[x].index < |rows|
  {
  }

  lemma AllVisited(rows: seq<Row>, q: seq<Visit>)
    requires UniqueIds(rows) && Walk(rows, q, |q|)
    ensures LevelOrder(rows, q)
  {
    forall i, d: nat | 0 <= i < |rows| && HasDepth(rows, i, d) ensures Visit(i, d) in q {
      AllFound(rows, q, i, d);
      var x :| 0 <= x < |q| && q[x].index == i;
      DepthIsUnique(rows, i, d, q[x].depth);
    }
  }

  ghost predicate RunsAt(rows: seq<Row>, q: seq<Visit>, x: nat)
    requires x < |q|
  {
    q[x].index < |rows| && rows[q[x].index].status == "running"
  }

  ghost function RunningVisits(rows: seq<Row>, q: seq<Visit>): set<nat> {
    set x: nat | x < |q| && RunsAt(rows, q, x)
  }

  /** The counter is the number of agents visited whose status is "running". */
  lemma {:induction false} RunningIsCount(rows: seq<Row>, q: seq<Visit>)
    ensures Running(rows, q) == |RunningVisits(rows, q)|
  {
    if q == [] {
      assert RunningVisits(rows, q) == {};
    } else {
      RunningIsCount(rows, q[..|q| - 1]);
      OneMoreVisit(rows, q);
      hide RunningVisits;
    }
  }

  lemma OneMoreVisit(rows: seq<Row>, q: seq<Visit>)
    requires q != []
    ensures |RunningVisits(rows, q)| ==
            |RunningVisits(rows, q[..|q| - 1])| + if RunsAt(rows, q, |q| - 1) then 1 else 0
  {
    var k, rest := |q| - 1, q[..|q| - 1];
    forall x: nat | x < k ensures RunsAt(rows, rest, x) <==> RunsAt(rows, q, x) {
    }
    hide RunsAt;
    assert RunningVisits(rows, q) == RunningVisits(rows, rest) + if RunsAt(rows, q, k) then {k} else {};
    assert k !in RunningVisits(rows, rest);
  }
}
