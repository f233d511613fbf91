/**
  The agents in memory: a flat array with parent ids, kept a forest by the order in which agents
  are added.  Positions in the array stand for agents.
*/
module Forest {
  import opened Wrappers

  datatype Record = Record(uuid: string, parent: Option<string>, dead: bool)

  /** Generated ids: 16 random bytes in base64url. */
  const UUID_LENGTH := 22

  ghost predicate Distinct(a: seq<Record>) {
    forall i, j | 0 <= i < j < |a| :: a[i].uuid != a[j].uuid
  }

  /** A parent that is present stands before its child. */
  ghost predicate Ordered(a: seq<Record>) {
    forall i, j | 0 <= i <= j < |a| :: a[i].parent != Some(a[j].uuid)
  }

  /** The first agent is a living root, and the only root. */
  ghost predicate Rooted(a: seq<Record>) {
    && |a| > 0 && a[0].parent.None? && !a[0].dead
    && forall i | 0 < i < |a| :: a[i].parent.Some?
  }

  ghost predicate FullIds(a: seq<Record>) {
    forall i | 0 <= i < |a| :: |a[i].uuid| == UUID_LENGTH
  }

  ghost predicate Sound(a: seq<Record>) {
    Distinct(a) && Ordered(a) && Rooted(a) && FullIds(a)
  }

  predicate IsChild(a: seq<Record>, i: nat, p: nat)
    requires i < |a| && p < |a|
  {
    a[i].parent == Some(a[p].uuid)
  }

  // ----- Subtrees

  function IndexFrom(a: seq<Record>, uuid: string, i: nat): (k: nat)
    requires i <= |a|
    ensures i <= k <= |a| && (k < |a| ==> a[k].uuid == uuid)
    ensures forall j | i <= j < k :: a[j].uuid != uuid
    decreases |a| - i
  {
    if i == |a| || a[i].uuid == uuid then i else IndexFrom(a, uuid, i + 1)
  }

  /** Position of the parent, if it is present. */
  function Parent(a: seq<Record>, i: nat): (p: Option<nat>)
    requires i < |a|
    ensures p.Some? ==> p.value < |a| && IsChild(a, i, p.value)
    ensures p.None? ==> forall k | 0 <= k < |a| :: !IsChild(a, i, k)
  {
    if a[i].parent.None? then None
    else
      var k := IndexFrom(a, a[i].parent.value, 0);
      if k < |a| then Some(k) else None
  }

  /** Walking up from `j` over present parents meets `p`. */
  predicate Under(a: seq<Record>, j: nat, p: nat)
    requires Ordered(a) && j < |a|
    decreases j
  {
    var q := Parent(a, j);
    q.Some? && (q.value == p || Under(a, q.value, p))
  }

  /** The children of `p` from position `i` on, each behind its own subtree. */
  function Collect(a: seq<Record>, p: nat, i: nat): (r: seq<nat>)
    requires Ordered(a) && p < |a| && i <= |a|
    ensures forall k | k in r :: k < |a|
    decreases |a| - p, |a| - i
  {
    if i == |a| then []
    else if IsChild(a, i, p) then Collect(a, i, 0) + [i] + Collect(a, p, i + 1)
    else Collect(a, p, i + 1)
  }

  lemma ParentOf(a: seq<Record>, i: nat, p: nat)
    requires Distinct(a) && i < |a| && p < |a| && IsChild(a, i, p)
    ensures Parent(a, i) == Some(p)
  {
  }

  lemma {:induction false} UnderIsLater(a: seq<Record>, j: nat, p: nat)
    requires Ordered(a) && j < |a| && Under(a, j, p)
    ensures p < j
    decreases j
  {
    var q := Parent(a, j).value;
    if q != p {
      UnderIsLater(a, q, p);
    }
  }

  lemma {:induction false} UnderTransitive(a: seq<Record>, j: nat, c: nat, p: nat)
    requires Ordered(a) && j < |a| && c < |a| && Under(a, j, c) && Under(a, c, p)
    ensures Under(a, j, p)
    decreases j
  {
    var q := Parent(a, j).value;
    if q != c {
      UnderTransitive(a, q, c, p);
    }
  }

  /** Everything below `p` is a child of `p` or below one. */
  lemma {:induction false} UnderChild(a: seq<Record>, j: nat, p: nat) returns (c: nat)
    requires Ordered(a) && j < |a| && p < |a| && Under(a, j, p)
    ensures c < |a| && IsChild(a, c, p) && (j == c || Under(a, j, c))
    decreases j
  {
    var q := Parent(a, j).value;
    if q == p {
      c := j;
    } else {
      c := UnderChild(a, q, p);
    }
  }

  /** The subtrees of two siblings have nothing in common. */
  lemma {:induction false} SiblingsApart(a: seq<Record>, j: nat, c: nat, e: nat, p: nat)
    requires Distinct(a) && Ordered(a) && j < |a| && c < |a| && e < |a| && p < |a|
    requires IsChild(a, c, p) && IsChild(a, e, p) && c != e
    requires j == c || Under(a, j, c)
    ensures j != e && !Under(a, j, e)
    decreases j
  {
    ParentOf(a, c, p);
    ParentOf(a, e, p);
    if j == c {
      if Under(a, p, e) { UnderIsLater(a, p, e); }
    } else {
      var q := Parent(a, j).value;
      SiblingsApart(a, q, c, e, p);
      if j == e {
        assert q == p;
        if Under(a, p, c) { UnderIsLater(a, p, c); }
      }
    }
  }

  /** From position `i` on the listing holds the later children of `p` and what is below them. */
  ghost predicate Listed(a: seq<Record>, p: nat, i: nat, j: nat)
    requires Ordered(a) && p < |a| && j < |a|
  {
    exists c | i <= c < |a| && IsChild(a, c, p) :: j == c || Under(a, j, c)
  }

  lemma SubtreeOf(a: seq<Record>, p: nat, j: nat)
    requires Distinct(a) && Ordered(a) && p < |a| && j < |a|
    ensures Listed(a, p, 0, j) <==> Under(a, j, p)
  {
    if Under(a, j, p) {
      var c := UnderChild(a, j, p);
    }
    if Listed(a, p, 0, j) {
      var c :| 0 <= c < |a| && IsChild(a, c, p) && (j == c || Under(a, j, c));
      ParentOf(a, c, p);
      assert Under(a, c, p);
      if j != c {
        UnderTransitive(a, j, c, p);
      }
    }
  }

  lemma {:induction false} CollectLists(a: seq<Record>, p: nat, i: nat, j: nat)
    requires Distinct(a) && Ordered(a) && p < |a| && i <= |a| && j < |a|
    ensures j in Collect(a, p, i) <==> Listed(a, p, i, j)
    decreases |a| - p, |a| - i
  {
    if i < |a| {
      CollectLists(a, p, i + 1, j);
      if IsChild(a, i, p) {
        CollectLists(a, i, 0, j);
        SubtreeOf(a, i, j);
      }
    }
  }

  /** `v` is another agent than `u`, and not below it. */
  predicate Apart(a: seq<Record>, u: nat, v: nat)
    requires Ordered(a)
  {
    u != v && (v < |a| ==> !Under(a, v, u))
  }

  /** No agent is listed twice, and none before something below it. */
  ghost predicate PostOrder(a: seq<Record>, r: seq<nat>)
    requires Ordered(a)
  {
    forall x, y | 0 <= x < y < |r| :: Apart(a, r[x], r[y])
  }

  lemma PostOrderConcat(a: seq<Record>, r: seq<nat>, s: seq<nat>)
    requires Ordered(a) && PostOrder(a, r) && PostOrder(a, s)
    requires forall u, v | u in r && v in s :: Apart(a, u, v)
    ensures PostOrder(a, r + s)
  {
    hide Apart;
    var all := r + s;
    forall x, y | 0 <= x < y < |all| ensures Apart(a, all[x], all[y]) {
      if x < |r| <= y {
        assert all[x] in r && all[y] in s;
      }
    }
  }

  lemma BelowBefore(a: seq<Record>, i: nat, u: nat)
    requires Distinct(a) && Ordered(a) && i < |a| && u in Collect(a, i, 0)
    ensures Under(a, u, i) && Apart(a, u, i)
  {
    CollectLists(a, i, 0, u);
    SubtreeOf(a, i, u);
    UnderIsLater(a, u, i);
    if Under(a, i, u) { UnderIsLater(a, i, u); }
  }

  /** The subtree of the child `i` against those of the later children. */
  lemma LaterApart(a: seq<Record>, p: nat, i: nat, u: nat, v: nat)
    requires Distinct(a) && Ordered(a) && p < |a| && i < |a| && IsChild(a, i, p)
    requires u == i || (u < |a| && Under(a, u, i))
    requires v in Collect(a, p, i + 1)
    ensures Apart(a, u, v)
  {
    CollectLists(a, p, i + 1, v);
    var c :| i + 1 <= c < |a| && IsChild(a, c, p) && (v == c || Under(a, v, c));
    SiblingsApart(a, v, c, i, p);
    if Under(a, v, u) && u != i {
      UnderTransitive(a, v, u, i);
    }
  }

  lemma {:induction false} CollectIsPostOrder(a: seq<Record>, p: nat, i: nat)
    requires Distinct(a) && Ordered(a) && p < |a| && i <= |a|
    ensures PostOrder(a, Collect(a, p, i))
    decreases |a| - p, |a| - i
  {
    if i < |a| {
      CollectIsPostOrder(a, p, i + 1);
      if IsChild(a, i, p) {
        CollectIsPostOrder(a, i, 0);
        hide Apart, Under;
        var below, later := Collect(a, i, 0), Collect(a, p, i + 1);
        forall u | u in below ensures Under(a, u, i) && Apart(a, u, i) {
          BelowBefore(a, i, u);
        }
        PostOrderConcat(a, below, [i]);
        forall u, v | u in below + [i] && v in later ensures Apart(a, u, v) {
          LaterApart(a, p, i, u, v);
        }
        PostOrderConcat(a, below + [i], later);
      }
    }
  }

  /** The listing is exactly the subtree of `p`, each agent once and behind its own subtree. */
  lemma CollectIsSubtree(a: seq<Record>, p: nat)
    requires Distinct(a) && Ordered(a) && p < |a|
    ensures forall j | 0 <= j < |a| :: j in Collect(a, p, 0) <==> Under(a, j, p)
    ensures PostOrder(a, Collect(a, p, 0))
  {
    forall j: nat | j < |a| ensures j in Collect(a, p, 0) <==> Under(a, j, p) {
      CollectLists(a, p, 0, j);
      SubtreeOf(a, p, j);
    }
    CollectIsPostOrder(a, p, 0);
  }

  // ----- Lookup by prefix

  predicate HasPrefix(uuid: string, prefix: string) {
    |prefix| <= |uuid| && uuid[..|prefix|] == prefix
  }

  function PrefixFrom(a: seq<Record>, prefix: string, i: nat): (k: nat)
    requires i <= |a|
    ensures i <= k <= |a| && (k < |a| ==> HasPrefix(a[k].uuid, prefix))
    ensures forall j | i <= j < k :: !HasPrefix(a[j].uuid, prefix)
    decreases |a| - i
  {
    if i == |a| || HasPrefix(a[i].uuid, prefix) then i else PrefixFrom(a, prefix, i + 1)
  }

  /** An exact match wins; otherwise the only agent with the prefix, of at least four characters. */
  function Find(a: seq<Record>, prefix: string): (r: Option<nat>)
    ensures r.Some? ==> r.value < |a|
  {
    if |prefix| < 4 then None
    else
      var exact := IndexFrom(a, prefix, 0);
      if exact < |a| then Some(exact)
      else
        var first := PrefixFrom(a, prefix, 0);
        if first == |a| || PrefixFrom(a, prefix, first + 1) < |a| then None else Some(first)
  }

  ghost predicate Ambiguous(a: seq<Record>, prefix: string) {
    |prefix| >= 4 && exists i, j | 0 <= i < j < |a| :: HasPrefix(a[i].uuid, prefix) && HasPrefix(a[j].uuid, prefix)
  }

  /** A failed search is ambiguous or has nothing to find; a full id finds its agent and no other. */
  lemma FindIsExact(a: seq<Record>, prefix: string, i: nat)
    requires Distinct(a) && FullIds(a) && i < |a|
    ensures Find(a, prefix) == Some(i) <==>
            |prefix| >= 4 && HasPrefix(a[i].uuid, prefix) &&
            (|prefix| == UUID_LENGTH || forall k | 0 <= k < |a| && k != i :: !HasPrefix(a[k].uuid, prefix))
    ensures Find(a, prefix).None? && |prefix| >= 4 && HasPrefix(a[i].uuid, prefix) ==> Ambiguous(a, prefix)
  {
    assert forall k | 0 <= k < |a| && HasPrefix(a[k].uuid, prefix) && |prefix| == UUID_LENGTH :: a[k].uuid == prefix;
    assert forall k | 0 <= k < |a| && a[k].uuid == prefix :: HasPrefix(a[k].uuid, prefix);
  }
}
