/**
  What the reverse translation can produce, and what it never can: once a match has taken too much
  or too little of the rewritten text, the rest does not come out as the rest of the text.
*/
module PathCollisions {
  import opened Paths
  import opened Sequences
  import opened PathRestore

  lemma StartsOf(a: string, b: string, p: string)
    ensures |p| <= |a| ==> (StartsWith(a + b, p) <==> StartsWith(a, p))
    ensures |p| >= |a| && StartsWith(a + b, p) ==> StartsWith(p, a)
    ensures (a + b)[|a|..] == b && StartsWith(a + b, a)
  {
    assert |p| <= |a| ==> (a + b)[..|p|] == a[..|p|];
    assert (a + b)[..|a|] == a;
    if |p| >= |a| && StartsWith(a + b, p) {
      assert p[..|a|] == (a + b)[..|p|][..|a|] == a;
    }
  }

  lemma NotAUri(t: string, i: nat)
    requires i < |t| && t[i] != 'i'
    ensures !UriAt(t, i)
  {
    if i + 5 <= |t| {
      assert t[i..i + 5][0] == t[i];
    }
  }

  lemma OneSlash(s: string)
    ensures StartsWith(s, "/") <==> |s| > 0 && s[0] == '/'
  {
    assert |s| > 0 ==> s[..1][0] == s[0];
    assert |s| > 0 && s[0] == '/' ==> s[..1] == "/";
  }

  lemma UriText(t: string, i: nat)
    requires MatchAt(t, URI, i)
    ensures t[i..] == URI + t[i + 5..]
  {
    assert t[i..] == t[i..i + 5] + t[i + 5..];
  }

  // ----- One step of the reverse translation

  lemma HitGivesUri(d: Dirs, z: string)
    requires d.Valid() && Hit(d, z)
    ensures StartsWith(Restore(d, z), URI)
  {
    if StartsWith(z, d.state) {
      StartsOf(URI, Restore(d, DropSlash(z[|d.state|..])), URI);
    } else {
      var rest := z[|d.System()|..];
      var more := if |rest| > 0 && rest[0] == '/' then "/" + Restore(d, rest[1..]) else Restore(d, rest);
      Regroup(URI, SYSTEM, more);
      StartsOf(URI, SYSTEM + more, URI);
    }
  }

  lemma UriIsHit(d: Dirs, t: string, i: nat)
    requires d.Valid() && i < |t| && UriAt(t, i)
    ensures StartsWith(Rewrite(d, t, i), if SystemAt(t, i) then d.System() else d.state)
    ensures Hit(d, Rewrite(d, t, i))
  {
    if SystemAt(t, i) {
      StartsOf(d.System(), Rewrite(d, t, i + 11), d.System());
    } else {
      Regroup(d.state, Slash(d, t, i + 5), Rewrite(d, t, i + 5));
      StartsOf(d.state, Slash(d, t, i + 5) + Rewrite(d, t, i + 5), d.state);
    }
  }

  lemma UriStart(t: string)
    ensures StartsWith(t, URI) ==> t[0] == 'i' && t[1] == 'k' && t[2] == ':' && t[3] == '/' && t[4] == '/'
  {
    assert StartsWith(t, URI) ==> forall k | 0 <= k < 5 :: t[k] == t[..5][k];
  }

  /** Characters other than 'i' at the start of the result were copied. */
  lemma {:induction false} CopiedRun(d: Dirs, z: string, n: nat)
    requires d.Valid() && n <= |Restore(d, z)| && forall k | 0 <= k < n :: Restore(d, z)[k] != 'i'
    ensures n <= |z| && z[..n] == Restore(d, z)[..n]
    ensures Restore(d, z[n..]) == Restore(d, z)[n..]
    ensures forall k | 0 <= k < n :: !Hit(d, z[k..])
    decreases n
  {
    var r := Restore(d, z);
    if n == 0 {
      assert z[0..] == z && r[0..] == r;
    } else {
      if Hit(d, z) {
        HitGivesUri(d, z);
        UriStart(r);
      }
      assert z[0..] == z;
      assert z != "" && r == [z[0]] + Restore(d, z[1..]);
      assert r[1..] == Restore(d, z[1..]);
      CopiedRun(d, z[1..], n - 1);
      assert z[..n] == [z[0]] + z[1..][..n - 1];
      assert z[1..][n - 1..] == z[n..] && r[1..][n - 1..] == r[n..];
      forall k | 0 < k < n ensures !Hit(d, z[k..]) {
        assert z[1..][k - 1..] == z[k..];
      }
    }
  }

  /** A URI at the start of the result was copied unless a directory stood there. */
  lemma CopiedUri(d: Dirs, z: string)
    requires d.Valid() && StartsWith(Restore(d, z), URI) && !Hit(d, z)
    ensures StartsWith(z, URI) && Restore(d, z[5..]) == Restore(d, z)[5..]
    ensures forall k | 0 <= k < 5 :: !Hit(d, z[k..])
  {
    var r := Restore(d, z);
    UriStart(r);
    assert z != "" && r == [z[0]] + Restore(d, z[1..]) && r[1..] == Restore(d, z[1..]);
    assert z[0..] == z;
    CopiedRun(d, z[1..], 4);
    assert z[..5] == [z[0]] + z[1..][..4] == r[..5];
    assert z[1..][4..] == z[5..] && r[1..][4..] == r[5..];
    forall k | 0 < k < 5 ensures !Hit(d, z[k..]) {
      assert z[1..][k - 1..] == z[k..];
    }
  }

  /** "system" in front of a text that ends or goes on with a slash. */
  lemma CopiedSystem(d: Dirs, e: string, x: string)
    requires d.Valid() && StartsWith(Restore(d, e + "/system" + x), SYSTEM)
    ensures |e| >= 6 && e[..6] == SYSTEM
    ensures Restore(d, e[6..] + "/system" + x) == Restore(d, e + "/system" + x)[6..]
  {
    var z := e + "/system" + x;
    var r := Restore(d, z);
    assert forall k | 0 <= k < 6 :: r[k] == r[..6][k] == SYSTEM[k];
    CopiedRun(d, z, 6);
    assert z[..6] == SYSTEM;
    assert z[|e|] == '/' && forall k | 0 <= k < 6 :: z[k] == z[..6][k] != '/';
    assert e[..6] == z[..6];
    assert z[6..] == e[6..] + "/system" + x;
  }

  // ----- Something lost stays lost

  ghost predicate NoScheme(s: string) {
    forall k | 0 <= k < |s| - 2 :: !(s[k] == 'i' && s[k + 1] == 'k' && s[k + 2] == ':')
  }

  /** Read round and round, `u` never says "ik:". */
  ghost predicate Quiet(u: string) {
    |u| > 0 && ('i' !in u || (|u| >= 3 && NoScheme(u + u)))
  }

  lemma Turned(u: string)
    requires Quiet(u)
    ensures Quiet(u[1..] + [u[0]])
  {
    var v, n := u[1..] + [u[0]], |u|;
    if 'i' in u {
      assert v + v == (u + u)[1..] + [u[0]];
      forall k | 0 <= k < 2 * n - 2 ensures !((v + v)[k] == 'i' && (v + v)[k + 1] == 'k' && (v + v)[k + 2] == ':') {
        var m := if k == 2 * n - 3 then k - n else k;
        assert (v + v)[k] == (v + v)[m] && (v + v)[k + 1] == (v + v)[m + 1] && (v + v)[k + 2] == (v + v)[m + 2];
        assert (v + v)[m] == (u + u)[m + 1] && (v + v)[m + 1] == (u + u)[m + 2] && (v + v)[m + 2] == (u + u)[m + 3];
      }
    }
  }

  lemma QuietStart(u: string, rest: string)
    requires Quiet(u)
    ensures !StartsWith(u + rest, URI)
  {
    var goal := u + rest;
    UriStart(goal);
    if |u| >= 3 {
      assert goal[0] == (u + u)[0] && goal[1] == (u + u)[1] && goal[2] == (u + u)[2];
    } else {
      assert goal[0] == u[0];
    }
  }

  lemma LiteralText(d: Dirs, t: string, i: nat)
    requires d.Valid() && i < |t| && !UriAt(t, i)
    ensures Rewrite(d, t, i) == [t[i]] + Rewrite(d, t, i + 1) && t[i..] == [t[i]] + t[i + 1..]
  {
  }

  /** When a text is to come out that does not start with a URI, its first character was copied. */
  lemma CopiedChar(d: Dirs, z: string, goal: string)
    requires d.Valid() && Restore(d, z) == goal && goal != "" && !StartsWith(goal, URI)
    ensures z != "" && !Hit(d, z) && z[0] == goal[0] && Restore(d, z[1..]) == goal[1..]
  {
    if Hit(d, z) {
      HitGivesUri(d, z);
    }
    assert goal == [z[0]] + Restore(d, z[1..]);
  }

  /** A text without a scheme in it that should stand in front is never made up for later. */
  lemma {:induction false} StaysLost(d: Dirs, t: string, i: nat, u: string)
    requires d.Valid() && i <= |t| && Quiet(u)
    ensures Restore(d, Rewrite(d, t, i)) != u + t[i..]
    decreases |t| - i
  {
    var r, goal := Rewrite(d, t, i), u + t[i..];
    if i == |t| {
      EndOfText(d, t);
    }
    assert goal != "";
    hide *;
    if Restore(d, r) == goal {
      QuietStart(u, t[i..]);
      CopiedChar(d, r, goal);
      if i < |t| {
        if UriAt(t, i) {
          UriIsHit(d, t, i);
        } else {
          LiteralText(d, t, i);
          var v := u[1..] + [t[i]];
          assert r[1..] == Rewrite(d, t, i + 1) && goal[1..] == v + t[i + 1..];
          Turned(u);
          StaysLost(d, t, i + 1, v);
        }
      }
    }
  }

  // ----- Directories

  predicate Absolute(d: Dirs) { d.Valid() && d.state[0] == '/' && d.data[0] == '/' }

  /** No two slashes next to each other. */
  ghost predicate SinglySlashed(s: string) {
    forall k | 0 <= k < |s| - 1 :: !(s[k] == '/' && s[k + 1] == '/')
  }

  /** Absolute and normalised: no "//", no "ik:", and the state directory is not the root. */
  ghost predicate Normal(d: Dirs) {
    && Absolute(d) && |d.state| > 1
    && SinglySlashed(d.state) && SinglySlashed(d.System()) && NoScheme(d.state) && NoScheme(d.System())
  }

  /** The data directory lies below the state directory. */
  predicate Below(d: Dirs) { StartsWith(d.data, d.state) && d.data != d.state }

  lemma BelowHits(d: Dirs, z: string)
    requires d.Valid() && Below(d)
    ensures Hit(d, z) <==> StartsWith(z, d.state)
    ensures |d.state| < |d.data| && StartsWith(d.System(), d.state)
  {
    assert d.System()[..|d.state|] == d.data[..|d.state|];
    if StartsWith(z, d.System()) {
      assert z[..|d.state|] == z[..|d.System()|][..|d.state|];
    }
    assert d.data[..|d.data|] == d.data;
  }

  // ----- Something left over stays left over

  /**
    A string in front of the rewritten text that comes out as nothing of its own: the reverse
    translation of both together would be the text alone.
  */
  ghost predicate Swallowed(d: Dirs, t: string, j: nat, w: string)
    requires d.Valid() && j <= |t|
  {
    w != "" && Restore(d, w + Rewrite(d, t, j)) == t[j..]
  }

  lemma DropInFront(w: string, x: string)
    requires |w| >= 2
    ensures DropSlash(w + x) == DropSlash(w) + x && DropSlash(w) != ""
  {
    assert w[0] == '/' ==> (w + x)[1..] == w[1..] + x;
  }

  lemma RestoreHit(d: Dirs, z: string)
    requires d.Valid() && StartsWith(z, d.state)
    ensures Restore(d, z)[..5] == URI && Restore(d, z)[5..] == Restore(d, DropSlash(z[|d.state|..]))
  {
    var more := Restore(d, DropSlash(z[|d.state|..]));
    assert Restore(d, z) == URI + more;
  }

  lemma FalseUriText(d: Dirs, t: string, j: nat)
    requires d.Valid() && MatchAt(t, URI, j) && !UriAt(t, j)
    ensures j + 5 <= |t| && Rewrite(d, t, j) == URI + Rewrite(d, t, j + 5) && t[j..] == URI + t[j + 5..]
  {
    forall k | j <= k < j + 5 ensures !UriAt(t, k) {
      if j < k { NoOverlap(t, j, k); }
    }
    PlainRun(d, t, j, j + 5);
    UriText(t, j);
  }

  lemma GenericText(d: Dirs, t: string, j: nat)
    requires d.Valid() && j < |t| && GenericAt(t, j)
    ensures j + 5 <= |t| && t[j..] == URI + t[j + 5..]
    ensures Rewrite(d, t, j) == d.state + Slash(d, t, j + 5) + Rewrite(d, t, j + 5)
  {
    UriText(t, j);
  }

  lemma SystemText(d: Dirs, t: string, j: nat)
    requires d.Valid() && j < |t| && SystemAt(t, j)
    ensures j + 11 <= |t| && t[j..] == URI + (SYSTEM + t[j + 11..])
    ensures Rewrite(d, t, j) == d.data + ("/system" + Rewrite(d, t, j + 11))
  {
    assert t[j..] == t[j..j + 5] + t[j + 5..j + 11] + t[j + 11..];
    Regroup(URI, SYSTEM, t[j + 11..]);
    Regroup(d.data, "/system", Rewrite(d, t, j + 11));
  }

  /** A character of the text is copied out of the leftover, and one of the text moves up. */
  lemma SwallowChar(d: Dirs, t: string, j: nat, w: string) returns (v: string)
    requires d.Valid() && j < |t| && Swallowed(d, t, j, w) && !StartsWith(t[j..], URI)
    ensures Swallowed(d, t, j + 1, v)
  {
    var z := w + Rewrite(d, t, j);
    CopiedChar(d, z, t[j..]);
    SuffixMatch(t, URI, j);
    LiteralText(d, t, j);
    v := w[1..] + [t[j]];
    assert z[1..] == v + Rewrite(d, t, j + 1);
    assert t[j..][1..] == t[j + 1..];
  }

  lemma Behind(front: string, r: string, n: nat)
    requires n <= |front|
    ensures (front + r)[n..] == front[n..] + r
  {
  }

  /** A hit that ends at least two characters before the text leaves those over. */
  lemma HitLeavesOver(d: Dirs, t: string, j: nat, front: string) returns (v: string)
    requires d.Valid() && Below(d) && j <= |t| && |front| >= |d.state| + 2
    requires StartsWith(front + Rewrite(d, t, j), d.state)
    requires Restore(d, front + Rewrite(d, t, j)) == URI + t[j..]
    ensures Swallowed(d, t, j, v)
  {
    hide Rewrite, Restore, Below;
    var r := Rewrite(d, t, j);
    RestoreHit(d, front + r);
    Behind(front, r, |d.state|);
    DropInFront(front[|d.state|..], r);
    v := DropSlash(front[|d.state|..]);
    assert (URI + t[j..])[5..] == t[j..];
  }

  /** A copied URI that ends before the text leaves the rest over. */
  lemma CopyLeavesOver(d: Dirs, t: string, j: nat, front: string) returns (v: string)
    requires d.Valid() && j <= |t| && |front| > 5 && !Hit(d, front + Rewrite(d, t, j))
    requires Restore(d, front + Rewrite(d, t, j)) == URI + t[j..]
    ensures Swallowed(d, t, j, v)
  {
    hide Rewrite, Restore, Hit;
    var r := Rewrite(d, t, j);
    StartsOf(URI, t[j..], URI);
    CopiedUri(d, front + r);
    Behind(front, r, 5);
    v := front[5..];
    assert (URI + t[j..])[5..] == t[j..];
  }

  /** The same for a URI that stands inside a word. */
  lemma SwallowFalseUri(d: Dirs, t: string, j: nat, w: string) returns (v: string)
    requires Normal(d) && Below(d) && j < |t| && Swallowed(d, t, j, w) && MatchAt(t, URI, j) && !UriAt(t, j)
    ensures j + 5 <= |t| && Swallowed(d, t, j + 5, v)
  {
    hide Restore, Rewrite, SinglySlashed, NoScheme, Below;
    FalseUriText(d, t, j);
    hide UriAt, MatchAt;
    var r := Rewrite(d, t, j + 5);
    Regroup(w, URI, r);
    BelowHits(d, w + URI + r);
    if Hit(d, w + URI + r) {
      SchemeIsShort(d, w, r);
      v := HitLeavesOver(d, t, j + 5, w + URI);
    } else {
      v := CopyLeavesOver(d, t, j + 5, w + URI);
    }
  }

  lemma SchemeIsShort(d: Dirs, w: string, r: string)
    requires Normal(d) && StartsWith(w + URI + r, d.state)
    ensures |d.state| <= |w| + 2
  {
    var z := w + URI + r;
    assert z[|w|] == 'i' && z[|w| + 1] == 'k' && z[|w| + 2] == ':';
    assert forall k | 0 <= k < |d.state| :: d.state[k] == z[..|d.state|][k] == z[k];
  }

  lemma SwallowGeneric(d: Dirs, t: string, j: nat, w: string) returns (v: string)
    requires Normal(d) && Below(d) && j < |t| && Swallowed(d, t, j, w) && GenericAt(t, j)
    ensures j + 5 <= |t| && Swallowed(d, t, j + 5, v)
  {
    hide Restore, Rewrite, SinglySlashed, NoScheme, SystemAt, Slash, Below;
    GenericText(d, t, j);
    var r, slash := Rewrite(d, t, j + 5), Slash(d, t, j + 5);
    var front := w + (d.state + slash);
    Regroup(w, d.state + slash, r);
    BelowHits(d, front + r);
    if Hit(d, front + r) {
      FrontRegroup(w, d.state, slash, r);
      LongLeftover(d, w, slash + r);
      v := HitLeavesOver(d, t, j + 5, front);
    } else {
      NotAtOnce(d, t, j, w);
      v := CopyLeavesOver(d, t, j + 5, front);
    }
  }

  lemma FrontRegroup(w: string, s: string, slash: string, r: string)
    ensures w + (s + slash) + r == w + s + (slash + r)
  {
  }

  /** Where a URI is to be copied, it stands before the directory. */
  lemma NotAtOnce(d: Dirs, t: string, j: nat, w: string)
    requires d.Valid() && j < |t| && UriAt(t, j) && Swallowed(d, t, j, w) && !Hit(d, w + Rewrite(d, t, j))
    ensures |w| >= 5
  {
    UriText(t, j);
    StartsOf(URI, t[j + 5..], URI);
    CopiedUri(d, w + Rewrite(d, t, j));
    LateHit(d, t, j, w);
  }

  /** One character and the state directory do not start with the state directory. */
  lemma LongLeftover(d: Dirs, w: string, x: string)
    requires Normal(d) && w != "" && StartsWith(w + d.state + x, d.state)
    ensures |w| >= 2
  {
    var z := w + d.state + x;
    assert d.state[0] == z[0] && d.state[1] == z[1];
    assert z[|w|] == d.state[0];
  }

  /** Five characters copied before a directory are all leftover. */
  lemma LateHit(d: Dirs, t: string, j: nat, w: string)
    requires d.Valid() && j < |t| && UriAt(t, j)
    requires forall k | 0 <= k < 5 && k <= |w + Rewrite(d, t, j)| :: !Hit(d, (w + Rewrite(d, t, j))[k..])
    ensures |w| >= 5
  {
    UriIsHit(d, t, j);
    assert (w + Rewrite(d, t, j))[|w|..] == Rewrite(d, t, j);
  }

  lemma SwallowSystem(d: Dirs, t: string, j: nat, w: string) returns (v: string)
    requires Normal(d) && Below(d) && j < |t| && Swallowed(d, t, j, w) && SystemAt(t, j)
    ensures j + 11 <= |t| && Swallowed(d, t, j + 11, v)
  {
    hide Restore, Rewrite, SinglySlashed, NoScheme, Below;
    SystemText(d, t, j);
    var tail := t[j + 11..];
    var x := "/system" + Rewrite(d, t, j + 11);
    var front := w + d.data;
    Regroup(w, d.data, x);
    BelowHits(d, front + x);
    StartsOf(SYSTEM, tail, SYSTEM);
    StartsOf(URI, SYSTEM + tail, URI);
    var e: string;
    if Hit(d, front + x) {
      RestoreHit(d, front + x);
      Behind(front, x, |d.state|);
      DropInFront(front[|d.state|..], x);
      e := DropSlash(front[|d.state|..]);
    } else {
      NotAtOnce(d, t, j, w);
      CopiedUri(d, front + x);
      Behind(front, x, 5);
      e := front[5..];
    }
    v := SystemLeavesOver(d, t, j + 11, e);
  }

  lemma SystemLeavesOver(d: Dirs, t: string, j: nat, e: string) returns (v: string)
    requires d.Valid() && j <= |t| && Restore(d, e + ("/system" + Rewrite(d, t, j))) == SYSTEM + t[j..]
    ensures Swallowed(d, t, j, v)
  {
    hide Restore, Rewrite;
    var r := Rewrite(d, t, j);
    Regroup(e, "/system", r);
    StartsOf(SYSTEM, t[j..], SYSTEM);
    CopiedSystem(d, e, r);
    v := e[6..] + "/system";
  }

  /** Below the state directory nothing is swallowed. */
  lemma {:induction false} NothingSwallowed(d: Dirs, t: string, j: nat, w: string)
    requires Normal(d) && Below(d) && j <= |t|
    ensures !Swallowed(d, t, j, w)
    decreases |t| - j
  {
    SuffixMatch(t, URI, j);
    hide Normal, Below, StartsWith, MatchAt, UriAt, SystemAt;
    if Swallowed(d, t, j, w) {
      hide Rewrite, Restore;
      if j == |t| {
        SwallowedAtEnd(d, t, w);
      } else if !StartsWith(t[j..], URI) {
        var v := SwallowChar(d, t, j, w);
        NothingSwallowed(d, t, j + 1, v);
      } else {
        if !UriAt(t, j) {
          var v := SwallowFalseUri(d, t, j, w);
          NothingSwallowed(d, t, j + 5, v);
        } else if SystemAt(t, j) {
          var v := SwallowSystem(d, t, j, w);
          NothingSwallowed(d, t, j + 11, v);
        } else {
          var v := SwallowGeneric(d, t, j, w);
          NothingSwallowed(d, t, j + 5, v);
        }
      }
    }
  }

  lemma SwallowedAtEnd(d: Dirs, t: string, w: string)
    requires d.Valid()
    ensures !Swallowed(d, t, |t|, w)
  {
    Nothing(w);
    RestoreSomething(d, w);
  }

  lemma RestoreSomething(d: Dirs, w: string)
    requires d.Valid()
    ensures Restore(d, w) == "" <==> w == ""
  {
  }
}
