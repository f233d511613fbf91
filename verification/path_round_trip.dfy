/**
  When the two translations of a text undo each other.
*/
module PathRoundTrip {
  import opened Paths
  import opened Sequences
  import opened PathRestore
  import opened PathCollisions

  /** The state directory is the data directory, with or without a slash behind it. */
  predicate Together(d: Dirs) {
    Absolute(d) && (d.state == d.data || d.state == d.data + "/")
  }

  /**
    No directory shows in the rewritten text except where a URI was replaced, no generic URI has a
    tail starting with '/', and a system URI is not taken for a generic one; the state directory
    may stand in its place only if it is the data directory itself.
  */
  ghost predicate Clean(d: Dirs, t: string, i: nat)
    requires d.Valid() && i <= |t|
    decreases |t| - i
  {
    i == |t| ||
    if SystemAt(t, i) then
      if StartsWith(Rewrite(d, t, i), d.state) then Together(d) && Clean(d, t, i + 11)
      else i + 11 == |t| || Clean(d, t, i + 12)
    else if UriAt(t, i) then
      && !StartsWith(t[i + 5..], "/")
      && (d.state[|d.state| - 1] == '/' ==> !StartsWith(Rewrite(d, t, i + 5), "/"))
      && Clean(d, t, i + 5)
    else
      !Hit(d, Rewrite(d, t, i)) && Clean(d, t, i + 1)
  }

  ghost predicate Returns(d: Dirs, t: string, i: nat)
    requires d.Valid() && i <= |t|
  {
    Restore(d, Rewrite(d, t, i)) == t[i..]
  }

  // ----- One step at a time

  lemma ReturnsLiteral(d: Dirs, t: string, i: nat)
    requires d.Valid() && i < |t| && !UriAt(t, i) && !Hit(d, Rewrite(d, t, i))
    ensures Returns(d, t, i) <==> Returns(d, t, i + 1)
  {
    var r := Rewrite(d, t, i + 1);
    LiteralText(d, t, i);
    assert Rewrite(d, t, i)[1..] == r;
    Cancel([t[i]], Restore(d, r), t[i + 1..]);
  }

  lemma ReturnsSystem(d: Dirs, t: string, i: nat)
    requires d.Valid() && i < |t| && SystemAt(t, i) && !StartsWith(Rewrite(d, t, i), d.state)
    ensures i + 11 <= |t| && (Returns(d, t, i) <==> (i + 11 == |t| || Returns(d, t, i + 12)))
  {
    UriBounds(t, i);
    SystemSlash(t, i);
    SystemReads(d, t, i);
    var site, r, tail := URI + SYSTEM, Rewrite(d, t, i + 11), t[i + 11..];
    if i + 11 == |t| {
      EndOfText(d, t);
      RestoreSomething(d, "");
      hide *;
      assert tail == "";
    } else {
      SlashIsCopied(d, t, i + 11);
      var more := Rewrite(d, t, i + 12);
      hide Restore, Rewrite, SystemAt, StartsWith;
      assert r == "/" + more && r[1..] == more;
      Cancel(site, "/" + Restore(d, more), "/" + t[i + 12..]);
      Cancel("/", Restore(d, more), t[i + 12..]);
    }
  }

  /** Of a system URI the system directory is read back, and a slash behind it is kept. */
  lemma SystemReads(d: Dirs, t: string, i: nat)
    requires d.Valid() && i < |t| && SystemAt(t, i) && !StartsWith(Rewrite(d, t, i), d.state)
    ensures i + 11 <= |t| && t[i..] == URI + SYSTEM + t[i + 11..]
    ensures var r := Rewrite(d, t, i + 11);
            Restore(d, Rewrite(d, t, i)) ==
            URI + SYSTEM + if r != "" && r[0] == '/' then "/" + Restore(d, r[1..]) else Restore(d, r)
  {
    SystemText(d, t, i);
    var r := Rewrite(d, t, i + 11);
    Regroup(URI, SYSTEM, t[i + 11..]);
    Regroup(d.data, "/system", r);
    StartsOf(d.System(), r, d.System());
    hide Rewrite, SystemAt;
    assert Rewrite(d, t, i) == d.System() + r;
  }

  /** What is left of a system path behind the state directory, when that is the data directory. */
  lemma TogetherTail(d: Dirs, x: string)
    requires Together(d)
    ensures StartsWith(d.System() + x, d.state)
    ensures DropSlash((d.System() + x)[|d.state|..]) == SYSTEM + x
  {
    var z := d.System() + x;
    if d.state == d.data {
      Regroup(d.data, "/system", x);
      assert z == d.data + ("/system" + x);
      StartsOf(d.data, "/system" + x, d.data);
      assert ("/system" + x)[1..] == SYSTEM + x;
    } else {
      assert z == d.state + (SYSTEM + x);
      StartsOf(d.state, SYSTEM + x, d.state);
    }
  }

  /** Between absolute directories the characters of "system" are copied. */
  lemma {:induction false} CopiesSystem(d: Dirs, s: string, x: string)
    requires Absolute(d) && '/' !in s
    ensures Restore(d, s + x) == s + Restore(d, x)
    decreases |s|
  {
    if s == "" {
      Nothing(x);
      Nothing(Restore(d, x));
    } else {
      var z := s + x;
      assert z[0] != '/' && z[1..] == s[1..] + x;
      NoHit(d, z);
      CopiesSystem(d, s[1..], x);
      Regroup([s[0]], s[1..], Restore(d, x));
      assert s == [s[0]] + s[1..];
    }
  }

  lemma NoHit(d: Dirs, z: string)
    requires Absolute(d) && (z == "" || z[0] != '/')
    ensures !Hit(d, z)
  {
    FirstOf(z, d.state);
    FirstOf(z, d.System());
  }

  lemma FirstOf(z: string, p: string)
    requires p != ""
    ensures StartsWith(z, p) ==> z != "" && z[0] == p[0]
  {
    if StartsWith(z, p) {
      assert z[..|p|][0] == z[0];
    }
  }

  lemma SecondOf(p: string)
    requires SinglySlashed(p) && |p| >= 2 && p[0] == '/'
    ensures p[1] != '/'
  {
    assert !(p[0] == '/' && p[0 + 1] == '/');
  }

  lemma ReturnsTogether(d: Dirs, t: string, i: nat)
    requires Together(d) && i < |t| && SystemAt(t, i)
    ensures StartsWith(Rewrite(d, t, i), d.state)
    ensures Returns(d, t, i) <==> Returns(d, t, i + 11)
  {
    var r, more := Rewrite(d, t, i + 11), Restore(d, Rewrite(d, t, i + 11));
    SystemText(d, t, i);
    Regroup(d.data, "/system", r);
    TogetherTail(d, r);
    CopiesSystem(d, SYSTEM, r);
    hide Restore, Rewrite, SystemAt;
    assert d.System() + r == Rewrite(d, t, i);
    RestoreHit(d, Rewrite(d, t, i));
    UriParts(Restore(d, Rewrite(d, t, i)), SYSTEM + more);
    Cancel(URI, SYSTEM + more, SYSTEM + t[i + 11..]);
    Cancel(SYSTEM, more, t[i + 11..]);
  }

  lemma UriParts(r: string, more: string)
    requires |r| >= 5 && r[..5] == URI && r[5..] == more
    ensures r == URI + more
  {
  }

  /** After the state directory an added '/' goes again, and no other one is there to lose. */
  lemma RewriteGeneric(d: Dirs, t: string, i: nat)
    requires d.Valid() && i < |t| && GenericAt(t, i)
    ensures i + 5 <= |t|
    ensures Rewrite(d, t, i) == d.state + (Slash(d, t, i + 5) + Rewrite(d, t, i + 5))
    ensures !StartsWith(t[i + 5..], "/") && (d.state[|d.state| - 1] == '/' ==> !StartsWith(Rewrite(d, t, i + 5), "/"))
            ==> DropSlash(Slash(d, t, i + 5) + Rewrite(d, t, i + 5)) == Rewrite(d, t, i + 5)
  {
    hide StartsWith;
    var r := Rewrite(d, t, i + 5);
    var slash := Slash(d, t, i + 5);
    Regroup(d.state, slash, r);
    OneSlash(r);
    OneSlash(t[i + 5..]);
    assert (slash + r)[|slash|..] == r;
    assert i + 5 == |t| ==> r == "";
  }

  /** Of a generic URI the state directory is read back, and then what stands behind it. */
  lemma RestoreGeneric(d: Dirs, t: string, i: nat)
    requires d.Valid() && i < |t| && GenericAt(t, i)
    ensures i + 5 <= |t|
    ensures Restore(d, Rewrite(d, t, i)) == URI + Restore(d, DropSlash(Slash(d, t, i + 5) + Rewrite(d, t, i + 5)))
    ensures t[i..] == URI + t[i + 5..]
  {
    RewriteGeneric(d, t, i);
    UriText(t, i);
    hide Restore, Rewrite, Slash, SystemAt;
    var z := Rewrite(d, t, i);
    StartsOf(d.state, Slash(d, t, i + 5) + Rewrite(d, t, i + 5), d.state);
    RestoreHit(d, z);
    UriParts(Restore(d, z), Restore(d, DropSlash(z[|d.state|..])));
  }

  lemma ReturnsGeneric(d: Dirs, t: string, i: nat)
    requires d.Valid() && i < |t| && GenericAt(t, i) && !StartsWith(t[i + 5..], "/")
    requires d.state[|d.state| - 1] == '/' ==> !StartsWith(Rewrite(d, t, i + 5), "/")
    ensures Returns(d, t, i) <==> Returns(d, t, i + 5)
  {
    RewriteGeneric(d, t, i);
    RestoreGeneric(d, t, i);
    Cancel(URI, Restore(d, Rewrite(d, t, i + 5)), t[i + 5..]);
  }

  lemma ReturnsEnd(d: Dirs, t: string)
    requires d.Valid()
    ensures Returns(d, t, |t|)
  {
  }

  /** For any directories a clean text comes back. */
  lemma {:induction false} CleanReturns(d: Dirs, t: string, i: nat)
    requires d.Valid() && i <= |t| && Clean(d, t, i)
    ensures Returns(d, t, i)
    decreases |t| - i
  {
    hide Rewrite, Restore, Returns, StartsWith, Together, Hit;
    if i == |t| {
      ReturnsEnd(d, t);
    } else if SystemAt(t, i) {
      if StartsWith(Rewrite(d, t, i), d.state) {
        ReturnsTogether(d, t, i);
        CleanReturns(d, t, i + 11);
      } else {
        ReturnsSystem(d, t, i);
        if i + 11 < |t| {
          CleanReturns(d, t, i + 12);
        }
      }
    } else if UriAt(t, i) {
      ReturnsGeneric(d, t, i);
      CleanReturns(d, t, i + 5);
    } else {
      ReturnsLiteral(d, t, i);
      CleanReturns(d, t, i + 1);
    }
  }

  // ----- What does not come back

  lemma SlashIsCopied(d: Dirs, t: string, i: nat)
    requires d.Valid() && i < |t| && t[i] == '/'
    ensures Rewrite(d, t, i) == "/" + Rewrite(d, t, i + 1) && t[i..] == "/" + t[i + 1..]
  {
    NotAUri(t, i);
  }

  /** A slash dropped behind the state directory is missing. */
  lemma GenericSlashFails(d: Dirs, t: string, i: nat)
    requires d.Valid() && i < |t| && GenericAt(t, i) && StartsWith(t[i + 5..], "/")
    ensures !Returns(d, t, i)
  {
    RestoreGeneric(d, t, i);
    OneSlash(t[i + 5..]);
    SlashIsCopied(d, t, i + 5);
    StaysLost(d, t, i + 6, "/");
    hide Rewrite, MatchAt, SystemAt, StartsWith, Restore;
    var more := Rewrite(d, t, i + 6);
    assert "" + ("/" + more) == "/" + more && ("/" + more)[1..] == more;
    assert Slash(d, t, i + 5) == "";
    Cancel(URI, Restore(d, more), "/" + t[i + 6..]);
  }

  /** So is the first slash of a directory right behind a state directory that ends with one. */
  lemma AdjacentFails(d: Dirs, t: string, i: nat)
    requires Normal(d) && i < |t| && GenericAt(t, i) && d.state[|d.state| - 1] == '/'
    requires !StartsWith(t[i + 5..], "/") && StartsWith(Rewrite(d, t, i + 5), "/")
    ensures !Returns(d, t, i)
  {
    var j := i + 5;
    RestoreGeneric(d, t, i);
    var r := Rewrite(d, t, j);
    OneSlash(r);
    OneSlash(t[j..]);
    assert UriAt(t, j);
    assert "" + r == r && Slash(d, t, j) == "" && DropSlash(r) == r[1..];
    Cancel(URI, Restore(d, r[1..]), t[j..]);
    BeheadedFails(d, t, j);
  }

  lemma BeheadedFails(d: Dirs, t: string, j: nat)
    requires Normal(d) && d.state[|d.state| - 1] == '/' && j < |t| && UriAt(t, j)
    ensures Rewrite(d, t, j) != "" && Restore(d, Rewrite(d, t, j)[1..]) != t[j..]
  {
    var r := Rewrite(d, t, j);
    var p := if SystemAt(t, j) then d.System() else d.state;
    UriIsHit(d, t, j);
    UriText(t, j);
    StartsOf(URI, t[j + 5..], URI);
    hide Rewrite, Restore, SystemAt, MatchAt;
    assert forall k | 0 <= k < |p| :: p[k] == r[..|p|][k] == r[k];
    var z := r[1..];
    assert p[0] == '/';
    SecondOf(p);
    assert |p| >= 3 && (|p| == 3 ==> p[2] == '/');
    assert z[0] == r[1] == p[1];
    NoHit(d, z);
    if StartsWith(Restore(d, z), URI) {
      CopiedUri(d, z);
      UriStart(z);
      assert r[1] == 'i' && r[2] == 'k' && r[3] == ':';
      NotScheme(p, r);
    }
  }

  lemma NotScheme(p: string, r: string)
    requires NoScheme(p) && StartsWith(r, p) && |p| >= 3 && (|p| == 3 ==> p[2] == '/')
    requires |r| >= 4
    ensures !(r[1] == 'i' && r[2] == 'k' && r[3] == ':')
  {
    assert forall k | 0 <= k < |p| :: p[k] == r[..|p|][k] == r[k];
    assert |p| > 3 ==> !(p[1] == 'i' && p[1 + 1] == 'k' && p[1 + 2] == ':');
  }

  lemma LiteralDirectoryFails(d: Dirs, t: string, i: nat)
    requires Absolute(d) && i < |t| && !UriAt(t, i) && Hit(d, Rewrite(d, t, i))
    ensures !Returns(d, t, i)
  {
    var r := Rewrite(d, t, i);
    LiteralText(d, t, i);
    HitGivesUri(d, r);
    UriStart(Restore(d, r));
    if r[0] != '/' {
      NoHit(d, r);
    }
    assert t[i..][0] == t[i] == r[0];
  }

  // ----- System URIs taken for generic ones

  /** What has to come out behind the state directory. */
  lemma HiddenSystem(d: Dirs, t: string, i: nat)
    requires d.Valid() && i < |t| && SystemAt(t, i) && StartsWith(Rewrite(d, t, i), d.state)
    ensures Returns(d, t, i) <==>
            Restore(d, DropSlash(Rewrite(d, t, i)[|d.state|..])) == SYSTEM + t[i + 11..]
  {
    SystemText(d, t, i);
    RestoreHit(d, Rewrite(d, t, i));
    var more := Restore(d, DropSlash(Rewrite(d, t, i)[|d.state|..]));
    UriParts(Restore(d, Rewrite(d, t, i)), more);
    Cancel(URI, more, SYSTEM + t[i + 11..]);
  }

  /** The data directory below the state directory. */
  lemma BelowFails(d: Dirs, t: string, i: nat)
    requires Normal(d) && Below(d) && d.data != d.state + "/" && i < |t| && SystemAt(t, i)
    requires StartsWith(Rewrite(d, t, i), d.state)
    ensures !Returns(d, t, i)
  {
    hide Rewrite, Restore, Returns, StartsWith, SystemAt, NoScheme, SinglySlashed;
    HiddenSystem(d, t, i);
    SystemText(d, t, i);
    var r, goal := Rewrite(d, t, i + 11), SYSTEM + t[i + 11..];
    BelowTail(d, "/system" + r);
    var e := DropSlash(d.data[|d.state|..]);
    hide Below;
    if Restore(d, e + ("/system" + r)) == goal {
      var w := SystemLeavesOver(d, t, i + 11, e);
      NothingSwallowed(d, t, i + 11, w);
    }
  }

  /** What stands behind the state directory, but for a slash. */
  lemma BelowTail(d: Dirs, x: string)
    requires d.Valid() && Below(d) && d.data != d.state + "/"
    ensures |d.state| <= |d.data|
    ensures DropSlash((d.data + x)[|d.state|..]) == DropSlash(d.data[|d.state|..]) + x
  {
    var g := d.data[|d.state|..];
    assert d.data == d.state + g;
    hide Below;
    assert (d.data + x)[|d.state|..] == g + x;
    assert g != "/" && g != "";
    assert g[0] == '/' ==> (g + x)[1..] == g[1..] + x;
  }

  /** What is left of "system" does not make "system" again. */
  lemma NamePart(d: Dirs, m: nat, r: string, goal: string)
    requires d.Valid() && 0 < m < 6 && StartsWith(goal, SYSTEM)
    ensures Restore(d, DropSlash(SYSTEM[m..] + r)) != goal
  {
    hide Restore;
    var z := SYSTEM[m..] + r;
    assert z[0] == SYSTEM[m] != '/';
    assert goal[0] == goal[..6][0] == 's' && goal[1] == goal[..6][1] == 'y';
    SystemLetters(m, r);
    if Restore(d, z) == goal {
      CopiedRun(d, z, 2);
      FirstTwo(z, goal);
    }
  }

  lemma FirstTwo(z: string, goal: string)
    requires |z| >= 2 && |goal| >= 2 && z[..2] == goal[..2]
    ensures z[0] == goal[0] && z[1] == goal[1]
  {
    assert z[..2][0] == z[0] && z[..2][1] == z[1];
  }

  lemma SystemLetters(m: nat, r: string)
    requires 0 < m < 6
    ensures |SYSTEM[m..] + r| > 1 && (SYSTEM[m..] + r)[0] == 's' ==> (SYSTEM[m..] + r)[1] != 'y'
  {
    assert SYSTEM[m..][0] == SYSTEM[m];
    assert m == 2 ==> SYSTEM[m..][1] == SYSTEM[3];
  }

  /** The state directory ending inside "/system", or with it. */
  lemma InsideNameFails(d: Dirs, t: string, i: nat, m: nat)
    requires Absolute(d) && 0 < m <= 6 && d.state == d.data + "/" + SYSTEM[..m] && i < |t| && SystemAt(t, i)
    requires StartsWith(Rewrite(d, t, i), d.state)
    ensures !Returns(d, t, i)
  {
    HiddenSystem(d, t, i);
    SystemText(d, t, i);
    var r, tail := Rewrite(d, t, i + 11), t[i + 11..];
    StartsOf(SYSTEM, tail, SYSTEM);
    NameSplit(d, m, r);
    hide Rewrite, Restore, Returns, SystemAt;
    if m < 6 {
      NamePart(d, m, r, SYSTEM + tail);
    } else {
      SystemIsState(d, t, i);
      assert SYSTEM[m..] == "";
      Nothing(r);
    }
  }

  lemma NameSplit(d: Dirs, m: nat, r: string)
    requires m <= 6 && d.state == d.data + "/" + SYSTEM[..m]
    ensures (d.data + ("/system" + r))[|d.state|..] == SYSTEM[m..] + r
  {
    assert SYSTEM == SYSTEM[..m] + SYSTEM[m..];
    assert d.data + ("/system" + r) == d.state + (SYSTEM[m..] + r);
  }

  lemma SystemIsState(d: Dirs, t: string, i: nat)
    requires d.Valid() && i < |t| && SystemAt(t, i)
    ensures i + 11 <= |t| && Restore(d, DropSlash(Rewrite(d, t, i + 11))) != SYSTEM + t[i + 11..]
  {
    UriBounds(t, i);
    if i + 11 < |t| {
      SystemSlash(t, i);
      hide *;
      SlashDropped(d, t, i + 11);
      SystemQuiet();
      BehindSystem(t[i + 12..]);
      SlashInFront(t, i + 11);
      StaysLost(d, t, i + 12, SYSTEM + "/");
    } else {
      RestoreSomething(d, "");
      EndOfText(d, t);
    }
  }

  lemma SystemSlash(t: string, i: nat)
    requires i < |t| && SystemAt(t, i)
    ensures i + 11 < |t| ==> t[i + 11] == '/'
  {
  }

  lemma SystemQuiet()
    ensures Quiet(SYSTEM + "/")
  {
  }

  lemma BehindSystem(x: string)
    ensures SYSTEM + ("/" + x) == SYSTEM + "/" + x
  {
  }

  lemma SlashInFront(t: string, i: nat)
    requires i < |t| && t[i] == '/'
    ensures t[i..] == "/" + t[i + 1..]
  {
  }

  /** The state directory below the system directory. */
  predicate Inside(d: Dirs) { StartsWith(d.state, d.System()) && d.state != d.System() }

  function Rest(d: Dirs): string
    requires Inside(d)
  {
    d.state[|d.System()|..]
  }

  /** No URI stands in or right behind what completes the state directory. */
  ghost predicate Straight(d: Dirs, t: string, i: nat) {
    forall k | i + 11 <= k <= i + 11 + |d.state| - |d.System()| && k < |t| :: !UriAt(t, k)
  }

  lemma {:induction false} CompletedByText(d: Dirs, t: string, j: nat, p: string)
    requires d.Valid() && j <= |t| && StartsWith(Rewrite(d, t, j), p)
    requires forall k | j <= k < j + |p| && k < |t| :: !UriAt(t, k)
    ensures j + |p| <= |t| && t[j..j + |p|] == p && Rewrite(d, t, j) == p + Rewrite(d, t, j + |p|)
    decreases |p|
  {
    if p == "" {
      Nothing(Rewrite(d, t, j));
    } else {
      hide *;
      CompletedChar(d, t, j, p);
      CompletedByText(d, t, j + 1, p[1..]);
      CharFirst(t, j, p);
      CharInFront(t[j], p, Rewrite(d, t, j + |p|), Rewrite(d, t, j + 1), Rewrite(d, t, j));
    }
  }

  lemma CharFirst(t: string, j: nat, p: string)
    requires p != "" && j + |p| <= |t| && p[0] == t[j] && t[j + 1..j + |p|] == p[1..]
    ensures t[j..j + |p|] == p
  {
    assert p == [p[0]] + p[1..] && t[j..j + |p|] == [t[j]] + t[j + 1..j + |p|];
  }

  lemma CharInFront(c: char, p: string, more: string, tail: string, all: string)
    requires p != "" && p[0] == c && tail == p[1..] + more && all == [c] + tail
    ensures all == p + more
  {
    assert p == [c] + p[1..];
    Regroup([c], p[1..], more);
  }

  lemma CompletedChar(d: Dirs, t: string, j: nat, p: string)
    requires d.Valid() && j <= |t| && p != "" && StartsWith(Rewrite(d, t, j), p) && (j < |t| ==> !UriAt(t, j))
    ensures j < |t| && p[0] == t[j] && Rewrite(d, t, j) == [t[j]] + Rewrite(d, t, j + 1)
    ensures StartsWith(Rewrite(d, t, j + 1), p[1..])
  {
    var r := Rewrite(d, t, j);
    assert r[0] == r[..|p|][0] == p[0];
    assert r[1..] == Rewrite(d, t, j + 1) && r[1..][..|p| - 1] == r[..|p|][1..];
  }

  /** "system" and the rest of the state directory, read round and round, never say "ik:". */
  lemma RestIsQuiet(d: Dirs)
    requires Normal(d) && Inside(d)
    ensures Quiet(SYSTEM + Rest(d)) && Quiet(SYSTEM + Rest(d) + "/")
  {
    var s, y := Rest(d), |d.System()|;
    assert NoScheme(s) by {
      forall k | 0 <= k < |s| - 2 ensures !(s[k] == 'i' && s[k + 1] == 'k' && s[k + 2] == ':') {
        assert s[k] == d.state[y + k] && s[k + 1] == d.state[y + k + 1] && s[k + 2] == d.state[y + k + 2];
      }
    }
    hide Normal, Inside;
    SystemFirst(s, "");
    Nothing(SYSTEM + s);
    SystemFirst(s, "/");
  }

  lemma SystemFirst(s: string, e: string)
    requires NoScheme(s) && (e == "" || e == "/")
    ensures Quiet(SYSTEM + s + e)
  {
    NoSchemeFront(s);
    NoSchemeJoin(SYSTEM + s, e);
    NoSchemeJoin(SYSTEM + s + e, SYSTEM + s + e);
  }

  /** What starts with neither 'k' nor ':' and then not with ':' either joins on. */
  lemma NoSchemeJoin(a: string, b: string)
    requires NoScheme(a) && NoScheme(b)
    requires b == "" || (b[0] != 'k' && b[0] != ':')
    ensures NoScheme(a + b)
  {
    var c := a + b;
    forall k | 0 <= k < |c| - 2 ensures !(c[k] == 'i' && c[k + 1] == 'k' && c[k + 2] == ':') {
      if k >= |a| {
        var m := k - |a|;
        assert c[k] == b[m] && c[k + 1] == b[m + 1] && c[k + 2] == b[m + 2];
      } else if k + 2 < |a| {
        assert c[k] == a[k] && c[k + 1] == a[k + 1] && c[k + 2] == a[k + 2];
      }
    }
  }

  lemma NoSchemeFront(x: string)
    requires NoScheme(x)
    ensures NoScheme(SYSTEM + x)
  {
    var c := SYSTEM + x;
    forall k | 0 <= k < |c| - 2 ensures !(c[k] == 'i' && c[k + 1] == 'k' && c[k + 2] == ':') {
      if k >= 6 {
        assert c[k] == x[k - 6] && c[k + 1] == x[k - 6 + 1] && c[k + 2] == x[k - 6 + 2];
      } else {
        assert c[k] == SYSTEM[k] != 'i';
      }
    }
  }

  /** Behind a state directory completed by the text. */
  lemma InsideRest(d: Dirs, t: string, j: nat, s: string)
    requires d.Valid() && j + |s| <= |t| && t[j..j + |s|] == s && Quiet(SYSTEM + s) && Quiet(SYSTEM + s + "/")
    requires j + |s| < |t| ==> !UriAt(t, j + |s|)
    ensures Restore(d, DropSlash(Rewrite(d, t, j + |s|))) != SYSTEM + t[j..]
  {
    hide *;
    TextBehind(t, j, s);
    LostBehind(d, t, j + |s|, SYSTEM + s, SYSTEM + t[j..]);
  }

  lemma TextBehind(t: string, j: nat, s: string)
    requires j + |s| <= |t| && t[j..j + |s|] == s
    ensures SYSTEM + t[j..] == SYSTEM + s + t[j + |s|..]
  {
    assert t[j..] == s + t[j + |s|..];
    Regroup(SYSTEM, s, t[j + |s|..]);
  }

  /** What should stand in front is never made up for, whether a slash behind it is dropped or not. */
  lemma LostBehind(d: Dirs, t: string, k: nat, u: string, goal: string)
    requires d.Valid() && k <= |t| && Quiet(u) && Quiet(u + "/") && (k < |t| ==> !UriAt(t, k))
    requires goal == u + t[k..]
    ensures Restore(d, DropSlash(Rewrite(d, t, k))) != goal
  {
    hide *;
    if k < |t| && t[k] == '/' {
      SlashDropped(d, t, k);
      SlashJoins(t, k, u);
      LostHere(d, t, k + 1, u + "/", goal);
    } else {
      NothingDropped(d, t, k);
      LostHere(d, t, k, u, goal);
    }
  }

  lemma LostHere(d: Dirs, t: string, k: nat, u: string, goal: string)
    requires d.Valid() && k <= |t| && Quiet(u) && goal == u + t[k..]
    ensures Restore(d, Rewrite(d, t, k)) != goal
  {
    hide *;
    StaysLost(d, t, k, u);
  }

  lemma SlashJoins(t: string, k: nat, u: string)
    requires k < |t| && t[k] == '/'
    ensures u + t[k..] == u + "/" + t[k + 1..]
  {
    assert t[k..] == "/" + t[k + 1..];
    Regroup(u, "/", t[k + 1..]);
  }

  lemma SlashDropped(d: Dirs, t: string, k: nat)
    requires d.Valid() && k < |t| && t[k] == '/'
    ensures DropSlash(Rewrite(d, t, k)) == Rewrite(d, t, k + 1)
  {
    SlashIsCopied(d, t, k);
    var r := Rewrite(d, t, k);
    assert r[1..] == Rewrite(d, t, k + 1);
  }

  lemma NothingDropped(d: Dirs, t: string, k: nat)
    requires d.Valid() && k <= |t| && (k < |t| ==> !UriAt(t, k) && t[k] != '/')
    ensures DropSlash(Rewrite(d, t, k)) == Rewrite(d, t, k)
  {
  }

  lemma InsideFails(d: Dirs, t: string, i: nat)
    requires Normal(d) && Inside(d) && i < |t| && SystemAt(t, i) && StartsWith(Rewrite(d, t, i), d.state)
    requires Straight(d, t, i)
    ensures !Returns(d, t, i)
  {
    InsideParts(d, t, i);
    hide *;
    HiddenSystem(d, t, i);
    SystemText(d, t, i);
    RestIsQuiet(d);
    var s, j := Rest(d), i + 11;
    var r := Rewrite(d, t, j);
    Regroup(d.data, "/system", r);
    InsideTail(d.System(), s, r);
    CompletedByText(d, t, j, s);
    InsideRest(d, t, j, s);
    BehindState(d.System(), s, Rewrite(d, t, j + |s|));
  }

  lemma InsideParts(d: Dirs, t: string, i: nat)
    requires Normal(d) && Inside(d) && Straight(d, t, i)
    ensures d.Valid() && d.state == d.System() + Rest(d) && d.System() == d.data + "/system"
    ensures forall k | i + 11 <= k <= i + 11 + |Rest(d)| && k < |t| :: !UriAt(t, k)
  {
    hide SinglySlashed, NoScheme, UriAt;
  }

  lemma BehindState(y: string, s: string, more: string)
    ensures (y + (s + more))[|y + s|..] == more
  {
    assert y + (s + more) == (y + s) + more;
  }

  lemma InsideTail(y: string, s: string, r: string)
    requires StartsWith(y + r, y + s)
    ensures StartsWith(r, s)
  {
    assert (y + r)[..|y + s|][|y|..] == r[..|s|];
    assert (y + s)[|y|..] == s;
  }

  // ----- The theorem

  /** Absolute directories, no '/' at the end of the state directory, neither inside the other. */
  predicate Separate(d: Dirs) {
    && Absolute(d) && d.state[|d.state| - 1] != '/'
    && !StartsWith(d.state, d.System()) && !StartsWith(d.System(), d.state)
  }

  /**
    Where the equivalence is claimed: separate directories, or any normalised ones, nested or not;
    only a state directory below the system directory asks something of the text as well.
  */
  ghost predicate Covered(d: Dirs, t: string) {
    || Separate(d)
    || (Normal(d) && (Inside(d) ==> forall i: nat | i < |t| && SystemAt(t, i) :: Straight(d, t, i)))
  }

  lemma SystemIsSafe(d: Dirs, t: string, i: nat)
    requires Separate(d) && i < |t| && SystemAt(t, i)
    ensures !StartsWith(Rewrite(d, t, i), d.state)
  {
    StartsOf(d.System(), Rewrite(d, t, i + 11), d.state);
  }

  /** How the state directory can stand at the start of a system path. */
  lemma HiddenCases(d: Dirs, x: string)
    requires Absolute(d) && StartsWith(d.System() + x, d.state)
    ensures || Together(d) || Below(d) || Inside(d)
            || exists m: nat :: 0 < m <= 6 && d.state == d.data + "/" + SYSTEM[..m]
  {
    var y, n := d.System(), |d.data|;
    StartsOf(y, x, d.state);
    if |d.state| > |y| {
      assert Inside(d);
    } else {
      assert d.state == y[..|d.state|];
      if |d.state| <= n {
        assert y[..|d.state|] == d.data[..|d.state|];
      } else {
        var m := |d.state| - n - 1;
        assert y[..|d.state|] == d.data + "/" + SYSTEM[..m];
        assert m == 0 ==> d.state == d.data + "/";
      }
    }
  }

  lemma HiddenExactly(d: Dirs, t: string, i: nat)
    requires Covered(d, t) && i < |t| && SystemAt(t, i) && StartsWith(Rewrite(d, t, i), d.state)
    ensures Together(d) || !Returns(d, t, i)
  {
    if Separate(d) {
      SystemIsSafe(d, t, i);
    } else {
      SystemText(d, t, i);
      Regroup(d.data, "/system", Rewrite(d, t, i + 11));
      HiddenCases(d, Rewrite(d, t, i + 11));
      hide Returns;
      if Together(d) {
      } else if Below(d) {
        NoDoubleEnd(d);
        BelowFails(d, t, i);
      } else if Inside(d) {
        InsideFails(d, t, i);
      } else {
        var m: nat :| 0 < m <= 6 && d.state == d.data + "/" + SYSTEM[..m];
        InsideNameFails(d, t, i, m);
      }
    }
  }

  lemma NoDoubleEnd(d: Dirs)
    requires Normal(d)
    ensures d.data[|d.data| - 1] != '/'
  {
    var y, n := d.System(), |d.data|;
    assert y[n - 1] == d.data[n - 1] && y[n - 1 + 1] == '/';
  }

  lemma UriBounds(t: string, i: nat)
    ensures UriAt(t, i) ==> i + 5 <= |t|
    ensures SystemAt(t, i) ==> i + 11 <= |t| && UriAt(t, i)
  {
  }

  lemma CoveredParts(d: Dirs, t: string)
    requires Covered(d, t)
    ensures Absolute(d) && (d.state[|d.state| - 1] == '/' ==> Normal(d))
  {
  }

  lemma CleanStep(d: Dirs, t: string, i: nat)
    requires d.Valid() && i < |t|
    ensures SystemAt(t, i) ==> i + 11 <= |t|
    ensures UriAt(t, i) ==> i + 5 <= |t|
    ensures Clean(d, t, i) <==>
            if SystemAt(t, i) then
              if StartsWith(Rewrite(d, t, i), d.state) then Together(d) && Clean(d, t, i + 11)
              else i + 11 == |t| || Clean(d, t, i + 12)
            else if UriAt(t, i) then
              && !StartsWith(t[i + 5..], "/")
              && (d.state[|d.state| - 1] == '/' ==> !StartsWith(Rewrite(d, t, i + 5), "/"))
              && Clean(d, t, i + 5)
            else !Hit(d, Rewrite(d, t, i)) && Clean(d, t, i + 1)
  {
    hide Rewrite, StartsWith, Together, Hit;
  }

  lemma SystemExactly(d: Dirs, t: string, i: nat)
    requires Covered(d, t) && d.Valid() && i < |t| && SystemAt(t, i)
    ensures i + 11 <= |t|
    ensures Returns(d, t, i) <==>
            if StartsWith(Rewrite(d, t, i), d.state) then Together(d) && Returns(d, t, i + 11)
            else i + 11 == |t| || Returns(d, t, i + 12)
  {
    UriBounds(t, i);
    hide *;
    if StartsWith(Rewrite(d, t, i), d.state) {
      HiddenExactly(d, t, i);
      if Together(d) {
        ReturnsTogether(d, t, i);
      }
    } else {
      ReturnsSystem(d, t, i);
    }
  }

  lemma GenericExactly(d: Dirs, t: string, i: nat)
    requires Covered(d, t) && d.Valid() && i < |t| && GenericAt(t, i)
    ensures i + 5 <= |t|
    ensures Returns(d, t, i) <==>
            && !StartsWith(t[i + 5..], "/")
            && (d.state[|d.state| - 1] == '/' ==> !StartsWith(Rewrite(d, t, i + 5), "/"))
            && Returns(d, t, i + 5)
  {
    UriBounds(t, i);
    CoveredParts(d, t);
    hide *;
    if StartsWith(t[i + 5..], "/") {
      GenericSlashFails(d, t, i);
    } else if d.state[|d.state| - 1] == '/' && StartsWith(Rewrite(d, t, i + 5), "/") {
      AdjacentFails(d, t, i);
    } else {
      ReturnsGeneric(d, t, i);
    }
  }

  lemma LiteralExactly(d: Dirs, t: string, i: nat)
    requires Absolute(d) && d.Valid() && i < |t| && !UriAt(t, i)
    ensures Returns(d, t, i) <==> !Hit(d, Rewrite(d, t, i)) && Returns(d, t, i + 1)
  {
    hide *;
    if Hit(d, Rewrite(d, t, i)) {
      LiteralDirectoryFails(d, t, i);
    } else {
      ReturnsLiteral(d, t, i);
    }
  }

  /** Exactly the clean texts come back. */
  lemma {:induction false} ReturnsExactly(d: Dirs, t: string, i: nat)
    requires Covered(d, t) && i <= |t|
    ensures Returns(d, t, i) <==> Clean(d, t, i)
    decreases |t| - i
  {
    CoveredParts(d, t);
    if i == |t| {
      ReturnsEnd(d, t);
      assert Clean(d, t, i);
    } else {
      CleanStep(d, t, i);
      hide *;
      if SystemAt(t, i) {
        SystemExactly(d, t, i);
        ReturnsExactly(d, t, i + 11);
        if i + 11 < |t| {
          ReturnsExactly(d, t, i + 12);
        }
      } else if UriAt(t, i) {
        GenericExactly(d, t, i);
        ReturnsExactly(d, t, i + 5);
      } else {
        LiteralExactly(d, t, i);
        ReturnsExactly(d, t, i + 1);
      }
    }
  }

  lemma RoundTrip(d: Dirs, t: string)
    requires Covered(d, t)
    ensures Restore(d, Rewrite(d, t, 0)) == t <==> Clean(d, t, 0)
  {
    ReturnsExactly(d, t, 0);
    assert t[0..] == t;
  }

  /** The bare system URI comes back for every absolute directories but those that hide it. */
  lemma SystemRootReturns(d: Dirs)
    requires Absolute(d)
    ensures Restore(d, Rewrite(d, "ik://system", 0)) == "ik://system" <==>
            !StartsWith(d.System(), d.state) || Together(d)
  {
    var t := "ik://system";
    assert t[0..5] == URI && t[5..11] == SYSTEM && SystemAt(t, 0);
    assert t[0..] == t && t[11..] == "" && Rewrite(d, t, 11) == "";
    SystemText(d, t, 0);
    Nothing("/system");
    assert Rewrite(d, t, 0) == d.System();
    if !StartsWith(d.System(), d.state) {
      ReturnsSystem(d, t, 0);
    } else if Together(d) {
      ReturnsTogether(d, t, 0);
      ReturnsEnd(d, t);
    } else {
      HiddenSystem(d, t, 0);
      BareSystem(d);
    }
  }

  /** Nothing but "system" itself reads back as "system". */
  lemma OnlySystem(d: Dirs, z: string)
    requires d.Valid() && Restore(d, z) == SYSTEM
    ensures z == SYSTEM
  {
    CopiedRun(d, z, 6);
    assert SYSTEM[6..] == "" && SYSTEM[..6] == SYSTEM;
    RestoreSomething(d, z[6..]);
    assert z == z[..6] + z[6..];
  }

  lemma BareSystem(d: Dirs)
    requires Absolute(d) && StartsWith(d.System(), d.state) && !Together(d)
    ensures Restore(d, DropSlash(d.System()[|d.state|..])) != SYSTEM + ""
  {
    var y := d.System();
    var rest := y[|d.state|..];
    Nothing(SYSTEM);
    if Restore(d, DropSlash(rest)) == SYSTEM {
      OnlySystem(d, DropSlash(rest));
      SlashOrNot(rest);
      TailOfSystem(d, rest);
    }
  }

  lemma SlashOrNot(rest: string)
    ensures rest == DropSlash(rest) || rest == "/" + DropSlash(rest)
  {
  }

  lemma TailOfSystem(d: Dirs, rest: string)
    requires Absolute(d) && StartsWith(d.System(), d.state) && rest == d.System()[|d.state|..]
    requires rest == SYSTEM || rest == "/" + SYSTEM
    ensures Together(d)
  {
    var y := d.System();
    assert |rest| == |y| - |d.state| && d.state == y[..|d.state|];
    assert y[..|d.data|] == d.data && y[..|d.data| + 1] == d.data + "/";
  }
}
