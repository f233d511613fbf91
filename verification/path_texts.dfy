/**
  Texts of which it can be seen that they come back, and one of which it cannot.
*/
module PathTexts {
  import opened Paths
  import opened Sequences
  import opened PathRestore
  import opened PathCollisions
  import opened PathRoundTrip

  /** The state directory does not stand at the start of a system path, or is the data directory. */
  predicate NotHidden(d: Dirs, t: string, i: nat) {
    if StartsWith(d.System(), d.state) then Together(d)
    else Inside(d) ==> !MatchAt(t, Rest(d), i + 11)
  }

  /**
    What can be read off the text itself: no directory occurs in it, no generic tail starts with
    '/', in front of every URI stands a character foreign to both directories, and no system URI is
    hidden.
  */
  ghost predicate Plain(d: Dirs, t: string) {
    && (forall i | 0 <= i < |t| :: !MatchAt(t, d.state, i) && !MatchAt(t, d.System(), i))
    && (forall i | 0 <= i < |t| && GenericAt(t, i) :: !StartsWith(t[i + 5..], "/"))
    && (forall i | 0 < i < |t| && UriAt(t, i) :: t[i - 1] !in d.state && t[i - 1] !in d.System())
    && (forall i | 0 <= i < |t| && SystemAt(t, i) :: NotHidden(d, t, i))
  }

  /** Then a stretch of the output that could be part of a directory is copied from the text. */
  lemma {:induction false} CopiedStretch(d: Dirs, t: string, i: nat, p: string)
    requires d.Valid() && i <= |t| && Plain(d, t) && (i < |t| ==> !UriAt(t, i))
    requires StartsWith(Rewrite(d, t, i), p)
    requires (forall c | c in p :: c in d.state) || (forall c | c in p :: c in d.System())
    ensures MatchAt(t, p, i)
    decreases |p|
  {
    if p != "" {
      CompletedChar(d, t, i, p);
      assert p == [t[i]] + p[1..] && t[i] in p;
      hide Rewrite, StartsWith;
      if |p| > 1 {
        CopiedStretch(d, t, i + 1, p[1..]);
        assert t[i..i + |p|] == [t[i]] + t[i + 1..i + |p|];
      } else {
        assert t[i..i + 1] == [t[i]];
      }
    }
  }

  lemma PlainLiteral(d: Dirs, t: string, i: nat)
    requires d.Valid() && i < |t| && Plain(d, t) && !UriAt(t, i)
    ensures !Hit(d, Rewrite(d, t, i))
  {
    if StartsWith(Rewrite(d, t, i), d.state) {
      CopiedStretch(d, t, i, d.state);
    } else if StartsWith(Rewrite(d, t, i), d.System()) {
      CopiedStretch(d, t, i, d.System());
    }
  }

  lemma PlainSystem(d: Dirs, t: string, i: nat)
    requires Absolute(d) && i < |t| && Plain(d, t) && SystemAt(t, i) && StartsWith(Rewrite(d, t, i), d.state)
    ensures Together(d)
  {
    var r := Rewrite(d, t, i + 11);
    SystemText(d, t, i);
    Regroup(d.data, "/system", r);
    StartsOf(d.System(), r, d.state);
    assert NotHidden(d, t, i);
    if !StartsWith(d.System(), d.state) {
      assert d.state == d.System() + Rest(d);
      InsideTail(d.System(), Rest(d), r);
      if i + 11 < |t| {
        NotAUri(t, i + 11);
      }
      CopiedStretch(d, t, i + 11, Rest(d));
    }
  }

  lemma PlainGeneric(d: Dirs, t: string, i: nat)
    requires Absolute(d) && i < |t| && Plain(d, t) && GenericAt(t, i)
    ensures i + 5 <= |t| && !StartsWith(t[i + 5..], "/") && !StartsWith(Rewrite(d, t, i + 5), "/")
  {
    UriText(t, i);
    var j := i + 5;
    OneSlash(t[j..]);
    OneSlash(Rewrite(d, t, j));
    assert t[j - 1] == t[i..j][4] == '/';
    assert d.state[0] in d.state;
    if j < |t| {
      assert t[j..][0] == t[j];
      LiteralText(d, t, j);
    }
  }

  lemma {:induction false} PlainIsClean(d: Dirs, t: string, i: nat)
    requires Absolute(d) && i <= |t| && Plain(d, t)
    ensures Clean(d, t, i)
    decreases |t| - i
  {
    UriBounds(t, i);
    hide Rewrite, StartsWith, Hit, Plain, MatchAt, UriAt, SystemAt, Together;
    if i == |t| {
    } else if SystemAt(t, i) {
      if StartsWith(Rewrite(d, t, i), d.state) {
        PlainSystem(d, t, i);
        PlainIsClean(d, t, i + 11);
      } else if i + 11 < |t| {
        PlainIsClean(d, t, i + 12);
      }
    } else if UriAt(t, i) {
      PlainGeneric(d, t, i);
      PlainIsClean(d, t, i + 5);
    } else {
      PlainLiteral(d, t, i);
      PlainIsClean(d, t, i + 1);
    }
  }

  /** Between absolute directories every plain text survives the way there and back. */
  lemma PlainRoundTrip(d: Dirs, t: string)
    requires Absolute(d) && Plain(d, t)
    ensures Restore(d, Rewrite(d, t, 0)) == t
  {
    PlainIsClean(d, t, 0);
    CleanReturns(d, t, 0);
    assert t[0..] == t;
  }

  /** Behind the tail "x/a-" the next URI completes a second "/a-/a", one position too early. */
  lemma OverlapShows()
    ensures StartsWith(Rewrite(Dirs("/a-/a", "/d"), "ik://x/a-ik://y", 6), "/a-/a")
  {
    var d, t := Dirs("/a-/a", "/d"), "ik://x/a-ik://y";
    NotAUri(t, 6);
    NotAUri(t, 7);
    NotAUri(t, 8);
    assert t[9..14] == URI && UriAt(t, 9) && !SystemAt(t, 9);
    var r := Rewrite(d, t, 9);
    assert r == "/a-/a" + "/" + Rewrite(d, t, 14);
    assert Rewrite(d, t, 6) == ['/'] + (['a'] + (['-'] + r));
    assert Rewrite(d, t, 6)[..5] == "/a-/a";
  }

  /** So tails free of both directories are not enough for the round trip. */
  lemma OverlapFails()
    ensures var d, t := Dirs("/a-/a", "/d"), "ik://x/a-ik://y";
            Separate(d) && Restore(d, Rewrite(d, t, 0)) != t
  {
    var d, t := Dirs("/a-/a", "/d"), "ik://x/a-ik://y";
    assert !StartsWith(d.System(), d.state) && !StartsWith(d.state, d.System()) by {
      assert d.System()[1] == 'd';
    }
    OverlapShows();
    NotAUri(t, 5);
    NotAUri(t, 6);
    assert t[0..5] == URI && UriAt(t, 0) && !SystemAt(t, 0);
    assert !Clean(d, t, 6) && !Clean(d, t, 5) && !Clean(d, t, 0);
    RoundTrip(d, t);
  }

  // ----- Directories that are not normalised

  lemma RootUris()
    ensures var t := "ik://ik://system";
            GenericAt(t, 0) && SystemAt(t, 5) && t[0..] == t && t[5..] == "ik://system" && t[16..] == ""
  {
    var t := "ik://ik://system";
    assert t[0..5] == URI && t[5..10] == URI && t[10..16] == SYSTEM && t[5] == 'i';
    assert !MatchAt(t, SYSTEM, 5) by {
      assert t[5..11][0] == 'i';
    }
  }

  lemma RootRestored(d: Dirs)
    requires d == Dirs("/", "/")
    ensures Restore(d, "/" + SYSTEM) == URI + SYSTEM
  {
    var z := "/" + SYSTEM;
    RootParts(d);
    hide *;
    StartsOf("/", SYSTEM, "/");
    RestoreHit(d, z);
    Nothing(SYSTEM);
    RestoreEmpty(d, "");
    CopiesSystem(d, SYSTEM, "");
    UriParts(Restore(d, z), SYSTEM);
  }

  lemma RootParts(d: Dirs)
    requires d == Dirs("/", "/")
    ensures Absolute(d) && ("/" + SYSTEM)[1..] == SYSTEM && DropSlash(SYSTEM) == SYSTEM && '/' !in SYSTEM
  {
    assert ("/" + SYSTEM)[1..] == SYSTEM;
  }

  /** With the root for both directories this text comes back although it is not clean. */
  lemma RootComesBack()
    ensures var d, t := Dirs("/", "/"), "ik://ik://system";
            Absolute(d) && !Clean(d, t, 0) && Restore(d, Rewrite(d, t, 0)) == t
  {
    var d, t := Dirs("/", "/"), "ik://ik://system";
    RootUris();
    RootRestored(d);
    SystemText(d, t, 5);
    RestoreGeneric(d, t, 0);
    EndOfText(d, t);
    hide Restore, Rewrite, MatchAt, UriAt, SystemAt;
    var r := Rewrite(d, t, 5);
    assert r == "/" + ("/system" + "");
    Nothing("/system");
    Nothing(r);
    assert r[1..] == "/" + SYSTEM && DropSlash(r) == "/" + SYSTEM;
    OneSlash(r);
    assert "ik://system" == URI + SYSTEM;
  }

  // ----- A text that is not straight

  lemma CrossingUris(t: string)
    requires t == "ik://system/-ik://systemx"
    ensures SystemAt(t, 0) && GenericAt(t, 13) && t[11] != 'i' && t[12] != 'i'
    ensures forall k | 18 <= k < 25 :: !UriAt(t, k)
  {
    assert t[0..5] == URI && t[5..11] == SYSTEM;
    assert t[13..18] == URI && t[18..24] == SYSTEM && t[24] == 'x';
    forall k | 18 <= k < 25 ensures !UriAt(t, k) {
      NotAUri(t, k);
    }
  }

  lemma CrossingRewritten(d: Dirs, t: string)
    requires d == Dirs("/d/system/-/d", "/d") && t == "ik://system/-ik://systemx"
    ensures Rewrite(d, t, 0) == d.state + ("/system/-" + (d.System() + "x"))
  {
    CrossingUris(t);
    CrossingSlash(d, t);
    hide *;
    CrossingPieces(d, t);
    CrossingLetters(d, t);
  }

  lemma CrossingSlash(d: Dirs, t: string)
    requires d == Dirs("/d/system/-/d", "/d") && t == "ik://system/-ik://systemx"
    ensures |t| == 25 && d.Valid() && Slash(d, t, 18) == "/"
  {
    assert d.state[12] == 'd' && t[18] == 's';
  }

  lemma CrossingPieces(d: Dirs, t: string)
    requires d.Valid() && |t| == 25 && SystemAt(t, 0) && GenericAt(t, 13) && t[11] != 'i' && t[12] != 'i'
    requires forall k | 18 <= k < 25 :: !UriAt(t, k)
    ensures Rewrite(d, t, 0) ==
            d.data + ("/system" + (t[11..13] + (d.state + Slash(d, t, 18) + (t[18..25] + ""))))
  {
    hide *;
    NotAUri(t, 11);
    NotAUri(t, 12);
    SystemText(d, t, 0);
    GenericText(d, t, 13);
    EndOfText(d, t);
    PlainRun(d, t, 11, 13);
    PlainRun(d, t, 18, 25);
  }

  lemma CrossingLetters(d: Dirs, t: string)
    requires d == Dirs("/d/system/-/d", "/d") && t == "ik://system/-ik://systemx"
    ensures d.data + ("/system" + (t[11..13] + (d.state + "/" + (t[18..25] + "")))) ==
            d.state + ("/system/-" + (d.System() + "x"))
  {
    assert t[11..13] == "/-" && t[18..25] == "systemx";
    assert d.state == "/d" + "/system" + "/-" + "/d";
    assert d.System() == "/d" + "/" + "system";
  }

  lemma CrossingRestored(d: Dirs)
    requires d == Dirs("/d/system/-/d", "/d")
    ensures Restore(d, "system/-" + (d.System() + "x")) == "system/-" + (URI + SYSTEM + "x")
  {
    var front := "system/-";
    var s := front + (d.System() + "x");
    var y := d.System();
    assert y == "/d/system" && |s| == 18;
    forall k | 0 <= k < 8 ensures !MatchAt(s, d.state, k) && !MatchAt(s, y, k) {
      assert s[k] == front[k];
      if k + 13 <= |s| {
        assert s[k..k + 13][0] == s[k] && s[k..k + 13][1] == s[k + 1];
      }
      if k + 9 <= |s| {
        assert s[k..k + 9][0] == s[k] && s[k..k + 9][1] == s[k + 1];
      }
    }
    PlainStretch(d, s, 0, 8);
    assert s[0..] == s && s[0..8] == front && s[8..17] == y && s[17..] == "x" && s[17] == 'x';
    RestoreSystem(d, s, 8);
    CopiesSystem(d, "x", "");
    RestoreEmpty(d, "");
    Nothing("x");
  }

  lemma ReadsBehindState(d: Dirs, rest: string)
    requires d.Valid()
    ensures StartsWith(d.state + ("/" + rest), d.state)
    ensures Restore(d, d.state + ("/" + rest)) == URI + Restore(d, rest)
  {
    hide Restore;
    var z := d.state + ("/" + rest);
    StartsOf(d.state, "/" + rest, d.state);
    RestoreHit(d, z);
    assert ("/" + rest)[1..] == rest;
    assert DropSlash(z[|d.state|..]) == rest;
    StartsOf(URI, Restore(d, rest), URI);
    HitGivesUri(d, z);
    UriParts(Restore(d, z), Restore(d, rest));
  }

  lemma CrossingIsInside(d: Dirs)
    requires d == Dirs("/d/system/-/d", "/d")
    ensures Absolute(d) && Inside(d) && !Together(d) && |d.state| - |d.System()| == 4
  {
    assert d.System() == "/d/system" && d.state[..9] == "/d/system";
  }

  lemma CrossingText()
    ensures "/system/-" == "/" + "system/-"
    ensures URI + ("system/-" + (URI + SYSTEM + "x")) == "ik://system/-ik://systemx"
  {
  }

  /** The second URI completes the state directory, and what is left of it reads as "system" after all. */
  lemma CrossingComesBack()
    ensures var d, t := Dirs("/d/system/-/d", "/d"), "ik://system/-ik://systemx";
            Absolute(d) && Inside(d) && !Straight(d, t, 0) && !Clean(d, t, 0) && Restore(d, Rewrite(d, t, 0)) == t
  {
    var d, t := Dirs("/d/system/-/d", "/d"), "ik://system/-ik://systemx";
    CrossingUris(t);
    CrossingRewritten(d, t);
    CrossingRestored(d);
    CrossingIsInside(d);
    CrossingText();
    assert |t| == 25 && UriAt(t, 13) && 0 + 11 <= 13;
    hide Restore, Rewrite, UriAt, SystemAt, MatchAt, StartsWith, Together, Inside, Absolute;
    var x := d.System() + "x";
    Regroup("/", "system/-", x);
    ReadsBehindState(d, "system/-" + x);
    NotCleanHere(d, t);
  }

  lemma NotCleanHere(d: Dirs, t: string)
    requires d.Valid() && |t| > 0 && SystemAt(t, 0) && StartsWith(Rewrite(d, t, 0), d.state) && !Together(d)
    ensures !Clean(d, t, 0)
  {
  }
}
