/**
  The reverse translator as it runs: a counting pass that sizes a buffer, and a build pass that
  fills it.  The build pass skips a '/' behind a match and so may miss a match that was counted.
*/
module PathBuffer {
  import opened Wrappers
  import opened Paths
  import opened Sequences
  import opened PathRestore

  /** A match: how much text was left where it started, and whether it is the system directory. */
  datatype Match = Match(left: nat, system: bool)

  /** At one position the state directory wins over the system directory. */
  function MatchHere(d: Dirs, s: string): Match { Match(|s|, !StartsWith(s, d.state)) }

  function Length(d: Dirs, m: Match): nat { if m.system then |d.System()| else |d.state| }

  /** What stands behind a match at the start. */
  function Behind(d: Dirs, s: string): (r: string)
    requires d.Valid() && Hit(d, s)
    ensures |r| == |s| - Length(d, MatchHere(d, s)) < |s|
  {
    s[Length(d, MatchHere(d, s))..]
  }

  /** The matches of the counting pass. */
  function Counted(d: Dirs, s: string): seq<Match>
    requires d.Valid()
    decreases |s|
  {
    if s == "" then []
    else if Hit(d, s) then [MatchHere(d, s)] + Counted(d, Behind(d, s))
    else Counted(d, s[1..])
  }

  /** The matches of the build pass. */
  function Built(d: Dirs, s: string): seq<Match>
    requires d.Valid()
    decreases |s|
  {
    if s == "" then []
    else if Hit(d, s) then [MatchHere(d, s)] + Built(d, DropSlash(Behind(d, s)))
    else Built(d, s[1..])
  }

  /** How many matches are of the state and of the system directory. */
  function Kinds(ms: seq<Match>): (nat, nat) {
    if ms == [] then (0, 0)
    else
      var (g, y) := Kinds(ms[1..]);
      if ms[0].system then (g, y + 1) else (g + 1, y)
  }

  /** The size of the buffer, terminator included. */
  function OutputSize(d: Dirs, s: string): int
    requires d.Valid()
  {
    var (generic, system) := Kinds(Counted(d, s));
    |s| + (5 - |d.state|) * generic + (5 + 6 - (|d.data| + 1 + 6)) * system + generic + system + 1
  }

  /** The result and its terminator have room. */
  predicate Fits(d: Dirs, s: string)
    requires d.Valid()
  {
    |Restore(d, s)| + 1 <= OutputSize(d, s)
  }

  // ----- When the passes agree

  /** No directory starts at a '/' that stands right behind a match. */
  predicate Unjoined(d: Dirs, s: string)
    requires d.Valid()
    decreases |s|
  {
    s == "" ||
    if Hit(d, s) then
      !(DropSlash(Behind(d, s)) != Behind(d, s) && Hit(d, Behind(d, s))) && Unjoined(d, Behind(d, s))
    else Unjoined(d, s[1..])
  }

  lemma {:induction false} BuiltLater(d: Dirs, s: string)
    requires d.Valid()
    ensures Built(d, s) != [] ==> Built(d, s)[0].left <= |s|
    decreases |s|
  {
    if s != "" && !Hit(d, s) {
      BuiltLater(d, s[1..]);
    }
  }

  /** The build pass finds the matches that were counted if and only if no two are joined by a slash. */
  lemma {:induction false} PassesAgree(d: Dirs, s: string)
    requires d.Valid()
    ensures Built(d, s) == Counted(d, s) <==> Unjoined(d, s)
    decreases |s|
  {
    if s != "" {
      if Hit(d, s) {
        var r := Behind(d, s);
        Cancel([MatchHere(d, s)], Built(d, DropSlash(r)), Counted(d, r));
        if DropSlash(r) == r {
          PassesAgree(d, r);
        } else if Hit(d, r) {
          BuiltLater(d, DropSlash(r));
          assert Counted(d, r)[0].left == |r|;
        } else {
          PassesAgree(d, r[1..]);
        }
      } else {
        PassesAgree(d, s[1..]);
      }
    }
  }

  // ----- How long the result is

  /** The slashes the build pass drops behind the state directory. */
  function Dropped(d: Dirs, s: string): nat
    requires d.Valid()
    decreases |s|
  {
    if s == "" then 0
    else if Hit(d, s) then
      var r := Behind(d, s);
      Dropped(d, DropSlash(r)) + if !MatchHere(d, s).system && DropSlash(r) != r then 1 else 0
    else Dropped(d, s[1..])
  }

  lemma KindsOf(m: Match, ms: seq<Match>)
    ensures Kinds([m] + ms) == if m.system then (Kinds(ms).0, Kinds(ms).1 + 1) else (Kinds(ms).0 + 1, Kinds(ms).1)
  {
    var all := [m] + ms;
    assert all[1..] == ms;
    KindsStep(all);
    hide Kinds;
  }

  lemma KindsStep(ms: seq<Match>)
    requires ms != []
    ensures var (g, y) := Kinds(ms[1..]); Kinds(ms) == if ms[0].system then (g, y + 1) else (g + 1, y)
  {
  }

  /** By how much these matches lengthen a text, the slashes dropped apart. */
  function Growth(d: Dirs, kinds: (nat, nat)): int {
    (5 - |d.state|) * kinds.0 + (4 - |d.data|) * kinds.1
  }

  lemma GrowthMore(d: Dirs, generic: nat, system: nat)
    ensures Growth(d, (generic + 1, system)) == Growth(d, (generic, system)) + 5 - |d.state|
    ensures Growth(d, (generic, system + 1)) == Growth(d, (generic, system)) + 4 - |d.data|
  {
    Times(5 - |d.state|, generic);
    Times(4 - |d.data|, system);
  }

  lemma {:induction false} LengthGrows(d: Dirs, s: string)
    requires d.Valid()
    ensures |Restore(d, s)| == |s| + Growth(d, Kinds(Built(d, s))) - Dropped(d, s)
    decreases |s|
  {
    hide *;
    if s == "" {
      NoLength(d, s);
    } else if Hit(d, s) {
      var rest := DropSlash(Behind(d, s));
      HitLength(d, s);
      LengthGrows(d, rest);
      KindsOf(MatchHere(d, s), Built(d, rest));
      GrowthMore(d, Kinds(Built(d, rest)).0, Kinds(Built(d, rest)).1);
    } else {
      MissLength(d, s);
      LengthGrows(d, s[1..]);
    }
  }

  lemma ResultLength(d: Dirs, s: string)
    requires d.Valid()
    ensures var (generic, system) := Kinds(Built(d, s));
            |Restore(d, s)| ==
            |s| + (5 - |d.state|) * generic + (4 - |d.data|) * system - Dropped(d, s)
  {
    LengthGrows(d, s);
    hide Kinds, Built, Restore, Dropped;
  }

  lemma NoLength(d: Dirs, s: string)
    requires d.Valid() && s == ""
    ensures |Restore(d, s)| == Dropped(d, s) == Growth(d, Kinds(Built(d, s))) == 0
  {
  }

  /** A character that is copied. */
  lemma MissLength(d: Dirs, s: string)
    requires d.Valid() && s != "" && !Hit(d, s)
    ensures Built(d, s) == Built(d, s[1..]) && Dropped(d, s) == Dropped(d, s[1..])
    ensures |Restore(d, s)| == 1 + |Restore(d, s[1..])|
  {
    hide Kinds;
  }

  /** What one match does to the length. */
  lemma HitLength(d: Dirs, s: string)
    requires d.Valid() && s != "" && Hit(d, s)
    ensures var rest := DropSlash(Behind(d, s));
            && |rest| < |s| && Built(d, s) == [MatchHere(d, s)] + Built(d, rest)
            && |Restore(d, s)| - |s| - |Restore(d, rest)| + |rest| + Dropped(d, s) - Dropped(d, rest) ==
               if MatchHere(d, s).system then 4 - |d.data| else 5 - |d.state|
  {
    hide Kinds;
    SystemLength(d);
  }

  /**
    The result has room exactly if the matches made save as much as those counted were to save; each
    counted match leaves one character to spare.
  */
  lemma FitsExactly(d: Dirs, s: string)
    requires d.Valid()
    ensures var (g, y) := Kinds(Counted(d, s));
            var (h, z) := Kinds(Built(d, s));
            Fits(d, s) <==>
            (|d.state| - 6) * g + (|d.data| - 5) * y <= (|d.state| - 5) * h + (|d.data| - 4) * z + Dropped(d, s)
  {
    ResultLength(d, s);
    var (g, y) := Kinds(Counted(d, s));
    var (h, z) := Kinds(Built(d, s));
    hide *;
    Products(|d.state|, |d.data|, g, y, h, z);
    SizeIs(d, s);
    FitsIs(d, s);
  }

  lemma SizeIs(d: Dirs, s: string)
    requires d.Valid()
    ensures var (g, y) := Kinds(Counted(d, s));
            OutputSize(d, s) == |s| + (5 - |d.state|) * g + (4 - |d.data|) * y + g + y + 1
  {
  }

  lemma FitsIs(d: Dirs, s: string)
    requires d.Valid()
    ensures Fits(d, s) <==> |Restore(d, s)| + 1 <= OutputSize(d, s)
  {
  }

  lemma Products(a: int, b: int, g: int, y: int, h: int, z: int)
    ensures (5 - a) * g + g == -((a - 6) * g) && (4 - b) * y + y == -((b - 5) * y)
    ensures (5 - a) * h == -((a - 5) * h) && (4 - b) * z == -((b - 4) * z)
  {
  }

  /** Where the passes agree the buffer is large enough. */
  lemma UnjoinedFits(d: Dirs, s: string)
    requires d.Valid() && Unjoined(d, s)
    ensures Fits(d, s)
  {
    hide *;
    PassesAgree(d, s);
    ResultLength(d, s);
    SizeIs(d, s);
    FitsIs(d, s);
    var (g, y) := Kinds(Counted(d, s));
    assert |Restore(d, s)| == |s| + (5 - |d.state|) * g + (4 - |d.data|) * y - Dropped(d, s);
    assert OutputSize(d, s) == |s| + (5 - |d.state|) * g + (4 - |d.data|) * y + g + y + 1;
  }

  // ----- The translator

  lemma CountedStretch(d: Dirs, s: string, i: nat, j: nat)
    requires d.Valid() && i <= j <= |s|
    requires forall k | i <= k < j :: !MatchAt(s, d.state, k) && !MatchAt(s, d.System(), k)
    ensures Counted(d, s[i..]) == Counted(d, s[j..])
    decreases j - i
  {
    if i < j {
      SuffixMatch(s, d.state, i);
      SuffixMatch(s, d.System(), i);
      assert s[i..][1..] == s[i + 1..];
      CountedStretch(d, s, i + 1, j);
    }
  }

  lemma CountedMatch(d: Dirs, s: string, i: nat)
    requires d.Valid() && i < |s| && (MatchAt(s, d.state, i) || MatchAt(s, d.System(), i))
    ensures var j := i + if MatchAt(s, d.state, i) then |d.state| else |d.System()|;
            && j <= |s|
            && Kinds(Counted(d, s[i..])) ==
               (Kinds(Counted(d, s[j..])).0 + (if MatchAt(s, d.state, i) then 1 else 0),
                Kinds(Counted(d, s[j..])).1 + (if MatchAt(s, d.state, i) then 0 else 1))
  {
    var j := i + if MatchAt(s, d.state, i) then |d.state| else |d.System()|;
    HereAt(d, s, i);
    CountedHit(d, s[i..]);
    hide *;
    KindsOf(MatchHere(d, s[i..]), Counted(d, s[j..]));
  }

  lemma HereAt(d: Dirs, s: string, i: nat)
    requires d.Valid() && i < |s| && (MatchAt(s, d.state, i) || MatchAt(s, d.System(), i))
    ensures Hit(d, s[i..]) && (MatchHere(d, s[i..]).system <==> !MatchAt(s, d.state, i))
    ensures var j := i + if MatchAt(s, d.state, i) then |d.state| else |d.System()|;
            j <= |s| && Behind(d, s[i..]) == s[j..]
  {
    SuffixMatch(s, d.state, i);
    SuffixMatch(s, d.System(), i);
  }

  lemma CountedHit(d: Dirs, s: string)
    requires d.Valid() && s != "" && Hit(d, s)
    ensures Counted(d, s) == [MatchHere(d, s)] + Counted(d, Behind(d, s))
  {
  }

  /** The counting pass. */
  method CountPaths(d: Dirs, s: string) returns (generic: nat, system: nat)
    requires d.Valid()
    ensures (generic, system) == Kinds(Counted(d, s))
    ensures generic == system == 0 ==>
              forall k | 0 <= k < |s| :: !MatchAt(s, d.state, k) && !MatchAt(s, d.System(), k)
  {
    hide MatchAt, Counted, Kinds;
    generic, system := 0, 0;
    var pos: nat := 0;
    assert s[0..] == s;
    while true
      invariant pos <= |s|
      invariant Kinds(Counted(d, s)) ==
                (generic + Kinds(Counted(d, s[pos..])).0, system + Kinds(Counted(d, s[pos..])).1)
      invariant generic == system == 0 ==> pos == 0
      decreases |s| - pos
    {
      var systemMatch := Strstr(s, d.System(), pos);
      var stateMatch := Strstr(s, d.state, pos);
      if systemMatch == |s| && stateMatch == |s| {
        CountedStretch(d, s, pos, |s|);
        NothingCountedAtEnd(d, s);
        return;
      }
      var useSystem := systemMatch < |s| && (stateMatch == |s| || systemMatch < stateMatch);
      var at := if useSystem then systemMatch else stateMatch;
      CountedStretch(d, s, pos, at);
      CountedMatch(d, s, at);
      if useSystem {
        system := system + 1;
        pos := at + |d.System()|;
      } else {
        generic := generic + 1;
        pos := at + |d.state|;
      }
    }
  }

  lemma NothingCountedAtEnd(d: Dirs, s: string)
    requires d.Valid()
    ensures Kinds(Counted(d, s[|s|..])) == (0, 0)
  {
  }

  predicate SlashAt(s: string, i: nat) { i < |s| && s[i] == '/' }

  /** What stands for a state directory, and where the source goes on. */
  lemma StateWritten(d: Dirs, s: string, at: nat)
    requires d.Valid() && MatchAt(s, d.state, at)
    ensures var j := at + |d.state|;
            && at < j <= |s|
            && Restore(d, s[at..]) == URI + Restore(d, if SlashAt(s, j) then s[j + 1..] else s[j..])
  {
    var j := at + |d.state|;
    RestoreState(d, s, at);
    hide Restore, MatchAt;
    assert j < |s| ==> s[j..][0] == s[j] && s[j..][1..] == s[j + 1..];
  }

  /** The same for a system directory, whose slash is kept. */
  lemma SystemWritten(d: Dirs, s: string, at: nat)
    requires d.Valid() && MatchAt(s, d.System(), at) && !MatchAt(s, d.state, at)
    ensures var j := at + |d.System()|;
            && at < j <= |s|
            && Restore(d, s[at..]) == if SlashAt(s, j) then URI + SYSTEM + "/" + Restore(d, s[j + 1..])
                                      else URI + SYSTEM + Restore(d, s[j..])
  {
    var j := at + |d.System()|;
    MatchBounds(s, d.System(), at);
    RestoreSystem(d, s, at);
    hide Restore, MatchAt;
    if SlashAt(s, j) {
      Regroup(URI + SYSTEM, "/", Restore(d, s[j + 1..]));
    }
  }

  /** Writes the URI for the directory found at `at`; the source goes on at `src`. */
  method WriteMatch(d: Dirs, s: string, at: nat, useSystem: bool) returns (text: string, src: nat)
    requires d.Valid() && at < |s|
    requires if useSystem then MatchAt(s, d.System(), at) && !MatchAt(s, d.state, at) else MatchAt(s, d.state, at)
    ensures at < src <= |s| && Restore(d, s[at..]) == text + Restore(d, s[src..])
  {
    hide Restore, MatchAt;
    text := URI;
    if useSystem {
      SystemWritten(d, s, at);
      text := text + SYSTEM;
      src := at + |d.System()|;
    } else {
      StateWritten(d, s, at);
      src := at + |d.state|;
    }
    if src < |s| && s[src] == '/' {
      if useSystem {
        text := text + "/";
      }
      src := src + 1;
    }
  }

  /** A write that would leave the buffer gives None. */
  method WriteInside(buffer: array<char>, dest: nat, text: string) returns (end: Option<nat>)
    requires dest <= buffer.Length
    modifies buffer
    ensures end.None? <==> dest + |text| > buffer.Length
    ensures end.Some? ==> end.value == dest + |text| && buffer[..end.value] == old(buffer[..dest]) + text
  {
    if dest + |text| > buffer.Length {
      return None;
    }
    var e := Write(buffer, dest, text);
    return Some(e);
  }

  lemma Overrun(a: string, b: string, c: string, size: nat)
    requires |a| + |b| > size
    ensures |a + (b + c)| > size
  {
  }

  /** The translated text, or None where the program writes beyond the buffer it has allocated. */
  method PathToUri(d: Dirs, s: string) returns (out: Option<string>)
    requires d.Valid()
    ensures out == if Fits(d, s) then Some(Restore(d, s)) else None
  {
    hide MatchAt, Restore, Counted, Kinds;
    var generic, system := CountPaths(d, s);
    assert s[0..] == s;
    RestoreEmpty(d, s);
    SizeIs(d, s);
    if generic == 0 && system == 0 {
      PlainStretch(d, s, 0, |s|);
      assert s[0..|s|] == s;
      Nothing(s);
      return Some(s);
    }
    var outputSize :=
      |s| + (5 - |d.state|) * generic + (5 + 6 - (|d.data| + 1 + 6)) * system + generic + system + 1;
    SizeIsPositive(d, s);
    var result := new char[outputSize];
    var dest: nat, src: nat := 0, 0;
    assert result[..0] == "";
    Nothing(Restore(d, s));
    while src < |s|
      invariant src <= |s| && dest <= result.Length
      invariant Restore(d, s) == result[..dest] + Restore(d, s[src..])
      decreases |s| - src
    {
      var systemMatch := Strstr(s, d.System(), src);
      var stateMatch := Strstr(s, d.state, src);
      var useSystem := systemMatch < |s| && (stateMatch == |s| || systemMatch < stateMatch);
      var at := if useSystem then systemMatch else stateMatch;
      PlainStretch(d, s, src, at);
      ghost var was := result[..dest];
      Regroup(was, s[src..at], Restore(d, s[at..]));
      var end := WriteInside(result, dest, s[src..at]);
      if end.None? {
        Overrun(was, s[src..at], Restore(d, s[at..]), result.Length);
        return None;
      }
      dest := end.value;
      if at == |s| {
        src := |s|;
      } else {
        was := result[..dest];
        var text: string;
        text, src := WriteMatch(d, s, at, useSystem);
        Regroup(was, text, Restore(d, s[src..]));
        end := WriteInside(result, dest, text);
        if end.None? {
          Overrun(was, text, Restore(d, s[src..]), result.Length);
          return None;
        }
        dest := end.value;
      }
    }
    Nothing(result[..dest]);
    if dest == result.Length {
      return None;
    }
    result[dest] := '\0';
    return Some(result[..dest]);
  }

  /** Every counted match is at least as long as what its count takes off the size. */
  lemma {:induction false} CountedLength(d: Dirs, s: string)
    requires d.Valid()
    ensures |d.state| * Kinds(Counted(d, s)).0 + |d.System()| * Kinds(Counted(d, s)).1 <= |s|
    decreases |s|
  {
    if s != "" {
      if Hit(d, s) {
        var r := Behind(d, s);
        CountedLength(d, r);
        KindsOf(MatchHere(d, s), Counted(d, r));
        Times(|d.state|, Kinds(Counted(d, r)).0);
        Times(|d.System()|, Kinds(Counted(d, r)).1);
      } else {
        CountedLength(d, s[1..]);
      }
    }
  }

  lemma SizeIsPositive(d: Dirs, s: string)
    requires d.Valid()
    ensures OutputSize(d, s) > 0
  {
    hide *;
    CountedLength(d, s);
    SizeIs(d, s);
    SystemLength(d);
    var (g, y) := Kinds(Counted(d, s));
    Spread(5, |d.state|, g);
    Spread(4, |d.data|, y);
    Spread(-7, |d.data|, y);
  }

  lemma Spread(a: int, b: int, n: int)
    ensures (a - b) * n == a * n - b * n
  {
  }

  lemma SystemLength(d: Dirs)
    ensures |d.System()| == |d.data| + 7
  {
  }

  // ----- Two joined directories

  lemma JoinedText(d: Dirs)
    requires d == Dirs("/st", "/var/lib/d")
    ensures d.System() == "/var/lib/d/system" && |d.System()| == 17
    ensures StartsWith("/st/var/lib/d/system", "/st")
    ensures "/st/var/lib/d/system"[3..] == d.System() && DropSlash(d.System()) == "var/lib/d/system"
  {
    var s := "/st/var/lib/d/system";
    assert s[..3] == "/st";
  }

  /** Both are counted. */
  lemma JoinedCounted(d: Dirs)
    requires d == Dirs("/st", "/var/lib/d")
    ensures OutputSize(d, "/st/var/lib/d/system") == 19
  {
    var s, y := "/st/var/lib/d/system", d.System();
    JoinedText(d);
    assert Behind(d, s) == y;
    assert !StartsWith(y, "/st") by {
      assert y[1] == 'v' && "/st"[1] == 's';
    }
    assert Hit(d, y) && MatchHere(d, y) == Match(17, true);
    assert y[17..] == "";
    assert Behind(d, y) == "" && Counted(d, "") == [];
    hide Hit, StartsWith;
    KindsOf(MatchHere(d, y), []);
    assert Counted(d, y) == [MatchHere(d, y)] + [];
    KindsOf(MatchHere(d, s), Counted(d, y));
    SizeIs(d, s);
  }

  /** The second one has lost its slash to the first. */
  lemma JoinedRestored(d: Dirs)
    requires d == Dirs("/st", "/var/lib/d")
    ensures Restore(d, "/st/var/lib/d/system") == URI + "var/lib/d/system"
  {
    var s, z := "/st/var/lib/d/system", "var/lib/d/system";
    JoinedText(d);
    forall k | 0 <= k < |z| ensures !MatchAt(z, d.state, k) && !MatchAt(z, d.System(), k) {
      if k + 3 <= |z| {
        assert z[k..k + 3][0] == z[k] && z[k..k + 3][2] == z[k + 2] && d.state[2] == 't';
      }
    }
    PlainStretch(d, z, 0, |z|);
    RestoreEmpty(d, z);
    Nothing(z);
    assert z[0..] == z && z[0..|z|] == z && s[0..] == s;
    RestoreState(d, s, 0);
  }

  /**
    A text with two directories joined by a slash: 19 places for 21 characters and the terminator.
    It is what the forward translator makes of "ik:///var/lib/d/system".
  */
  lemma JoinedOverruns()
    ensures var d, s := Dirs("/st", "/var/lib/d"), "/st/var/lib/d/system";
            && !Unjoined(d, s) && OutputSize(d, s) == 19 && |Restore(d, s)| == 21 && !Fits(d, s)
            && Rewrite(d, "ik:///var/lib/d/system", 0) == s
  {
    var d, s, t := Dirs("/st", "/var/lib/d"), "/st/var/lib/d/system", "ik:///var/lib/d/system";
    JoinedCounted(d);
    JoinedRestored(d);
    JoinedRewritten(d, t);
    if Unjoined(d, s) {
      UnjoinedFits(d, s);
    }
  }

  lemma JoinedUris(t: string)
    requires t == "ik:///var/lib/d/system"
    ensures UriAt(t, 0) && !SystemAt(t, 0)
    ensures forall k | 5 <= k < |t| :: !UriAt(t, k)
  {
    assert t[0..5] == URI;
    assert !SystemAt(t, 0) by {
      assert t[5..11][0] == '/';
    }
    forall k | 5 <= k < |t| ensures !UriAt(t, k) {
      if k + 5 <= |t| {
        assert t[k..k + 5][0] == t[k] && t[k..k + 5][1] == t[k + 1];
      }
    }
  }

  /** One generic URI with a tail that starts with a slash. */
  lemma SlashTail(d: Dirs, t: string)
    requires d.Valid() && |t| > 5 && t[5] == '/' && GenericAt(t, 0) && forall k | 5 <= k < |t| :: !UriAt(t, k)
    ensures Rewrite(d, t, 0) == d.state + t[5..]
  {
    PlainFrom5(d, t);
    Nothing(d.state);
  }

  lemma PlainFrom5(d: Dirs, t: string)
    requires d.Valid() && |t| > 5 && forall k | 5 <= k < |t| :: !UriAt(t, k)
    ensures Rewrite(d, t, 5) == t[5..]
  {
    PlainRun(d, t, 5, |t|);
    EndOfText(d, t);
    hide *;
    assert t[5..|t|] == t[5..];
    Nothing(t[5..]);
  }

  lemma JoinedLetters()
    ensures "ik:///var/lib/d/system"[5..] == "/var/lib/d/system"
    ensures "/st" + "/var/lib/d/system" == "/st/var/lib/d/system"
  {
  }

  lemma JoinedRewritten(d: Dirs, t: string)
    requires d == Dirs("/st", "/var/lib/d") && t == "ik:///var/lib/d/system"
    ensures Rewrite(d, t, 0) == "/st/var/lib/d/system"
  {
    hide *;
    JoinedUris(t);
    GenericIs(t);
    SlashTail(d, t);
    JoinedLetters();
  }

  lemma GenericIs(t: string)
    ensures UriAt(t, 0) && !SystemAt(t, 0) ==> GenericAt(t, 0)
  {
  }
}
