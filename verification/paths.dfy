/**
  Translation between ik:// URIs and file paths inside a text.  `Rewrite` is the one-pass meaning
  of the forward direction and `Restore` that of the reverse; strings are bytes up to the
  terminator.
*/
module Paths {
  import opened Sequences

  datatype Dirs = Dirs(state: string, data: string) {
    /** The environment check refuses empty directories. */
    predicate Valid() { |state| > 0 && |data| > 0 }

    function System(): string { data + "/" + SYSTEM }
  }

  const URI := "ik://"
  const SYSTEM := "system"

  predicate IsWord(c: char) {
    'a' <= c <= 'z' || 'A' <= c <= 'Z' || '0' <= c <= '9' || c == '_'
  }

  predicate StartsWith(s: string, p: string) {
    |p| <= |s| && s[..|p|] == p
  }

  predicate MatchAt(s: string, p: string, i: nat) {
    i + |p| <= |s| && s[i..i + |p|] == p
  }

  /** A URI starts here, and not inside a word as in "myik://". */
  predicate UriAt(s: string, i: nat) {
    MatchAt(s, URI, i) && (i == 0 || !IsWord(s[i - 1]))
  }

  predicate SystemAt(s: string, i: nat) {
    UriAt(s, i) && MatchAt(s, SYSTEM, i + 5) && (i + 11 == |s| || s[i + 11] == '/')
  }

  predicate GenericAt(s: string, i: nat) { UriAt(s, i) && !SystemAt(s, i) }

  function Slash(d: Dirs, s: string, i: nat): string
    requires d.Valid() && i <= |s|
  {
    if i < |s| && s[i] != '/' && d.state[|d.state| - 1] != '/' then "/" else ""
  }

  function Rewrite(d: Dirs, s: string, i: nat): string
    requires d.Valid() && i <= |s|
    decreases |s| - i
  {
    if i == |s| then ""
    else if SystemAt(s, i) then d.System() + Rewrite(d, s, i + 11)
    else if UriAt(s, i) then d.state + Slash(d, s, i + 5) + Rewrite(d, s, i + 5)
    else [s[i]] + Rewrite(d, s, i + 1)
  }

  // ----- Occurrences and room

  /** How many generic and system URIs start at position `i` or later. */
  function Count(s: string, i: nat): (nat, nat)
    requires i <= |s|
    decreases |s| - i
  {
    if i == |s| then (0, 0)
    else
      var (g, y) := Count(s, i + 1);
      (if GenericAt(s, i) then g + 1 else g, if SystemAt(s, i) then y + 1 else y)
  }

  /** An ik:// does not overlap another one, nor does ik://system. */
  lemma NoOverlap(s: string, i: nat, k: nat)
    requires MatchAt(s, URI, i) && i < k
    requires k < i + 5 || (k < i + 11 && MatchAt(s, SYSTEM, i + 5))
    ensures !MatchAt(s, URI, k)
  {
    if k < i + 5 {
      assert s[k] == s[i..i + 5][k - i] != 'i';
    } else {
      assert s[k] == s[i + 5..i + 11][k - i - 5] != 'i';
    }
    if k + 5 <= |s| {
      assert s[k..k + 5][0] == s[k] && URI[0] == 'i';
    }
  }

  lemma LiteralStep(d: Dirs, s: string, i: nat)
    requires d.Valid() && i < |s| && !UriAt(s, i)
    ensures Rewrite(d, s, i) == [s[i]] + Rewrite(d, s, i + 1) && Count(s, i) == Count(s, i + 1)
  {
  }

  /** A stretch without URIs is copied and counts nothing. */
  lemma {:induction false} PlainRun(d: Dirs, s: string, i: nat, j: nat)
    requires d.Valid() && i <= j <= |s|
    requires forall k | i <= k < j :: !UriAt(s, k)
    ensures Rewrite(d, s, i) == s[i..j] + Rewrite(d, s, j)
    ensures Count(s, i) == Count(s, j)
    decreases j - i
  {
    hide *;
    if i < j {
      LiteralStep(d, s, i);
      PlainRun(d, s, i + 1, j);
      Regroup([s[i]], s[i + 1..j], Rewrite(d, s, j));
      assert s[i..j] == [s[i]] + s[i + 1..j];
    } else {
      assert s[i..j] == "";
      Nothing(Rewrite(d, s, j));
    }
  }

  lemma {:induction false} CountRun(s: string, i: nat, j: nat)
    requires i <= j <= |s| && forall k | i <= k < j :: !UriAt(s, k)
    ensures Count(s, i) == Count(s, j)
    decreases j - i
  {
    if i < j {
      CountRun(s, i + 1, j);
    }
  }

  /** A URI counts once, and the next one starts behind it. */
  lemma CountSite(s: string, i: nat)
    requires i <= |s| && UriAt(s, i)
    ensures i + 5 <= |s| && (SystemAt(s, i) ==> i + 11 <= |s|)
    ensures SystemAt(s, i) ==> Count(s, i) == (Count(s, i + 11).0, Count(s, i + 11).1 + 1)
    ensures GenericAt(s, i) ==> Count(s, i) == (Count(s, i + 5).0 + 1, Count(s, i + 5).1)
  {
    var j := if SystemAt(s, i) then i + 11 else i + 5;
    forall k | i + 1 <= k < j ensures !UriAt(s, k) {
      NoOverlap(s, i, k);
    }
    CountRun(s, i + 1, j);
  }

  /** The size the counting pass asks for, without the terminator. */
  function Room(d: Dirs, s: string, i: nat): int
    requires d.Valid() && i <= |s|
  {
    |s| - i + (|d.state| - 4) * Count(s, i).0 + (|d.data| - 3) * Count(s, i).1
  }

  lemma Times(k: int, n: int)
    ensures k * (n + 1) == k * n + k
  {
  }

  lemma {:induction false} RewriteFits(d: Dirs, s: string, i: nat)
    requires d.Valid() && i <= |s|
    ensures |Rewrite(d, s, i)| <= Room(d, s, i)
    decreases |s| - i
  {
    if i < |s| {
      if UriAt(s, i) {
        CountSite(s, i);
        var j := if SystemAt(s, i) then i + 11 else i + 5;
        RewriteFits(d, s, j);
        Times(|d.state| - 4, Count(s, j).0);
        Times(|d.data| - 3, Count(s, j).1);
      } else {
        RewriteFits(d, s, i + 1);
      }
    }
  }

  // ----- The forward translator

  method Strstr(s: string, p: string, from: nat) returns (i: nat)
    requires from <= |s| && |p| > 0
    ensures from <= i <= |s|
    ensures i < |s| ==> MatchAt(s, p, i)
    ensures forall k | from <= k < i :: !MatchAt(s, p, k)
  {
    i := from;
    while i < |s| && !(i + |p| <= |s| && s[i..i + |p|] == p)
      invariant from <= i <= |s|
      invariant forall k | from <= k < i :: !MatchAt(s, p, k)
    {
      i := i + 1;
    }
  }

  /** memcpy of `src` to `dest`; returns the position behind it. */
  method Write(buffer: array<char>, dest: nat, src: string) returns (end: nat)
    requires dest + |src| <= buffer.Length
    modifies buffer
    ensures end == dest + |src|
    ensures buffer[..end] == old(buffer[..dest]) + src
  {
    end := dest;
    while end < dest + |src|
      invariant dest <= end <= dest + |src|
      invariant buffer[..dest] == old(buffer[..dest])
      invariant buffer[dest..end] == src[..end - dest]
    {
      buffer[end] := src[end - dest];
      end := end + 1;
    }
    assert buffer[..end] == buffer[..dest] + buffer[dest..end];
  }

  /** The counting pass. */
  method CountUris(s: string) returns (generic: nat, system: nat)
    ensures (generic, system) == Count(s, 0)
  {
    hide Count, UriAt, MatchAt, SystemAt;
    generic, system := 0, 0;
    var pos: nat := 0;
    NothingBehind(s);
    while true
      invariant pos <= |s|
      invariant Count(s, 0) == (generic + Count(s, pos).0, system + Count(s, pos).1)
      decreases |s| - pos
    {
      var next := Strstr(s, URI, pos);
      SkipPlain(s, pos, next);
      if next == |s| {
        return;
      }
      CountRound(s, next);
      if next != 0 && IsWord(s[next - 1]) {
        pos := next + 5;
      } else if next + 11 <= |s| && s[next + 5..next + 11] == SYSTEM && (next + 11 == |s| || s[next + 11] == '/') {
        system := system + 1;
        pos := next + 11;
      } else {
        generic := generic + 1;
        pos := next + 5;
      }
    }
  }

  lemma NothingBehind(s: string)
    ensures Count(s, |s|) == (0, 0)
  {
  }

  lemma SkipPlain(s: string, i: nat, j: nat)
    requires i <= j <= |s| && forall k | i <= k < j :: !MatchAt(s, URI, k)
    ensures Count(s, i) == Count(s, j)
  {
    CountRun(s, i, j);
  }

  /** What one find of the counting pass adds. */
  lemma CountRound(s: string, next: nat)
    requires next < |s| && MatchAt(s, URI, next)
    ensures next + 5 <= |s|
    ensures if next != 0 && IsWord(s[next - 1]) then Count(s, next) == Count(s, next + 5)
            else if next + 11 <= |s| && s[next + 5..next + 11] == SYSTEM && (next + 11 == |s| || s[next + 11] == '/')
            then Count(s, next) == (Count(s, next + 11).0, Count(s, next + 11).1 + 1)
            else Count(s, next) == (Count(s, next + 5).0 + 1, Count(s, next + 5).1)
  {
    if UriAt(s, next) {
      CountSite(s, next);
    } else {
      forall k | next <= k < next + 5 ensures !UriAt(s, k) {
        if next < k { NoOverlap(s, next, k); }
      }
      CountRun(s, next, next + 5);
    }
  }

  /** One round of the build pass: what is written and where the source goes on. */
  lemma BuildRound(d: Dirs, s: string, src: nat, next: nat)
    requires d.Valid() && src <= next < |s| && MatchAt(s, URI, next)
    requires forall k | src <= k < next :: !MatchAt(s, URI, k)
    ensures UriAt(s, next) ==> Rewrite(d, s, src) == s[src..next] + Rewrite(d, s, next)
    ensures !UriAt(s, next) ==> Rewrite(d, s, src) == s[src..next + 5] + Rewrite(d, s, next + 5)
  {
    if UriAt(s, next) {
      PlainRun(d, s, src, next);
    } else {
      forall k | src <= k < next + 5 ensures !UriAt(s, k) {
        if next < k { NoOverlap(s, next, k); }
      }
      PlainRun(d, s, src, next + 5);
    }
  }

  /** Writes the replacement of the URI at `next`; the source goes on at `src`. */
  method WriteUri(d: Dirs, s: string, next: nat, result: array<char>, from: nat) returns (dest: nat, src: nat)
    requires d.Valid() && next < |s| && UriAt(s, next)
    requires from + |Rewrite(d, s, next)| < result.Length
    modifies result
    ensures next < src <= |s| && from <= dest < result.Length
    ensures result[..dest] + Rewrite(d, s, src) == old(result[..from]) + Rewrite(d, s, next)
  {
    UriStep(d, s, next);
    hide Rewrite, UriAt, MatchAt, SystemAt;
    ghost var was := result[..from];
    if next + 11 <= |s| && s[next + 5..next + 11] == SYSTEM && (next + 11 == |s| || s[next + 11] == '/') {
      src := next + 11;
      Regroup(was, d.System(), Rewrite(d, s, src));
      dest := Write(result, from, d.data);
      dest := Write(result, dest, "/");
      dest := Write(result, dest, SYSTEM);
      Regroup(was, d.data + "/", SYSTEM);
      Regroup(was, d.data, "/");
    } else {
      src := next + 5;
      ghost var slash := Slash(d, s, src);
      Regroup(was, d.state + slash, Rewrite(d, s, src));
      Regroup(was, d.state, slash);
      dest := Write(result, from, d.state);
      Nothing(was + d.state);
      if src < |s| && s[src] != '/' && d.state[|d.state| - 1] != '/' {
        dest := Write(result, dest, "/");
      }
    }
  }

  /** What the test behind a URI decides. */
  lemma UriStep(d: Dirs, s: string, next: nat)
    requires d.Valid() && next < |s| && UriAt(s, next)
    ensures next + 5 <= |s|
    ensures if next + 11 <= |s| && s[next + 5..next + 11] == SYSTEM && (next + 11 == |s| || s[next + 11] == '/')
            then Rewrite(d, s, next) == d.System() + Rewrite(d, s, next + 11)
            else Rewrite(d, s, next) == d.state + Slash(d, s, next + 5) + Rewrite(d, s, next + 5)
  {
  }

  method UriToPath(d: Dirs, s: string) returns (out: string)
    requires d.Valid()
    ensures out == Rewrite(d, s, 0)
  {
    hide UriAt, MatchAt, SystemAt, Rewrite;
    var generic, system := CountUris(s);
    if generic == 0 && system == 0 {
      NothingCounted(s, 0);
      PlainRun(d, s, 0, |s|);
      EndOfText(d, s);
      assert s[0..|s|] + "" == s;
      return s;
    }
    RewriteFits(d, s, 0);
    var outputSize := |s| + (|d.state| - 5 + 1) * generic + (|d.data| + 6 + 1 - 5 - 6 + 1) * system + 1;
    assert outputSize == Room(d, s, 0) + 1;
    var result := new char[outputSize];
    var dest: nat, src: nat := 0, 0;
    assert result[..0] + Rewrite(d, s, 0) == Rewrite(d, s, 0);
    while src < |s|
      invariant src <= |s| && dest <= |Rewrite(d, s, 0)| < result.Length
      invariant result[..dest] + Rewrite(d, s, src) == Rewrite(d, s, 0)
      decreases |s| - src
    {
      var next := Strstr(s, URI, src);
      if next == |s| {
        PlainFrom(d, s, src);
        dest := Write(result, dest, s[src..]);
        src := |s|;
        EndOfText(d, s);
        assert result[..dest] + "" == result[..dest];
      } else {
        BuildRound(d, s, src, next);
        ghost var was := result[..dest];
        if next != 0 && IsWord(s[next - 1]) {
          UriChars(s, next);
          Regroup(was, s[src..next + 5], Rewrite(d, s, next + 5));
          dest := Write(result, dest, s[src..next + 5]);
          src := next + 5;
        } else {
          UriChars(s, next);
          Regroup(was, s[src..next], Rewrite(d, s, next));
          dest := Write(result, dest, s[src..next]);
          dest, src := WriteUri(d, s, next, result, dest);
        }
      }
    }
    EndOfText(d, s);
    assert result[..dest] + "" == result[..dest];
    result[dest] := '\0';
    return result[..dest];
  }

  lemma EndOfText(d: Dirs, s: string)
    requires d.Valid()
    ensures Rewrite(d, s, |s|) == ""
  {
  }

  lemma PlainFrom(d: Dirs, s: string, src: nat)
    requires d.Valid() && src <= |s| && forall k | src <= k < |s| :: !MatchAt(s, URI, k)
    ensures Rewrite(d, s, src) == s[src..]
  {
    PlainRun(d, s, src, |s|);
    assert s[src..|s|] + "" == s[src..];
  }

  /** What the test on the preceding character decides. */
  lemma UriChars(s: string, next: nat)
    requires MatchAt(s, URI, next)
    ensures next + 5 <= |s|
    ensures UriAt(s, next) <==> !(next != 0 && IsWord(s[next - 1]))
  {
  }

  lemma {:induction false} NothingCounted(s: string, i: nat)
    requires i <= |s| && Count(s, i) == (0, 0)
    ensures forall k | i <= k < |s| :: !UriAt(s, k)
    decreases |s| - i
  {
    if i < |s| {
      NothingCounted(s, i + 1);
    }
  }
}
