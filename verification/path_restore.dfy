/**
  The reverse translation, from paths in a text to ik:// URIs.
*/
module PathRestore {
  import opened Paths
  import opened Sequences

  function DropSlash(s: string): string {
    if |s| > 0 && s[0] == '/' then s[1..] else s
  }

  /** At one position the state directory wins over the system directory. */
  function Restore(d: Dirs, s: string): string
    requires d.Valid()
    decreases |s|
  {
    if s == "" then ""
    else if StartsWith(s, d.state) then URI + Restore(d, DropSlash(s[|d.state|..]))
    else if StartsWith(s, d.System()) then
      var rest := s[|d.System()|..];
      URI + SYSTEM + if |rest| > 0 && rest[0] == '/' then "/" + Restore(d, rest[1..]) else Restore(d, rest)
    else [s[0]] + Restore(d, s[1..])
  }

  /** The text goes on with one of the directories. */
  predicate Hit(d: Dirs, z: string) { StartsWith(z, d.state) || StartsWith(z, d.System()) }

  // ----- The translation from a position on

  lemma SuffixMatch(s: string, p: string, i: nat)
    requires i <= |s|
    ensures StartsWith(s[i..], p) <==> MatchAt(s, p, i)
  {
    if i + |p| <= |s| {
      assert s[i..][..|p|] == s[i..i + |p|];
    }
  }

  lemma RestoreLiteral(d: Dirs, s: string, i: nat)
    requires d.Valid() && i < |s| && !MatchAt(s, d.state, i) && !MatchAt(s, d.System(), i)
    ensures Restore(d, s[i..]) == [s[i]] + Restore(d, s[i + 1..])
  {
    SuffixMatch(s, d.state, i);
    SuffixMatch(s, d.System(), i);
    assert s[i..][1..] == s[i + 1..];
  }

  lemma {:induction false} PlainStretch(d: Dirs, s: string, i: nat, j: nat)
    requires d.Valid() && i <= j <= |s|
    requires forall k | i <= k < j :: !MatchAt(s, d.state, k)
    requires forall k | i <= k < j :: !MatchAt(s, d.System(), k)
    ensures Restore(d, s[i..]) == s[i..j] + Restore(d, s[j..])
    decreases j - i
  {
    hide *;
    if i < j {
      RestoreLiteral(d, s, i);
      PlainStretch(d, s, i + 1, j);
      Regroup([s[i]], s[i + 1..j], Restore(d, s[j..]));
      assert s[i..j] == [s[i]] + s[i + 1..j];
    } else {
      assert s[i..j] == "";
      Nothing(Restore(d, s[j..]));
    }
  }

  lemma RestoreState(d: Dirs, s: string, i: nat)
    requires d.Valid() && MatchAt(s, d.state, i)
    ensures i + |d.state| <= |s|
    ensures Restore(d, s[i..]) == URI + Restore(d, DropSlash(s[i + |d.state|..]))
  {
    SuffixMatch(s, d.state, i);
    assert s[i..][|d.state|..] == s[i + |d.state|..];
  }

  lemma RestoreSystem(d: Dirs, s: string, i: nat)
    requires d.Valid() && MatchAt(s, d.System(), i) && !MatchAt(s, d.state, i)
    ensures var j := i + |d.System()|;
            Restore(d, s[i..]) ==
            URI + SYSTEM + if j < |s| && s[j] == '/' then "/" + Restore(d, s[j + 1..]) else Restore(d, s[j..])
  {
    SuffixMatch(s, d.state, i);
    SuffixMatch(s, d.System(), i);
    var j := i + |d.System()|;
    assert s[i..][|d.System()|..] == s[j..];
    assert j < |s| ==> s[j..][1..] == s[j + 1..];
  }

  lemma RestoreEmpty(d: Dirs, s: string)
    requires d.Valid()
    ensures Restore(d, s[|s|..]) == "" && Restore(d, "") == ""
  {
  }

  lemma MatchBounds(s: string, p: string, i: nat)
    requires MatchAt(s, p, i)
    ensures i + |p| <= |s|
  {
  }
}
