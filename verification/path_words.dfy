/**
  Where a URI is one: the character in front of it decides, and every ik:// of a text is met.
*/
module PathWords {
  import opened Sequences
  import opened Paths

  const LOWER := "abcdefghijklmnopqrstuvwxyz"
  const UPPER := "ABCDEFGHIJKLMNOPQRSTUVWXYZ"
  const DIGITS := "0123456789"

  lemma LowerCase(c: char)
    ensures 'a' <= c <= 'z' <==> c in LOWER
  {
    if 'a' <= c <= 'z' {
      assert c in ['a', 'b', 'c', 'd', 'e', 'f', 'g', 'h', 'i', 'j', 'k', 'l', 'm',
                   'n', 'o', 'p', 'q', 'r', 's', 't', 'u', 'v', 'w', 'x', 'y', 'z'];
    }
  }

  lemma UpperCase(c: char)
    ensures 'A' <= c <= 'Z' <==> c in UPPER
  {
    if 'A' <= c <= 'Z' {
      assert c in ['A', 'B', 'C', 'D', 'E', 'F', 'G', 'H', 'I', 'J', 'K', 'L', 'M',
                   'N', 'O', 'P', 'Q', 'R', 'S', 'T', 'U', 'V', 'W', 'X', 'Y', 'Z'];
    }
  }

  lemma WordCharacters(c: char)
    ensures IsWord(c) <==> c in LOWER || c in UPPER || c in DIGITS || c == '_'
  {
    LowerCase(c);
    UpperCase(c);
    assert '0' <= c <= '9' <==> c in DIGITS;
  }

  ghost predicate SchemeAt(s: string, i: nat) {
    i + 5 <= |s| && s[i..i + 5] == "ik://"
  }

  ghost predicate BehindWord(s: string, i: nat)
    requires i <= |s|
  {
    i > 0 && (s[i - 1] in LOWER || s[i - 1] in UPPER || s[i - 1] in DIGITS || s[i - 1] == '_')
  }

  ghost predicate NamesSystem(s: string, i: nat) {
    i + 11 <= |s| && s[i + 5..i + 11] == "system" && (i + 11 == |s| || s[i + 11] == '/')
  }

  /**
    An ik:// behind a letter, a digit or an underscore is copied; any other becomes a directory: the
    system directory if the whole first part of its path is "system", and otherwise the state
    directory, with a slash if neither side brings one.
  */
  lemma SchemeBecomes(d: Dirs, s: string, i: nat)
    requires d.Valid() && SchemeAt(s, i)
    ensures BehindWord(s, i) ==> Rewrite(d, s, i) == "ik://" + Rewrite(d, s, i + 5)
    ensures !BehindWord(s, i) && NamesSystem(s, i) ==> Rewrite(d, s, i) == d.data + "/system" + Rewrite(d, s, i + 11)
    ensures !BehindWord(s, i) && !NamesSystem(s, i) ==>
              Rewrite(d, s, i) ==
              d.state + (if i + 5 < |s| && s[i + 5] != '/' && d.state[|d.state| - 1] != '/' then "/" else "") +
              Rewrite(d, s, i + 5)
  {
    if i > 0 {
      WordCharacters(s[i - 1]);
    }
    if BehindWord(s, i) {
      forall k | i <= k < i + 5 ensures !UriAt(s, k) {
        if i < k { NoOverlap(s, i, k); }
      }
      PlainRun(d, s, i, i + 5);
    } else if NamesSystem(s, i) {
      assert SystemAt(s, i) && d.System() == d.data + "/system";
    } else {
      assert UriAt(s, i) && !SystemAt(s, i);
    }
  }

  /** Every other character is copied. */
  lemma RestIsCopied(d: Dirs, s: string, i: nat)
    requires d.Valid() && i < |s| && !SchemeAt(s, i)
    ensures Rewrite(d, s, i) == [s[i]] + Rewrite(d, s, i + 1)
  {
    LiteralStep(d, s, i);
  }

  /** No ik:// of the text is stepped over: the translation arrives at each of them. */
  lemma {:induction false} SchemeIsMet(d: Dirs, s: string, j: nat, i: nat) returns (front: string)
    requires d.Valid() && SchemeAt(s, i) && j <= i
    ensures Rewrite(d, s, j) == front + Rewrite(d, s, i)
    decreases i - j
  {
    if j == i {
      front := "";
      Nothing(Rewrite(d, s, i));
    } else {
      if MatchAt(s, URI, j) && (i < j + 5 || (i < j + 11 && MatchAt(s, SYSTEM, j + 5))) {
        NoOverlap(s, j, i);
      }
      var more, here, next := "", "", j;
      if SystemAt(s, j) {
        here, next := d.System(), j + 11;
      } else if UriAt(s, j) {
        here, next := d.state + Slash(d, s, j + 5), j + 5;
      } else {
        here, next := [s[j]], j + 1;
      }
      assert Rewrite(d, s, j) == here + Rewrite(d, s, next);
      hide *;
      more := SchemeIsMet(d, s, next, i);
      front := here + more;
      Regroup(here, more, Rewrite(d, s, i));
    }
  }

  /** The whole translation around one ik://: something for what stands in front, then what it becomes. */
  lemma EverySchemeBecomes(d: Dirs, s: string, i: nat) returns (front: string)
    requires d.Valid() && SchemeAt(s, i)
    ensures BehindWord(s, i) ==> Rewrite(d, s, 0) == front + ("ik://" + Rewrite(d, s, i + 5))
    ensures !BehindWord(s, i) && NamesSystem(s, i) ==>
              Rewrite(d, s, 0) == front + (d.data + "/system" + Rewrite(d, s, i + 11))
    ensures !BehindWord(s, i) && !NamesSystem(s, i) ==>
              Rewrite(d, s, 0) ==
              front + (d.state + (if i + 5 < |s| && s[i + 5] != '/' && d.state[|d.state| - 1] != '/' then "/" else "") +
                       Rewrite(d, s, i + 5))
  {
    SchemeBecomes(d, s, i);
    front := SchemeIsMet(d, s, 0, i);
  }

  /** A text whose every ik:// stands inside a word is left alone. */
  lemma {:induction false} WordsAreLeftAlone(d: Dirs, s: string, j: nat)
    requires d.Valid() && j <= |s|
    requires forall i | 0 <= i < |s| && SchemeAt(s, i) :: BehindWord(s, i)
    ensures Rewrite(d, s, j) == s[j..]
    decreases |s| - j
  {
    forall k | j <= k < |s| ensures !UriAt(s, k) {
      if UriAt(s, k) {
        assert SchemeAt(s, k);
        WordCharacters(s[k - 1]);
      }
    }
    PlainRun(d, s, j, |s|);
    EndOfText(d, s);
    Nothing(s[j..]);
    assert s[j..|s|] == s[j..];
  }
}
