/**
  The command history: a bounded list in which a repeated entry moves to the end.
*/
module History {
  import opened Wrappers
  import opened Sequences

  /** The list after one `add`. */
  function Added(h: seq<string>, capacity: nat, entry: string): seq<string> {
    if entry == "" || (h != [] && h[|h| - 1] == entry) then h
    else if entry in h then Dropped(h, entry) + [entry]
    else if |h| == capacity && |h| > 0 then h[1..] + [entry]
    else h + [entry]
  }

  function IndexFrom(h: seq<string>, entry: string, i: nat): (k: nat)
    requires i <= |h|
    ensures i <= k <= |h| && (k < |h| ==> h[k] == entry)
    ensures forall j | i <= j < k :: h[j] != entry
    decreases |h| - i
  {
    if i == |h| || h[i] == entry then i else IndexFrom(h, entry, i + 1)
  }

  /** The list without the first occurrence of an entry. */
  function Dropped(h: seq<string>, entry: string): seq<string> {
    var k := IndexFrom(h, entry, 0);
    if k == |h| then h else h[..k] + h[k + 1..]
  }

  function AddedAll(h: seq<string>, capacity: nat, stream: seq<string>): seq<string>
    decreases |stream|
  {
    if stream == [] then h else AddedAll(Added(h, capacity, stream[0]), capacity, stream[1..])
  }

  // ----- The meaning of a history

  /** Each non-empty entry at its last occurrence. */
  function LastOccurrences(stream: seq<string>): seq<string> {
    if stream == [] then []
    else if stream[0] == "" || stream[0] in stream[1..] then LastOccurrences(stream[1..])
    else [stream[0]] + LastOccurrences(stream[1..])
  }

  function LastN(s: seq<string>, n: nat): seq<string> {
    if |s| <= n then s else s[|s| - n..]
  }

  ghost predicate NoDuplicates(h: seq<string>) {
    forall i, j | 0 <= i < j < |h| :: h[i] != h[j]
  }

  lemma {:induction false} LastOccurrencesIsExact(stream: seq<string>, e: string)
    ensures e in LastOccurrences(stream) <==> e != "" && e in stream
    ensures NoDuplicates(LastOccurrences(stream))
  {
    if stream != [] {
      LastOccurrencesIsExact(stream[1..], e);
      assert stream == [stream[0]] + stream[1..];
      if stream[0] != "" && stream[0] !in stream[1..] {
        LastOccurrencesIsExact(stream[1..], stream[0]);
      }
    }
  }

  function Without(h: seq<string>, e: string): seq<string> {
    if h == [] then [] else (if h[0] == e then [] else [h[0]]) + Without(h[1..], e)
  }

  lemma {:induction false} WithoutAbsent(h: seq<string>, e: string)
    requires e !in h
    ensures Without(h, e) == h
  {
    if h != [] {
      WithoutAbsent(h[1..], e);
    }
  }

  lemma {:induction false} WithoutSplit(a: seq<string>, b: seq<string>, e: string)
    ensures Without(a + b, e) == Without(a, e) + Without(b, e)
  {
    if a == [] {
      assert a + b == b;
    } else {
      WithoutSplit(a[1..], b, e);
      assert (a + b)[1..] == a[1..] + b;
      Regroup(if a[0] == e then [] else [a[0]], Without(a[1..], e), Without(b, e));
    }
  }

  lemma DroppedIsWithout(h: seq<string>, e: string)
    requires NoDuplicates(h)
    ensures Dropped(h, e) == Without(h, e)
    ensures |Dropped(h, e)| == if e in h then |h| - 1 else |h|
  {
    var k := IndexFrom(h, e, 0);
    if k == |h| {
      WithoutAbsent(h, e);
    } else {
      assert h[k] in h;
      WithoutAt(h, e, k);
    }
  }

  lemma {:induction false} WithoutAt(h: seq<string>, e: string, k: nat)
    requires k < |h| && h[k] == e && forall i | 0 <= i < |h| && i != k :: h[i] != e
    ensures Without(h, e) == h[..k] + h[k + 1..]
  {
    if k == 0 {
      WithoutAbsent(h[1..], e);
    } else {
      WithoutAt(h[1..], e, k - 1);
      assert h[..k] + h[k + 1..] == [h[0]] + (h[1..][..k - 1] + h[1..][k..]);
    }
  }

  /** One more entry moves to the end. */
  lemma {:induction false} LastOccurrencesSnoc(stream: seq<string>, e: string)
    ensures LastOccurrences(stream + [e]) ==
            if e == "" then LastOccurrences(stream) else Without(LastOccurrences(stream), e) + [e]
  {
    if stream == [] {
      assert [] + [e] == [e] && [e][1..] == [];
    } else {
      var x, rest := stream[0], stream[1..];
      var w := LastOccurrences(rest);
      assert stream == [x] + rest;
      LastOccurrencesSnoc(rest, e);
      LastFirst(x, rest);
      LastFirst(x, rest + [e]);
      WithoutFirst(x, w, e);
      assert x in rest + [e] <==> x in rest || x == e;
      hide *;
      Regroup([x], rest, [e]);
      Regroup([x], Without(w, e), [e]);
      Nothing(Without(w, e));
    }
  }

  lemma LastFirst(x: string, rest: seq<string>)
    ensures LastOccurrences([x] + rest) ==
            if x == "" || x in rest then LastOccurrences(rest) else [x] + LastOccurrences(rest)
  {
    assert ([x] + rest)[1..] == rest;
  }

  lemma WithoutFirst(x: string, rest: seq<string>, e: string)
    ensures Without([x] + rest, e) == (if x == e then [] else [x]) + Without(rest, e)
  {
    assert ([x] + rest)[1..] == rest;
  }

  lemma LastNExact(x: seq<string>, y: seq<string>, n: nat)
    requires |y| == n || (x == [] && |y| <= n)
    ensures LastN(x + y, n) == y
  {
  }

  /** What adding does to a list without duplicates. */
  lemma AddedMoves(w: seq<string>, capacity: nat, e: string)
    requires NoDuplicates(w) && e != ""
    ensures e in w ==> Added(w, capacity, e) == Without(w, e) + [e] && |Without(w, e)| == |w| - 1
    ensures e !in w ==> Added(w, capacity, e) == if |w| == capacity && |w| > 0 then w[1..] + [e] else w + [e]
  {
    DroppedIsWithout(w, e);
    if w != [] && w[|w| - 1] == e {
      var init := w[..|w| - 1];
      assert IndexFrom(w, e, 0) == |w| - 1 && Dropped(w, e) == init + w[|w|..] == init;
      assert w == init + [e];
    }
  }

  lemma PartsApart(out: seq<string>, w: seq<string>, e: string)
    requires NoDuplicates(out + w)
    ensures NoDuplicates(w) && (e in w ==> e !in out)
  {
    var all := out + w;
    forall i, j | 0 <= i < |out| && 0 <= j < |w| ensures out[i] != w[j] {
      assert all[i] == out[i] && all[|out| + j] == w[j];
    }
    forall i, j | 0 <= i < j < |w| ensures w[i] != w[j] {
      assert all[|out| + i] == w[i] && all[|out| + j] == w[j];
    }
  }

  lemma WindowMove(out: seq<string>, w: seq<string>, capacity: nat, e: string)
    requires NoDuplicates(out + w) && e != "" && e in w && (|w| == capacity || (out == [] && |w| < capacity))
    ensures Added(w, capacity, e) == LastN(Without(out + w, e) + [e], capacity)
  {
    PartsApart(out, w, e);
    AddedMoves(w, capacity, e);
    WithoutSplit(out, w, e);
    WithoutAbsent(out, e);
    hide *;
    Regroup(out, Without(w, e), [e]);
    LastNExact(out, Without(w, e) + [e], capacity);
  }

  lemma WindowAppend(out: seq<string>, w: seq<string>, capacity: nat, e: string)
    requires NoDuplicates(out + w) && e != "" && e !in w && capacity > 0
    requires |w| == capacity || (out == [] && |w| < capacity)
    ensures Added(w, capacity, e) == LastN(Without(out + w, e) + [e], capacity)
  {
    PartsApart(out, w, e);
    AddedMoves(w, capacity, e);
    WithoutSplit(out, w, e);
    WithoutAbsent(w, e);
    assert Without([], e) == [];
    hide *;
    var o := Without(out, e);
    Regroup(o, w, [e]);
    if |w| == capacity {
      assert w + [e] == [w[0]] + (w[1..] + [e]);
      Regroup(o, [w[0]], w[1..] + [e]);
      LastNExact(o + [w[0]], w[1..] + [e], capacity);
    } else {
      LastNExact(o, w + [e], capacity);
    }
  }

  /** Adding to the window is the window of adding. */
  lemma WindowAdd(all: seq<string>, capacity: nat, e: string)
    requires NoDuplicates(all) && capacity > 0 && e != ""
    ensures Added(LastN(all, capacity), capacity, e) == LastN(Without(all, e) + [e], capacity)
  {
    var w := LastN(all, capacity);
    var out := all[..|all| - |w|];
    assert all == out + w;
    if e in w {
      WindowMove(out, w, capacity, e);
    } else {
      WindowAppend(out, w, capacity, e);
    }
  }

  /**
    A history is the end of the stream: its last occurrences, as many as fit.  So it holds no entry
    twice.
  */
  lemma {:induction false} HistoryIsTail(done: seq<string>, stream: seq<string>, capacity: nat)
    requires capacity > 0
    ensures AddedAll(LastN(LastOccurrences(done), capacity), capacity, stream) ==
            LastN(LastOccurrences(done + stream), capacity)
    ensures NoDuplicates(LastN(LastOccurrences(done + stream), capacity))
    decreases |stream|
  {
    hide Added, LastOccurrences, LastN, NoDuplicates, Without;
    WindowIsUnique(done + stream, capacity);
    if stream == [] {
      assert done + stream == done;
    } else {
      HistoryStep(done, capacity, stream[0]);
      HistoryIsTail(done + [stream[0]], stream[1..], capacity);
      assert done + [stream[0]] + stream[1..] == done + stream;
    }
  }

  lemma WindowIsUnique(stream: seq<string>, capacity: nat)
    ensures NoDuplicates(LastN(LastOccurrences(stream), capacity))
  {
    LastOccurrencesIsExact(stream, "");
  }

  lemma HistoryStep(done: seq<string>, capacity: nat, e: string)
    requires capacity > 0
    ensures Added(LastN(LastOccurrences(done), capacity), capacity, e) == LastN(LastOccurrences(done + [e]), capacity)
  {
    LastOccurrencesIsExact(done, "");
    LastOccurrencesSnoc(done, e);
    hide LastOccurrences, LastN;
    if e != "" {
      WindowAdd(LastOccurrences(done), capacity, e);
    }
  }

  /** A larger history always ends with the smaller one. */
  lemma LargerExtendsSmaller(stream: seq<string>, small: nat, large: nat)
    requires 0 < small <= large
    ensures var h := AddedAll([], large, stream);
            var g := AddedAll([], small, stream);
            |g| <= |h| && h[|h| - |g|..] == g
  {
    EmptyWindow(small);
    EmptyWindow(large);
    hide *;
    Nothing(stream);
    HistoryIsTail([], stream, small);
    HistoryIsTail([], stream, large);
    LongerWindow(LastOccurrences(stream), small, large);
  }

  lemma EmptyWindow(n: nat)
    ensures LastN(LastOccurrences([]), n) == []
  {
  }

  lemma LongerWindow(s: seq<string>, small: nat, large: nat)
    requires small <= large
    ensures var h, g := LastN(s, large), LastN(s, small); |g| <= |h| && h[|h| - |g|..] == g
  {
  }

  lemma AddedParts(h: seq<string>, capacity: nat, entry: string)
    requires capacity > 0 && entry != "" && !(h != [] && h[|h| - 1] == entry)
    ensures Added(h, capacity, entry) ==
            (if entry in h then Dropped(h, entry) else if |h| == capacity then h[1..] else h) + [entry]
  {
  }

  lemma DroppedParts(h: seq<string>, entry: string)
    ensures var k := IndexFrom(h, entry, 0);
            Dropped(h, entry) == if k == |h| then h else h[..k] + h[k + 1..]
  {
  }

  // ----- The object

  class HistoryList {
    const entries: array<string>
    var count: nat
    var index: nat
    var pending: Option<string>

    ghost predicate Shape()
      reads this
    {
      0 < entries.Length && count <= entries.Length
    }

    ghost predicate Valid()
      reads this
    {
      Shape() && index <= count + 1
    }

    ghost function Contents(): seq<string>
      requires Shape()
      reads this, entries
    {
      entries[..count]
    }

    constructor (capacity: nat)
      requires capacity > 0
      ensures Valid() && Contents() == [] && entries.Length == capacity && index == 0 && pending.None?
    {
      entries := new string[capacity](_ => "");
      count, index, pending := 0, 0, None;
    }

    /** Closes the gap at `at`. */
    method ShiftDown(at: nat)
      requires Shape() && at < count
      modifies this`count, entries
      ensures count == old(count) - 1
      ensures entries[..count] == old(entries[..at] + entries[at + 1..count])
    {
      var i := at;
      while i < count - 1
        invariant at <= i <= count - 1 && count == old(count) <= entries.Length
        invariant entries[..at] == old(entries[..at])
        invariant forall k | at <= k < i :: entries[k] == old(entries[k + 1])
        invariant forall k | i <= k < count :: entries[k] == old(entries[k])
      {
        entries[i] := entries[i + 1];
        i := i + 1;
      }
      count := count - 1;
      ghost var goal := old(entries[..at] + entries[at + 1..count]);
      forall k | 0 <= k < count ensures entries[k] == goal[k] {
        if k < at {
          assert entries[k] == entries[..at][k] == goal[k];
        } else {
          assert entries[k] == old(entries[k + 1]);
        }
      }
    }

    method StopBrowsing()
      modifies this`index, this`pending
      ensures index == count && pending.None?
    {
      index, pending := count, None;
    }

    method Add(entry: string)
      requires Valid()
      modifies this, entries
      ensures Valid() && Contents() == Added(old(Contents()), entries.Length, entry)
      ensures entry != "" ==> index == count && pending.None?
      ensures entry == "" ==> index == old(index) && pending == old(pending)
    {
      if entry == "" {
        return;
      }
      if count > 0 && entries[count - 1] == entry {
        StopBrowsing();
        return;
      }
      AddedParts(Contents(), entries.Length, entry);
      hide Dropped, IndexFrom, Added;
      MakeRoom(entry);
      Append(entry);
      StopBrowsing();
    }

    /** The entry itself goes if it is there, or else the oldest one if the list is full. */
    method MakeRoom(entry: string)
      requires Shape()
      modifies this`count, entries
      ensures Shape() && count < entries.Length
      ensures Contents() == var h := old(Contents());
                            if entry in h then Dropped(h, entry) else if |h| == entries.Length then h[1..] else h
    {
      var i := IndexOf(entry);
      DroppedParts(Contents(), entry);
      hide Dropped, IndexFrom;
      if i < count {
        ShiftDown(i);
      } else if count == entries.Length {
        ShiftDown(0);
      }
    }

    method IndexOf(entry: string) returns (i: nat)
      requires Shape()
      ensures i == IndexFrom(Contents(), entry, 0)
      ensures i < count <==> entry in Contents()
    {
      i := 0;
      while i < count && entries[i] != entry
        invariant 0 <= i <= count && IndexFrom(Contents(), entry, 0) == IndexFrom(Contents(), entry, i)
      {
        assert entries[i] == Contents()[i];
        i := i + 1;
      }
      assert i < count ==> entries[i] == Contents()[i];
    }

    method Append(entry: string)
      requires Shape() && count < entries.Length
      modifies this`count, entries
      ensures count == old(count) + 1 && entries[..count] == old(Contents()) + [entry]
    {
      entries[count] := entry;
      count := count + 1;
    }

    method StartBrowsing(input: string)
      requires Valid()
      modifies this`index, this`pending
      ensures Valid() && pending == Some(input) && index == if count == 0 then 0 else count - 1
    {
      pending := Some(input);
      index := if count == 0 then 0 else count - 1;
    }

    method Prev() returns (r: Option<string>)
      requires Valid()
      modifies this`index
      ensures Valid() && (index, r) == Older(Contents(), old(index))
    {
      if index >= count || index == 0 {
        return None;
      }
      index := index - 1;
      return Some(entries[index]);
    }

    method Next() returns (r: Option<string>)
      requires Valid()
      modifies this`index
      ensures Valid() && (index, r) == Newer(Contents(), old(index), pending)
    {
      if index > count {
        return None;
      }
      index := index + 1;
      if index > count {
        return None;
      }
      return if index < count then Some(entries[index]) else pending;
    }

    method GetCurrent() returns (r: Option<string>)
      requires Valid()
      ensures r == if index < |Contents()| then Some(Contents()[index]) else pending
    {
      return if index >= count then pending else Some(entries[index]);
    }
  }

  function Older(h: seq<string>, index: nat): (nat, Option<string>) {
    if 0 < index < |h| then (index - 1, Some(h[index - 1])) else (index, None)
  }

  function Newer(h: seq<string>, index: nat, pending: Option<string>): (nat, Option<string>) {
    if index > |h| then (index, None)
    else if index + 1 < |h| then (index + 1, Some(h[index + 1]))
    else if index < |h| then (index + 1, pending)
    else (index + 1, None)
  }

  function Olders(h: seq<string>, index: nat, n: nat): nat {
    if n == 0 then index else Olders(h, Older(h, index).0, n - 1)
  }

  function Newers(h: seq<string>, index: nat, pending: Option<string>, n: nat): nat
    decreases n
  {
    if n == 0 then index else Newers(h, Newer(h, index, pending).0, pending, n - 1)
  }

  /** Going up `n` entries shows them newest first; as many steps down come back, one more to the input. */
  lemma {:induction false} UpAndDown(h: seq<string>, index: nat, pending: Option<string>, n: nat)
    requires n <= index < |h|
    ensures Olders(h, index, n) == index - n
    ensures Newers(h, index - n, pending, n) == index
    ensures n < index ==> Older(h, Olders(h, index, n)) == (index - n - 1, Some(h[index - n - 1]))
    ensures n > 0 ==> Newer(h, index - n, pending) == (index - n + 1, Some(h[index - n + 1]))
    ensures index == |h| - 1 ==> Newer(h, Newers(h, index - n, pending, n), pending) == (|h|, pending)
    ensures Newer(h, |h|, pending) == (|h| + 1, None) && Older(h, 0) == (0, None)
  {
    if n > 0 {
      UpAndDown(h, index - 1, pending, n - 1);
      DownOne(h, index - n, pending, n);
    }
  }

  /** The last of `n` steps down. */
  lemma {:induction false} DownOne(h: seq<string>, index: nat, pending: Option<string>, n: nat)
    requires 0 < n && index + n < |h|
    ensures Newers(h, index, pending, n) == index + n
    decreases n
  {
    if n > 1 {
      DownOne(h, index + 1, pending, n - 1);
    }
  }
}
