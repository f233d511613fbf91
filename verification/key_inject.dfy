/**
  Injected keys: escaped text from the control socket, the escaping it undoes, and the buffer the
  keys wait in.
*/
module KeyInject {
  import opened Wrappers
  import opened Sequences
  import Input

  type bytes = seq<Input.byte>

  const BACKSLASH: Input.byte := 0x5C
  const QUOTE: Input.byte := 0x22

  // ----- Escaping, as the pretty printer does it

  function HexDigit(n: nat): Input.byte
    requires n < 16
  {
    if n < 10 then 0x30 + n else 0x61 + n - 10
  }

  function EscapeOne(c: Input.byte): bytes {
    if c == 0x0A then [BACKSLASH, 'n' as int]
    else if c == 0x0D then [BACKSLASH, 'r' as int]
    else if c == 0x09 then [BACKSLASH, 't' as int]
    else if c == BACKSLASH then [BACKSLASH, BACKSLASH]
    else if c == QUOTE then [BACKSLASH, QUOTE]
    else if c < 32 || c == 127 then [BACKSLASH, 'x' as int, HexDigit((c as nat) / 16), HexDigit((c as nat) % 16)]
    else [c]
  }

  function Escape(s: bytes): bytes {
    if s == [] then [] else EscapeOne(s[0]) + Escape(s[1..])
  }

  method PrintEscaped(s: bytes) returns (out: bytes)
    ensures out == Escape(s)
  {
    out := [];
    var i := 0;
    while i < |s|
      invariant 0 <= i <= |s|
      invariant out + Escape(s[i..]) == Escape(s)
    {
      var c := s[i];
      assert s[i..][1..] == s[i + 1..];
      assert out + (EscapeOne(c) + Escape(s[i + 1..])) == out + EscapeOne(c) + Escape(s[i + 1..]);
      out := out + EscapeOne(c);
      i := i + 1;
    }
  }

  // ----- Unescaping

  /** A digit in base 16, or -1. */
  function HexValue(c: Input.byte): (v: int)
    ensures -1 <= v < 16
  {
    if 0x30 <= c <= 0x39 then c - 0x30
    else if 0x61 <= c <= 0x66 then c - 0x61 + 10
    else if 0x41 <= c <= 0x46 then c - 0x41 + 10
    else -1
  }

  /** strtol on two characters, when it consumes both: white space and a sign may come first. */
  function HexPair(a: Input.byte, b: Input.byte): Option<Input.byte> {
    if HexValue(b) < 0 then None
    else if HexValue(a) >= 0 then Some(HexValue(a) * 16 + HexValue(b))
    else if a == 0x20 || 0x09 <= a <= 0x0D || a == 0x2B then Some(HexValue(b))
    else if a == 0x2D then Some((256 - HexValue(b)) % 256)
    else None
  }

  /** The byte an escape at the start stands for, and its length; None when it is none. */
  function Escaped(s: bytes): (r: Option<(Input.byte, nat)>)
    requires |s| >= 2
    ensures r.Some? ==> 2 <= r.value.1 <= |s|
  {
    if s[1] == 'r' as int then Some((0x0D, 2))
    else if s[1] == 'n' as int then Some((0x0A, 2))
    else if s[1] == 't' as int then Some((0x09, 2))
    else if s[1] == BACKSLASH then Some((BACKSLASH, 2))
    else if s[1] == 'x' as int && |s| > 3 && HexPair(s[2], s[3]).Some? then Some((HexPair(s[2], s[3]).value, 4))
    else None
  }

  /** A backslash that starts no escape stands for itself. */
  function Unescape(s: bytes): (r: bytes)
    ensures |r| <= |s|
  {
    if s == [] then []
    else if s[0] == BACKSLASH && |s| > 1 && Escaped(s).Some? then
      [Escaped(s).value.0] + Unescape(s[Escaped(s).value.1..])
    else [s[0]] + Unescape(s[1..])
  }

  /** The key at `i` and the number of bytes it takes. */
  method OneKey(input: bytes, i: nat) returns (key: Input.byte, n: nat)
    requires i < |input|
    ensures 0 < n <= |input| - i
    ensures Unescape(input[i..]) == [key] + Unescape(input[i + n..])
  {
    Unfold(input, i);
    hide Unescape;
    if input[i] != BACKSLASH || i + 1 >= |input| {
      return input[i], 1;
    }
    var next := input[i + 1];
    if next == 'r' as int {
      return 0x0D, 2;
    } else if next == 'n' as int {
      return 0x0A, 2;
    } else if next == 't' as int {
      return 0x09, 2;
    } else if next == BACKSLASH {
      return BACKSLASH, 2;
    } else if next == 'x' as int && i + 3 < |input| {
      var pair := HexPair(input[i + 2], input[i + 3]);
      if pair.Some? {
        return pair.value, 4;
      }
    }
    return input[i], 1;
  }

  method StoreKey(result: array<Input.byte>, at: nat, key: Input.byte)
    requires at < result.Length
    modifies result
    ensures result[..at + 1] == old(result[..at]) + [key]
  {
    result[at] := key;
  }

  lemma NoKeys(input: bytes)
    ensures input[0..] == input && Unescape(input[|input|..]) == []
  {
  }

  /** The output array is as long as the input, and long enough. */
  method UnescapeKeys(input: bytes) returns (out: bytes)
    ensures out == Unescape(input)
  {
    var result := new Input.byte[|input|];
    var outPos: nat, i: nat := 0, 0;
    hide *;
    Nothing(Unescape(input));
    NoKeys(input);
    while i < |input|
      invariant outPos <= i <= |input|
      invariant result[..outPos] + Unescape(input[i..]) == Unescape(input)
      decreases |input| - i
    {
      ghost var was := result[..outPos];
      var key, n := OneKey(input, i);
      Regroup(was, [key], Unescape(input[i + n..]));
      StoreKey(result, outPos, key);
      outPos, i := outPos + 1, i + n;
    }
    Nothing(result[..outPos]);
    return result[..outPos];
  }

  lemma Unfold(s: bytes, i: nat)
    requires i < |s|
    ensures Unescape(s[i..]) ==
            if s[i] == BACKSLASH && i + 1 < |s| && Escaped(s[i..]).Some?
            then [Escaped(s[i..]).value.0] + Unescape(s[i + Escaped(s[i..]).value.1..])
            else [s[i]] + Unescape(s[i + 1..])
  {
    if s[i] == BACKSLASH && i + 1 < |s| && Escaped(s[i..]).Some? {
      var n := Escaped(s[i..]).value.1;
      assert s[i..][n..] == s[i + n..];
    }
    assert s[i..][1..] == s[i + 1..];
  }

  // ----- The two directions

  lemma PlainByte(c: Input.byte, rest: bytes)
    requires c != BACKSLASH
    ensures Unescape([c] + rest) == [c] + Unescape(rest)
  {
    assert ([c] + rest)[1..] == rest;
  }

  lemma HexPrinted(c: Input.byte)
    ensures HexPair(HexDigit((c as nat) / 16), HexDigit((c as nat) % 16)) == Some(c)
  {
  }

  lemma EscapeReads(c: Input.byte, rest: bytes)
    requires c != QUOTE && EscapeOne(c) != [c]
    ensures var s := EscapeOne(c) + rest;
            s[0] == BACKSLASH && |s| >= 2 && Escaped(s) == Some((c, |EscapeOne(c)|))
  {
    HexPrinted(c);
    hide HexPair, HexDigit;
  }

  /** One printed byte is read back, whatever follows; only a quote keeps its backslash. */
  lemma OneBack(c: Input.byte, rest: bytes)
    ensures Unescape(EscapeOne(c) + rest) == (if c == QUOTE then [BACKSLASH, QUOTE] else [c]) + Unescape(rest)
  {
    var e := EscapeOne(c);
    var s := e + rest;
    assert s[|e|..] == rest;
    if c == QUOTE {
      PlainByte(QUOTE, rest);
      assert s[1..] == [QUOTE] + rest;
      assert Escaped(s).None?;
      Regroup([BACKSLASH], [QUOTE], Unescape(rest));
    } else if e == [c] {
      PlainByte(c, rest);
    } else {
      EscapeReads(c, rest);
    }
  }

  function Quotes(s: bytes): nat {
    if s == [] then 0 else Quotes(s[1..]) + if s[0] == QUOTE then 1 else 0
  }

  lemma {:induction false} BackLength(s: bytes)
    ensures |Unescape(Escape(s))| == |s| + Quotes(s)
  {
    if s != [] {
      OneBack(s[0], Escape(s[1..]));
      BackLength(s[1..]);
    }
  }

  lemma {:induction false} QuotesCounted(s: bytes)
    ensures Quotes(s) == 0 <==> QUOTE !in s
  {
    if s != [] {
      QuotesCounted(s[1..]);
    }
  }

  /** What was printed is read back exactly when it holds no double quote. */
  lemma {:induction false} EscapeRoundTrip(s: bytes)
    ensures Unescape(Escape(s)) == s <==> QUOTE !in s
  {
    BackLength(s);
    QuotesCounted(s);
    if QUOTE !in s && s != [] {
      OneBack(s[0], Escape(s[1..]));
      EscapeRoundTrip(s[1..]);
    }
  }

  /** `c` writes the digit `v` in base 16, in either case. */
  ghost predicate WritesDigit(c: Input.byte, v: nat) {
    || ('0' as int <= c <= '9' as int && v == c - '0' as int)
    || ('a' as int <= c <= 'f' as int && v == c - 'a' as int + 10)
    || ('A' as int <= c <= 'F' as int && v == c - 'A' as int + 10)
  }

  /** Two digits stand for a byte, in lower or upper case. */
  lemma HexReads(a: Input.byte, b: Input.byte, v: nat, w: nat, rest: bytes)
    requires WritesDigit(a, v) && WritesDigit(b, w)
    ensures Unescape([BACKSLASH, 'x' as int, a, b] + rest) == [v * 16 + w] + Unescape(rest)
  {
    var s := [BACKSLASH, 'x' as int, a, b] + rest;
    assert s[4..] == rest;
    assert HexPair(a, b) == Some(v * 16 + w);
    assert Escaped(s) == Some((v * 16 + w, 4));
  }

  /** The escapes by letter, and a backslash in front of anything else. */
  lemma LettersRead(c: Input.byte, rest: bytes)
    requires c != 'x' as int
    ensures Unescape([BACKSLASH, c] + rest) ==
            if c == 'n' as int then [10] + Unescape(rest)
            else if c == 'r' as int then [13] + Unescape(rest)
            else if c == 't' as int then [9] + Unescape(rest)
            else if c == 92 then [92] + Unescape(rest)
            else [92] + Unescape([c] + rest)
  {
    var s := [BACKSLASH, c] + rest;
    assert s[2..] == rest && s[1..] == [c] + rest;
  }

  /** How a byte is printed. */
  lemma PrintedAs(c: Input.byte)
    ensures c == 10 ==> Escape([c]) == [92, 'n' as int]
    ensures c == 13 ==> Escape([c]) == [92, 'r' as int]
    ensures c == 9 ==> Escape([c]) == [92, 't' as int]
    ensures c == 92 || c == 34 ==> Escape([c]) == [92, c]
    ensures 32 <= c && c != 92 && c != 34 && c != 127 ==> Escape([c]) == [c]
  {
    assert Escape([]) == [] && [c][1..] == [];
    Nothing(EscapeOne(c));
  }

  // ----- The buffer

  class InjectBuffer {
    var data: array<Input.byte>
    var len: nat
    var readPos: nat

    ghost predicate Valid()
      reads this
    {
      data.Length > 0 && len <= data.Length && readPos <= len && (len > 0 ==> readPos < len)
    }

    /** The keys still waiting. */
    ghost function Waiting(): bytes
      requires Valid()
      reads this, data
    {
      data[readPos..len]
    }

    constructor ()
      ensures Valid() && Waiting() == [] && fresh(data)
    {
      data := new Input.byte[256](_ => 0);
      len, readPos := 0, 0;
    }

    method Grow()
      requires Valid()
      modifies this`data
      ensures Valid() && fresh(data) && data.Length == 2 * old(data.Length) && data[..len] == old(data[..len])
    {
      var wider := new Input.byte[data.Length * 2](_ => 0);
      var i := 0;
      while i < len
        invariant 0 <= i <= len && wider[..i] == data[..i]
        modifies wider
      {
        wider[i] := data[i];
        i := i + 1;
      }
      data := wider;
    }

    method Append(raw: bytes)
      requires Valid()
      modifies this, data
      ensures Valid() && (data == old(data) || fresh(data)) && Waiting() == old(Waiting()) + raw
    {
      while len + |raw| > data.Length
        invariant Valid() && len == old(len) && readPos == old(readPos)
        invariant (data == old(data) || fresh(data)) && data[..len] == old(data[..len])
        decreases len + |raw| - data.Length
      {
        Grow();
      }
      ghost var was := data[..len];
      Store(raw);
      len := len + |raw|;
      assert data[readPos..len] == data[..len][readPos..] == was[readPos..] + raw;
    }

    method Store(raw: bytes)
      requires len + |raw| <= data.Length
      modifies data
      ensures data[..len + |raw|] == old(data[..len]) + raw
    {
      var i := 0;
      while i < |raw|
        invariant 0 <= i <= |raw| && data[..len + i] == old(data[..len]) + raw[..i]
      {
        data[len + i] := raw[i];
        i := i + 1;
      }
    }

    method Drain() returns (key: Option<Input.byte>)
      requires Valid()
      modifies this`readPos, this`len
      ensures Valid() && (Waiting(), key) == Taken(old(Waiting()))
    {
      if readPos >= len {
        return None;
      }
      key := Some(data[readPos]);
      assert Waiting()[1..] == data[readPos + 1..len];
      readPos := readPos + 1;
      if readPos == len {
        readPos, len := 0, 0;
      }
    }

    method Pending() returns (n: nat)
      requires Valid()
      ensures n == |Waiting()|
    {
      return len - readPos;
    }
  }

  function Taken(q: bytes): (bytes, Option<Input.byte>) {
    if q == [] then (q, None) else (q[1..], Some(q[0]))
  }

  datatype Use = Put(raw: bytes) | Get

  /** What waits after a run of appends and drains, and what was drained. */
  function Used(q: bytes, uses: seq<Use>): (bytes, bytes)
    decreases |uses|
  {
    if uses == [] then (q, [])
    else if uses[0].Put? then Used(q + uses[0].raw, uses[1..])
    else
      var (rest, key) := Taken(q);
      var (left, keys) := Used(rest, uses[1..]);
      (left, (if key.Some? then [key.value] else []) + keys)
  }

  function AllPut(uses: seq<Use>): bytes {
    if uses == [] then [] else (if uses[0].Put? then uses[0].raw else []) + AllPut(uses[1..])
  }

  /** Keys come out in order, each once: drained and waiting together are all that was put in. */
  lemma {:induction false} InOrderOnce(q: bytes, uses: seq<Use>)
    ensures Used(q, uses).1 + Used(q, uses).0 == q + AllPut(uses)
    decreases |uses|
  {
    if uses == [] {
      Nothing(q);
    } else if uses[0].Put? {
      InOrderOnce(q + uses[0].raw, uses[1..]);
      Regroup(q, uses[0].raw, AllPut(uses[1..]));
    } else {
      var (rest, key) := Taken(q);
      InOrderOnce(rest, uses[1..]);
      var first := if key.Some? then [key.value] else [];
      Nothing(AllPut(uses[1..]));
      Regroup(first, Used(rest, uses[1..]).1, Used(rest, uses[1..]).0);
      assert q == first + rest;
      Regroup(first, rest, AllPut(uses[1..]));
    }
  }
}
