/**
  The input parser: one byte in, one action out.  `Step` is its meaning on a parser value; UTF-8
  follows section 3 of RFC 3629.
*/
module Input {
  import opened Wrappers
  import opened Sequences

  type byte = b: int | 0 <= b < 256

  datatype Action =
    | Char(codepoint: int)
    | Newline | InsertNewline | Backspace | Delete
    | ArrowLeft | ArrowRight | ArrowUp | ArrowDown
    | PageUp | PageDown | ScrollUp | ScrollDown
    | CtrlA | CtrlC | CtrlE | CtrlK | CtrlN | CtrlP | CtrlU | CtrlW
    | Tab | Escape
    | NavPrevSibling | NavNextSibling | NavParent | NavChild
    | Unknown

  datatype Parser = Parser(inEscape: bool, esc: seq<byte>, inUtf8: bool, utf8: seq<byte>, expected: nat)

  const GROUND := Parser(false, [], false, [], 0)

  const ESC_BUF_SIZE := 16
  const REPLACEMENT := 0xFFFD

  // ----- UTF-8

  predicate IsScalar(c: int) { 0 <= c <= 0x10FFFF && !(0xD800 <= c <= 0xDFFF) }

  /** The UTF-8 encoding of a scalar value. */
  function Encode(c: int): (bs: seq<byte>)
    requires IsScalar(c)
    ensures 1 <= |bs| <= 4
  {
    if c < 0x80 then [c]
    else if c < 0x800 then [0xC0 + c / 64, 0x80 + c % 64]
    else if c < 0x10000 then [0xE0 + c / 4096, 0x80 + c / 64 % 64, 0x80 + c % 64]
    else [0xF0 + c / 262144, 0x80 + c / 4096 % 64, 0x80 + c / 64 % 64, 0x80 + c % 64]
  }

  /** Length announced by a lead byte (the masks 0xE0, 0xF0 and 0xF8), or 0. */
  function LeadLength(b: byte): nat {
    if b / 32 == 6 then 2 else if b / 16 == 14 then 3 else if b / 8 == 30 then 4 else 0
  }

  /** The mask 0xC0 gives 0x80. */
  predicate IsContinuation(b: byte) { b / 64 == 2 }

  predicate WellFormed(bs: seq<byte>, n: nat) {
    |bs| > 0 && LeadLength(bs[0]) == n && forall i | 1 <= i < |bs| :: IsContinuation(bs[i])
  }

  /** The lowest bits of a byte, kept by the masks 0x1F, 0x0F, 0x07 and 0x3F. */
  function Low(b: byte, n: int): int
    requires n > 0
  {
    (b as int) % n
  }

  function Shift6(hi: int, b: byte): int { hi * 64 + Low(b, 64) }

  function Payload(bs: seq<byte>): int
    requires 2 <= |bs| <= 4
  {
    if |bs| == 2 then Shift6(Low(bs[0], 32), bs[1])
    else if |bs| == 3 then Shift6(Shift6(Low(bs[0], 16), bs[1]), bs[2])
    else Shift6(Shift6(Shift6(Low(bs[0], 8), bs[1]), bs[2]), bs[3])
  }

  function Decode(bs: seq<byte>): (c: int)
    requires 2 <= |bs| <= 4
    ensures IsScalar(c)
  {
    var c := Payload(bs);
    if |bs| == 2 && c < 0x80 then REPLACEMENT
    else if |bs| == 3 && c < 0x800 then REPLACEMENT
    else if |bs| == 4 && c < 0x10000 then REPLACEMENT
    else if 0xD800 <= c <= 0xDFFF then REPLACEMENT
    else if c > 0x10FFFF then REPLACEMENT
    else c
  }

  lemma Split6(hi: int, b: byte)
    ensures Shift6(hi, b) / 64 == hi && Shift6(hi, b) % 64 == Low(b, 64)
  {
  }

  lemma DecodeEncode(c: int)
    requires IsScalar(c) && c >= 0x80
    ensures WellFormed(Encode(c), |Encode(c)|) && Decode(Encode(c)) == c
  {
    if c < 0x800 {
      DecodeTwo(c);
    } else if c < 0x10000 {
      DecodeThree(c);
    } else {
      DecodeFour(c);
    }
  }

  lemma DecodeTwo(c: int)
    requires 0x80 <= c < 0x800
    ensures WellFormed(Encode(c), 2) && |Encode(c)| == 2 && Payload(Encode(c)) == c
  {
  }

  lemma DecodeThree(c: int)
    requires 0x800 <= c < 0x10000
    requires IsScalar(c)
    ensures WellFormed(Encode(c), 3) && |Encode(c)| == 3 && Payload(Encode(c)) == c
  {
    assert c / 4096 == c / 64 / 64;
  }

  lemma DecodeFour(c: int)
    requires 0x10000 <= c <= 0x10FFFF
    ensures WellFormed(Encode(c), 4) && |Encode(c)| == 4 && Payload(Encode(c)) == c
  {
    var d := c / 64;
    assert c / 4096 == d / 64 && c / 262144 == d / 64 / 64;
  }

  /** Only the shortest encoding of a scalar decodes to it; every other sequence gives U+FFFD. */
  lemma EncodeDecode(bs: seq<byte>)
    requires 2 <= |bs| <= 4 && WellFormed(bs, |bs|)
    ensures Decode(bs) == REPLACEMENT || Encode(Decode(bs)) == bs
  {
    if Decode(bs) != REPLACEMENT {
      var c := Payload(bs);
      if |bs| == 2 {
        Split6(Low(bs[0], 32), bs[1]);
      } else if |bs| == 3 {
        var d := Shift6(Low(bs[0], 16), bs[1]);
        Split6(d, bs[2]);
        Split6(Low(bs[0], 16), bs[1]);
        assert c / 4096 == d / 64;
      } else {
        var e := Shift6(Low(bs[0], 8), bs[1]);
        var d := Shift6(e, bs[2]);
        Split6(d, bs[3]);
        Split6(e, bs[2]);
        Split6(Low(bs[0], 8), bs[1]);
        assert c / 4096 == d / 64 && c / 262144 == d / 64 / 64;
      }
    }
  }

  // ----- One byte

  const ESC: byte := 0x1B

  predicate IsDigit(b: byte) { '0' as int <= b <= '9' as int }

  predicate IsArrow(b: byte) { 'A' as int <= b <= 'D' as int }

  predicate IsHomeEnd(b: byte) { b == 'H' as int || b == 'F' as int }

  /** The number written from `i` on, stopping before `hi` or at a non-digit, and where it stops. */
  function Number(e: seq<byte>, i: nat, hi: nat, acc: int): (r: (int, nat))
    requires i <= hi <= |e|
    ensures i <= r.1 <= hi
    ensures r.1 < hi ==> !IsDigit(e[r.1])
    ensures acc >= 0 ==> r.0 >= 0
    decreases hi - i
  {
    if i < hi && IsDigit(e[i]) then Number(e, i + 1, hi, acc * 10 + ((e[i] as int) - '0' as int)) else (acc, i)
  }

  /** Clearing bit 7, the NumLock modifier, of a non-negative number. */
  function MaskNumLock(m: int): int {
    if m / 128 % 2 == 1 then m - 128 else m
  }

  function PlainArrow(b: byte): Action {
    if b == 'A' as int then ArrowUp
    else if b == 'B' as int then ArrowDown
    else if b == 'C' as int then ArrowRight
    else ArrowLeft
  }

  function NavArrow(b: byte): Action {
    if b == 'A' as int then NavParent
    else if b == 'B' as int then NavChild
    else if b == 'C' as int then NavNextSibling
    else NavPrevSibling
  }

  /** ESC [ 1 ; N followed by a final byte. */
  predicate HasModifier(e: seq<byte>) {
    |e| >= 5 && e[1] == '1' as int && e[2] == ';' as int
  }

  /** The recognisers below see the bytes after ESC; None means that the sequence is not theirs. */
  function ArrowKeys(e: seq<byte>): Option<Action>
    requires |e| > 0
  {
    var b := e[|e| - 1];
    if !IsArrow(b) then None
    else if |e| == 2 then Some(PlainArrow(b))
    else if HasModifier(e) then
      var (m, stop) := Number(e, 3, |e| - 1, 0);
      if stop < |e| - 1 then None
      else if MaskNumLock(m) == 1 then Some(PlainArrow(b))
      else if MaskNumLock(m) == 5 then Some(NavArrow(b))
      else None
    else None
  }

  function IndexOf(e: seq<byte>, b: byte, i: nat): (k: nat)
    requires i <= |e|
    ensures i <= k <= |e|
    ensures k < |e| ==> e[k] == b
    ensures forall j | i <= j < k :: e[j] != b
    decreases |e| - i
  {
    if i == |e| || e[i] == b then i else IndexOf(e, b, i + 1)
  }

  function MouseSgr(e: seq<byte>): Option<Action>
    requires |e| > 0
  {
    var b := e[|e| - 1];
    if |e| < 2 || e[1] != '<' as int then None
    else if b != 'M' as int && b != 'm' as int then None
    else
      var end := IndexOf(e, ';' as int, 2);
      if end == |e| then None
      else if end == 4 && e[2] == '6' as int && e[3] == '4' as int then Some(ScrollUp)
      else if end == 4 && e[2] == '6' as int && e[3] == '5' as int then Some(ScrollDown)
      else Some(Unknown)
  }

  function TildeKey(key: int): Action {
    match key
    case 1 => CtrlA
    case 3 => Delete
    case 4 => CtrlE
    case 5 => PageUp
    case 6 => PageDown
    case _ => Unknown
  }

  function TildeSequences(e: seq<byte>): Option<Action>
    requires |e| > 0
  {
    var b := e[|e| - 1];
    var homeEnd := if b == 'H' as int then CtrlA else CtrlE;
    if |e| == 2 && IsHomeEnd(b) then Some(homeEnd)
    else if IsHomeEnd(b) && HasModifier(e) && Number(e, 3, |e| - 1, 0).1 == |e| - 1 then Some(homeEnd)
    else if b != '~' as int || |e| < 2 then None
    else
      var (key, stop) := Number(e, 1, |e| - 1, 0);
      if stop < |e| - 1 && e[stop] != ';' as int then None
      else if key == 0 then None
      else Some(TildeKey(key))
  }

  function CtrlKey(keycode: int): Option<Action> {
    match keycode
    case 99 => Some(CtrlC)
    case 97 => Some(CtrlA)
    case 101 => Some(CtrlE)
    case 107 => Some(CtrlK)
    case 110 => Some(CtrlN)
    case 112 => Some(CtrlP)
    case 117 => Some(CtrlU)
    case 119 => Some(CtrlW)
    case _ => None
  }

  /** `shift` stands for the keyboard-layout translation of a shifted key. */
  function KeyAction(keycode: int, modifiers: int, shift: int -> int): Action {
    if keycode > 50000 then Unknown
    else if keycode == 13 then (if modifiers == 1 then Newline else InsertNewline)
    else if modifiers == 5 && CtrlKey(keycode).Some? then CtrlKey(keycode).value
    else if modifiers == 1 && keycode == 9 then Tab
    else if modifiers == 1 && keycode == 127 then Backspace
    else if modifiers == 1 && keycode == 27 then Escape
    else if modifiers == 1 && 32 <= keycode then Char(keycode)
    else if modifiers == 2 && 32 <= keycode <= 126 then Char(shift(keycode))
    else Unknown
  }

  function CsiU(e: seq<byte>, shift: int -> int): Action {
    if |e| < 3 then Unknown
    else
      var (keycode, i) := Number(e, 1, |e|, 0);
      var modifiers := if i < |e| && e[i] == ';' as int then Number(e, i + 1, |e|, 0).0 else 1;
      KeyAction(keycode, MaskNumLock(modifiers), shift)
  }

  predicate Discardable(e: seq<byte>)
    requires |e| > 0
  {
    e[|e| - 1] == 'm' as int || (|e| == 3 && e[|e| - 1] == '~' as int)
  }

  /** What a complete escape sequence means; None while it may still go on. */
  function Recognise(e: seq<byte>, shift: int -> int): Option<Action>
    requires |e| > 0
  {
    var b := e[|e| - 1];
    if |e| >= ESC_BUF_SIZE - 1 then Some(Unknown)
    else if |e| == 1 && b != '[' as int then Some(if b == ESC then Escape else Unknown)
    else if ArrowKeys(e).Some? then ArrowKeys(e)
    else if MouseSgr(e).Some? then MouseSgr(e)
    else if TildeSequences(e).Some? then TildeSequences(e)
    else if b == 'u' as int then Some(CsiU(e, shift))
    else if Discardable(e) then Some(Unknown)
    else if |e| == 2 && 'A' as int <= b <= 'Z' as int then Some(Unknown)
    else None
  }

  function EscapeByte(p: Parser, b: byte, shift: int -> int): (Parser, Action) {
    var e := p.esc + [b];
    var r := Recognise(e, shift);
    if r.None? then (p.(esc := e), Unknown)
    else (p.(inEscape := |e| == 1 && b == ESC, esc := []), r.value)   // ESC ESC starts a new sequence
  }

  function Utf8Byte(p: Parser, b: byte): (Parser, Action)
    requires p.inUtf8 ==> 1 <= |p.utf8| < p.expected <= 4
  {
    var q := p.(inUtf8 := false, utf8 := [], expected := 0);
    if !p.inUtf8 || !IsContinuation(b) then (q, Unknown)
    else
      var bs := p.utf8 + [b];
      if |bs| == p.expected then (q, Char(Decode(bs))) else (p.(utf8 := bs), Unknown)
  }

  function ControlAction(b: byte): Option<Action> {
    match b
    case 0x09 => Some(Tab)
    case 0x0D => Some(Newline)
    case 0x0A => Some(InsertNewline)
    case 0x01 => Some(CtrlA)
    case 0x03 => Some(CtrlC)
    case 0x05 => Some(CtrlE)
    case 0x0B => Some(CtrlK)
    case 0x0E => Some(CtrlN)
    case 0x10 => Some(CtrlP)
    case 0x15 => Some(CtrlU)
    case 0x17 => Some(CtrlW)
    case 0x7F => Some(Backspace)
    case _ => None
  }

  function Step(p: Parser, b: byte, shift: int -> int): (Parser, Action)
    requires p.inUtf8 ==> 1 <= |p.utf8| < p.expected <= 4
  {
    if p.inUtf8 then Utf8Byte(p, b)
    else if p.inEscape then EscapeByte(p, b, shift)
    else if b == ESC then (p.(inEscape := true, esc := []), Unknown)
    else if ControlAction(b).Some? then (p, ControlAction(b).value)
    else if 0x20 <= b < 0x7F then (p, Char(b))
    else if LeadLength(b) != 0 then (p.(inUtf8 := true, utf8 := [b], expected := LeadLength(b)), Unknown)
    else (p, Unknown)
  }

  // ----- Arbitrary byte streams

  ghost predicate Valid(p: Parser) {
    && !(p.inUtf8 && p.inEscape)
    && |p.esc| <= ESC_BUF_SIZE - 2
    && (!p.inEscape ==> p.esc == [])
    && (if p.inUtf8 then 1 <= |p.utf8| < p.expected <= 4 && WellFormed(p.utf8, p.expected)
        else p.utf8 == [] && p.expected == 0)
  }

  ghost predicate Printable(c: int, shift: int -> int) {
    IsScalar(c) || exists k: int :: 32 <= k <= 126 && c == shift(k)
  }

  lemma KeyActionPrintable(keycode: int, modifiers: int, shift: int -> int)
    ensures KeyAction(keycode, modifiers, shift).Char? ==>
              Printable(KeyAction(keycode, modifiers, shift).codepoint, shift)
  {
  }

  lemma StepValid(p: Parser, b: byte, shift: int -> int)
    requires Valid(p)
    ensures var (q, a) := Step(p, b, shift);
            && Valid(q)
            && (a.Char? ==> Printable(a.codepoint, shift))
            && (q.inUtf8 && p.inUtf8 ==> q.expected == p.expected && |q.utf8| == |p.utf8| + 1)
            && (p.inEscape && |p.esc| > 0 && q.inEscape ==> |q.esc| == |p.esc| + 1)
  {
    if p.inEscape && p.esc + [b] != [] && Recognise(p.esc + [b], shift).Some? {
      var e := p.esc + [b];
      if |e| >= 3 {
        var (keycode, i) := Number(e, 1, |e|, 0);
        var modifiers := if i < |e| && e[i] == ';' as int then Number(e, i + 1, |e|, 0).0 else 1;
        KeyActionPrintable(keycode, MaskNumLock(modifiers), shift);
      }
    }
  }

  function Feed(p: Parser, bs: seq<byte>, shift: int -> int): (r: (Parser, seq<Action>))
    requires Valid(p)
    ensures Valid(r.0) && |r.1| == |bs|
    decreases |bs|
  {
    if bs == [] then (p, [])
    else
      var (q, a) := Step(p, bs[0], shift);
      StepValid(p, bs[0], shift);
      var (r, rest) := Feed(q, bs[1..], shift);
      (r, [a] + rest)
  }

  /**
    After any stream of bytes the two modes exclude each other, the buffers have room, and every
    character delivered is a scalar value or comes from the keyboard layout.
  */
  lemma {:induction false} AnyStreamIsSafe(p: Parser, bs: seq<byte>, shift: int -> int)
    requires Valid(p)
    ensures var (q, actions) := Feed(p, bs, shift);
            && !(q.inUtf8 && q.inEscape) && |q.esc| < ESC_BUF_SIZE - 1 && |q.utf8| < 4
            && forall a | a in actions && a.Char? :: Printable(a.codepoint, shift)
    decreases |bs|
  {
    if bs != [] {
      StepValid(p, bs[0], shift);
      hide Printable;
      AnyStreamIsSafe(Step(p, bs[0], shift).0, bs[1..], shift);
    }
  }

  /** UTF-8 mode is left within the bytes still expected, at most three. */
  lemma {:induction false} Utf8ModeEnds(p: Parser, bs: seq<byte>, shift: int -> int) returns (k: nat)
    requires Valid(p) && p.inUtf8 && |bs| >= p.expected - |p.utf8|
    ensures 1 <= k <= p.expected - |p.utf8| <= 3
    ensures !Feed(p, bs[..k], shift).0.inUtf8
    decreases |bs|
  {
    var (q, a) := Step(p, bs[0], shift);
    StepValid(p, bs[0], shift);
    if q.inUtf8 {
      var j := Utf8ModeEnds(q, bs[1..], shift);
      k := j + 1;
      assert bs[..k][1..] == bs[1..][..j];
    } else {
      k := 1;
      assert bs[..1][1..] == [];
    }
  }

  /** An escape sequence with at least one byte is left before its buffer is full. */
  lemma {:induction false} EscapeModeEnds(p: Parser, bs: seq<byte>, shift: int -> int) returns (k: nat)
    requires Valid(p) && p.inEscape && |p.esc| >= 1 && |bs| >= 15 - |p.esc|
    ensures 1 <= k <= 15 - |p.esc|
    ensures !Feed(p, bs[..k], shift).0.inEscape
    decreases 15 - |p.esc|
  {
    var (q, a) := Step(p, bs[0], shift);
    StepValid(p, bs[0], shift);
    if q.inEscape {
      var j := EscapeModeEnds(q, bs[1..], shift);
      k := j + 1;
      assert bs[..k][1..] == bs[1..][..j];
    } else {
      k := 1;
      assert bs[..1][1..] == [];
    }
  }

  // ----- Text comes through

  predicate IsText(c: int) { IsScalar(c) && c >= 0x20 && c != 0x7F }

  type TextChar = c: int | IsText(c) witness 0x20

  function EncodeAll(cs: seq<TextChar>): seq<byte> {
    if cs == [] then [] else Encode(cs[0]) + EncodeAll(cs[1..])
  }

  function Unknowns(n: nat): seq<Action> {
    if n == 0 then [] else [Unknown] + Unknowns(n - 1)
  }

  /** A character is delivered on its last byte; the bytes before it give nothing. */
  function OneChar(c: int): seq<Action>
    requires IsText(c)
  {
    Unknowns(|Encode(c)| - 1) + [Char(c)]
  }

  function Delivered(cs: seq<TextChar>): seq<Action> {
    if cs == [] then [] else OneChar(cs[0]) + Delivered(cs[1..])
  }

  function Codepoints(actions: seq<Action>): seq<int> {
    if actions == [] then []
    else (if actions[0].Char? then [actions[0].codepoint] else []) + Codepoints(actions[1..])
  }

  lemma FeedStep(p: Parser, b: byte, rest: seq<byte>, shift: int -> int)
    requires Valid(p)
    ensures Valid(Step(p, b, shift).0)
    ensures var (q, a) := Step(p, b, shift);
            var (r, more) := Feed(q, rest, shift);
            Feed(p, [b] + rest, shift) == (r, [a] + more)
  {
    StepValid(p, b, shift);
    assert ([b] + rest)[1..] == rest;
  }

  lemma FeedByte(p: Parser, b: byte, shift: int -> int)
    requires Valid(p)
    ensures var (q, a) := Step(p, b, shift);
            Valid(q) && Feed(p, [b], shift) == (q, [a])
  {
    FeedStep(p, b, [], shift);
    assert [b] + [] == [b];
    assert [Step(p, b, shift).1] + [] == [Step(p, b, shift).1];
  }

  lemma {:induction false} FeedConcat(p: Parser, a: seq<byte>, b: seq<byte>, shift: int -> int)
    requires Valid(p)
    ensures var (q, x) := Feed(p, a, shift);
            Feed(p, a + b, shift) == (Feed(q, b, shift).0, x + Feed(q, b, shift).1)
    decreases |a|
  {
    if a == [] {
      assert a + b == b;
      Nothing(Feed(p, b, shift).1);
    } else {
      hide *;
      var (q, act) := Step(p, a[0], shift);
      FeedStep(p, a[0], a[1..], shift);
      FeedStep(p, a[0], a[1..] + b, shift);
      Regroup([a[0]], a[1..], b);
      assert [a[0]] + a[1..] == a;
      FeedConcat(q, a[1..], b, shift);
      var (r, x) := Feed(q, a[1..], shift);
      Regroup([act], x, Feed(r, b, shift).1);
    }
  }

  lemma {:induction false} FeedContinuations(p: Parser, bs: seq<byte>, shift: int -> int)
    requires Valid(p) && p.inUtf8 && |bs| == p.expected - |p.utf8|
    requires forall i | 0 <= i < |bs| :: IsContinuation(bs[i])
    ensures Feed(p, bs, shift) == (GROUND, Unknowns(|bs| - 1) + [Char(Decode(p.utf8 + bs))])
    decreases |bs|
  {
    hide Decode;
    var (q, a) := Step(p, bs[0], shift);
    if |bs| == 1 {
      FeedByte(p, bs[0], shift);
      assert bs[1..] == [] && bs == [bs[0]];
      assert p.utf8 + [bs[0]] == p.utf8 + bs;
      assert Unknowns(0) + [a] == [a];
    } else {
      FeedStep(p, bs[0], bs[1..], shift);
      assert [bs[0]] + bs[1..] == bs;
      FeedContinuations(q, bs[1..], shift);
      assert q.utf8 + bs[1..] == p.utf8 + bs;
      var last := [Char(Decode(p.utf8 + bs))];
      assert [Unknown] + (Unknowns(|bs| - 2) + last) == Unknowns(|bs| - 1) + last;
    }
  }

  lemma FeedOneChar(c: int, shift: int -> int)
    requires IsText(c)
    ensures Feed(GROUND, Encode(c), shift) == (GROUND, OneChar(c))
  {
    var bs := Encode(c);
    if c < 0x80 {
      assert ControlAction(bs[0]).None?;
      FeedByte(GROUND, bs[0], shift);
      assert OneChar(c) == [Char(c)];
    } else {
      DecodeEncode(c);
      assert Step(GROUND, bs[0], shift) == (Parser(false, [], true, [bs[0]], |bs|), Unknown);
      hide Step, Encode, Decode;
      FeedStep(GROUND, bs[0], bs[1..], shift);
      assert [bs[0]] + bs[1..] == bs;
      FeedContinuations(Parser(false, [], true, [bs[0]], |bs|), bs[1..], shift);
      assert [Unknown] + (Unknowns(|bs| - 2) + [Char(c)]) == Unknowns(|bs| - 1) + [Char(c)];
    }
  }

  /** Feeding the UTF-8 encoding of any text byte by byte delivers exactly that text. */
  lemma {:induction false} TextComesThrough(cs: seq<TextChar>, shift: int -> int)
    ensures Feed(GROUND, EncodeAll(cs), shift) == (GROUND, Delivered(cs))
  {
    if cs != [] {
      FeedOneChar(cs[0], shift);
      TextComesThrough(cs[1..], shift);
      FeedConcat(GROUND, Encode(cs[0]), EncodeAll(cs[1..]), shift);
    }
  }

  lemma {:induction false} UnknownsThenChar(n: nat, c: int, rest: seq<Action>)
    ensures Codepoints(Unknowns(n) + [Char(c)] + rest) == [c] + Codepoints(rest)
    ensures forall a | a in Unknowns(n) :: a.Unknown?
  {
    var all := Unknowns(n) + [Char(c)] + rest;
    if n == 0 {
      assert all[1..] == rest;
    } else {
      UnknownsThenChar(n - 1, c, rest);
      assert all[1..] == Unknowns(n - 1) + [Char(c)] + rest;
    }
  }

  /** What is delivered is the text, and everything else in between is UNKNOWN. */
  lemma {:induction false} DeliveredIsText(cs: seq<TextChar>)
    ensures Codepoints(Delivered(cs)) == cs
    ensures forall a | a in Delivered(cs) :: a.Char? || a.Unknown?
  {
    if cs != [] {
      DeliveredIsText(cs[1..]);
      UnknownsThenChar(|Encode(cs[0])| - 1, cs[0], Delivered(cs[1..]));
    }
  }
}
