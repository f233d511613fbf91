/**
  What each key sequence of the terminal means, from the bytes to the action: arrows, Home and End,
  numbered keys, the mouse wheel, control bytes and named keys.
*/
module KeySequences {
  import opened Wrappers
  import opened Sequences
  import opened Input
  import opened KeyReports

  /** ESC, the bracket, a body and the byte that ends it. */
  function Sequence(body: seq<byte>, last: byte): seq<byte> {
    [ESC, '[' as int] + (body + [last])
  }

  ghost predicate AllBody(body: seq<byte>) { forall i | 0 <= i < |body| :: IsBody(body[i]) }

  /** Nothing is delivered but one action, with the last byte. */
  ghost predicate Delivers1(bs: seq<byte>, shift: int -> int, action: Action) {
    |bs| > 0 && Feed(GROUND, bs, shift) == (GROUND, Unknowns(|bs| - 1) + [action])
  }

  lemma BodyFits(body: seq<byte>)
    requires AllBody(body) && |body| <= 13
    ensures Valid(Inside(['[' as int] + body)) && (body != [] ==> InBody(['[' as int] + body))
  {
  }

  lemma BodyFed(body: seq<byte>, last: byte, shift: int -> int)
    requires AllBody(body) && |body| <= 13
    ensures Valid(Inside(['[' as int] + body))
    ensures var (q, a) := Step(Inside(['[' as int] + body), last, shift);
            Feed(GROUND, Sequence(body, last), shift) == (q, Unknowns(|body| + 2) + [a])
  {
    var e := ['[' as int] + body;
    assert Sequence(body, last) == [ESC, '[' as int] + (body + [last]);
    hide *;
    BodyFits(body);
    FeedBody(['[' as int], body, shift);
    FeedByte(Inside(e), last, shift);
    FeedConcat(Inside(['[' as int]), body, [last], shift);
    Opening(body + [last], shift);
    TwoMore(|body|, Step(Inside(e), last, shift).1);
  }

  /** A body whose last byte is recognised. */
  lemma SequenceEnds(body: seq<byte>, last: byte, shift: int -> int, action: Action)
    requires AllBody(body) && |body| <= 13 && Recognise(['[' as int] + body + [last], shift) == Some(action)
    ensures Delivers1(Sequence(body, last), shift, action)
  {
    BodyFed(body, last, shift);
    var e := ['[' as int] + body;
    assert Step(Inside(e), last, shift) == (GROUND, action) by {
      hide Recognise;
      assert e + [last] == ['[' as int] + body + [last];
    }
  }

  /** One that is not: the parser waits for more. */
  lemma SequenceGoesOn(body: seq<byte>, last: byte, shift: int -> int)
    requires AllBody(body) && |body| <= 12 && Recognise(['[' as int] + body + [last], shift).None?
    ensures Feed(GROUND, Sequence(body, last), shift) ==
            (Inside(['[' as int] + body + [last]), Unknowns(|body| + 2) + [Unknown])
  {
    BodyFed(body, last, shift);
    var e := ['[' as int] + body;
    assert Step(Inside(e), last, shift) == (Inside(e + [last]), Unknown) by {
      hide Recognise;
    }
  }

  // ----- Arrows

  lemma PlainArrows(shift: int -> int)
    ensures Delivers1([ESC, '[' as int, 'A' as int], shift, ArrowUp)
    ensures Delivers1([ESC, '[' as int, 'B' as int], shift, ArrowDown)
    ensures Delivers1([ESC, '[' as int, 'C' as int], shift, ArrowRight)
    ensures Delivers1([ESC, '[' as int, 'D' as int], shift, ArrowLeft)
  {
    PlainKey('A' as int, shift, ArrowUp);
    PlainKey('B' as int, shift, ArrowDown);
    PlainKey('C' as int, shift, ArrowRight);
    PlainKey('D' as int, shift, ArrowLeft);
  }

  /** Two bytes behind ESC. */
  lemma PlainKey(last: byte, shift: int -> int, action: Action)
    requires Recognise(['[' as int, last], shift) == Some(action)
    ensures Delivers1([ESC, '[' as int, last], shift, action)
  {
    assert ['[' as int] + [] + [last] == ['[' as int, last];
    SequenceEnds([], last, shift, action);
    assert Sequence([], last) == [ESC, '[' as int, last];
  }

  /** The body of a key with modifiers. */
  function Modified(modifiers: nat): seq<byte> { ['1' as int, ';' as int] + Decimal(modifiers) }

  lemma ModifiedRead(modifiers: nat, last: byte)
    requires |Decimal(modifiers)| <= 10
    ensures AllBody(Modified(modifiers)) && |Modified(modifiers)| == |Decimal(modifiers)| + 2
    ensures var e := ['[' as int] + Modified(modifiers) + [last];
            && 5 <= |e| <= 14 && e[0] == '[' as int && e[1] == '1' as int && e[2] == ';' as int && e[|e| - 1] == last
            && Number(e, 3, |e| - 1, 0) == (modifiers as int, |e| - 1)
  {
    var ds := Decimal(modifiers);
    DecimalDigits(modifiers);
    DecimalFolds(modifiers);
    hide Decimal;
    var e := ['[' as int] + Modified(modifiers) + [last];
    assert e[3..|e| - 1] == ds;
    NumberFolds(e, 3, |e| - 1, |e| - 1, 0);
    assert forall i | 2 <= i < |Modified(modifiers)| :: Modified(modifiers)[i] == ds[i - 2];
  }

  /** Without modifiers, NumLock apart, an arrow key is itself; with Ctrl it moves between agents. */
  lemma ModifiedArrows(modifiers: nat, shift: int -> int)
    ensures modifiers == 1 || modifiers == 129 ==>
              && Delivers1(Sequence(Modified(modifiers), 'A' as int), shift, ArrowUp)
              && Delivers1(Sequence(Modified(modifiers), 'B' as int), shift, ArrowDown)
              && Delivers1(Sequence(Modified(modifiers), 'C' as int), shift, ArrowRight)
              && Delivers1(Sequence(Modified(modifiers), 'D' as int), shift, ArrowLeft)
    ensures modifiers == 5 || modifiers == 133 ==>
              && Delivers1(Sequence(Modified(modifiers), 'A' as int), shift, NavParent)
              && Delivers1(Sequence(Modified(modifiers), 'B' as int), shift, NavChild)
              && Delivers1(Sequence(Modified(modifiers), 'C' as int), shift, NavNextSibling)
              && Delivers1(Sequence(Modified(modifiers), 'D' as int), shift, NavPrevSibling)
  {
    if modifiers == 1 || modifiers == 129 {
      ModifiedArrow(modifiers, 'A' as int, shift, ArrowUp);
      ModifiedArrow(modifiers, 'B' as int, shift, ArrowDown);
      ModifiedArrow(modifiers, 'C' as int, shift, ArrowRight);
      ModifiedArrow(modifiers, 'D' as int, shift, ArrowLeft);
    } else if modifiers == 5 || modifiers == 133 {
      ModifiedArrow(modifiers, 'A' as int, shift, NavParent);
      ModifiedArrow(modifiers, 'B' as int, shift, NavChild);
      ModifiedArrow(modifiers, 'C' as int, shift, NavNextSibling);
      ModifiedArrow(modifiers, 'D' as int, shift, NavPrevSibling);
    }
  }

  lemma ModifiedArrow(modifiers: nat, last: byte, shift: int -> int, action: Action)
    requires modifiers < 1000 && IsArrow(last)
    requires action == (if MaskNumLock(modifiers) == 1 then PlainArrow(last) else NavArrow(last))
    requires MaskNumLock(modifiers) == 1 || MaskNumLock(modifiers) == 5
    ensures Delivers1(Sequence(Modified(modifiers), last), shift, action)
  {
    assert Power10(1) == 10 && Power10(2) == 100 && Power10(3) == 1000;
    DecimalLength(modifiers, 3);
    ModifiedRead(modifiers, last);
    hide Decimal, Modified, Number, Delivers1, PlainArrow, NavArrow;
    var e := ['[' as int] + Modified(modifiers) + [last];
    assert ArrowKeys(e) == Some(action);
    assert Recognise(e, shift) == Some(action);
    SequenceEnds(Modified(modifiers), last, shift, action);
  }

  /** An arrow key with any other modifiers delivers nothing and leaves the parser inside its sequence. */
  lemma OtherArrowsStick(modifiers: nat, last: byte, shift: int -> int)
    requires 'A' as int <= last <= 'D' as int && |Decimal(modifiers)| <= 10
    requires modifiers != 1 && modifiers != 129 && modifiers != 5 && modifiers != 133
    ensures Feed(GROUND, Sequence(Modified(modifiers), last), shift) ==
            (Inside(['[' as int] + Modified(modifiers) + [last]), Unknowns(|Modified(modifiers)| + 2) + [Unknown])
  {
    ModifiedRead(modifiers, last);
    hide Decimal, Modified, Number;
    var e := ['[' as int] + Modified(modifiers) + [last];
    assert ArrowKeys(e).None?;
    assert Recognise(e, shift).None?;
    SequenceGoesOn(Modified(modifiers), last, shift);
  }

  /** Shift and the Up key, and the letter "x" typed behind it is lost. */
  lemma KeyBehindShiftedArrowIsLost(shift: int -> int)
    ensures Feed(GROUND, [ESC, '[' as int, '1' as int, ';' as int, '2' as int, 'A' as int, 'x' as int], shift) ==
            (Inside(['[' as int, '1' as int, ';' as int, '2' as int, 'A' as int, 'x' as int]), Unknowns(7))
  {
    var bs := [ESC, '[' as int, '1' as int, ';' as int, '2' as int, 'A' as int];
    assert Decimal(2) == ['2' as int];
    assert Sequence(Modified(2), 'A' as int) == bs;
    var e := ['[' as int, '1' as int, ';' as int, '2' as int, 'A' as int];
    assert ['[' as int] + Modified(2) + ['A' as int] == e;
    assert |Modified(2)| == 3;
    OtherArrowsStick(2, 'A' as int, shift);
    var more := e + ['x' as int];
    assert more == ['[' as int, '1' as int, ';' as int, '2' as int, 'A' as int, 'x' as int];
    assert Recognise(more, shift).None? by {
      assert more[|more| - 1] == 'x' as int && more[1] == '1' as int;
    }
    assert Step(Inside(e), 'x' as int, shift) == (Inside(more), Unknown);
    hide *;
    UnknownsMore(5);
    UnknownsMore(6);
    FeedByte(Inside(e), 'x' as int, shift);
    FeedConcat(GROUND, bs, ['x' as int], shift);
    assert bs + ['x' as int] == [ESC, '[' as int, '1' as int, ';' as int, '2' as int, 'A' as int, 'x' as int];
  }

  lemma {:induction false} UnknownsMore(n: nat)
    ensures Unknowns(n) + [Unknown] == Unknowns(n + 1)
  {
    if n > 0 {
      UnknownsMore(n - 1);
      Regroup([Unknown], Unknowns(n - 1), [Unknown]);
    }
  }

  // ----- Home, End and the numbered keys

  lemma HomeAndEnd(modifiers: nat, shift: int -> int)
    ensures Delivers1([ESC, '[' as int, 'H' as int], shift, CtrlA)
    ensures Delivers1([ESC, '[' as int, 'F' as int], shift, CtrlE)
    ensures |Decimal(modifiers)| <= 10 ==>
              && Delivers1(Sequence(Modified(modifiers), 'H' as int), shift, CtrlA)
              && Delivers1(Sequence(Modified(modifiers), 'F' as int), shift, CtrlE)
  {
    PlainKey('H' as int, shift, CtrlA);
    PlainKey('F' as int, shift, CtrlE);
    if |Decimal(modifiers)| <= 10 {
      ModifiedHomeEnd(modifiers, 'H' as int, shift, CtrlA);
      ModifiedHomeEnd(modifiers, 'F' as int, shift, CtrlE);
    }
  }

  lemma ModifiedHomeEnd(modifiers: nat, last: byte, shift: int -> int, action: Action)
    requires |Decimal(modifiers)| <= 10 && (last == 'H' as int || last == 'F' as int)
    requires action == if last == 'H' as int then CtrlA else CtrlE
    ensures Delivers1(Sequence(Modified(modifiers), last), shift, action)
  {
    ModifiedRead(modifiers, last);
    hide Decimal, Modified, Number, Delivers1;
    var e := ['[' as int] + Modified(modifiers) + [last];
    assert TildeSequences(e) == Some(action);
    assert Recognise(e, shift) == Some(action);
    SequenceEnds(Modified(modifiers), last, shift, action);
  }

  const NUMBERED := map[1 := CtrlA, 3 := Delete, 4 := CtrlE, 5 := PageUp, 6 := PageDown]

  /** A numbered key is known by its number, whatever modifiers are reported with it. */
  lemma NumberedKeys(key: nat, modifiers: nat, shift: int -> int)
    requires key > 0
    ensures |Decimal(key)| <= 12 ==>
              Delivers1(Sequence(Decimal(key), '~' as int), shift, if key in NUMBERED then NUMBERED[key] else Unknown)
    ensures |Body(key, modifiers)| <= 12 ==>
              Delivers1(Sequence(Body(key, modifiers), '~' as int), shift,
                        if key in NUMBERED then NUMBERED[key] else Unknown)
  {
    if |Decimal(key)| <= 12 {
      DecimalDigits(key);
      TildeEnds(Decimal(key), key, shift);
    }
    if |Body(key, modifiers)| <= 12 {
      BodyBytes(key, modifiers);
      assert Body(key, modifiers)[..|Decimal(key)|] == Decimal(key);
      TildeEnds(Body(key, modifiers), key, shift);
    }
  }

  lemma TildeEnds(body: seq<byte>, key: nat, shift: int -> int)
    requires key > 0 && AllBody(body) && |Decimal(key)| <= |body| <= 12 && body[..|Decimal(key)|] == Decimal(key)
    requires |body| > |Decimal(key)| ==> body[|Decimal(key)|] == ';' as int
    ensures Delivers1(Sequence(body, '~' as int), shift, if key in NUMBERED then NUMBERED[key] else Unknown)
  {
    var n := |Decimal(key)|;
    DecimalDigits(key);
    DecimalFolds(key);
    hide Decimal, Delivers1;
    var e := ['[' as int] + body + ['~' as int];
    assert e[1..n + 1] == Decimal(key);
    NumberFolds(e, 1, n + 1, |e| - 1, 0);
    hide Number;
    assert e[1] == Decimal(key)[0];
    assert TildeSequences(e) == Some(TildeKey(key));
    assert Recognise(e, shift) == Some(TildeKey(key));
    SequenceEnds(body, '~' as int, shift, TildeKey(key));
  }

  // ----- The mouse wheel

  /** The body of a mouse report: button, column and row. */
  function MouseBody(button: nat, column: nat, row: nat): seq<byte> {
    ['<' as int] + Decimal(button) + [';' as int] + Decimal(column) + [';' as int] + Decimal(row)
  }

  lemma MouseBytes(button: nat, column: nat, row: nat)
    ensures var body := MouseBody(button, column, row);
            && AllBody(body) && |body| == |Decimal(button)| + |Decimal(column)| + |Decimal(row)| + 3
            && body[0] == '<' as int && body[1..|Decimal(button)| + 1] == Decimal(button)
            && body[|Decimal(button)| + 1] == ';' as int
  {
    DecimalDigits(button);
    DecimalDigits(column);
    DecimalDigits(row);
    hide Decimal;
    var b, c, r := Decimal(button), Decimal(column), Decimal(row);
    BodyJoins(['<' as int], b);
    BodyJoins(['<' as int] + b, [';' as int]);
    BodyJoins(['<' as int] + b + [';' as int], c);
    BodyJoins(['<' as int] + b + [';' as int] + c, [';' as int]);
    BodyJoins(['<' as int] + b + [';' as int] + c + [';' as int], r);
    hide AllBody, AllDigits;
    assert MouseBody(button, column, row)[1..|b| + 1] == b;
  }

  lemma BodyJoins(a: seq<byte>, b: seq<byte>)
    requires AllBody(a) && (AllBody(b) || AllDigits(b))
    ensures AllBody(a + b)
  {
  }

  lemma WheelDigits(button: nat)
    requires button == 64 || button == 65
    ensures Decimal(button) == ['6' as int, if button == 64 then '4' as int else '5' as int]
  {
    assert Decimal(6) == ['6' as int];
  }

  lemma WheelIsRead(button: nat, column: nat, row: nat, last: byte, shift: int -> int)
    requires (button == 64 || button == 65) && (last == 'M' as int || last == 'm' as int)
    requires |MouseBody(button, column, row)| <= 13
    ensures Recognise(['[' as int] + MouseBody(button, column, row) + [last], shift) ==
            Some(if |MouseBody(button, column, row)| == 13 then Unknown
                 else if button == 64 then ScrollUp else ScrollDown)
  {
    MouseBytes(button, column, row);
    WheelDigits(button);
    hide Decimal, MouseBody;
    var body := MouseBody(button, column, row);
    var e := ['[' as int] + body + [last];
    assert e[1] == body[0] && e[2] == body[1..3][0] && e[3] == body[1..3][1] && e[4] == body[3];
    assert e[|e| - 1] == last;
    if |body| <= 12 {
      assert ArrowKeys(e).None?;
      assert IndexOf(e, ';' as int, 2) == 4;
    }
  }

  /** The wheel scrolls, pressed or released, exactly if column and row have at most seven digits together. */
  lemma WheelScrolls(button: nat, column: nat, row: nat, last: byte, shift: int -> int)
    requires (button == 64 || button == 65) && (last == 'M' as int || last == 'm' as int)
    ensures Delivers1(Sequence(MouseBody(button, column, row), last), shift,
                      if button == 64 then ScrollUp else ScrollDown)
            <==> |Decimal(column)| + |Decimal(row)| <= 7
  {
    MouseBytes(button, column, row);
    WheelDigits(button);
    var body := MouseBody(button, column, row);
    hide Decimal, MouseBody, Recognise, Delivers1;
    if |body| <= 13 {
      WheelIsRead(button, column, row, last, shift);
      SequenceEnds(body, last, shift, if |body| == 13 then Unknown else if button == 64 then ScrollUp else ScrollDown);
      OneAction(Sequence(body, last), shift, Unknown, if button == 64 then ScrollUp else ScrollDown);
    } else {
      LongSequence(body, last, shift, if button == 64 then ScrollUp else ScrollDown);
    }
  }

  lemma OneAction(bs: seq<byte>, shift: int -> int, x: Action, y: Action)
    ensures Delivers1(bs, shift, x) && Delivers1(bs, shift, y) ==> x == y
  {
    hide Feed, Unknowns;
    if Delivers1(bs, shift, x) && Delivers1(bs, shift, y) {
      SameEnd(Unknowns(|bs| - 1), x, y);
    }
  }

  /** A sequence too long for the buffer ends as text. */
  lemma LongSequence(body: seq<byte>, last: byte, shift: int -> int, action: Action)
    requires AllBody(body) && |body| >= 14 && 0x20 <= last < 0x7F && !action.Char?
    ensures !Delivers1(Sequence(body, last), shift, action)
  {
    LongBodyTail(body, last, shift);
    Opening(body + [last], shift);
    hide Feed, Unknowns;
    var more := Feed(Inside(['[' as int]), body + [last], shift).1;
    var all := [Unknown, Unknown] + more;
    assert |more| == |body| + 1 && all[|all| - 1] == more[|body|];
    var bs := Sequence(body, last);
    var told := Unknowns(|bs| - 1) + [action];
    assert told[|told| - 1] == action;
  }

  // ----- Control bytes

  const CONTROL: map<byte, Action> :=
    map[0x01 := CtrlA, 0x03 := CtrlC, 0x05 := CtrlE, 0x09 := Tab, 0x0A := InsertNewline, 0x0B := CtrlK,
        0x0D := Newline, 0x0E := CtrlN, 0x10 := CtrlP, 0x15 := CtrlU, 0x17 := CtrlW, 0x7F := Backspace]

  /** Each control byte is its own key, or nothing; only ESC opens a sequence. */
  lemma ControlBytes(b: byte, shift: int -> int)
    requires (b < 0x20 && b != ESC) || b == 0x7F
    ensures Delivers1([b], shift, if b in CONTROL then CONTROL[b] else Unknown)
  {
    FeedByte(GROUND, b, shift);
    hide Feed;
    assert Unknowns(0) == [];
    Nothing([if b in CONTROL then CONTROL[b] else Unknown]);
  }

  /** ESC twice is the escape key and opens a sequence again; ESC and another byte are nothing. */
  lemma EscapeKey(b: byte, shift: int -> int)
    requires b != '[' as int
    ensures Feed(GROUND, [ESC, b], shift) ==
            if b == ESC then (GROUND.(inEscape := true), [Unknown, Escape]) else (GROUND, [Unknown, Unknown])
  {
    var open := GROUND.(inEscape := true);
    assert Step(GROUND, ESC, shift) == (open, Unknown);
    assert [] + [b] == [b];
    FeedByte(open, b, shift);
    var a := Step(open, b, shift).1;
    assert a == if b == ESC then Escape else Unknown;
    assert Step(open, b, shift).0 == if b == ESC then open else GROUND;
    hide Step;
    FeedStep(GROUND, ESC, [b], shift);
    assert [ESC] + [b] == [ESC, b] && [Unknown] + [a] == [Unknown, a];
  }

  // ----- Reports of keys by code

  const CODES := map[9 := Tab, 13 := Newline, 27 := Escape, 127 := Backspace]

  const CTRL_CODES := map['a' as int := CtrlA, 'c' as int := CtrlC, 'e' as int := CtrlE, 'k' as int := CtrlK,
                          'n' as int := CtrlN, 'p' as int := CtrlP, 'u' as int := CtrlU, 'w' as int := CtrlW]

  /** What a report that fits the buffer delivers, NumLock or not; everything not said here is nothing. */
  lemma KeyCodes(code: nat, modifiers: nat, shift: int -> int)
    requires |Body(code, modifiers)| <= 12
    ensures var plain := modifiers == 1 || modifiers == 129;
            var shifted := modifiers == 2 || modifiers == 130;
            var ctrl := modifiers == 5 || modifiers == 133;
            var bs := Report(code, modifiers);
            && (plain && code in CODES ==> Delivers1(bs, shift, CODES[code]))
            && (plain && 32 <= code <= 50000 && code != 127 ==> Delivers1(bs, shift, Char(code)))
            && (!plain && code == 13 ==> Delivers1(bs, shift, InsertNewline))
            && (ctrl && code in CTRL_CODES ==> Delivers1(bs, shift, CTRL_CODES[code]))
            && (shifted && 32 <= code <= 126 ==> Delivers1(bs, shift, Char(shift(code))))
            && (code != 13 && !(plain && (code in CODES || 32 <= code <= 50000))
                && !(ctrl && code in CTRL_CODES) && !(shifted && 32 <= code <= 126) ==>
                  Delivers1(bs, shift, Unknown))
  {
    hide *;
    ReportDelivers(code, modifiers, shift);
    CodeMeans(code, modifiers, shift);
  }

  lemma ReportDelivers(code: nat, modifiers: nat, shift: int -> int)
    requires |Body(code, modifiers)| <= 12
    ensures Delivers1(Report(code, modifiers), shift, KeyAction(code, MaskNumLock(modifiers), shift))
  {
    ShortReport(code, modifiers, shift);
    hide KeyAction, MaskNumLock, Decimal, Feed, Unknowns;
  }

  lemma CodeMeans(code: nat, modifiers: nat, shift: int -> int)
    ensures var plain := modifiers == 1 || modifiers == 129;
            var shifted := modifiers == 2 || modifiers == 130;
            var ctrl := modifiers == 5 || modifiers == 133;
            var a := KeyAction(code, MaskNumLock(modifiers), shift);
            && (plain && code in CODES ==> a == CODES[code])
            && (plain && 32 <= code <= 50000 && code != 127 ==> a == Char(code))
            && (!plain && code == 13 ==> a == InsertNewline)
            && (ctrl && code in CTRL_CODES ==> a == CTRL_CODES[code])
            && (shifted && 32 <= code <= 126 ==> a == Char(shift(code)))
            && (code != 13 && !(plain && (code in CODES || 32 <= code <= 50000))
                && !(ctrl && code in CTRL_CODES) && !(shifted && 32 <= code <= 126) ==>
                  a == Unknown)
  {
  }
}
