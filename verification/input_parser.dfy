/**
  The parser object: fixed buffers with lengths beside them, updated in place.  Its state always
  abstracts to a `Parser` value, and one call is one `Step` of that value.
*/
module InputParsing {
  import opened Wrappers
  import opened Input

  class InputParser {
    const escBuf: array<byte>
    var escLen: nat
    var inEscape: bool
    const utf8Buf: array<byte>
    var utf8Len: nat
    var utf8Expected: nat
    var inUtf8: bool

    ghost predicate Shape()
      reads this
    {
      && escBuf.Length == ESC_BUF_SIZE && utf8Buf.Length == 4 && escBuf != utf8Buf
      && escLen <= escBuf.Length && utf8Len <= utf8Buf.Length
    }

    /** The bytes of the escape sequence read so far. */
    ghost function Seen(): seq<byte>
      requires Shape()
      reads this, escBuf
    {
      escBuf[..escLen]
    }

    ghost function Abs(): Parser
      requires Shape()
      reads this, escBuf, utf8Buf
    {
      Parser(inEscape, Seen(), inUtf8, utf8Buf[..utf8Len], utf8Expected)
    }

    constructor ()
      ensures Shape() && Abs() == GROUND && fresh(escBuf) && fresh(utf8Buf)
    {
      escBuf := new byte[ESC_BUF_SIZE](_ => 0);
      utf8Buf := new byte[4](_ => 0);
      escLen, inEscape, utf8Len, utf8Expected, inUtf8 := 0, false, 0, 0, false;
    }

    method ResetUtf8State()
      requires Shape()
      modifies this`inUtf8, this`utf8Len, this`utf8Expected
      ensures Shape() && Abs() == old(Abs()).(inUtf8 := false, utf8 := [], expected := 0)
    {
      inUtf8, utf8Len, utf8Expected := false, 0, 0;
    }

    method ResetEscapeState()
      requires Shape()
      modifies this`inEscape, this`escLen
      ensures Shape() && Abs() == old(Abs()).(inEscape := false, esc := [])
    {
      inEscape, escLen := false, 0;
    }

    method ParseUtf8Continuation(b: byte) returns (action: Action)
      requires Shape() && Valid(Abs()) && inUtf8
      modifies this, utf8Buf
      ensures Shape() && (Abs(), action) == Utf8Byte(old(Abs()), b)
    {
      if !IsContinuation(b) {
        ResetUtf8State();
        return Unknown;
      }
      utf8Buf[utf8Len] := b;
      utf8Len := utf8Len + 1;
      assert utf8Buf[..utf8Len] == old(utf8Buf[..utf8Len]) + [b];
      if utf8Len == utf8Expected {
        var codepoint := Decode(utf8Buf[..utf8Len]);
        ResetUtf8State();
        return Char(codepoint);
      }
      return Unknown;
    }

    method ScanNumber(from: nat, hi: nat) returns (value: int, stop: nat)
      requires Shape() && from <= hi <= escLen
      ensures (value, stop) == Number(Seen(), from, hi, 0)
    {
      value, stop := 0, from;
      while stop < hi && IsDigit(escBuf[stop])
        invariant from <= stop <= hi
        invariant Number(Seen(), from, hi, 0) == Number(Seen(), stop, hi, value)
      {
        assert escBuf[stop] == Seen()[stop];
        value := value * 10 + ((escBuf[stop] as int) - '0' as int);
        stop := stop + 1;
      }
    }

    method HasModifierPrefix() returns (b: bool)
      requires Shape()
      ensures b == HasModifier(Seen())
    {
      b := escLen >= 5 && escBuf[1] == '1' as int && escBuf[2] == ';' as int;
    }

    method ParseArrowKeys(b: byte) returns (handled: bool, action: Action)
      requires Shape() && escLen > 0 && b == escBuf[escLen - 1]
      modifies this`inEscape, this`escLen
      ensures Shape() && handled == ArrowKeys(old(Seen())).Some?
      ensures Abs() == if handled then old(Abs()).(inEscape := false, esc := []) else old(Abs())
      ensures handled ==> action == ArrowKeys(old(Seen())).value
    {
      handled, action := false, Unknown;
      assert b == Seen()[|Seen()| - 1];
      if !IsArrow(b) {
        return;
      }
      var modified := HasModifierPrefix();
      if escLen == 2 {
        ResetEscapeState();
        handled, action := true, PlainArrow(b);
      } else if modified {
        var m, stop := ScanNumber(3, escLen - 1);
        if stop < escLen - 1 {
          return;
        }
        m := MaskNumLock(m);
        if m == 1 {
          ResetEscapeState();
          handled, action := true, PlainArrow(b);
        } else if m == 5 {
          ResetEscapeState();
          handled, action := true, NavArrow(b);
        }
      }
    }

    method ParseMouseSgr(b: byte) returns (handled: bool, action: Action)
      requires Shape() && escLen > 0 && b == escBuf[escLen - 1]
      modifies this`inEscape, this`escLen
      ensures Shape() && handled == MouseSgr(old(Seen())).Some?
      ensures Abs() == if handled then old(Abs()).(inEscape := false, esc := []) else old(Abs())
      ensures handled ==> action == MouseSgr(old(Seen())).value
    {
      handled, action := false, Unknown;
      assert b == Seen()[|Seen()| - 1];
      if escLen < 2 || escBuf[1] != '<' as int || (b != 'M' as int && b != 'm' as int) {
        return;
      }
      var end := 2;
      while end < escLen && escBuf[end] != ';' as int
        invariant 2 <= end <= escLen
        invariant IndexOf(Seen(), ';' as int, 2) == IndexOf(Seen(), ';' as int, end)
      {
        assert escBuf[end] == Seen()[end];
        end := end + 1;
      }
      assert end < escLen ==> escBuf[end] == Seen()[end];
      if end == escLen {
        return;
      }
      handled := true;
      if end - 2 == 2 {
        if escBuf[2] == '6' as int && escBuf[3] == '4' as int {
          action := ScrollUp;
        } else if escBuf[2] == '6' as int && escBuf[3] == '5' as int {
          action := ScrollDown;
        }
      }
      ResetEscapeState();
    }

    method ParseTildeSequences(b: byte) returns (handled: bool, action: Action)
      requires Shape() && escLen > 0 && b == escBuf[escLen - 1]
      modifies this`inEscape, this`escLen
      ensures Shape() && handled == TildeSequences(old(Seen())).Some?
      ensures Abs() == if handled then old(Abs()).(inEscape := false, esc := []) else old(Abs())
      ensures handled ==> action == TildeSequences(old(Seen())).value
    {
      handled, action := false, Unknown;
      assert b == Seen()[|Seen()| - 1];
      var homeEnd := if b == 'H' as int then CtrlA else CtrlE;
      if escLen == 2 && IsHomeEnd(b) {
        ResetEscapeState();
        return true, homeEnd;
      }
      var modified := HasModifierPrefix();
      if IsHomeEnd(b) && modified {
        var _, stop := ScanNumber(3, escLen - 1);
        if stop == escLen - 1 {
          ResetEscapeState();
          return true, homeEnd;
        }
      }
      if b != '~' as int || escLen < 2 {
        return;
      }
      var key, stop := ScanNumber(1, escLen - 1);
      if (stop < escLen - 1 && escBuf[stop] != ';' as int) || key == 0 {
        return;
      }
      ResetEscapeState();
      return true, TildeKey(key);
    }

    method ParseCsiU(shift: int -> int) returns (action: Action)
      requires Shape() && escLen > 0
      ensures action == CsiU(Seen(), shift)
    {
      if escLen < 3 {
        return Unknown;
      }
      var keycode, i := ScanNumber(1, escLen);
      var modifiers := 1;
      if i < escLen && escBuf[i] == ';' as int {
        var m, _ := ScanNumber(i + 1, escLen);
        modifiers := m;
      }
      return KeyAction(keycode, MaskNumLock(modifiers), shift);
    }

    method ParseEscapeSequence(b: byte, shift: int -> int) returns (action: Action)
      requires Shape() && Valid(Abs()) && inEscape
      modifies this, escBuf
      ensures Shape() && (Abs(), action) == EscapeByte(old(Abs()), b, shift)
    {
      ghost var p := Abs();
      escBuf[escLen] := b;
      escLen := escLen + 1;
      escBuf[escLen] := 0;
      assert Seen() == p.esc + [b] && Seen()[|Seen()| - 1] == b;
      assert Abs() == p.(esc := p.esc + [b]);
      hide ArrowKeys, MouseSgr, TildeSequences, CsiU;
      var handled;
      if escLen >= ESC_BUF_SIZE - 1 {
        ResetEscapeState();
        return Unknown;
      }
      if escLen == 1 && b != '[' as int {
        ResetEscapeState();
        inEscape := b == ESC;
        return if b == ESC then Escape else Unknown;
      }
      handled, action := ParseArrowKeys(b);
      if handled {
        return;
      }
      handled, action := ParseMouseSgr(b);
      if handled {
        return;
      }
      handled, action := ParseTildeSequences(b);
      if handled {
        return;
      }
      if b == 'u' as int {
        action := ParseCsiU(shift);
        ResetEscapeState();
        return;
      }
      if b == 'm' as int || (escLen == 3 && b == '~' as int) || (escLen == 2 && 'A' as int <= b <= 'Z' as int) {
        ResetEscapeState();
        return Unknown;
      }
      return Unknown;
    }

    method ParseByte(b: byte, shift: int -> int) returns (action: Action)
      requires Shape() && Valid(Abs())
      modifies this, escBuf, utf8Buf
      ensures Shape() && Valid(Abs())
      ensures (Abs(), action) == Step(old(Abs()), b, shift)
    {
      StepValid(Abs(), b, shift);
      if inUtf8 {
        action := ParseUtf8Continuation(b);
      } else if inEscape {
        action := ParseEscapeSequence(b, shift);
      } else if b == ESC {
        inEscape, escLen := true, 0;
        action := Unknown;
      } else if ControlAction(b).Some? {
        action := ControlAction(b).value;
      } else if 0x20 <= b < 0x7F {
        action := Char(b);
      } else if LeadLength(b) != 0 {
        inUtf8, utf8Len, utf8Expected := true, 1, LeadLength(b);
        utf8Buf[0] := b;
        action := Unknown;
        assert utf8Buf[..1] == [b];
      } else {
        action := Unknown;
      }
    }
  }
}
