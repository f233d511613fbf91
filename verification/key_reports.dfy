/**
  Key reports of the terminal, `ESC [ keycode ; modifiers u` in decimal: whatever numbers are
  written, exactly they are acted on.
*/
module KeyReports {
  import opened Wrappers
  import opened Input

  function Decimal(n: nat): (ds: seq<byte>)
    ensures |ds| > 0
  {
    if n < 10 then [0x30 + n] else Decimal(n / 10) + [0x30 + n % 10]
  }

  function Report(keycode: nat, modifiers: nat): seq<byte> {
    [ESC, '[' as int] + Decimal(keycode) + [';' as int] + Decimal(modifiers) + ['u' as int]
  }

  ghost predicate AllDigits(ds: seq<byte>) { forall i | 0 <= i < |ds| :: IsDigit(ds[i]) }

  lemma {:induction false} DecimalDigits(n: nat)
    ensures AllDigits(Decimal(n))
  {
    if n >= 10 {
      DecimalDigits(n / 10);
    }
  }

  lemma {:induction false} DecimalLength(n: nat, k: nat)
    requires k > 0 && n < Power10(k)
    ensures |Decimal(n)| <= k
  {
    if n >= 10 {
      DecimalLength(n / 10, k - 1);
    }
  }

  function Power10(k: nat): nat {
    if k == 0 then 1 else 10 * Power10(k - 1)
  }

  // ----- Reading a number back

  function Fold(ds: seq<byte>, acc: int): int {
    if ds == [] then acc else Fold(ds[1..], acc * 10 + ((ds[0] as int) - '0' as int))
  }

  lemma {:induction false} FoldSnoc(ds: seq<byte>, d: byte, acc: int)
    ensures Fold(ds + [d], acc) == Fold(ds, acc) * 10 + ((d as int) - '0' as int)
    decreases |ds|
  {
    if ds == [] {
      assert [] + [d] == [d] && [d][1..] == [];
    } else {
      assert (ds + [d])[1..] == ds[1..] + [d];
      FoldSnoc(ds[1..], d, acc * 10 + ((ds[0] as int) - '0' as int));
    }
  }

  lemma {:induction false} DecimalFolds(n: nat)
    ensures Fold(Decimal(n), 0) == n
  {
    if n >= 10 {
      DecimalFolds(n / 10);
      FoldSnoc(Decimal(n / 10), 0x30 + n % 10, 0);
    } else {
      assert Decimal(n)[1..] == [];
    }
  }

  lemma {:induction false} NumberFolds(e: seq<byte>, i: nat, j: nat, hi: nat, acc: int)
    requires i <= j <= hi <= |e| && AllDigits(e[i..j]) && (j < hi ==> !IsDigit(e[j]))
    ensures Number(e, i, hi, acc) == (Fold(e[i..j], acc), j)
    decreases j - i
  {
    if i < j {
      var ds, rest := e[i..j], e[i + 1..j];
      assert ds[0] == e[i] && ds[1..] == rest;
      assert forall k | 0 <= k < |rest| :: rest[k] == ds[k + 1];
      NumberFolds(e, i + 1, j, hi, acc * 10 + ((e[i] as int) - '0' as int));
    }
  }

  // ----- The bytes in between

  /** Bytes that end no sequence: digits, the separator, and the sign in front of a mouse report. */
  ghost predicate IsBody(b: byte) { IsDigit(b) || b == ';' as int || b == '<' as int }

  /** `e` is the bracket and part of a body. */
  ghost predicate InBody(e: seq<byte>) {
    && 2 <= |e| < ESC_BUF_SIZE - 1 && e[0] == '[' as int
    && forall i | 1 <= i < |e| :: IsBody(e[i])
  }

  lemma BodyGoesOn(e: seq<byte>, shift: int -> int)
    requires InBody(e)
    ensures Recognise(e, shift).None?
  {
    assert IsBody(e[|e| - 1]);
  }

  function Inside(e: seq<byte>): Parser { Parser(true, e, false, [], 0) }

  /** A body is collected silently. */
  lemma {:induction false} FeedBody(e: seq<byte>, body: seq<byte>, shift: int -> int)
    requires e == ['[' as int] || InBody(e)
    requires body != [] ==> InBody(e + body)
    ensures Valid(Inside(e))
    ensures Feed(Inside(e), body, shift) == (Inside(e + body), Unknowns(|body|))
    decreases |body|
  {
    if body == [] {
      assert e + body == e;
    } else {
      var next := e + [body[0]];
      assert e + body == next + body[1..];
      assert InBody(next) by {
        assert forall i | 0 <= i < |next| :: next[i] == (e + body)[i];
      }
      BodyGoesOn(next, shift);
      FeedBody(next, body[1..], shift);
      assert Step(Inside(e), body[0], shift) == (Inside(next), Unknown);
      hide Step;
      FeedStep(Inside(e), body[0], body[1..], shift);
      assert [body[0]] + body[1..] == body;
    }
  }

  lemma EndsReport(e: seq<byte>, shift: int -> int)
    requires InBody(e) && |e| < ESC_BUF_SIZE - 2
    ensures Recognise(e + ['u' as int], shift) == Some(CsiU(e + ['u' as int], shift))
  {
    var r := e + ['u' as int];
    assert r[|r| - 1] == 'u' as int && r[1] == e[1];
  }

  function Body(keycode: nat, modifiers: nat): seq<byte> {
    Decimal(keycode) + [';' as int] + Decimal(modifiers)
  }

  lemma BodyBytes(keycode: nat, modifiers: nat)
    ensures var body := Body(keycode, modifiers);
            IsDigit(body[0]) && forall i | 0 <= i < |body| :: IsBody(body[i])
  {
    DecimalDigits(keycode);
    DecimalDigits(modifiers);
    var k, m, body := Decimal(keycode), Decimal(modifiers), Body(keycode, modifiers);
    forall i | 0 <= i < |body| ensures IsBody(body[i]) {
      if i < |k| {
        assert body[i] == k[i];
      } else if i > |k| {
        assert body[i] == m[i - |k| - 1];
      }
    }
    assert body[0] == k[0];
  }

  lemma BodyIsInside(keycode: nat, modifiers: nat, n: nat)
    requires 0 < n <= 13 && n <= |Body(keycode, modifiers)|
    ensures InBody(['[' as int] + Body(keycode, modifiers)[..n])
  {
    BodyBytes(keycode, modifiers);
    hide Body;
    var e := ['[' as int] + Body(keycode, modifiers)[..n];
    assert forall i | 1 <= i < |e| :: e[i] == Body(keycode, modifiers)[i - 1];
  }

  /** Both numbers are read back from the report. */
  lemma ReportReadsBack(keycode: nat, modifiers: nat, shift: int -> int)
    ensures CsiU(['[' as int] + Body(keycode, modifiers) + ['u' as int], shift) ==
            KeyAction(keycode, MaskNumLock(modifiers), shift)
  {
    var k, m := Decimal(keycode), Decimal(modifiers);
    var e := ['[' as int] + Body(keycode, modifiers) + ['u' as int];
    DecimalDigits(keycode);
    DecimalDigits(modifiers);
    DecimalFolds(keycode);
    DecimalFolds(modifiers);
    hide Decimal, KeyAction;
    var semi := 1 + |k|;
    assert e[1..semi] == k && e[semi] == ';' as int;
    assert e[semi + 1..|e| - 1] == m && e[|e| - 1] == 'u' as int;
    NumberFolds(e, 1, semi, |e|, 0);
    NumberFolds(e, semi + 1, |e| - 1, |e|, 0);
  }

  // ----- Reports that fit the buffer

  /** The action at the end of a report with a body of at most 13 bytes. */
  function Outcome(keycode: nat, modifiers: nat, shift: int -> int): Action {
    if |Body(keycode, modifiers)| <= 12 then KeyAction(keycode, MaskNumLock(modifiers), shift) else Unknown
  }

  lemma ReportEnds(keycode: nat, modifiers: nat, shift: int -> int)
    requires |Body(keycode, modifiers)| <= 13
    ensures var p := Inside(['[' as int] + Body(keycode, modifiers));
            && Valid(p)
            && Step(p, 'u' as int, shift) ==
               (GROUND, Outcome(keycode, modifiers, shift))
  {
    var body := Body(keycode, modifiers);
    assert |body| >= 3 && body[..|body|] == body;
    BodyIsInside(keycode, modifiers, |body|);
    ReportReadsBack(keycode, modifiers, shift);
    hide Body, KeyAction, Recognise, CsiU;
    var e := ['[' as int] + body;
    if |body| <= 12 {
      EndsReport(e, shift);
    } else {
      FullBuffer(e + ['u' as int], shift);
    }
  }

  lemma FullBuffer(e: seq<byte>, shift: int -> int)
    requires |e| >= ESC_BUF_SIZE - 1
    ensures Recognise(e, shift) == Some(Unknown)
  {
  }

  /** Behind the bracket a report is the silent body and the final byte. */
  lemma ReportTail(keycode: nat, modifiers: nat, shift: int -> int)
    requires |Body(keycode, modifiers)| <= 13
    ensures Valid(Inside(['[' as int]))
    ensures Feed(Inside(['[' as int]), Body(keycode, modifiers) + ['u' as int], shift) ==
            (GROUND, Unknowns(|Body(keycode, modifiers)|) +
                     [Outcome(keycode, modifiers, shift)])
  {
    var body := Body(keycode, modifiers);
    assert 3 <= |body| && body[..|body|] == body;
    BodyIsInside(keycode, modifiers, |body|);
    hide *;
    FeedBody(['[' as int], body, shift);
    ReportEnds(keycode, modifiers, shift);
    FeedByte(Inside(['[' as int] + body), 'u' as int, shift);
    FeedConcat(Inside(['[' as int]), body, ['u' as int], shift);
  }

  lemma ReportText(keycode: nat, modifiers: nat)
    ensures Report(keycode, modifiers) == [ESC, '[' as int] + (Body(keycode, modifiers) + ['u' as int])
    ensures |Report(keycode, modifiers)| == |Body(keycode, modifiers)| + 3
  {
    hide Decimal;
  }

  lemma ShortReport(keycode: nat, modifiers: nat, shift: int -> int)
    requires |Body(keycode, modifiers)| <= 13
    ensures Feed(GROUND, Report(keycode, modifiers), shift) ==
            (GROUND, Unknowns(|Report(keycode, modifiers)| - 1) +
                     [Outcome(keycode, modifiers, shift)])
  {
    hide *;
    var body := Body(keycode, modifiers);
    ReportTail(keycode, modifiers, shift);
    ReportText(keycode, modifiers);
    Opening(body + ['u' as int], shift);
    TwoMore(|body|, Outcome(keycode, modifiers, shift));
  }

  // ----- Reports that do not

  ghost predicate AllPrintable(bs: seq<byte>) { forall i | 0 <= i < |bs| :: 0x20 <= bs[i] < 0x7F }

  /** In the ground state printable bytes are typed. */
  lemma {:induction false} TypedThrough(bs: seq<byte>, shift: int -> int)
    requires AllPrintable(bs) && |bs| > 0
    ensures var r := Feed(GROUND, bs, shift);
            r.0 == GROUND && r.1[|bs| - 1] == Char(bs[|bs| - 1])
    decreases |bs|
  {
    assert ControlAction(bs[0]).None?;
    assert Step(GROUND, bs[0], shift) == (GROUND, Char(bs[0]));
    hide Step;
    FeedStep(GROUND, bs[0], bs[1..], shift);
    assert [bs[0]] + bs[1..] == bs;
    if |bs| > 1 {
      TypedThrough(bs[1..], shift);
    }
  }

  lemma Reassemble(body: seq<byte>, b: byte)
    requires |body| >= 14
    ensures body + [b] == body[..13] + ([body[13]] + (body[14..] + [b]))
  {
  }

  /** The buffer runs full inside a long body, and the rest is taken for text. */
  lemma LongBodyTail(body: seq<byte>, b: byte, shift: int -> int)
    requires |body| >= 14 && (forall i | 0 <= i < |body| :: IsBody(body[i])) && 0x20 <= b < 0x7F
    ensures Valid(Inside(['[' as int]))
    ensures var (q, actions) := Feed(Inside(['[' as int]), body + [b], shift);
            q == GROUND && actions[|body|] == Char(b)
  {
    var head, next, rest := body[..13], body[13], body[14..] + [b];
    assert InBody(['[' as int] + head);
    hide *;
    RestIsPrintable(body, b);
    FullStep(head, next, shift);
    Reassemble(body, b);
    FeedBody(['[' as int], head, shift);
    TypedThrough(rest, shift);
    FeedStep(Inside(['[' as int] + head), next, rest, shift);
    FeedConcat(Inside(['[' as int]), head, [next] + rest, shift);
    EndsAlike(Unknowns(13), Unknown, Feed(GROUND, rest, shift).1);
  }

  lemma EndsAlike(a: seq<Action>, x: Action, b: seq<Action>)
    requires b != []
    ensures (a + ([x] + b))[|a| + |b|] == b[|b| - 1]
  {
  }

  lemma RestIsPrintable(body: seq<byte>, b: byte)
    requires |body| >= 14 && (forall i | 0 <= i < |body| :: IsBody(body[i])) && 0x20 <= b < 0x7F
    ensures AllPrintable(body[14..] + [b])
  {
    var rest := body[14..] + [b];
    forall i | 0 <= i < |rest| ensures 0x20 <= rest[i] < 0x7F {
      if i < |body| - 14 {
        assert rest[i] == body[14 + i] && IsBody(body[14 + i]);
      }
    }
  }

  /** The fourteenth byte of a body fills the buffer. */
  lemma FullStep(head: seq<byte>, next: byte, shift: int -> int)
    requires |head| == 13
    ensures var e := ['[' as int] + head; Valid(Inside(e)) && Step(Inside(e), next, shift) == (GROUND, Unknown)
  {
    var e := ['[' as int] + head;
    FullBuffer(e + [next], shift);
    hide Recognise;
  }

  lemma LongReportTail(keycode: nat, modifiers: nat, shift: int -> int)
    requires |Body(keycode, modifiers)| >= 14
    ensures Valid(Inside(['[' as int]))
    ensures var bs := Body(keycode, modifiers) + ['u' as int];
            Feed(Inside(['[' as int]), bs, shift).1[|bs| - 1] == Char('u' as int)
  {
    BodyBytes(keycode, modifiers);
    LongBodyTail(Body(keycode, modifiers), 'u' as int, shift);
  }

  /** A report too long for the buffer names no character. */
  lemma LongReportIsNoChar(keycode: nat, modifiers: nat, shift: int -> int)
    requires |Body(keycode, modifiers)| >= 14
    ensures !KeyAction(keycode, MaskNumLock(modifiers), shift).Char?
  {
    if keycode <= 50000 && modifiers < 1000 {
      assert Power10(1) == 10 && Power10(2) == 100 && Power10(3) == 1000 && Power10(4) == 10000 && Power10(5) == 100000;
      DecimalLength(keycode, 5);
      DecimalLength(modifiers, 3);
    }
  }

  ghost predicate Delivers(keycode: nat, modifiers: nat, shift: int -> int) {
    Feed(GROUND, Report(keycode, modifiers), shift) ==
    (GROUND, Unknowns(|Report(keycode, modifiers)| - 1) + [KeyAction(keycode, MaskNumLock(modifiers), shift)])
  }

  lemma SameEnd(pre: seq<Action>, x: Action, y: Action)
    ensures pre + [x] == pre + [y] <==> x == y
  {
    assert (pre + [x])[|pre|] == x && (pre + [y])[|pre|] == y;
  }

  lemma ShortReportDelivers(keycode: nat, modifiers: nat, shift: int -> int)
    requires |Body(keycode, modifiers)| <= 13
    ensures Delivers(keycode, modifiers, shift) <==>
            |Body(keycode, modifiers)| <= 12 || KeyAction(keycode, MaskNumLock(modifiers), shift) == Unknown
  {
    hide Feed, KeyAction, Unknowns, Body, Report;
    ShortReport(keycode, modifiers, shift);
    var action := KeyAction(keycode, MaskNumLock(modifiers), shift);
    SameEnd(Unknowns(|Report(keycode, modifiers)| - 1), action, Unknown);
  }

  lemma LongReportFails(keycode: nat, modifiers: nat, shift: int -> int)
    requires |Body(keycode, modifiers)| >= 14
    ensures !Delivers(keycode, modifiers, shift)
  {
    hide KeyAction, Unknowns, Body, Report, Feed;
    var bs := Body(keycode, modifiers) + ['u' as int];
    LongReportTail(keycode, modifiers, shift);
    LongReportIsNoChar(keycode, modifiers, shift);
    ReportText(keycode, modifiers);
    Opening(bs, shift);
    var more := Feed(Inside(['[' as int]), bs, shift).1;
    var all := [Unknown, Unknown] + more;
    assert all[|all| - 1] == more[|more| - 1];
    var pre, action := Unknowns(|Report(keycode, modifiers)| - 1), KeyAction(keycode, MaskNumLock(modifiers), shift);
    assert (pre + [action])[|pre + [action]| - 1] == action;
  }

  /**
    A report is acted on once, as the key and modifiers it names, and feeding it ends in the ground
    state, exactly when it fits the buffer; one byte more is harmless when the key means nothing.
  */
  lemma ReportComesThrough(keycode: nat, modifiers: nat, shift: int -> int)
    ensures Delivers(keycode, modifiers, shift) <==>
            || |Body(keycode, modifiers)| <= 12
            || (|Body(keycode, modifiers)| == 13 && KeyAction(keycode, MaskNumLock(modifiers), shift) == Unknown)
  {
    hide *;
    if |Body(keycode, modifiers)| <= 13 {
      ShortReportDelivers(keycode, modifiers, shift);
    } else {
      LongReportFails(keycode, modifiers, shift);
    }
  }

  lemma TwoMore(n: nat, action: Action)
    ensures [Unknown, Unknown] + (Unknowns(n) + [action]) == Unknowns(n + 2) + [action]
  {
    assert Unknowns(n + 2) == [Unknown] + ([Unknown] + Unknowns(n));
  }

  /** ESC and the bracket give nothing yet. */
  lemma Opening(rest: seq<byte>, shift: int -> int)
    ensures Valid(Inside(['[' as int]))
    ensures var (r, more) := Feed(Inside(['[' as int]), rest, shift);
            Feed(GROUND, [ESC, '[' as int] + rest, shift) == (r, [Unknown, Unknown] + more)
  {
    var open := GROUND.(inEscape := true);
    assert Step(GROUND, ESC, shift) == (open, Unknown);
    assert [] + ['[' as int] == ['[' as int];
    assert Step(open, '[' as int, shift) == (Inside(['[' as int]), Unknown);
    hide Step;
    FeedStep(GROUND, ESC, ['[' as int] + rest, shift);
    FeedStep(open, '[' as int, rest, shift);
    assert [ESC] + (['[' as int] + rest) == [ESC, '[' as int] + rest;
    var (r, more) := Feed(Inside(['[' as int]), rest, shift);
    assert [Unknown] + ([Unknown] + more) == [Unknown, Unknown] + more;
  }

  /** In particular an unmodified printable key arrives as its own character. */
  lemma PlainKeyComesThrough(c: nat, shift: int -> int)
    requires 32 <= c <= 50000 && c != 127
    ensures Feed(GROUND, Report(c, 1), shift) == (GROUND, Unknowns(|Report(c, 1)| - 1) + [Char(c)])
  {
    PlainKeyFits(c, shift);
    hide *;
    ReportComesThrough(c, 1, shift);
    DeliversIs(c, 1, shift);
  }

  lemma PlainKeyFits(c: nat, shift: int -> int)
    requires 32 <= c <= 50000 && c != 127
    ensures |Body(c, 1)| <= 12 && KeyAction(c, MaskNumLock(1), shift) == Char(c)
  {
    assert Power10(1) == 10 && Power10(2) == 100 && Power10(3) == 1000 && Power10(4) == 10000 && Power10(5) == 100000;
    DecimalLength(c, 5);
  }

  lemma DeliversIs(keycode: nat, modifiers: nat, shift: int -> int)
    ensures Delivers(keycode, modifiers, shift) <==>
            Feed(GROUND, Report(keycode, modifiers), shift) ==
            (GROUND, Unknowns(|Report(keycode, modifiers)| - 1) + [KeyAction(keycode, MaskNumLock(modifiers), shift)])
  {
    hide Feed;
  }
}
