/**
  The conversation of one agent: messages, checkpoints (marks) into them, rewinding,
  clearing and forking.  `Conv` is the state, `Apply` the meaning of one operation and
  the growable array itself is `MessageStorage.MessageStore`.
*/
module Conversation {
  import opened Wrappers
  import opened Sequences

  datatype Role = User | Assistant | Tool

  datatype Block =
    | Text(text: string)
    | Thinking(thought: Option<string>, signature: Option<string>)
    | Redacted(data: Option<string>)
    | Call(id: string, name: string, arguments: string, thoughtSignature: Option<string>)
    | Answer(callId: string, content: string, isError: bool)

  datatype Message = Message(role: Role, blocks: seq<Block>, metadata: Option<string>, interrupted: bool)

  datatype Mark = Mark(tag: Option<string>, index: nat)

  datatype Conv = Conv(messages: seq<Message>, marks: seq<Mark>)

  /** What a finished LLM response leaves behind for the tool call it asks for. */
  datatype CallData = CallData(thinking: Option<string>, thinkingSignature: Option<string>,
                               redacted: Option<string>, id: string, name: string, arguments: string,
                               thoughtSignature: Option<string>)

  const EMPTY := Conv([], [])

  function TextMessage(role: Role, text: string): Message {
    Message(role, [Text(text)], None, false)
  }

  function CallMessage(d: CallData): Message {
    Message(Assistant,
            (if d.thinking.Some? then [Thinking(d.thinking, d.thinkingSignature)] else []) +
            (if d.redacted.Some? then [Redacted(d.redacted)] else []) +
            [Call(d.id, d.name, d.arguments, d.thoughtSignature)],
            None, false)
  }

  function ResultMessage(id: string, content: string): Message {
    Message(Tool, [Answer(id, content, false)], None, false)
  }

  // ----- Which tool calls a message makes and which it answers

  function CallIds(bs: seq<Block>): seq<string> {
    if bs == [] then []
    else (if bs[0].Call? then [bs[0].id] else []) + CallIds(bs[1..])
  }

  function AnswerIds(bs: seq<Block>): seq<string> {
    if bs == [] then []
    else (if bs[0].Answer? then [bs[0].callId] else []) + AnswerIds(bs[1..])
  }

  ghost predicate IsCall(m: Message) { CallIds(m.blocks) != [] }

  ghost predicate IsAnswer(m: Message) { AnswerIds(m.blocks) != [] }

  ghost predicate Answers(r: Message, c: Message) {
    |CallIds(c.blocks)| == 1 && AnswerIds(r.blocks) == CallIds(c.blocks)
  }

  ghost predicate PairedAt(ms: seq<Message>, i: nat)
    requires i < |ms|
  {
    && (IsCall(ms[i]) ==> i + 1 < |ms| && Answers(ms[i + 1], ms[i]))
    && (IsAnswer(ms[i]) ==> 0 < i && Answers(ms[i], ms[i - 1]))
  }

  /** Every call is followed at once by its own answer, and no answer stands alone. */
  ghost predicate Paired(ms: seq<Message>) {
    forall i: nat | i < |ms| :: PairedAt(ms, i)
  }

  /** Cutting the conversation at `k` separates no call from its answer. */
  ghost predicate CleanCut(ms: seq<Message>, k: nat) {
    0 < k <= |ms| ==> !IsCall(ms[k - 1])
  }

  lemma {:induction false} CallIdsConcat(a: seq<Block>, b: seq<Block>)
    ensures CallIds(a + b) == CallIds(a) + CallIds(b)
  {
    if a == [] {
      assert a + b == b;
    } else {
      CallIdsConcat(a[1..], b);
      assert (a + b)[1..] == a[1..] + b;
      Regroup(if a[0].Call? then [a[0].id] else [], CallIds(a[1..]), CallIds(b));
    }
  }

  lemma {:induction false} AnswerIdsConcat(a: seq<Block>, b: seq<Block>)
    ensures AnswerIds(a + b) == AnswerIds(a) + AnswerIds(b)
  {
    if a == [] {
      assert a + b == b;
    } else {
      AnswerIdsConcat(a[1..], b);
      assert (a + b)[1..] == a[1..] + b;
      Regroup(if a[0].Answer? then [a[0].callId] else [], AnswerIds(a[1..]), AnswerIds(b));
    }
  }

  lemma IdsOfOne(b: Block)
    ensures CallIds([b]) == if b.Call? then [b.id] else []
    ensures AnswerIds([b]) == if b.Answer? then [b.callId] else []
  {
  }

  /** The messages the program builds: plain text, a call with its thinking, an answer. */
  lemma BuiltIds(role: Role, text: string, d: CallData, content: string)
    ensures !IsCall(TextMessage(role, text)) && !IsAnswer(TextMessage(role, text))
    ensures CallIds(CallMessage(d).blocks) == [d.id] && !IsAnswer(CallMessage(d))
    ensures AnswerIds(ResultMessage(d.id, content).blocks) == [d.id] && !IsCall(ResultMessage(d.id, content))
  {
    var think := if d.thinking.Some? then [Thinking(d.thinking, d.thinkingSignature)] else [];
    var redact := if d.redacted.Some? then [Redacted(d.redacted)] else [];
    var call := [Call(d.id, d.name, d.arguments, d.thoughtSignature)];
    CallIdsConcat(think + redact, call);
    CallIdsConcat(think, redact);
    AnswerIdsConcat(think + redact, call);
    AnswerIdsConcat(think, redact);
    IdsOfOne(Thinking(d.thinking, d.thinkingSignature));
    IdsOfOne(Redacted(d.redacted));
    IdsOfOne(Call(d.id, d.name, d.arguments, d.thoughtSignature));
    IdsOfOne(Text(text));
    IdsOfOne(Answer(d.id, content, false));
  }

  // ----- Interrupting a turn

  /** Index of the last user message, or |ms| when there is none. */
  function LastUser(ms: seq<Message>): (k: nat)
    ensures k <= |ms|
    ensures k < |ms| ==> ms[k].role == User
    ensures forall j | 0 <= j < |ms| && (k == |ms| || k < j) :: ms[j].role != User
  {
    LastUserBelow(ms, |ms|)
  }

  function LastUserBelow(ms: seq<Message>, n: nat): (k: nat)
    requires n <= |ms|
    ensures k < n || k == |ms|
    ensures k < |ms| ==> ms[k].role == User
    ensures forall j | 0 <= j < n && (k == |ms| || k < j) :: ms[j].role != User
  {
    if n == 0 then |ms|
    else if ms[n - 1].role == User then n - 1
    else LastUserBelow(ms, n - 1)
  }

  function FlagFrom(ms: seq<Message>, k: nat): (r: seq<Message>)
    ensures |r| == |ms|
    ensures forall i | 0 <= i < |ms| :: r[i] == if i < k then ms[i] else ms[i].(interrupted := true)
  {
    seq(|ms|, i requires 0 <= i < |ms| => if i < k then ms[i] else ms[i].(interrupted := true))
  }

  /** The messages of the last turn, from its user message on, become interrupted. */
  function InterruptTurn(ms: seq<Message>): seq<Message> {
    FlagFrom(ms, LastUser(ms))
  }

  // ----- Forking: what a deep copy keeps

  function CloneBlock(b: Block): Block {
    if b.Call? then b.(thoughtSignature := None) else b
  }

  function CloneBlocks(bs: seq<Block>): (r: seq<Block>)
    ensures |r| == |bs|
    ensures forall i | 0 <= i < |bs| :: r[i] == CloneBlock(bs[i])
  {
    seq(|bs|, i requires 0 <= i < |bs| => CloneBlock(bs[i]))
  }

  function CloneMessage(m: Message): Message {
    Message(m.role, CloneBlocks(m.blocks), m.metadata, false)
  }

  function CloneMessages(ms: seq<Message>): (r: seq<Message>)
    ensures |r| == |ms|
    ensures forall i | 0 <= i < |ms| :: r[i] == CloneMessage(ms[i])
  {
    seq(|ms|, i requires 0 <= i < |ms| => CloneMessage(ms[i]))
  }

  lemma {:induction false} CloneKeepsIds(bs: seq<Block>)
    ensures CallIds(CloneBlocks(bs)) == CallIds(bs) && AnswerIds(CloneBlocks(bs)) == AnswerIds(bs)
  {
    if bs != [] {
      CloneKeepsIds(bs[1..]);
      assert CloneBlocks(bs)[1..] == CloneBlocks(bs[1..]);
    }
  }

  /** A copy keeps everything but the interrupted flag and the thought signatures of calls. */
  lemma CloneLosesOnly(ms: seq<Message>, i: nat, j: nat)
    requires i < |ms| && j < |ms[i].blocks|
    ensures var m, b := CloneMessages(ms)[i], ms[i].blocks[j];
            && m.role == ms[i].role && m.metadata == ms[i].metadata && !m.interrupted
            && |m.blocks| == |ms[i].blocks|
            && m.blocks[j] == if b.Call? then Call(b.id, b.name, b.arguments, None) else b
  {
  }

  ghost predicate LosesNothing(m: Message) {
    !m.interrupted && forall b | b in m.blocks && b.Call? :: b.thoughtSignature.None?
  }

  /** A fork's copy equals the original exactly when no message is interrupted or signs a call. */
  lemma CloneIsExact(ms: seq<Message>)
    ensures CloneMessages(ms) == ms <==> forall m | m in ms :: LosesNothing(m)
  {
    if CloneMessages(ms) == ms {
      forall m | m in ms ensures LosesNothing(m) {
        var i :| 0 <= i < |ms| && ms[i] == m;
        assert CloneMessage(m) == m;
        forall b | b in m.blocks && b.Call? ensures b.thoughtSignature.None? {
          var j :| 0 <= j < |m.blocks| && m.blocks[j] == b;
          assert CloneBlocks(m.blocks)[j] == CloneBlock(b);
        }
      }
    }
    forall i | 0 <= i < |ms| && LosesNothing(ms[i]) ensures CloneMessages(ms)[i] == ms[i] {
      forall j | 0 <= j < |ms[i].blocks| ensures CloneBlock(ms[i].blocks[j]) == ms[i].blocks[j] {
        assert ms[i].blocks[j] in ms[i].blocks;
      }
      assert CloneBlocks(ms[i].blocks) == ms[i].blocks;
    }
  }

  // ----- Marks

  /** The mark a label names: the latest one carrying it, or simply the latest for no label. */
  function Find(marks: seq<Mark>, tag: Option<string>): (r: Option<nat>)
    ensures r.Some? ==> r.value < |marks|
    ensures r.Some? && tag.Some? ==> marks[r.value].tag == tag
    ensures r.Some? && tag.None? ==> r.value == |marks| - 1
    ensures r.Some? && tag.Some? ==> forall j | r.value < j < |marks| :: marks[j].tag != tag
    ensures r.None? && tag.Some? ==> forall j | 0 <= j < |marks| :: marks[j].tag != tag
    ensures r.None? && tag.None? ==> marks == []
  {
    if marks == [] then None
    else if tag.None? || marks[|marks| - 1].tag == tag then Some(|marks| - 1)
    else Find(marks[..|marks| - 1], tag)
  }

  // ----- The operations

  datatype Op =
    | Say(role: Role, text: string)
    | Pair(call: CallData, content: string)
    | Interrupt
    | PutMark(tag: Option<string>)
    | Rewind(tag: Option<string>)
    | ClearAll
    | Fork

  function RewindTo(c: Conv, k: nat): Conv
    requires k < |c.marks| && c.marks[k].index <= |c.messages|
  {
    Conv(c.messages[..c.marks[k].index], c.marks[..k + 1])
  }

  /** Marks never point past the end; every operation keeps this. */
  ghost predicate InRange(c: Conv) {
    forall k: nat | k < |c.marks| :: c.marks[k].index <= |c.messages|
  }

  ghost function Apply(op: Op, c: Conv): Conv
    requires InRange(c)
  {
    match op
    case Say(role, text) => c.(messages := c.messages + [TextMessage(role, text)])
    case Pair(d, content) => c.(messages := c.messages + [CallMessage(d), ResultMessage(d.id, content)])
    case Interrupt => c.(messages := InterruptTurn(c.messages))
    case PutMark(tag) => c.(marks := c.marks + [Mark(tag, |c.messages|)])
    case Rewind(tag) =>
      var k := Find(c.marks, tag);
      if k.None? then c else RewindTo(c, k.value)
    case ClearAll => EMPTY
    case Fork => Conv(CloneMessages(c.messages), [])
  }

  // ----- Well-formed conversations

  ghost predicate Sound(c: Conv) {
    && Paired(c.messages)
    && InRange(c)
    && (forall k: nat | k < |c.marks| :: CleanCut(c.messages, c.marks[k].index))
    && (forall j: nat, k: nat | j < k < |c.marks| :: c.marks[j].index <= c.marks[k].index)
    && CleanCut(c.messages, |c.messages|)
  }

  /** Messages that agree on calls and answers are paired alike. */
  ghost predicate SameShape(m: Message, n: Message) {
    CallIds(m.blocks) == CallIds(n.blocks) && AnswerIds(m.blocks) == AnswerIds(n.blocks)
  }

  lemma ShapeKeepsSound(c: Conv, ms: seq<Message>, marks: seq<Mark>)
    requires Sound(c) && |ms| == |c.messages|
    requires forall i | 0 <= i < |ms| :: SameShape(ms[i], c.messages[i])
    requires marks == c.marks || marks == []
    ensures Sound(Conv(ms, marks))
  {
    forall i: nat | i < |ms| ensures PairedAt(ms, i) {
      assert PairedAt(c.messages, i);
    }
    forall k: nat | k < |marks| ensures CleanCut(ms, marks[k].index) {
      assert CleanCut(c.messages, marks[k].index);
    }
  }

  lemma PrefixKeepsSound(c: Conv, k: nat)
    requires Sound(c) && k < |c.marks|
    ensures Sound(RewindTo(c, k))
  {
    var r := RewindTo(c, k);
    assert CleanCut(c.messages, c.marks[k].index);
    forall i: nat | i < |r.messages| ensures PairedAt(r.messages, i) {
      assert PairedAt(c.messages, i);
    }
    forall j: nat | j < |r.marks| ensures CleanCut(r.messages, r.marks[j].index) {
      assert CleanCut(c.messages, c.marks[j].index);
    }
  }

  lemma AppendKeepsSound(c: Conv, more: seq<Message>)
    requires Sound(c) && Paired(more) && CleanCut(more, |more|)
    ensures Sound(c.(messages := c.messages + more))
  {
    var ms := c.messages + more;
    forall i: nat | i < |ms| ensures PairedAt(ms, i) {
      if i < |c.messages| {
        assert PairedAt(c.messages, i);
      } else {
        assert PairedAt(more, i - |c.messages|);
      }
    }
    forall k: nat | k < |c.marks| ensures CleanCut(ms, c.marks[k].index) {
      assert CleanCut(c.messages, c.marks[k].index);
    }
  }

  lemma SayKeepsSound(c: Conv, role: Role, text: string)
    requires Sound(c)
    ensures Sound(c.(messages := c.messages + [TextMessage(role, text)]))
  {
    BuiltIds(role, text, CallData(None, None, None, "", "", "", None), "");
    AppendKeepsSound(c, [TextMessage(role, text)]);
  }

  lemma PairKeepsSound(c: Conv, d: CallData, content: string)
    requires Sound(c)
    ensures Sound(c.(messages := c.messages + [CallMessage(d), ResultMessage(d.id, content)]))
  {
    var more := [CallMessage(d), ResultMessage(d.id, content)];
    BuiltIds(User, "", d, content);
    assert PairedAt(more, 0) && PairedAt(more, 1);
    AppendKeepsSound(c, more);
  }

  lemma MarkKeepsSound(c: Conv, tag: Option<string>)
    requires Sound(c)
    ensures Sound(c.(marks := c.marks + [Mark(tag, |c.messages|)]))
  {
    var marks := c.marks + [Mark(tag, |c.messages|)];
    forall k: nat | k < |marks| ensures CleanCut(c.messages, marks[k].index) {
      assert k < |c.marks| ==> CleanCut(c.messages, c.marks[k].index);
    }
  }

  lemma ForkKeepsSound(c: Conv)
    requires Sound(c)
    ensures Sound(Conv(CloneMessages(c.messages), []))
  {
    forall i | 0 <= i < |c.messages| ensures SameShape(CloneMessages(c.messages)[i], c.messages[i]) {
      CloneKeepsIds(c.messages[i].blocks);
    }
    ShapeKeepsSound(c, CloneMessages(c.messages), []);
  }

  /** Every operation keeps pairing, mark order and range, and no mark ever splits a pair. */
  lemma ApplyKeepsSound(op: Op, c: Conv)
    requires Sound(c)
    ensures Sound(Apply(op, c))
  {
    match op
    case Say(role, text) => SayKeepsSound(c, role, text);
    case Pair(d, content) => PairKeepsSound(c, d, content);
    case Interrupt => ShapeKeepsSound(c, InterruptTurn(c.messages), c.marks);
    case PutMark(tag) => MarkKeepsSound(c, tag);
    case Rewind(tag) =>
      var k := Find(c.marks, tag);
      if k.Some? {
        PrefixKeepsSound(c, k.value);
      }
    case ClearAll =>
    case Fork => ForkKeepsSound(c);
  }

  // ----- Rollback: each surviving mark remembers the messages present at its creation

  /** `snaps[k]` is a copy of the messages taken when mark k was made; no operation but a mark adds one. */
  datatype Tracked = Tracked(conv: Conv, snaps: seq<seq<Message>>)

  ghost function TrackedApply(op: Op, t: Tracked): Tracked
    requires InRange(t.conv) && |t.snaps| == |t.conv.marks|
  {
    Tracked(Apply(op, t.conv),
            match op
            case PutMark(_) => t.snaps + [t.conv.messages]
            case Rewind(tag) =>
              var k := Find(t.conv.marks, tag);
              if k.None? then t.snaps else t.snaps[..k.value + 1]
            case ClearAll => []
            case Fork => []
            case _ => t.snaps)
  }

  ghost function Plain(ms: seq<Message>): (r: seq<Message>)
    ensures |r| == |ms|
    ensures forall i | 0 <= i < |ms| :: r[i] == ms[i].(interrupted := false)
  {
    seq(|ms|, i requires 0 <= i < |ms| => ms[i].(interrupted := false))
  }

  ghost predicate Remembers(t: Tracked) {
    && Sound(t.conv)
    && |t.snaps| == |t.conv.marks|
    && forall k: nat | k < |t.snaps| :: Plain(t.conv.messages[..t.conv.marks[k].index]) == Plain(t.snaps[k])
  }

  lemma OldMarkKept(op: Op, t: Tracked, k: nat)
    requires Remembers(t)
    requires k < |TrackedApply(op, t).snaps| && k < |t.snaps|
    ensures var r := TrackedApply(op, t);
            && k < |r.conv.marks| && r.conv.marks[k] == t.conv.marks[k] && r.snaps[k] == t.snaps[k]
            && r.conv.marks[k].index <= |r.conv.messages|
            && Plain(r.conv.messages[..r.conv.marks[k].index]) == Plain(t.snaps[k])
  {
    var r := TrackedApply(op, t);
    var n := t.conv.marks[k].index;
    if op.Rewind? {
      var j := Find(t.conv.marks, op.tag);
      assert j.Some? ==> k <= j.value;
    }
    assert n <= |r.conv.messages|;
    forall i | 0 <= i < n
      ensures r.conv.messages[i].(interrupted := false) == t.conv.messages[i].(interrupted := false)
    {
    }
    assert Plain(r.conv.messages[..n]) == Plain(t.conv.messages[..n]);
  }

  lemma TrackedApplyRemembers(op: Op, t: Tracked)
    requires Remembers(t)
    ensures Remembers(TrackedApply(op, t))
  {
    ApplyKeepsSound(op, t.conv);
    var r := TrackedApply(op, t);
    forall k: nat | k < |r.snaps|
      ensures Plain(r.conv.messages[..r.conv.marks[k].index]) == Plain(r.snaps[k])
    {
      var n := r.conv.marks[k].index;
      if op.PutMark? && k == |t.snaps| {
        assert r.conv.messages[..n] == r.snaps[k];
      } else {
        OldMarkKept(op, t, k);
      }
    }
  }

  ghost function TrackedRun(ops: seq<Op>): (t: Tracked)
    ensures Remembers(t)
  {
    if ops == [] then Tracked(EMPTY, [])
    else
      var t := TrackedRun(ops[..|ops| - 1]);
      TrackedApplyRemembers(ops[|ops| - 1], t);
      TrackedApply(ops[|ops| - 1], t)
  }

  lemma FindIsFunctional(marks: seq<Mark>, tag: Option<string>, k: nat)
    requires k < |marks|
    requires tag.None? ==> k == |marks| - 1
    requires tag.Some? ==> marks[k].tag == tag && forall j | k < j < |marks| :: marks[j].tag != tag
    ensures Find(marks, tag) == Some(k)
  {
    var r := Find(marks, tag);
    if tag.Some? && r.Some? {
      assert r.value == k;
    }
  }

  lemma RewindOnce(t: Tracked, tag: Option<string>, k: nat)
    requires Remembers(t) && Find(t.conv.marks, tag) == Some(k)
    ensures var r := TrackedApply(Rewind(tag), t);
            && Plain(r.conv.messages) == Plain(t.snaps[k])
            && r.conv.marks == t.conv.marks[..k + 1] && r.snaps == t.snaps[..k + 1]
            && |r.conv.messages| == t.conv.marks[k].index
  {
    assert t.conv.marks[k].index <= |t.conv.messages|;
  }

  lemma RewindTwice(t: Tracked, tag: Option<string>, k: nat)
    requires Remembers(t) && Find(t.conv.marks, tag) == Some(k)
    ensures var r := TrackedApply(Rewind(tag), t);
            Remembers(r) && Find(r.conv.marks, tag) == Some(k) && TrackedApply(Rewind(tag), r) == r
  {
    TrackedApplyRemembers(Rewind(tag), t);
    RewindOnce(t, tag, k);
    var r := TrackedApply(Rewind(tag), t);
    FindAfterRewind(t.conv.marks, tag, k);
    RewindHere(r, tag, k);
  }

  lemma FindAfterRewind(marks: seq<Mark>, tag: Option<string>, k: nat)
    requires Find(marks, tag) == Some(k)
    ensures Find(marks[..k + 1], tag) == Some(k)
  {
    FindIsFunctional(marks[..k + 1], tag, k);
  }

  /** At its own mark a rewind changes nothing. */
  lemma RewindHere(r: Tracked, tag: Option<string>, k: nat)
    requires Remembers(r) && Find(r.conv.marks, tag) == Some(k)
    requires k + 1 == |r.conv.marks| && r.conv.marks[k].index == |r.conv.messages|
    ensures TrackedApply(Rewind(tag), r) == r
  {
    hide Find, Sound;
    assert r.conv.messages[..|r.conv.messages|] == r.conv.messages;
    assert r.conv.marks[..|r.conv.marks|] == r.conv.marks;
    assert r.snaps[..|r.snaps|] == r.snaps;
  }

  /**
    After any run, rewinding restores exactly the messages present when the mark was made,
    up to the interrupted flag, keeps the mark itself, and doing it again changes nothing.
  */
  lemma RewindIsExact(ops: seq<Op>, tag: Option<string>)
    ensures var t := TrackedRun(ops);
            var k := Find(t.conv.marks, tag);
            var r := TrackedApply(Rewind(tag), t);
            && (k.None? ==> r == t)
            && (k.Some? ==>
                  && Plain(r.conv.messages) == Plain(t.snaps[k.value])
                  && r.conv.marks == t.conv.marks[..k.value + 1]
                  && r.snaps == t.snaps[..k.value + 1]
                  && Find(r.conv.marks, tag) == k
                  && Remembers(r) && TrackedApply(Rewind(tag), r) == r)
  {
    hide TrackedRun, Find, Sound;
    var t := TrackedRun(ops);
    var k := Find(t.conv.marks, tag);
    if k.Some? {
      RewindOnce(t, tag, k.value);
      RewindTwice(t, tag, k.value);
    }
  }

  /** In every reachable conversation calls and answers are paired, whatever was marked, rewound or cleared. */
  lemma RunIsPaired(ops: seq<Op>)
    ensures var c := TrackedRun(ops).conv;
            && Paired(c.messages)
            && (forall k: nat | k < |c.marks| ::
                  c.marks[k].index <= |c.messages| && CleanCut(c.messages, c.marks[k].index))
            && (forall j: nat, k: nat | j < k < |c.marks| :: c.marks[j].index <= c.marks[k].index)
  {
    var t := TrackedRun(ops);
  }
}
