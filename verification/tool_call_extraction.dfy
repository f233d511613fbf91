/**
  What a response leaves pending: its first tool call and the thinking in front of it.
*/
module ToolCallExtraction {
  import opened Wrappers
  import opened Conversation

  /** Where the first tool call stands, or the number of blocks. */
  function FirstCall(blocks: seq<Block>): (k: nat)
    ensures k <= |blocks| && (k < |blocks| ==> blocks[k].Call?)
    ensures forall j | 0 <= j < k :: !blocks[j].Call?
  {
    if blocks == [] || blocks[0].Call? then 0 else 1 + FirstCall(blocks[1..])
  }

  /** The last value that the blocks before `k` give, or None. */
  function LastGiven(blocks: seq<Block>, k: nat, give: Block -> Option<string>): Option<string>
    requires k <= |blocks|
  {
    if k == 0 then None
    else if give(blocks[k - 1]).Some? then give(blocks[k - 1])
    else LastGiven(blocks, k - 1, give)
  }

  /** None of the blocks gives anything, or the last one that does gives the value. */
  lemma {:induction false} LastGivenIsLast(blocks: seq<Block>, k: nat, give: Block -> Option<string>) returns (i: nat)
    requires k <= |blocks|
    ensures i <= k && forall j | i <= j < k :: give(blocks[j]).None?
    ensures LastGiven(blocks, k, give) == if i == 0 then None else give(blocks[i - 1])
    ensures i > 0 ==> give(blocks[i - 1]).Some?
  {
    if k == 0 {
      i := 0;
    } else if give(blocks[k - 1]).Some? {
      i := k;
    } else {
      i := LastGivenIsLast(blocks, k - 1, give);
    }
  }

  function Thought(b: Block): Option<string> { if b.Thinking? then b.thought else None }

  function Signature(b: Block): Option<string> { if b.Thinking? then b.signature else None }

  function RedactedData(b: Block): Option<string> { if b.Redacted? then b.data else None }

  /** The tool call a response asks for, with the thinking that belongs to it. */
  function Extract(blocks: seq<Block>): Option<CallData> {
    var k := FirstCall(blocks);
    if k == |blocks| then None
    else
      var c := blocks[k];
      Some(CallData(LastGiven(blocks, k, Thought), LastGiven(blocks, k, Signature), LastGiven(blocks, k, RedactedData),
                    c.id, c.name, c.arguments, c.thoughtSignature))
  }

  /** Nothing is extracted exactly if there is no call. */
  lemma ExtractsCalls(blocks: seq<Block>)
    ensures Extract(blocks).Some? <==> exists b | b in blocks :: b.Call?
  {
    var k := FirstCall(blocks);
    assert k < |blocks| ==> blocks[k] in blocks;
  }

  /**
    The call is the first one, and of the thinking, its signature and the redacted data each is the
    last one given before it.
  */
  lemma ExtractIsExact(blocks: seq<Block>, d: CallData) returns (k: nat, t: nat, g: nat, r: nat)
    requires Extract(blocks) == Some(d)
    ensures k < |blocks| && blocks[k] == Call(d.id, d.name, d.arguments, d.thoughtSignature)
    ensures forall j | 0 <= j < k :: !blocks[j].Call?
    ensures t <= k && g <= k && r <= k
    ensures forall j | t <= j < k :: blocks[j].Thinking? ==> blocks[j].thought.None?
    ensures forall j | g <= j < k :: blocks[j].Thinking? ==> blocks[j].signature.None?
    ensures forall j | r <= j < k :: blocks[j].Redacted? ==> blocks[j].data.None?
    ensures if t == 0 then d.thinking.None?
            else blocks[t - 1].Thinking? && d.thinking.Some? && d.thinking == blocks[t - 1].thought
    ensures if g == 0 then d.thinkingSignature.None?
            else blocks[g - 1].Thinking? && d.thinkingSignature.Some? && d.thinkingSignature == blocks[g - 1].signature
    ensures if r == 0 then d.redacted.None?
            else blocks[r - 1].Redacted? && d.redacted.Some? && d.redacted == blocks[r - 1].data
  {
    k := FirstCall(blocks);
    t := LastGivenIsLast(blocks, k, Thought);
    g := LastGivenIsLast(blocks, k, Signature);
    r := LastGivenIsLast(blocks, k, RedactedData);
    hide LastGiven;
    assert forall j | t <= j < k :: Thought(blocks[j]).None?;
    assert forall j | g <= j < k :: Signature(blocks[j]).None?;
    assert forall j | r <= j < k :: RedactedData(blocks[j]).None?;
  }

  /**
    The message stored for a call gives the call back exactly when no signature of unstored thinking
    is lost.
  */
  lemma StoredCallIsExtracted(d: CallData)
    ensures Extract(CallMessage(d).blocks) == Some(d) <==> (d.thinking.None? ==> d.thinkingSignature.None?)
  {
    hide FirstCall;
    var bs := CallMessage(d).blocks;
    var k := |bs| - 1;
    assert bs[k] == Call(d.id, d.name, d.arguments, d.thoughtSignature);
    assert forall j | 0 <= j < k :: bs[j] == Thinking(d.thinking, d.thinkingSignature) || bs[j] == Redacted(d.redacted);
    assert FirstCall(bs) == k;
    if d.thinking.Some? {
      assert bs[0] == Thinking(d.thinking, d.thinkingSignature);
    }
    var i := LastGivenIsLast(bs, k, Thought);
    i := LastGivenIsLast(bs, k, Signature);
    i := LastGivenIsLast(bs, k, RedactedData);
  }

  class PendingFields {
    var thinking: Option<string>
    var signature: Option<string>
    var redacted: Option<string>
    var call: Option<Block>

    /** The pending fields together, once there is a call. */
    ghost function Pending(): Option<CallData>
      reads this
    {
      if call.Some? && call.value.Call? then
        Some(CallData(thinking, signature, redacted, call.value.id, call.value.name, call.value.arguments,
                      call.value.thoughtSignature))
      else None
    }

    constructor ()
      ensures Pending().None?
    {
      thinking, signature, redacted, call := None, None, None, None;
    }

    /** Nothing pending from an earlier response survives, and nothing behind the first call counts. */
    method ExtractToolCalls(blocks: seq<Block>)
      modifies this
      ensures Pending() == Extract(blocks)
      ensures thinking == LastGiven(blocks, FirstCall(blocks), Thought)
    {
      thinking, signature, redacted, call := None, None, None, None;
      var i: nat := 0;
      while i < |blocks|
        invariant i <= |blocks| && call.None?
        invariant forall j | 0 <= j < i :: !blocks[j].Call?
        invariant thinking == LastGiven(blocks, i, Thought)
        invariant signature == LastGiven(blocks, i, Signature)
        invariant redacted == LastGiven(blocks, i, RedactedData)
      {
        match blocks[i] {
          case Thinking(thought, sign) =>
            if thought.Some? {
              thinking := thought;
            }
            if sign.Some? {
              signature := sign;
            }
          case Redacted(data) =>
            if data.Some? {
              redacted := data;
            }
          case Call(_, _, _, _) =>
            assert FirstCall(blocks) == i;
            call := Some(blocks[i]);
            return;
          case _ =>
        }
        i := i + 1;
      }
      assert FirstCall(blocks) == i;
    }
  }
}
