/** The growable message array and the marks of one agent, updated in place. */
module MessageStorage {
  import opened Wrappers
  import opened Conversation

  class MessageStore {
    var store: array<Message>
    var count: nat
    var marks: seq<Mark>

    ghost predicate Valid()
      reads this
    {
      count <= store.Length
    }

    ghost function Abs(): Conv
      requires Valid()
      reads this, store
    {
      Conv(store[..count], marks)
    }

    constructor ()
      ensures Valid() && fresh(store)
      ensures Abs() == EMPTY
    {
      store := new Message[0];
      count := 0;
      marks := [];
    }

    method AddMessage(m: Message)
      requires Valid()
      modifies this, store
      ensures Valid() && (store == old(store) || fresh(store))
      ensures Abs() == old(Abs()).(messages := old(Abs()).messages + [m])
    {
      if count >= store.Length {
        var capacity := if store.Length == 0 then 16 else store.Length * 2;
        var bigger := new Message[capacity](_ => m);
        forall i | 0 <= i < count {
          bigger[i] := store[i];
        }
        store := bigger;
      }
      store[count] := m;
      count := count + 1;
    }

    method ClearMessages()
      requires Valid()
      modifies this
      ensures Valid() && fresh(store)
      ensures Abs() == Conv([], old(marks))
    {
      store := new Message[0];
      count := 0;
    }

    /** The /clear command: messages and marks go together. */
    method ClearAll()
      requires Valid() && InRange(Abs())
      modifies this
      ensures Valid() && fresh(store)
      ensures Abs() == Apply(Op.ClearAll, old(Abs()))
    {
      ClearMessages();
      marks := [];
    }

    /** `clockOk` is whether a timestamp could be made; without one no mark is added. */
    method CreateMark(tag: Option<string>, clockOk: bool) returns (ok: bool)
      requires Valid() && InRange(Abs())
      modifies this`marks
      ensures Valid() && ok == clockOk
      ensures Abs() == if ok then Apply(PutMark(tag), old(Abs())) else old(Abs())
    {
      if !clockOk {
        return false;
      }
      marks := marks + [Mark(tag, count)];
      return true;
    }

    method FindMark(tag: Option<string>) returns (r: Option<nat>)
      ensures r == Find(marks, tag)
    {
      if |marks| == 0 {
        return None;
      }
      if tag.None? {
        return Some(|marks| - 1);
      }
      var i := |marks|;
      while i > 0
        invariant 0 <= i <= |marks|
        invariant forall j | i <= j < |marks| :: marks[j].tag != tag
      {
        if marks[i - 1].tag.Some? && marks[i - 1].tag.value == tag.value {
          FindIsFunctional(marks, tag, i - 1);
          return Some(i - 1);
        }
        i := i - 1;
      }
      return None;
    }

    method RewindToMark(k: nat)
      requires Valid() && InRange(Abs()) && k < |marks|
      modifies this
      ensures Valid() && store == old(store)
      ensures Abs() == RewindTo(old(Abs()), k)
    {
      count := marks[k].index;
      marks := marks[..k + 1];
    }

    method Rewind(tag: Option<string>) returns (ok: bool)
      requires Valid() && InRange(Abs())
      modifies this
      ensures Valid() && store == old(store)
      ensures ok == Find(old(marks), tag).Some?
      ensures Abs() == Apply(Op.Rewind(tag), old(Abs()))
    {
      var k := FindMark(tag);
      if k.None? {
        return false;
      }
      RewindToMark(k.value);
      return true;
    }

    /** Flags every message from the most recent user message on. */
    method InterruptLastTurn()
      requires Valid()
      modifies store
      ensures Valid()
      ensures Abs() == old(Abs()).(messages := InterruptTurn(old(Abs()).messages))
    {
      var turnStart, found := 0, false;
      var i := count;
      while i > 0 && !found
        invariant 0 <= i <= count
        invariant !found ==> forall j | i <= j < count :: store[j].role != User
        invariant found ==> turnStart == i < count && store[i].role == User
                            && forall j | i < j < count :: store[j].role != User
      {
        i := i - 1;
        if store[i].role == User {
          turnStart, found := i, true;
        }
      }
      ghost var last := LastUser(store[..count]);
      assert last == if found then turnStart else count;
      if found && turnStart < count {
        var k := turnStart;
        while k < count
          invariant turnStart <= k <= count
          invariant forall j | 0 <= j < count && (j < turnStart || k <= j) :: store[j] == old(store[j])
          invariant forall j | turnStart <= j < k :: store[j] == old(store[j]).(interrupted := true)
        {
          store[k] := store[k].(interrupted := true);
          k := k + 1;
        }
      }
      assert store[..count] == FlagFrom(old(store[..count]), last);
    }

    /** Deep copy of another agent's messages; the marks of this one are left alone. */
    method CloneFrom(src: MessageStore)
      requires Valid() && src.Valid() && src != this
      modifies this
      ensures Valid() && fresh(store)
      ensures Abs() == Conv(CloneMessages(src.Abs().messages), old(marks))
    {
      ClearMessages();
      if src.count == 0 {
        return;
      }
      store := new Message[src.count](_ => Message(User, [], None, false));
      var i := 0;
      while i < src.count
        invariant 0 <= i <= src.count == store.Length
        invariant fresh(store) && marks == old(marks)
        invariant forall j | 0 <= j < i :: store[j] == CloneMessage(src.store[j])
      {
        store[i] := CloneMessage(src.store[i]);
        i := i + 1;
      }
      count := src.count;
    }
  }
}
