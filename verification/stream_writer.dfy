/**
  The streaming fields of an agent, updated delta by delta.
*/
module StreamWriting {
  import opened Wrappers
  import opened Sequences
  import opened Streaming

  class StreamWriter {
    var response: Option<string>
    var lineBuffer: Option<string>
    var firstLine: bool
    var scrollback: seq<string>

    ghost function Abs(): View
      reads this
    {
      View(response, Shows())
    }

    ghost function Shows(): Display
      reads this
    {
      Display(scrollback, lineBuffer, firstLine)
    }

    constructor ()
      ensures scrollback == [] && lineBuffer.None? && response.None?
    {
      response, lineBuffer, firstLine, scrollback := None, None, true, [];
    }

    /** What a submission does before it sends its request. */
    method TurnStart()
      modifies this`response, this`lineBuffer
      ensures Abs() == Streaming.TurnStart(old(Abs()))
    {
      response := None;
      lineBuffer := None;
    }

    /** The stream-start event. */
    method StreamStart()
      modifies this`response, this`firstLine
      ensures Abs() == Streaming.StreamStart(old(Abs()))
    {
      response := None;
      firstLine := true;
    }

    /** An interrupted request; `rendered` is the scrollback made anew from the messages. */
    method Interrupted(rendered: seq<string>)
      modifies this`response, this`scrollback
      ensures Abs() == Streaming.Interrupted(old(Abs()), rendered)
    {
      response := None;
      scrollback := rendered;
    }

    method FlushLine(segment: string)
      modifies this`scrollback, this`lineBuffer, this`firstLine
      ensures Shows() == Flush(old(Shows()), segment)
    {
      var prefix := if firstLine then PREFIX else "";
      if lineBuffer.Some? {
        scrollback := scrollback + [prefix + lineBuffer.value + segment];
        lineBuffer := None;
      } else if segment != "" {
        scrollback := scrollback + [prefix + segment];
      } else {
        if firstLine {
          return;   // the prefix waits for a line with text
        }
        scrollback := scrollback + [""];
      }
      firstLine := false;
    }

    method TextDelta(chunk: string)
      modifies this
      ensures Abs() == Delta(old(Abs()), chunk)
    {
      if chunk == "" {
        return;
      }
      response := Some(response.GetOr("") + chunk);
      hide Split, Flush, FlushAll, Complete, Last, OneLine;
      var start: nat, i: nat := 0, 0;
      ghost var all := Split(chunk);
      ghost var shown := FlushAll(Shows(), Complete(all));
      assert chunk[0..] == chunk;
      LongerLine(chunk, 0, -1);
      while i < |chunk|
        invariant 0 <= start <= i <= |chunk|
        invariant OneLine(chunk[start..i])
        invariant response == Some(old(response).GetOr("") + chunk)
        invariant FlushAll(Shows(), Complete(Split(chunk[start..]))) == shown
        invariant Last(Split(chunk[start..])) == Last(all)
      {
        if chunk[i] == '\n' {
          FlushSegment(Shows(), chunk, start, i);
          FlushLine(chunk[start..i]);
          start := i + 1;
        }
        LongerLine(chunk, start, i);
        i := i + 1;
      }
      assert chunk[start..i] == chunk[start..];
      SplitOneLine(chunk[start..]);
      NothingToFlush(Shows(), chunk[start..]);
      if start < |chunk| {
        lineBuffer := Some(lineBuffer.GetOr("") + chunk[start..]);
      }
    }

    method CompleteResponse()
      modifies this
      ensures Abs() == Finish(old(Abs()))
    {
      var hadContent := false;
      if response.Some? {
        var t := response.value;
        var p := 0;
        while p < |t| && !hadContent
          invariant 0 <= p <= |t|
          invariant hadContent ==> HasInk(t)
          invariant !hadContent ==> forall k | 0 <= k < p :: t[k] in " \t\n\r"
        {
          hadContent := t[p] !in " \t\n\r";
          p := p + 1;
        }
      }
      if lineBuffer.Some? {
        var prefix := if firstLine then PREFIX else "";
        scrollback := scrollback + [prefix + lineBuffer.value];
        lineBuffer := None;
        firstLine := false;
      }
      if hadContent {
        scrollback := scrollback + [""];
      }
    }
  }

  /** The text from `start` on begins with the line that ends at `i`. */
  lemma SegmentAt(chunk: string, start: nat, i: nat)
    requires start <= i < |chunk| && chunk[i] == '\n' && OneLine(chunk[start..i])
    ensures Split(chunk[start..]) == [chunk[start..i]] + Split(chunk[i + 1..])
    ensures Complete(Split(chunk[start..])) == [chunk[start..i]] + Complete(Split(chunk[i + 1..]))
  {
    assert chunk[start..i] + chunk[i..] == chunk[start..];
    assert chunk[i..] == "\n" + chunk[i + 1..];
    NewlineSplit(chunk[i + 1..]);
    hide *;
    SplitOneLine(chunk[start..i]);
    SplitConcat(chunk[start..i], chunk[i..]);
    GlueLine(chunk[start..i], Split(chunk[i + 1..]));
  }

  lemma NewlineSplit(rest: string)
    ensures Split("\n" + rest) == [""] + Split(rest)
  {
    assert ("\n" + rest)[1..] == rest;
  }

  /** A line and a newline in front of other lines. */
  lemma GlueLine(line: string, lines: seq<string>)
    requires |lines| >= 1
    ensures Glue([line], [""] + lines) == [line] + lines
    ensures Complete([line] + lines) == [line] + Complete(lines)
  {
    Nothing(line);
    assert ([""] + lines)[1..] == lines && Complete([line]) == [];
  }

  lemma FlushSegment(v: Display, chunk: string, start: nat, i: nat)
    requires start <= i < |chunk| && chunk[i] == '\n' && OneLine(chunk[start..i])
    ensures FlushAll(v, Complete(Split(chunk[start..]))) ==
            FlushAll(Flush(v, chunk[start..i]), Complete(Split(chunk[i + 1..])))
    ensures Last(Split(chunk[start..])) == Last(Split(chunk[i + 1..]))
  {
    SegmentAt(chunk, start, i);
  }

  lemma NothingToFlush(v: Display, line: string)
    ensures Last([line]) == line && FlushAll(v, Complete([line])) == v
  {
  }

  lemma LongerLine(chunk: string, start: nat, i: int)
    requires -1 <= i < |chunk| && start <= i + 1
    requires start <= i ==> OneLine(chunk[start..i]) && chunk[i] != '\n'
    ensures OneLine(chunk[start..i + 1])
  {
    if start <= i {
      assert chunk[start..i + 1] == chunk[start..i] + [chunk[i]];
    }
  }
}
