/**
  Streams one after another: which text of earlier ones a stream still shows.
*/
module StreamEvents {
  import opened Wrappers
  import opened Sequences
  import opened Streaming

  datatype Event =
    | Submission
    | Started
    | Text(chunk: string)
    | Completed
    | Cancelled(rendered: seq<string>)   // interrupted, without a completion callback

  function Happen(v: View, e: Event): View {
    match e
    case Submission => TurnStart(v)
    case Started => StreamStart(v)
    case Text(chunk) => Delta(v, chunk)
    case Completed => Finish(v)
    case Cancelled(rendered) => Interrupted(v, rendered)
  }

  const SILENT := View(None, Display([], None, true))

  function History(events: seq<Event>): View {
    if events == [] then SILENT else Happen(History(events[..|events| - 1]), events[|events| - 1])
  }

  function TextAfter(before: string, e: Event): string {
    match e
    case Text(chunk) => before + chunk
    case Submission => ""
    case Completed => ""
    case _ => before
  }

  /** The text that came in since the last submission or completion. */
  function TextSince(events: seq<Event>): string {
    if events == [] then "" else TextAfter(TextSince(events[..|events| - 1]), events[|events| - 1])
  }

  /** Of it, what stands behind the last newline. */
  function Leftover(events: seq<Event>): string { Last(Split(TextSince(events))) }

  lemma {:induction false} FlushedBuffer(v: Display, segments: seq<string>)
    ensures FlushAll(v, segments).buffer == if segments == [] then v.buffer else None
    decreases |segments|
  {
    if segments != [] {
      FlushedBuffer(Flush(v, segments[0]), segments[1..]);
    }
  }

  lemma LastGlued(x: seq<string>, y: seq<string>)
    requires |x| >= 1 && |y| >= 1
    ensures Last(Glue(x, y)) == if |y| == 1 then Last(x) + Last(y) else Last(y)
  {
  }

  /** A delta leaves what stands behind the last newline of the longer text. */
  lemma DeltaBuffer(v: View, t: string, chunk: string)
    requires v.display.buffer == AsBuffer(Last(Split(t)))
    ensures Delta(v, chunk).display.buffer == AsBuffer(Last(Split(t + chunk)))
  {
    var x, y := Split(t), Split(chunk);
    SplitConcat(t, chunk);
    LastGlued(x, y);
    FlushedBuffer(v.display, Complete(y));
    assert |y| == 1 <==> Complete(y) == [];
    hide Split, FlushAll, Glue;
    Nothing(t);
    Nothing(Last(x));
    Nothing(Last(y));
  }

  /** Whatever happened, the unfinished line is what is left of that text. */
  lemma {:induction false} BufferIsLeftover(events: seq<Event>)
    ensures History(events).display.buffer == AsBuffer(Leftover(events))
  {
    assert Split("") == [""];
    hide Split, Delta;
    if events != [] {
      var before := events[..|events| - 1];
      BufferIsLeftover(before);
      if events[|events| - 1].Text? {
        DeltaBuffer(History(before), TextSince(before), events[|events| - 1].chunk);
      }
    }
  }

  lemma LeftoverIsOneLine(events: seq<Event>)
    ensures OneLine(Leftover(events))
  {
    SplitJoins(TextSince(events));
  }

  // ----- An unfinished line always shows

  lemma SplitBehind(left: string, t: string)
    requires OneLine(left)
    ensures Split(left + t) == [left + Split(t)[0]] + Split(t)[1..]
  {
    SplitConcat(left, t);
    SplitOneLine(left);
    hide Split;
    assert Complete([left]) == [];
    Nothing([left + Split(t)[0]] + Split(t)[1..]);
  }

  /** A list of lines without an empty last one. */
  function Trimmed(lines: seq<string>): seq<string>
    requires |lines| >= 1
  {
    if Last(lines) == "" then Complete(lines) else lines
  }

  lemma TrimmedTail(line: string, rest: seq<string>)
    ensures Trimmed([line] + rest) ==
            if rest == [] then if line == "" then [] else [line] else [line] + Trimmed(rest)
  {
    var all := [line] + rest;
    if rest != [] {
      assert Last(all) == Last(rest) && Complete(all) == [line] + Complete(rest);
    }
  }

  lemma ShownFirst(line: string, rest: seq<string>)
    ensures line != "" ==> Shown([line] + rest) == [PREFIX + line] + rest
    ensures |Shown([line] + rest)| <= 1 + |rest| && (line == "" ==> |Shown([line] + rest)| <= |rest|)
  {
    assert ([line] + rest)[1..] == rest;
    DropEmptyShorter(rest);
  }

  lemma {:induction false} DropEmptyShorter(lines: seq<string>)
    ensures |DropEmpty(lines)| <= |lines|
  {
    if lines != [] {
      DropEmptyShorter(lines[1..]);
    }
  }

  lemma ShownDiffers(left: string, line: string, rest: seq<string>)
    requires left != ""
    ensures Shown(Trimmed([left + line] + rest)) != Shown(Trimmed([line] + rest))
  {
    TrimmedTail(left + line, rest);
    TrimmedTail(line, rest);
    var more := if rest == [] then [] else Trimmed(rest);
    Nothing([left + line]);
    Nothing([line]);
    ShownFirst(left + line, more);
    ShownFirst(line, more);
    assert Shown([]) == [];
    hide Shown, Trimmed;
    if line != "" {
      assert ([PREFIX + (left + line)] + more)[0] == PREFIX + (left + line);
      assert ([PREFIX + line] + more)[0] == PREFIX + line;
      assert |PREFIX + (left + line)| > |PREFIX + line|;
    }
  }

  lemma LeftoverShows(left: string, t: string)
    requires OneLine(left)
    ensures Shown(Whole(left + t)) == Shown(Whole(t)) <==> left == ""
  {
    if left == "" {
      assert left + t == t;
    } else {
      SplitBehind(left, t);
      var line, rest := Split(t)[0], Split(t)[1..];
      assert Split(t) == [line] + rest;
      assert Whole(t) == Trimmed([line] + rest) && Whole(left + t) == Trimmed([left + line] + rest);
      hide Split, Whole, Shown, Trimmed;
      ShownDiffers(left, line, rest);
    }
  }

  lemma SameMiddle(a: seq<string>, b: seq<string>, c: seq<string>, d: seq<string>)
    ensures a + b + d == a + c + d <==> b == c
  {
    if a + b + d == a + c + d {
      assert |b| == |c|;
      assert b == (a + b + d)[|a|..|a| + |b|];
      assert c == (a + c + d)[|a|..|a| + |c|];
    }
  }

  /**
    After any history of submissions, streams, completions and interrupts a stream shows the lines of
    its own response and nothing else exactly if the text since the last submission or completion
    ends with a newline or is empty; otherwise its first line begins with what was left.
  */
  lemma StreamShowsItsOwnText(events: seq<Event>, chunks: seq<string>)
    ensures var v, t := History(events), Concat(chunks);
            var r, end := Streamed(v, chunks), if HasInk(t) then [""] else [];
            && r.response == AsBuffer(t) && r.display.buffer.None?
            && r.display.lines == v.display.lines + Shown(Whole(Leftover(events) + t)) + end
            && (r.display.lines == v.display.lines + Shown(Whole(t)) + end <==> Leftover(events) == "")
  {
    var v, t, left := History(events), Concat(chunks), Leftover(events);
    LeftoverIsOneLine(events);
    BufferIsLeftover(events);
    hide *;
    StreamShows(v, left, chunks);
    LeftoverShows(left, t);
    SameMiddle(v.display.lines, Shown(Whole(left + t)), Shown(Whole(t)), if HasInk(t) then [""] else []);
  }

  /** In particular it does right behind a submission or a completion. */
  lemma NothingLeftBehindAnEnd(events: seq<Event>, e: Event)
    requires e.Submission? || e.Completed?
    ensures Leftover(events + [e]) == ""
  {
    var all := events + [e];
    assert all[|all| - 1] == e;
    assert Split("") == [""];
  }

  lemma HistoryGrows(events: seq<Event>, e: Event)
    ensures History(events + [e]) == Happen(History(events), e)
    ensures TextSince(events + [e]) == TextAfter(TextSince(events), e)
  {
    var all := events + [e];
    assert all[..|all| - 1] == events && all[|all| - 1] == e;
  }

  /**
    A continuation interrupted in the middle of a line: a stream that starts without a submission, as
    a finished /wait starts one, never shows just its own response.
  */
  lemma InterruptedLineShows(events: seq<Event>, line: string, rendered: seq<string>, chunks: seq<string>)
    requires TextSince(events) == "" && OneLine(line) && line != ""
    ensures var t := Concat(chunks);
            var end := if HasInk(t) then [""] else [];
            var v := History(events + [Started] + [Text(line)] + [Cancelled(rendered)]);
            var lines := Streamed(v, chunks).display.lines;
            && lines == rendered + Shown(Whole(line + t)) + end
            && lines != rendered + Shown(Whole(t)) + end
  {
    HistoryGrows(events, Started);
    HistoryGrows(events + [Started], Text(line));
    HistoryGrows(events + [Started] + [Text(line)], Cancelled(rendered));
    Nothing(line);
    SplitOneLine(line);
    hide History, TextSince, Shown, Whole, HasInk, Split, Streamed;
    StreamShowsItsOwnText(events + [Started] + [Text(line)] + [Cancelled(rendered)], chunks);
  }

  /** The line "abc" was left when the next response "x" came in. */
  lemma InterruptedLineIsJoined(rendered: seq<string>)
    ensures var events := [Submission] + [Completed] + [Started] + [Text("abc")] + [Cancelled(rendered)];
            Streamed(History(events), ["x\n"]).display.lines == rendered + [PREFIX + "abcx"] + [""]
  {
    var events := [Submission] + [Completed];
    HistoryGrows([Submission], Completed);
    hide History, TextSince, Streamed;
    InterruptedLineShows(events, "abc", rendered, ["x\n"]);
    assert Concat(["x\n"]) == "x\n" + "" == "x\n" && HasInk("x\n") by {
      assert "x\n"[0] == 'x';
      assert Concat([]) == "";
    }
    OneLineShown("abcx");
    assert "abc" + "x\n" == "abcx" + "\n";
  }

  lemma OneLineShown(line: string)
    requires OneLine(line) && line != ""
    ensures Shown(Whole(line + "\n")) == [PREFIX + line]
  {
    Nothing(line);
    SplitTerminated("", line);
    SplitOneLine(line);
    assert Split(line + "\n") == [line, ""];
    hide Split;
    assert Complete([line, ""]) == [line];
  }
}
