/**
  Assembly of a streamed response into scrollback lines.  `Split` is the independent meaning of
  "the lines of a text"; the display after any cutting into deltas depends on the whole text only.
*/
module Streaming {
  import opened Wrappers
  import opened Sequences

  /** What is shown: lines so far, the unfinished line, and whether the prefix is still due. */
  datatype Display = Display(lines: seq<string>, buffer: Option<string>, first: bool)

  datatype View = View(response: Option<string>, display: Display)

  const PREFIX := "● "

  // ----- Lines of a text

  /** The lines between the newlines; there is always a last, possibly empty one. */
  function Split(t: string): (lines: seq<string>)
    ensures |lines| >= 1
  {
    if t == "" then [""]
    else
      var rest := Split(t[1..]);
      if t[0] == '\n' then [""] + rest else [[t[0]] + rest[0]] + rest[1..]
  }

  function Join(lines: seq<string>): string
    requires |lines| >= 1
  {
    if |lines| == 1 then lines[0] else lines[0] + "\n" + Join(lines[1..])
  }

  predicate OneLine(s: string) { '\n' !in s }

  ghost predicate AllOneLine(lines: seq<string>) {
    forall i | 0 <= i < |lines| :: OneLine(lines[i])
  }

  function Last(lines: seq<string>): string
    requires |lines| >= 1
  {
    lines[|lines| - 1]
  }

  function Complete(lines: seq<string>): seq<string>
    requires |lines| >= 1
  {
    lines[..|lines| - 1]
  }

  lemma {:induction false} SplitJoins(t: string)
    ensures Join(Split(t)) == t && AllOneLine(Split(t))
  {
    if t != "" {
      SplitJoins(t[1..]);
      var rest := Split(t[1..]);
      if t[0] == '\n' {
        assert ([""] + rest)[1..] == rest;
        assert "" + "\n" + t[1..] == t;
      } else {
        var lines := [[t[0]] + rest[0]] + rest[1..];
        assert lines[1..] == rest[1..];
        assert Join(lines) == [t[0]] + Join(rest) by {
          if |rest| > 1 {
            assert [t[0]] + rest[0] + "\n" + Join(rest[1..]) == [t[0]] + (rest[0] + "\n" + Join(rest[1..]));
          }
        }
      }
    }
  }

  lemma {:induction false} SplitOneLine(s: string)
    requires OneLine(s)
    ensures Split(s) == [s]
  {
    if s != "" {
      assert OneLine(s[1..]);
      SplitOneLine(s[1..]);
      assert [s[0]] + s[1..] == s;
    }
  }

  /** The last line of one text goes on as the first line of the next. */
  function Glue(x: seq<string>, y: seq<string>): seq<string>
    requires |x| >= 1 && |y| >= 1
  {
    Complete(x) + [Last(x) + y[0]] + y[1..]
  }

  lemma GlueNewline(x: seq<string>, y: seq<string>)
    requires |x| >= 1 && |y| >= 1
    ensures Glue([""] + x, y) == [""] + Glue(x, y)
  {
    assert Complete([""] + x) == [""] + Complete(x);
  }

  lemma GlueChar(c: char, x: seq<string>, y: seq<string>)
    requires |x| >= 1 && |y| >= 1
    ensures Glue([[c] + x[0]] + x[1..], y) == [[c] + Glue(x, y)[0]] + Glue(x, y)[1..]
  {
    var here := [[c] + x[0]] + x[1..];
    if |x| == 1 {
      Regroup([c], x[0], y[0]);
      assert Complete(here) == [] && Complete(x) == [];
    } else {
      assert Complete(here) == [[c] + x[0]] + Complete(x)[1..];
    }
  }

  lemma {:induction false} SplitConcat(a: string, b: string)
    ensures Split(a + b) == Glue(Split(a), Split(b))
  {
    if a == "" {
      assert a + b == b && "" + Split(b)[0] == Split(b)[0];
    } else {
      SplitConcat(a[1..], b);
      assert (a + b)[1..] == a[1..] + b;
      hide Glue;
      GlueNewline(Split(a[1..]), Split(b));
      GlueChar(a[0], Split(a[1..]), Split(b));
    }
  }

  /** The split is the only way to write a text as lines. */
  lemma {:induction false} SplitIsUnique(lines: seq<string>)
    requires |lines| >= 1 && AllOneLine(lines)
    ensures Split(Join(lines)) == lines
  {
    SplitOneLine(lines[0]);
    if |lines| > 1 {
      SplitIsUnique(lines[1..]);
      var more := Join(lines[1..]);
      assert lines[0] + "\n" + more == lines[0] + ("\n" + more);
      SplitConcat(lines[0], "\n" + more);
      assert ("\n" + more)[1..] == more;
      assert lines[0] + "" == lines[0];
    }
  }

  // ----- What the code does with one delta

  function Flush(v: Display, segment: string): Display {
    var prefix := if v.first then PREFIX else "";
    if v.buffer.Some? then Display(v.lines + [prefix + v.buffer.value + segment], None, false)
    else if segment != "" then Display(v.lines + [prefix + segment], None, false)
    else if v.first then v
    else Display(v.lines + [""], None, false)
  }

  function FlushAll(v: Display, segments: seq<string>): Display
    decreases |segments|
  {
    if segments == [] then v else FlushAll(Flush(v, segments[0]), segments[1..])
  }

  function Keep(v: Display, rest: string): Display {
    if rest == "" then v else v.(buffer := Some(v.buffer.GetOr("") + rest))
  }

  function Delta(v: View, chunk: string): View {
    if chunk == "" then v
    else View(Some(v.response.GetOr("") + chunk),
              Keep(FlushAll(v.display, Complete(Split(chunk))), Last(Split(chunk))))
  }

  function Deltas(v: View, chunks: seq<string>): View
    decreases |chunks|
  {
    if chunks == [] then v else Deltas(Delta(v, chunks[0]), chunks[1..])
  }

  /** A submission drops the old response and the old line buffer. */
  function TurnStart(v: View): View {
    View(None, v.display.(buffer := None))
  }

  /** The stream-start event drops the old response; an unfinished line stays. */
  function StreamStart(v: View): View {
    View(None, v.display.(first := true))
  }

  /** An interrupted request drops its response and the scrollback is made anew; an unfinished line stays. */
  function Interrupted(v: View, rendered: seq<string>): View {
    View(None, v.display.(lines := rendered))
  }

  predicate HasInk(t: string) {
    exists i | 0 <= i < |t| :: t[i] !in " \t\n\r"
  }

  function Finish(v: View): View {
    var prefix := if v.display.first then PREFIX else "";
    var flushed := if v.display.buffer.None? then v.display
                   else Display(v.display.lines + [prefix + v.display.buffer.value], None, false);
    v.(display := if v.response.Some? && HasInk(v.response.value) then flushed.(lines := flushed.lines + [""])
                  else flushed)
  }

  // ----- The display as a function of the text

  function DropEmpty(lines: seq<string>): seq<string> {
    if lines != [] && lines[0] == "" then DropEmpty(lines[1..]) else lines
  }

  /** Leading empty lines are dropped and the first line left carries the prefix. */
  function Shown(lines: seq<string>): seq<string> {
    var kept := DropEmpty(lines);
    if kept == [] then [] else [PREFIX + kept[0]] + kept[1..]
  }

  function AsBuffer(rest: string): Option<string> {
    if rest == "" then None else Some(rest)
  }

  function After(lines: seq<string>, t: string): Display {
    var split := Split(t);
    Display(lines + Shown(Complete(split)), AsBuffer(Last(split)), DropEmpty(Complete(split)) == [])
  }

  /** All lines of the text, without an empty last one. */
  function Whole(t: string): seq<string> {
    if Last(Split(t)) == "" then Complete(Split(t)) else Split(t)
  }

  lemma {:induction false} ShownOneMore(lines: seq<string>, x: string)
    ensures DropEmpty(lines + [x]) == if DropEmpty(lines) == [] && x == "" then [] else DropEmpty(lines) + [x]
    ensures Shown(lines + [x]) ==
            Shown(lines) + if DropEmpty(lines) != [] then [x] else if x == "" then [] else [PREFIX + x]
  {
    if lines == [] {
      assert [] + [x] == [x];
      assert DropEmpty([x]) == if x == "" then DropEmpty([x][1..]) else [x];
    } else {
      assert (lines + [x])[1..] == lines[1..] + [x];
      ShownOneMore(lines[1..], x);
    }
  }

  /** A newline ends the last line and opens an empty one. */
  lemma SplitTerminated(t: string, segment: string)
    requires OneLine(segment)
    ensures Split(t + segment) == Complete(Split(t)) + [Last(Split(t)) + segment]
    ensures Split(t + segment + "\n") == Split(t + segment) + [""]
  {
    SplitNewline();
    hide *;
    SplitOneLine(segment);
    SplitConcat(t, segment);
    SplitConcat(t + segment, "\n");
    GlueOne(Split(t), segment);
    GlueBreak(Split(t + segment));
  }

  lemma SplitNewline()
    ensures Split("\n") == ["", ""]
  {
    assert "\n"[1..] == "";
  }

  lemma GlueOne(x: seq<string>, line: string)
    requires |x| >= 1
    ensures Glue(x, [line]) == Complete(x) + [Last(x) + line]
  {
    Nothing(Complete(x) + [Last(x) + line]);
  }

  lemma GlueBreak(x: seq<string>)
    requires |x| >= 1
    ensures Glue(x, ["", ""]) == x + [""]
  {
    Nothing(Last(x));
    assert Complete(x) + [Last(x)] == x;
  }

  lemma FlushOne(lines: seq<string>, t: string, segment: string)
    requires OneLine(segment)
    ensures Flush(After(lines, t), segment) == After(lines, t + segment + "\n")
  {
    var done := Complete(Split(t));
    var line := Last(Split(t)) + segment;
    SplitTerminated(t, segment);
    assert Complete(Split(t + segment + "\n")) == done + [line];
    ShownOneMore(done, line);
    hide Split, Shown, DropEmpty;
    var prefix := if DropEmpty(done) == [] then PREFIX else "";
    Regroup(prefix, Last(Split(t)), segment);
    Nothing(segment);
    Nothing(line);
    Regroup(lines, Shown(done), [prefix + line]);
    Nothing(Shown(done));
  }

  function Terminated(segments: seq<string>): string {
    if segments == [] then "" else segments[0] + "\n" + Terminated(segments[1..])
  }

  lemma {:induction false} FlushMany(lines: seq<string>, t: string, segments: seq<string>)
    requires AllOneLine(segments)
    ensures FlushAll(After(lines, t), segments) == After(lines, t + Terminated(segments))
    decreases |segments|
  {
    hide Split, Shown, DropEmpty, After, Flush, OneLine;
    if segments == [] {
      assert t + "" == t;
    } else {
      FlushOne(lines, t, segments[0]);
      FlushMany(lines, t + segments[0] + "\n", segments[1..]);
      assert t + segments[0] + "\n" + Terminated(segments[1..]) == t + (segments[0] + "\n" + Terminated(segments[1..]));
    }
  }

  lemma KeepRest(lines: seq<string>, t: string, rest: string)
    requires OneLine(rest)
    ensures Keep(After(lines, t), rest) == After(lines, t + rest)
  {
    SplitOneLine(rest);
    SplitConcat(t, rest);
    var split := Split(t);
    assert Split(t + rest) == Complete(split) + [Last(split) + rest];
    assert "" + rest == rest && Last(split) + "" == Last(split);
    assert t + "" == t;
  }

  lemma {:induction false} TerminatedJoins(lines: seq<string>)
    requires |lines| >= 1
    ensures Terminated(Complete(lines)) + Last(lines) == Join(lines)
  {
    if |lines| == 1 {
      assert "" + lines[0] == lines[0];
    } else {
      TerminatedJoins(lines[1..]);
      assert Complete(lines)[1..] == Complete(lines[1..]);
      var more := Terminated(Complete(lines[1..]));
      assert lines[0] + "\n" + more + Last(lines) == lines[0] + "\n" + (more + Last(lines));
    }
  }

  /** One delta moves the display from the text so far to the longer text. */
  lemma DeltaExtends(v: View, lines: seq<string>, t: string, chunk: string)
    requires v.display == After(lines, t)
    ensures Delta(v, chunk).display == After(lines, t + chunk)
  {
    hide Split, Shown, DropEmpty, After, FlushAll, Keep;
    if chunk == "" {
      assert t + chunk == t;
    } else {
      SplitJoins(chunk);
      var segments := Complete(Split(chunk));
      FlushMany(lines, t, segments);
      KeepRest(lines, t + Terminated(segments), Last(Split(chunk)));
      TerminatedJoins(Split(chunk));
      assert t + Terminated(segments) + Last(Split(chunk)) == t + (Terminated(segments) + Last(Split(chunk)));
    }
  }

  function Concat(chunks: seq<string>): string {
    if chunks == [] then "" else chunks[0] + Concat(chunks[1..])
  }

  lemma {:induction false} DeltasExtend(v: View, lines: seq<string>, u: string, t: string, chunks: seq<string>)
    requires v == View(AsBuffer(u), After(lines, t))
    ensures Deltas(v, chunks) == View(AsBuffer(u + Concat(chunks)), After(lines, t + Concat(chunks)))
    decreases |chunks|
  {
    hide After, Keep, FlushAll, Split;
    Nothing(u);
    Nothing(t);
    if chunks != [] {
      DeltaExtends(v, lines, t, chunks[0]);
      Regroup(u, chunks[0], Concat(chunks[1..]));
      Regroup(t, chunks[0], Concat(chunks[1..]));
      Nothing(chunks[0]);
      DeltasExtend(Delta(v, chunks[0]), lines, u + chunks[0], t + chunks[0], chunks[1..]);
    }
  }

  lemma FinishedLines(lines: seq<string>, u: string, t: string)
    ensures var v := Finish(View(AsBuffer(u), After(lines, t)));
            && v.response == AsBuffer(u) && v.display.buffer.None?
            && v.display.lines == lines + Shown(Whole(t)) + (if HasInk(u) then [""] else [])
  {
    var done, last := Complete(Split(t)), Last(Split(t));
    WholeShown(t);
    hide Split, Shown, DropEmpty, HasInk, Whole, Complete, Last;
    var prefix := if DropEmpty(done) == [] then PREFIX else "";
    Nothing(last);
    Regroup(lines, Shown(done), [prefix + last]);
    Nothing(lines + Shown(Whole(t)));
    if u == "" {
      EmptyHasNoInk();
    }
  }

  /** All lines shown are the complete ones and the unfinished one, if there is something in it. */
  lemma WholeShown(t: string)
    ensures var done, last := Complete(Split(t)), Last(Split(t));
            Shown(Whole(t)) ==
            if last == "" then Shown(done)
            else Shown(done) + [(if DropEmpty(done) == [] then PREFIX else "") + last]
  {
    var done, last := Complete(Split(t)), Last(Split(t));
    assert Whole(t) == if last == "" then done else done + [last];
    hide *;
    ShownOneMore(done, last);
    Nothing(last);
  }

  /** Of lines that begin with `n` empty ones the rest is shown, with the sign of the model in front. */
  lemma {:induction false} ShownIsExact(lines: seq<string>, n: nat)
    requires n <= |lines| && (forall i | 0 <= i < n :: lines[i] == "") && (n < |lines| ==> lines[n] != "")
    ensures Shown(lines) == if n == |lines| then [] else ["● " + lines[n]] + lines[n + 1..]
  {
    hide Shown;
    DropsEmpty(lines, n);
    ShownKept(lines);
    if n < |lines| {
      assert lines[n..][1..] == lines[n + 1..];
    }
  }

  lemma ShownKept(lines: seq<string>)
    ensures var kept := DropEmpty(lines); Shown(lines) == if kept == [] then [] else ["● " + kept[0]] + kept[1..]
  {
  }

  lemma {:induction false} DropsEmpty(lines: seq<string>, n: nat)
    requires n <= |lines| && (forall i | 0 <= i < n :: lines[i] == "") && (n < |lines| ==> lines[n] != "")
    ensures DropEmpty(lines) == lines[n..]
  {
    if n > 0 {
      DropsEmpty(lines[1..], n - 1);
      assert lines[1..][n - 1..] == lines[n..];
    }
  }

  /** A blank line follows if the text has a character other than blank, tab, newline and return. */
  lemma InkIsExact(t: string)
    ensures HasInk(t) <==> exists c | c in t :: c != ' ' && c != '\t' && c != '\n' && c != '\r'
  {
    if c :| c in t && c != ' ' && c != '\t' && c != '\n' && c != '\r' {
      var i :| 0 <= i < |t| && t[i] == c;
    }
    if HasInk(t) {
      var i :| 0 <= i < |t| && t[i] !in " \t\n\r";
      assert t[i] in t;
    }
  }

  /** What a stream over these chunks leaves, from its start event to its completion. */
  function Streamed(v: View, chunks: seq<string>): View {
    Finish(Deltas(StreamStart(v), chunks))
  }

  /** The unfinished line is shown in front of the response. */
  lemma StreamShows(v: View, left: string, chunks: seq<string>)
    requires OneLine(left) && v.display.buffer == AsBuffer(left)
    ensures var t, r := Concat(chunks), Streamed(v, chunks);
            && r.response == AsBuffer(t) && r.display.buffer.None?
            && r.display.lines == v.display.lines + Shown(Whole(left + t)) + (if HasInk(t) then [""] else [])
  {
    var lines, t := v.display.lines, Concat(chunks);
    Nothing(lines);
    SplitOneLine(left);
    assert StreamStart(v) == View(AsBuffer(""), After(lines, left));
    hide After, Split, Finish, Deltas;
    Nothing(t);
    DeltasExtend(StreamStart(v), lines, "", left, chunks);
    FinishedLines(lines, t, left + t);
  }

  /**
    However the response of a turn is cut, its lines are shown once, in order, and the text is kept
    whole.
  */
  lemma ChunkingInvariance(v: View, chunks: seq<string>)
    ensures var t, r := Concat(chunks), Streamed(TurnStart(v), chunks);
            && r.response == AsBuffer(t) && r.display.buffer.None?
            && r.display.lines == v.display.lines + Shown(Whole(t)) + (if HasInk(t) then [""] else [])
  {
    hide Streamed, Shown, Whole, HasInk;
    Nothing(Concat(chunks));
    StreamShows(TurnStart(v), "", chunks);
  }

  lemma EmptyHasNoInk()
    ensures !HasInk("")
  {
  }
}
