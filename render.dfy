/** The writer half of `Handler`: the pending text, the deferred blank line,
    the two indentation prefixes and the lines already written, as a value.
    Each primitive of the converter (`clear_indent_1`, `write_line`,
    `handle_newline`, `push_indent`, `flush_text`) is a function from state to
    state here; the class in the Transducer module performs the same updates
    in place and is proved to agree with these functions. */
module Render {
  import opened Textual
  import opened Wrapping

  /** The fields of `Handler` other than the reader; `out` holds every line
      handed to `writeln!`, in order, without its line terminator. */
  datatype State = State(
    out: seq<string>,
    text: string,
    needNewline: bool,
    lastLineHasContent: bool,
    haveIndent1: bool,
    indent1: string,
    indent2: string)

  /** The state `handle_chapter_file` builds before reading anything. */
  const Initial := State([], [], false, false, false, [], [])

  /** The code fence written around a synopsis. */
  const Fence := "```"

  /** Markdown-friendly output: a blank line never opens the file and never
      follows another blank line, and no line ends with a space. */
  ghost predicate NormalOutput(out: seq<string>) {
    && (out != [] ==> out[0] != [])
    && (forall i, j :: 0 <= i < j < |out| && j == i + 1 && out[j] == [] ==> out[i] != [])
    && (forall i :: 0 <= i < |out| && out[i] != [] ==> out[i][|out[i]| - 1] != ' ')
  }

  /** What every primitive preserves: the prefixes have equal length, they
      agree unless a first-line marker is pending, the output is normal, and
      `lastLineHasContent` tells the truth about the last line. */
  ghost predicate Inv(s: State) {
    && |s.indent1| == |s.indent2|
    && (!s.haveIndent1 ==> s.indent1 == s.indent2)
    && NormalOutput(s.out)
    && (s.lastLineHasContent ==> s.out != [] && s.out[|s.out| - 1] != [])
  }

  /** `b` has the continuation prefix of `a`, and a first-line prefix that is
      one of `a`'s two prefixes: what a finished block leaves behind. */
  predicate IndentKept(a: State, b: State) {
    b.indent2 == a.indent2 && (b.indent1 == a.indent1 || b.indent1 == a.indent2)
  }

  lemma IndentKeptTransitive(a: State, b: State, c: State)
    requires IndentKept(a, b) && IndentKept(b, c)
    ensures IndentKept(a, c)
  {
  }

  /** `clear_indent_1`: a pending first-line marker is used up. */
  function ClearIndent1(s: State): State {
    if s.haveIndent1 then s.(haveIndent1 := false, indent1 := s.indent2) else s
  }

  /** The body of `write_line` after its `handle_newline` call. */
  function PutLine(s: State, line: string): State {
    var t := TrimEnd(line);
    var ind := TrimEnd(s.indent1);
    var written :=
      if t != [] then s.(out := s.out + [s.indent1 + t], lastLineHasContent := true)
      else if ind != [] then s.(out := s.out + [ind], lastLineHasContent := true)
      else if s.lastLineHasContent then s.(out := s.out + [[]], lastLineHasContent := false)
      else s;
    ClearIndent1(written)
  }

  /** `handle_newline`: a deferred blank line is written now. */
  function HandleNewline(s: State): State
    decreases if s.needNewline then 2 else 0
  {
    if s.needNewline then WriteLine(s.(needNewline := false), []) else s
  }

  /** `write_line`. */
  function WriteLine(s: State, line: string): State
    decreases if s.needNewline then 3 else 1
  {
    PutLine(HandleNewline(s), line)
  }

  function PadTo(x: string, n: nat): string {
    if |x| < n then x + Repeat(' ', n - |x|) else x
  }

  /** The part of `push_indent` that runs before the nested block: the marker
      and a space go on the first-line prefix, and on the continuation prefix
      too when `cont`, which is otherwise padded with spaces. */
  function PushIndent(s: State, marker: string, cont: bool): State {
    var h := HandleNewline(s);
    var i1 := h.indent1 + marker + " ";
    var i2 := if cont then h.indent2 + marker + " " else PadTo(h.indent2, |i1|);
    h.(haveIndent1 := true, indent1 := i1, indent2 := i2)
  }

  /** `String::truncate`, which leaves a shorter string alone. */
  function Truncate(x: string, n: nat): string {
    if n <= |x| then x[..n] else x
  }

  /** The part of `push_indent` that runs after the nested block. */
  function PopIndent(s: State, len: nat): State {
    s.(indent1 := Truncate(s.indent1, len), indent2 := Truncate(s.indent2, len))
  }

  /** The `for line in lines` loop of `flush_text`. */
  function EmitLines(s: State, lines: seq<string>): State {
    if lines == [] then s
    else ClearIndent1(s.(out := s.out + lines, lastLineHasContent := true))
  }

  /** The middle of `flush_text`: the trimmed pending text, wrapped. */
  function FlushBody(f: State): State {
    var body := Trim(f.text);
    if body == [] then f else EmitLines(f, WrapText(body, f.indent1, f.indent2))
  }

  /** `flush_text`. */
  function FlushText(s: State, synopsis: bool): State {
    var h := HandleNewline(s);
    var f := if synopsis then WriteLine(h, Fence) else h;
    var b := FlushBody(f);
    var e := if synopsis then WriteLine(b, Fence) else b;
    e.(text := [])
  }

  lemma ClearIndent1Keeps(s: State)
    requires Inv(s)
    ensures Inv(ClearIndent1(s)) && IndentKept(s, ClearIndent1(s))
    ensures ClearIndent1(s).indent1 == s.indent2
  {
  }

  /** `write_line` keeps the invariant and the prefixes; every line it adds
      is either blank (and then the previous line was not), or ends in a
      non-whitespace character. */
  lemma PutLineKeeps(s: State, line: string)
    requires Inv(s)
    ensures Inv(PutLine(s, line)) && IndentKept(s, PutLine(s, line))
    ensures PutLine(s, line).indent1 == s.indent2
  {
    var t := TrimEnd(line);
    var ind := TrimEnd(s.indent1);
    if t != [] {
      var l := s.indent1 + t;
      assert l[|l| - 1] == t[|t| - 1];
      AppendLineNormal(s.out, l);
    } else if ind != [] {
      AppendLineNormal(s.out, ind);
    } else if s.lastLineHasContent {
      AppendLineNormal(s.out, []);
    }
  }

  /** One more line keeps the output normal when it is not a second blank
      line in a row (nor a blank first line) and has no trailing space. */
  lemma AppendLineNormal(out: seq<string>, line: string)
    requires NormalOutput(out)
    requires line == [] ==> out != [] && out[|out| - 1] != []
    requires line != [] ==> line[|line| - 1] != ' '
    ensures NormalOutput(out + [line])
  {
    var o := out + [line];
    forall i, j | 0 <= i < j < |o| && j == i + 1 && o[j] == []
      ensures o[i] != []
    {
      if j < |out| {
        assert o[i] == out[i] && o[j] == out[j];
      }
    }
  }

  /** With no blank line pending, a line that ends in a visible character
      is written as it is, after the first-line prefix. */
  lemma WriteVisibleLine(s: State, line: string)
    requires !s.needNewline && line != [] && !IsWhitespace(line[|line| - 1])
    ensures WriteLine(s, line).out == s.out + [s.indent1 + line]
  {
    assert HandleNewline(s) == s;
    TrimEndKeeps(line);
  }

  /** `handle_newline` leaves nothing deferred, and writes at most one line:
      the first-line prefix with trailing blanks removed, which is an empty
      line outside any list or quote. */
  lemma HandleNewlineEffect(s: State)
    requires Inv(s)
    ensures var r := HandleNewline(s);
      && !r.needNewline
      && Inv(r) && IndentKept(s, r) && r.text == s.text
      && (r.out == s.out || r.out == s.out + [TrimEnd(s.indent1)])
      && (!s.needNewline ==> r == s)
  {
    if s.needNewline {
      var s' := s.(needNewline := false);
      assert HandleNewline(s') == s';
      PutLineKeeps(s', []);
      assert TrimEnd([]) == [];
    }
  }

  lemma WriteLineKeeps(s: State, line: string)
    requires Inv(s)
    ensures var r := WriteLine(s, line);
      Inv(r) && IndentKept(s, r) && !r.needNewline && r.text == s.text && s.out <= r.out
  {
    HandleNewlineEffect(s);
    PutLineKeeps(HandleNewline(s), line);
  }

  /** A non-blank line lands after the first-line prefix, which is then used
      up; a blank one after a blank line (or at the very start) writes
      nothing, so `write_line` never doubles a blank line. */
  lemma PutLineEffect(s: State, line: string)
    ensures var r := PutLine(s, line);
      && (TrimEnd(line) != [] ==> r.out == s.out + [s.indent1 + TrimEnd(line)] && r.lastLineHasContent)
      && (TrimEnd(line) == [] && TrimEnd(s.indent1) == [] && !s.lastLineHasContent ==> r.out == s.out)
      && (TrimEnd(line) == [] && TrimEnd(s.indent1) == [] && s.lastLineHasContent ==>
            r.out == s.out + [[]] && !r.lastLineHasContent)
      && !r.haveIndent1
  {
  }

  /** The prefixes `push_indent` sets up, given equal-length prefixes. */
  lemma PushIndentShape(s: State, marker: string, cont: bool)
    requires Inv(s)
    ensures var h := HandleNewline(s); var p := PushIndent(s, marker, cont);
      && Inv(p) && p.haveIndent1 && p.out == h.out && p.text == s.text
      && p.indent1 == h.indent1 + marker + " "
      && (cont ==> p.indent2 == h.indent2 + marker + " ")
      && (!cont ==> p.indent2 == h.indent2 + Repeat(' ', |marker| + 1))
      && |h.indent1| == |s.indent1|
  {
    HandleNewlineEffect(s);
  }

  /** Whatever a well-behaved nested block does to the prefixes, truncating
      both to the entry length of `indent_1` gives back the entry
      continuation prefix exactly, like popping a stack. */
  lemma PushPopRestores(s: State, marker: string, cont: bool, t: State)
    requires Inv(s)
    requires IndentKept(PushIndent(s, marker, cont), t)
    ensures var q := PopIndent(t, |HandleNewline(s).indent1|);
      q.indent2 == s.indent2 && IndentKept(s, q)
  {
    var h := HandleNewline(s);
    var p := PushIndent(s, marker, cont);
    PushIndentShape(s, marker, cont);
    HandleNewlineEffect(s);
    var n := |h.indent1|;
    assert |h.indent2| == n;
    assert p.indent1[..n] == h.indent1;
    assert p.indent2[..n] == h.indent2;
    assert Truncate(t.indent2, n) == h.indent2;
    assert Truncate(t.indent1, n) == h.indent1 || Truncate(t.indent1, n) == h.indent2;
  }

  lemma PushIndentKeeps(s: State, marker: string, cont: bool)
    requires Inv(s)
    ensures Inv(PushIndent(s, marker, cont))
  {
    PushIndentShape(s, marker, cont);
  }

  lemma PopIndentKeeps(s: State, len: nat)
    requires Inv(s)
    ensures Inv(PopIndent(s, len))
  {
    if len <= |s.indent1| {
      assert |Truncate(s.indent1, len)| == len == |Truncate(s.indent2, len)|;
    }
  }

  lemma EmitLinesKeeps(s: State, lines: seq<string>)
    requires Inv(s)
    requires forall j :: 0 <= j < |lines| ==> lines[j] != [] && lines[j][|lines[j]| - 1] != ' '
    ensures Inv(EmitLines(s, lines)) && IndentKept(s, EmitLines(s, lines))
  {
    if lines != [] {
      var o := s.out + lines;
      forall i, j | 0 <= i < j < |o| && j == i + 1 && o[j] == []
        ensures o[i] != []
      {
        assert j < |s.out|;
      }
      assert o[|o| - 1] == lines[|lines| - 1];
    }
  }

  /** A fence written when no blank line is pending. */
  lemma FenceLine(h: State)
    requires Inv(h) && !h.needNewline
    ensures var f := WriteLine(h, Fence);
      && f.out == h.out + [h.indent1 + Fence] && f.indent1 == h.indent2 && f.indent2 == h.indent2
      && f.text == h.text && !f.needNewline && Inv(f)
  {
    assert HandleNewline(h) == h;
    assert TrimEnd(Fence) == Fence;
    PutLineKeeps(h, Fence);
  }

  lemma FlushBodyKeeps(f: State)
    requires Inv(f)
    ensures var b := FlushBody(f); var body := Trim(f.text);
      && Inv(b) && IndentKept(f, b) && b.needNewline == f.needNewline
      && b.out == f.out + (if body == [] then [] else WrapText(body, f.indent1, f.indent2))
      && (body != [] ==> b.indent1 == f.indent2)
  {
    var body := Trim(f.text);
    if body != [] {
      var lines := WrapText(body, f.indent1, f.indent2);
      assert NoEmptyWord(body) by {
        assert !IsWhitespace(body[0]);
      }
      WrapLinesNonEmpty(body, f.indent1, f.indent2);
      forall j | 0 <= j < |lines|
        ensures lines[j] != [] && lines[j][|lines[j]| - 1] != ' '
      {
        WrapLineEnd(body, f.indent1, f.indent2, j);
      }
      EmitLinesKeeps(f, lines);
    }
  }

  /** What `flush_text` writes: after any deferred blank line, the wrapped
      body (first line after `indent_1`, later lines after `indent_2`), or
      nothing when the pending text is blank; with `synopsis`, between two
      fence lines.  The pending text is empty afterwards. */
  lemma FlushTextEffect(s: State, synopsis: bool)
    requires Inv(s)
    ensures var h := HandleNewline(s); var r := FlushText(s, synopsis);
      var body := Trim(s.text);
      var wrapped := if body == [] then [] else WrapText(body, h.indent1, h.indent2);
      var fenced := if body == [] then [] else WrapText(body, h.indent2, h.indent2);
      && r.text == []
      && (!synopsis ==> r.out == h.out + wrapped)
      && (synopsis ==> r.out == h.out + [h.indent1 + Fence] + fenced + [h.indent2 + Fence])
  {
    var h := HandleNewline(s);
    HandleNewlineEffect(s);
    if synopsis {
      var f := WriteLine(h, Fence);
      FenceLine(h);
      var b := FlushBody(f);
      FlushBodyKeeps(f);
      assert b.indent1 == h.indent2 && b.indent2 == h.indent2;
      FenceLine(b);
    } else {
      FlushBodyKeeps(h);
    }
  }

  /** `flush_text` keeps the invariant and the prefixes, and clears the
      deferred blank line. */
  lemma FlushTextKeeps(s: State, synopsis: bool)
    requires Inv(s)
    ensures Inv(FlushText(s, synopsis))
    ensures IndentKept(s, FlushText(s, synopsis))
    ensures !FlushText(s, synopsis).needNewline
    ensures s.out <= FlushText(s, synopsis).out
  {
    var h := HandleNewline(s);
    var e := if synopsis then WriteLine(FlushBody(WriteLine(h, Fence)), Fence) else FlushBody(h);
    assert FlushText(s, synopsis) == e.(text := []);
    assert Inv(e) && IndentKept(s, e) && !e.needNewline && s.out <= e.out by {
      HandleNewlineEffect(s);
      if synopsis {
        FencedFlushKeeps(h);
      } else {
        FlushBodyKeeps(h);
      }
      IndentKeptTransitive(s, h, e);
    }
    ClearText(e);
  }

  lemma ClearText(e: State)
    requires Inv(e)
    ensures Inv(e.(text := [])) && e.(text := []).out == e.out
  {
  }

  lemma FencedFlushKeeps(h: State)
    requires Inv(h) && !h.needNewline
    ensures var r := WriteLine(FlushBody(WriteLine(h, Fence)), Fence);
      Inv(r) && IndentKept(h, r) && !r.needNewline && h.out <= r.out
  {
    var f := WriteLine(h, Fence);
    FenceLine(h);
    var b := FlushBody(f);
    FlushBodyKeeps(f);
    FenceLine(b);
  }

  /** Only ever appends: what was written stays written. */
  lemma PushIndentAppends(s: State, marker: string, cont: bool)
    requires Inv(s)
    ensures s.out <= PushIndent(s, marker, cont).out
  {
    HandleNewlineEffect(s);
  }

  /** The pending text plays no part in writing a line. */
  lemma WriteLineIgnoresText(s: State, line: string, x: string)
    ensures HandleNewline(s.(text := x)) == HandleNewline(s).(text := x)
    ensures WriteLine(s.(text := x), line) == WriteLine(s, line).(text := x)
  {
    var s0 := s.(needNewline := false);
    assert HandleNewline(s0) == s0;
    assert HandleNewline(s0.(text := x)) == s0.(text := x);
  }

  /** The loop of `flush_text` one line at a time. */
  lemma EmitLinesStep(s: State, lines: seq<string>, line: string)
    ensures var e := EmitLines(s, lines);
      EmitLines(s, lines + [line]) == ClearIndent1(e.(out := e.out + [line], lastLineHasContent := true))
  {
    if lines != [] {
      assert s.out + (lines + [line]) == s.out + lines + [line];
    }
  }
}
