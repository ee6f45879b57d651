/** The chapter converter: `Handler` walks the DocBook event stream with one
    method per element kind, collecting inline text into a pending buffer and
    writing finished Markdown lines.  Every method updates the fields in place
    as the original does; the writer fields are proved to follow the state
    functions of the Render module. */
module Transducer {
  import opened Outcomes
  import opened Textual
  import opened Events
  import opened Links
  import Render
  import Wrapping

  /** What a `<title>` becomes: a level-1 heading, a heading nested under
      the chapter, or bold text. */
  datatype TitleType = Chapter | Section(depth: nat) | Bold

  /** The marker a `<listitem>` gets, by the kind of list around it. */
  datatype ListType = Bullet | Numbered(n: nat) | Itemized

  /** The closing tags of the code-like inline elements. */
  const CodeClosers := {"code", "varname", "literal", "userinput", "type", "function", "systemitem"}

  /** The closing tags of the emphasis-like inline elements. */
  const EmphasisClosers := {"emphasis", "firstterm"}

  /** What goes before a title's text: `#` for a chapter, one more `#` per
      level of section nesting starting at `##`, and `**` for bold. */
  function HeadingPrefix(ty: TitleType): (r: string)
    ensures ty.Chapter? ==> r == Repeat('#', 1) + " "
    ensures ty.Section? ==> r == Repeat('#', ty.depth + 2) + " "
    ensures ty.Bold? ==> r == "**"
  {
    match ty
    case Chapter => "# "
    case Section(depth) =>
      assert "##" + Repeat('#', depth) == Repeat('#', depth + 2);
      "##" + Repeat('#', depth) + " "
    case Bold => "**"
  }

  /** What goes after a title's text: only bold text is closed. */
  function HeadingSuffix(ty: TitleType): string {
    if ty.Bold? then "**" else ""
  }

  /** A list item's marker: a dash, the item number and a dot, or an indented
      colon for the definition of a variable-list entry.  None ends in
      whitespace, and a number marker spells its number in decimal. */
  function ListMarker(ty: ListType): (r: string)
    ensures r != [] && !IsWhitespace(r[|r| - 1])
    ensures ty.Bullet? ==> r == "-"
    ensures ty.Itemized? ==> r == "  :"
    ensures ty.Numbered? ==>
      |r| >= 2 && r[|r| - 1] == '.' && IsDigits(r[..|r| - 1]) && DigitsValue(r[..|r| - 1]) == ty.n
  {
    match ty
    case Bullet => "-"
    case Numbered(n) =>
      var d := NatToString(n);
      assert (d + ".")[..|d|] == d;
      d + "."
    case Itemized => "  :"
  }

  /** Different list positions get different markers. */
  lemma ListMarkersDistinct(a: ListType, b: ListType)
    requires a != b
    ensures ListMarker(a) != ListMarker(b)
  {
    if a.Numbered? != b.Numbered? {
      var m := if a.Numbered? then ListMarker(a) else ListMarker(b);
      assert '0' <= m[0] <= '9';
    }
  }

  /** A heading is written as exactly one line, after the current first-line
      prefix, when no blank line is pending and its text fragments are not
      blank: nothing of it is trimmed away. */
  lemma HeadingLine(s: Render.State, ty: TitleType, frags: seq<string>)
    requires !s.needNewline
    requires frags != [] && forall k :: 0 <= k < |frags| ==> !IsBlank(frags[k])
    ensures var line := HeadingPrefix(ty) + JoinTrimmed(frags) + HeadingSuffix(ty);
      Render.WriteLine(s, line).out == s.out + [s.indent1 + line]
  {
    HeadingEnds(ty, frags);
    Render.WriteVisibleLine(s, HeadingPrefix(ty) + JoinTrimmed(frags) + HeadingSuffix(ty));
  }

  /** A heading over non-blank text ends in a visible character. */
  lemma HeadingEnds(ty: TitleType, frags: seq<string>)
    requires frags != [] && forall k :: 0 <= k < |frags| ==> !IsBlank(frags[k])
    ensures var line := HeadingPrefix(ty) + JoinTrimmed(frags) + HeadingSuffix(ty);
      line != [] && !IsWhitespace(line[|line| - 1])
  {
    var p, j, q := HeadingPrefix(ty), JoinTrimmed(frags), HeadingSuffix(ty);
    assert j != [] && !IsWhitespace(j[|j| - 1]) by {
      JoinTrimmedEnds(frags);
    }
    if ty.Bold? {
      assert (p + j + q)[|p + j + q| - 1] == '*';
    } else {
      assert p + j + q == p + j;
    }
  }

  /** The converter for one chapter file: the event stream it reads, how far
      it has read, and the writer state. */
  class Handler {
    const events: seq<Event>
    var pos: nat
    var out: seq<string>
    var text: string
    var needNewline: bool
    var lastLineHasContent: bool
    var haveIndent1: bool
    var indent1: string
    var indent2: string

    /** The writer fields as a value. */
    ghost function State(): Render.State
      reads this
    {
      Render.State(out, text, needNewline, lastLineHasContent, haveIndent1, indent1, indent2)
    }

    ghost predicate Valid()
      reads this
    {
      pos <= |events| && Render.Inv(State())
    }

    /** `handle_chapter_file`'s set-up: nothing read, nothing pending. */
    constructor (events: seq<Event>)
      ensures this.events == events && pos == 0
      ensures State() == Render.Initial && Valid()
    {
      this.events := events;
      pos := 0;
      out := [];
      text := [];
      needNewline := false;
      lastLineHasContent := false;
      haveIndent1 := false;
      indent1 := [];
      indent2 := [];
    }

    /** `read_event`: the next event, or the reader's error. */
    method ReadEvent() returns (r: Result<Event>)
      requires pos <= |events|
      modifies this
      ensures State() == old(State())
      ensures pos == if old(pos) < |events| then old(pos) + 1 else old(pos)
      ensures r == if At(events, old(pos)).Malformed? then Err(MalformedInput) else Ok(At(events, old(pos)))
    {
      if pos == |events| {
        return Ok(Eof);
      }
      var ev := events[pos];
      pos := pos + 1;
      if ev.Malformed? {
        return Err(MalformedInput);
      }
      return Ok(ev);
    }

    method ClearIndent1()
      modifies this
      ensures State() == Render.ClearIndent1(old(State())) && pos == old(pos)
    {
      if haveIndent1 {
        haveIndent1 := false;
        indent1 := indent2;
      }
    }

    method HandleNewline()
      requires Valid()
      modifies this
      ensures State() == Render.HandleNewline(old(State())) && pos == old(pos)
      ensures Valid() && !needNewline && old(out) <= out
      ensures Render.IndentKept(old(State()), State())
      decreases if needNewline then 2 else 0
    {
      Render.HandleNewlineEffect(State());
      if needNewline {
        needNewline := false;
        WriteLine([]);
      }
    }

    /** The body of `write_line` after its `handle_newline` call. */
    method PutLine(line: string)
      modifies this
      ensures State() == Render.PutLine(old(State()), line) && pos == old(pos)
    {
      var t := TrimEnd(line);
      if t == [] {
        var ind := TrimEnd(indent1);
        if ind == [] {
          var had := lastLineHasContent;
          lastLineHasContent := false;
          if had {
            out := out + [[]];
          }
        } else {
          out := out + [ind];
          lastLineHasContent := true;
        }
      } else {
        out := out + [indent1 + t];
        lastLineHasContent := true;
      }
      ClearIndent1();
    }

    method WriteLine(line: string)
      requires Valid()
      modifies this
      ensures State() == Render.WriteLine(old(State()), line) && pos == old(pos)
      ensures Valid() && !needNewline && old(out) <= out
      ensures Render.IndentKept(old(State()), State())
      decreases if needNewline then 3 else 1
    {
      Render.WriteLineKeeps(State(), line);
      HandleNewline();
      PutLine(line);
    }

    /** The part of `push_indent` before the nested block runs; `len` is the
        length the prefixes are cut back to afterwards. */
    method PushIndent(marker: string, cont: bool) returns (len: nat)
      requires Valid()
      modifies this
      ensures State() == Render.PushIndent(old(State()), marker, cont) && pos == old(pos)
      ensures len == |Render.HandleNewline(old(State())).indent1|
      ensures Valid() && old(out) <= out
    {
      Render.PushIndentKeeps(State(), marker, cont);
      Render.PushIndentAppends(State(), marker, cont);
      HandleNewline();
      len := |indent1|;
      haveIndent1 := true;
      indent1 := indent1 + marker + " ";
      if cont {
        indent2 := indent2 + marker + " ";
      } else {
        var start := |indent2|;
        var padded := indent2;
        var i := start;
        while i < |indent1|
          invariant start <= i && (i <= |indent1| || i == start)
          invariant padded == indent2 + Repeat(' ', i - start)
        {
          padded := padded + " ";
          i := i + 1;
        }
        indent2 := padded;
      }
    }

    /** The part of `push_indent` after the nested block succeeded. */
    method PopIndent(len: nat)
      requires Valid()
      modifies this
      ensures State() == Render.PopIndent(old(State()), len) && pos == old(pos)
      ensures Valid()
    {
      Render.PopIndentKeeps(State(), len);
      indent1 := Render.Truncate(indent1, len);
      indent2 := Render.Truncate(indent2, len);
    }

    /** The `for line in lines` loop of `flush_text`: each line is written
        as it stands, and the first one uses up a pending first-line
        prefix. */
    method EmitLines(lines: seq<string>)
      modifies this
      ensures State() == Render.EmitLines(old(State()), lines) && pos == old(pos)
    {
      ghost var s0 := State();
      var i := 0;
      while i < |lines|
        invariant 0 <= i <= |lines| && pos == old(pos)
        invariant State() == Render.EmitLines(s0, lines[..i])
      {
        Render.EmitLinesStep(s0, lines[..i], lines[i]);
        assert lines[..i + 1] == lines[..i] + [lines[i]];
        out := out + [lines[i]];
        lastLineHasContent := true;
        ClearIndent1();
        i := i + 1;
      }
      assert lines[..i] == lines;
    }

    /** The middle of `flush_text`: the pending text is taken; if it is not
        blank it is wrapped, written, and put back. */
    method FlushBody()
      modifies this
      ensures pos == old(pos)
      ensures Trim(old(text)) == [] ==> State() == old(State()).(text := [])
      ensures Trim(old(text)) != [] ==> State() == Render.FlushBody(old(State()))
    {
      ghost var f := State();
      var taken := text;
      text := [];
      var trimmed := Trim(taken);
      if trimmed != [] {
        var lines := Wrapping.WrapText(trimmed, indent1, indent2);
        assert lines == Wrapping.WrapText(Trim(f.text), f.indent1, f.indent2);
        EmitLines(lines);
        text := taken;
        assert State() == Render.EmitLines(f, lines);
      }
    }

    /** `FlushBody` on a state that keeps the invariant. */
    method FlushKept()
      requires Valid()
      modifies this
      ensures pos == old(pos) && Valid() && needNewline == old(needNewline) && old(out) <= out
      ensures State() == Render.FlushBody(old(State())).(text := text)
      ensures Render.IndentKept(old(State()), State())
    {
      Render.FlushBodyKeeps(State());
      FlushBody();
    }

    /** `flush_text`: the pending text, trimmed and wrapped at 80 columns,
        with fences around it for a synopsis. */
    method FlushText(synopsis: bool)
      requires Valid()
      modifies this
      ensures State() == Render.FlushText(old(State()), synopsis) && pos == old(pos)
      ensures Valid() && !needNewline && text == [] && old(out) <= out
      ensures Render.IndentKept(old(State()), State())
    {
      HandleNewline();
      if synopsis {
        WriteLine(Render.Fence);
        ghost var f := State();
        FlushKept();
        Render.WriteLineIgnoresText(Render.FlushBody(f), Render.Fence, text);
        WriteLine(Render.Fence);
      } else {
        FlushKept();
      }
      Render.ClearText(State());
      text := [];
    }

    /** The event loop shared by the inline handlers: the contents of the
        text events up to a closing tag in `closers`. */
    method ReadTexts(closers: set<string>) returns (r: Result<seq<string>>)
      requires pos <= |events|
      modifies this
      ensures State() == old(State()) && old(pos) <= pos <= |events|
      ensures var sc := ScanTexts(events, old(pos), closers);
        && (sc.Err? ==> r == Err(sc.error))
        && (sc.Ok? ==> r == Ok(sc.value.0) && pos == sc.value.1)
    {
      var frags: seq<string> := [];
      PrependNothing(ScanTexts(events, pos, closers));
      while true
        invariant old(pos) <= pos <= |events| && State() == old(State())
        invariant ScanTexts(events, old(pos), closers) == Prepend(frags, ScanTexts(events, pos, closers))
        decreases |events| - pos
      {
        var ev :- ReadEvent();
        match ev {
          case Text(t) =>
            ScanTextStep(events, pos - 1, closers, frags);
            frags := frags + [t];
          case End(name) =>
            if name in closers {
              assert frags + [] == frags;
              return Ok(frags);
            }
            return Err(UnexpectedEvent);
          case _ =>
            return Err(UnexpectedEvent);
        }
      }
    }

    /** The markup `handle_title` pushes before the title's text, one `#`
        at a time for a section. */
    static method TitleMarkup(ty: TitleType) returns (prefix: string)
      ensures prefix == HeadingPrefix(ty)
    {
      match ty {
        case Chapter =>
          prefix := "# ";
        case Section(depth) =>
          prefix := "##";
          var i := 0;
          while i < depth
            invariant 0 <= i <= depth && prefix == "##" + Repeat('#', i)
          {
            prefix := prefix + "#";
            i := i + 1;
          }
          prefix := prefix + " ";
        case Bold =>
          prefix := "**";
      }
    }

    /** `handle_title`: the heading markup and the title's text events,
        each trimmed and joined by single spaces, go after any pending text
        and are written as one line, followed by a blank line. */
    method HandleTitle(ty: TitleType) returns (r: Result<()>)
      requires Valid()
      modifies this
      ensures Valid() && old(pos) <= pos && old(out) <= out
      ensures r.Ok? ==> Render.IndentKept(old(State()), State())
      ensures var sc := ScanTexts(events, old(pos), {"title"});
        && (sc.Err? ==> r == Err(sc.error))
        && (sc.Ok? ==>
              && r.Ok? && pos == sc.value.1
              && State() == Render.WriteLine(old(State()).(text := []),
                   old(text) + HeadingPrefix(ty) + JoinTrimmed(sc.value.0) + HeadingSuffix(ty)).(needNewline := true))
    {
      var prefix := TitleMarkup(ty);
      text := text + prefix;
      var frags :- ReadTexts({"title"});
      var line := text + JoinTrimmed(frags) + HeadingSuffix(ty);
      WriteTitle(line);
      return Ok(());
    }

    /** The end of `handle_title`: the pending text, now holding the whole
        title line, is written and a blank line is asked for. */
    method WriteTitle(line: string)
      requires Valid()
      modifies this
      ensures State() == Render.WriteLine(old(State()).(text := []), line).(needNewline := true)
      ensures pos == old(pos) && Valid() && old(out) <= out
      ensures Render.IndentKept(old(State()), State())
    {
      text := [];
      WriteLine(line);
      needNewline := true;
    }

    /** `handle_code`: the collapsed text up to the closing tag, in
        backticks. */
    method HandleCode() returns (r: Result<()>)
      requires Valid()
      modifies this
      ensures Valid() && old(pos) <= pos && State() == old(State()).(text := text)
      ensures var sc := ScanTexts(events, old(pos), CodeClosers);
        && (sc.Err? ==> r == Err(sc.error))
        && (sc.Ok? ==> r.Ok? && pos == sc.value.1 && text == old(text) + "`" + CollapseAll(sc.value.0) + "`")
    {
      var frags :- ReadTexts(CodeClosers);
      text := text + "`" + CollapseAll(frags) + "`";
      return Ok(());
    }

    /** `handle_emphasis`: the collapsed text up to the closing tag, between
        underscores. */
    method HandleEmphasis() returns (r: Result<()>)
      requires Valid()
      modifies this
      ensures Valid() && old(pos) <= pos && State() == old(State()).(text := text)
      ensures var sc := ScanTexts(events, old(pos), EmphasisClosers);
        && (sc.Err? ==> r == Err(sc.error))
        && (sc.Ok? ==> r.Ok? && pos == sc.value.1 && text == old(text) + "_" + CollapseAll(sc.value.0) + "_")
    {
      var frags :- ReadTexts(EmphasisClosers);
      text := text + "_" + CollapseAll(frags) + "_";
      return Ok(());
    }

    /** `handle_filename`: a link named by the trimmed file name to that file
        in the repository; the link target keeps the untrimmed name. */
    method HandleFilename() returns (r: Result<()>)
      requires Valid()
      modifies this
      ensures Valid() && old(pos) <= pos && State() == old(State()).(text := text)
      ensures var sc := ScanTexts(events, old(pos), {"filename"});
        && (sc.Err? ==> r == Err(sc.error))
        && (sc.Ok? ==>
              && r.Ok? && pos == sc.value.1
              && text == old(text) + MarkdownLink(Trim(CollapseAll(sc.value.0)), SourceFileBase + CollapseAll(sc.value.0)))
    {
      var frags :- ReadTexts({"filename"});
      var name := CollapseAll(frags);
      text := text + MarkdownLink(Trim(name), SourceFileBase + name);
      return Ok(());
    }

    /** `handle_link`: the link text is read first; then `linkend` must be
        present and resolve. */
    method HandleLink(attrs: map<string, string>) returns (r: Result<()>)
      requires Valid()
      modifies this
      ensures Valid() && old(pos) <= pos && State() == old(State()).(text := text)
      ensures var sc := ScanTexts(events, old(pos), {"link"});
        && (r.Ok? <==> sc.Ok? && "linkend" in attrs && ResolveLink(attrs["linkend"]).Ok?)
        && (sc.Err? ==> r == Err(sc.error))
        && (sc.Ok? && "linkend" !in attrs ==> r == Err(MissingAttribute))
        && (r.Ok? ==>
              && pos == sc.value.1
              && text == old(text) + MarkdownLink(Trim(CollapseAll(sc.value.0)), ResolveLink(attrs["linkend"]).value))
    {
      var frags :- ReadTexts({"link"});
      if "linkend" !in attrs {
        return Err(MissingAttribute);
      }
      var url :- ResolveLink(attrs["linkend"]);
      text := text + MarkdownLink(Trim(CollapseAll(frags)), url);
      return Ok(());
    }

    /** `handle_ulink`: the link text is read first; then `url` must be
        present and is the target as it stands. */
    method HandleUlink(attrs: map<string, string>) returns (r: Result<()>)
      requires Valid()
      modifies this
      ensures Valid() && old(pos) <= pos && State() == old(State()).(text := text)
      ensures var sc := ScanTexts(events, old(pos), {"ulink"});
        && (r.Ok? <==> sc.Ok? && "url" in attrs)
        && (sc.Err? ==> r == Err(sc.error))
        && (sc.Ok? && "url" !in attrs ==> r == Err(MissingAttribute))
        && (r.Ok? ==>
              && pos == sc.value.1
              && text == old(text) + MarkdownLink(Trim(CollapseAll(sc.value.0)), attrs["url"]))
    {
      var frags :- ReadTexts({"ulink"});
      if "url" !in attrs {
        return Err(MissingAttribute);
      }
      text := text + MarkdownLink(Trim(CollapseAll(frags)), attrs["url"]);
      return Ok(());
    }

    /** `handle_xref`: an empty element, so nothing is read; the name and
        target both come from resolving `linkend`. */
    method HandleXref(attrs: map<string, string>) returns (r: Result<()>)
      requires Valid()
      modifies this
      ensures Valid() && pos == old(pos) && State() == old(State()).(text := text)
      ensures r.Ok? <==> "linkend" in attrs && ResolveXref(attrs["linkend"]).Ok?
      ensures "linkend" !in attrs ==> r == Err(MissingAttribute)
      ensures r.Ok? ==> var (name, url) := ResolveXref(attrs["linkend"]).value;
        text == old(text) + MarkdownLink(name, url)
    {
      if "linkend" !in attrs {
        return Err(MissingAttribute);
      }
      var target :- ResolveXref(attrs["linkend"]);
      text := text + MarkdownLink(target.0, target.1);
      return Ok(());
    }

    /** `handle_textobject` and `handle_areaspec`: everything up to the end
        tag `closer` is ignored. */
    method SkipUntil(closer: string) returns (r: Result<()>)
      requires Valid()
      modifies this
      ensures Valid() && old(pos) <= pos && State() == old(State())
      ensures var sk := SkipEnd(events, old(pos), closer);
        && (sk.Err? ==> r == Err(sk.error))
        && (sk.Ok? ==> r.Ok? && pos == sk.value)
    {
      while true
        invariant Valid() && old(pos) <= pos && State() == old(State())
        invariant SkipEnd(events, old(pos), closer) == SkipEnd(events, pos, closer)
        decreases |events| - pos
      {
        var ev :- ReadEvent();
        match ev {
          case End(name) =>
            if name == closer {
              break;
            }
          case Eof =>
            return Err(InputEnded);
          case _ =>
        }
      }
      return Ok(());
    }

    /** `handle_imagedata`: an image line for `fileref`, then a blank line. */
    method HandleImageData(attrs: map<string, string>) returns (r: Result<()>)
      requires Valid()
      modifies this
      ensures Valid() && pos == old(pos) && old(out) <= out
      ensures r.Ok? <==> "fileref" in attrs
      ensures r.Err? ==> r == Err(MissingAttribute) && State() == old(State())
      ensures r.Ok? ==> Render.IndentKept(old(State()), State())
      ensures r.Ok? ==> State() == Render.WriteLine(old(State()), "![](" + attrs["fileref"] + ")").(needNewline := true)
    {
      if "fileref" !in attrs {
        return Err(MissingAttribute);
      }
      WriteLine("![](" + attrs["fileref"] + ")");
      needNewline := true;
      return Ok(());
    }

    /** `handle_chapter_file`: the chapter or preface elements at the top
        level, until the end of the input. */
    method HandleChapterFile() returns (r: Result<()>)
      requires Valid()
      modifies this
      ensures Valid() && old(pos) <= pos && old(out) <= out
      ensures r.Ok? ==> Render.IndentKept(old(State()), State())
      ensures r.Ok? ==> pos == |events| || (0 < pos && events[pos - 1] == Eof)
      decreases |events| - pos, 0
    {
      while true
        invariant Valid() && old(pos) <= pos && old(out) <= out
        invariant Render.IndentKept(old(State()), State())
        decreases |events| - pos
      {
        ghost var before := pos;
        var ev :- ReadEvent();
        match ev {
          case Start(name, _) =>
            if name == "preface" || name == "chapter" {
              var _ :- HandleChapter();
            } else {
              return Err(UnexpectedStart);
            }
          case Decl =>
          case DocType =>
          case Text(t) =>
            if !IsBlank(t) {
              return Err(UnexpectedEvent);
            }
          case Eof =>
            assert pos == |events| || (0 < pos && events[pos - 1] == Eof);
            break;
          case _ =>
            return Err(UnexpectedEvent);
        }
      }
      return Ok(());
    }

    /** `handle_chapter`: the title, paragraphs and sections of a chapter. */
    method HandleChapter() returns (r: Result<()>)
      requires Valid()
      modifies this
      ensures Valid() && old(pos) <= pos && old(out) <= out
      ensures r.Ok? ==> Render.IndentKept(old(State()), State())
      decreases |events| - pos, 0
    {
      while true
        invariant Valid() && old(pos) <= pos && old(out) <= out
        invariant Render.IndentKept(old(State()), State())
        decreases |events| - pos
      {
        var ev :- ReadEvent();
        match ev {
          case Start(name, _) =>
            if name == "title" {
              var _ :- HandleTitle(Chapter);
            } else if name == "literallayout" || name == "para" {
              var _ :- HandlePara(false);
            } else if name == "section" {
              var _ :- HandleSection(0);
            } else {
              return Err(UnexpectedStart);
            }
          case Empty(name, _) =>
            if name != "xi:include" {
              return Err(UnexpectedEvent);
            }
          case End(name) =>
            if name == "chapter" || name == "preface" {
              break;
            }
            return Err(UnexpectedEvent);
          case Text(t) =>
            if !IsBlank(t) {
              return Err(UnexpectedEvent);
            }
          case _ =>
            return Err(UnexpectedEvent);
        }
      }
      return Ok(());
    }

    /** `handle_section`: a section's title is one heading level deeper than
        its parent's. */
    method HandleSection(depth: nat) returns (r: Result<()>)
      requires Valid()
      modifies this
      ensures Valid() && old(pos) <= pos && old(out) <= out
      ensures r.Ok? ==> Render.IndentKept(old(State()), State())
      decreases |events| - pos, 0
    {
      while true
        invariant Valid() && old(pos) <= pos && old(out) <= out
        invariant Render.IndentKept(old(State()), State())
        decreases |events| - pos
      {
        var ev :- ReadEvent();
        match ev {
          case Start(name, _) =>
            if name == "section" {
              var _ :- HandleSection(depth + 1);
            } else if name == "title" {
              var _ :- HandleTitle(Section(depth));
            } else if name == "synopsis" {
              var _ :- HandlePara(true);
            } else if name == "para" {
              var _ :- HandlePara(false);
            } else if name in {"orderedlist", "itemizedlist", "variablelist"} {
              var _ :- HandleList(name);
            } else if name == "figure" {
              var _ :- HandleFigure();
            } else if name == "mediaobject" || name == "mediaobjectco" {
              var _ :- HandleMediaObject();
            } else {
              return Err(UnexpectedStart);
            }
          case End(name) =>
            if name == "section" {
              break;
            }
            return Err(UnexpectedEvent);
          case Text(t) =>
            if !IsBlank(t) {
              return Err(UnexpectedEvent);
            }
          case _ =>
            return Err(UnexpectedEvent);
        }
      }
      return Ok(());
    }

    /** `handle_para`: a text block followed by a blank line. */
    method HandlePara(synopsis: bool) returns (r: Result<()>)
      requires Valid()
      modifies this
      ensures Valid() && old(pos) <= pos && old(out) <= out
      ensures r.Ok? ==> Render.IndentKept(old(State()), State()) && text == [] && needNewline
      decreases |events| - pos, 1
    {
      var _ :- HandleTextBlock(synopsis);
      needNewline := true;
      return Ok(());
    }

    /** `handle_text_block`: inline markup and text go into the pending
        text; a nested synopsis or list first flushes it; at the closing tag
        the pending text is flushed. */
    method HandleTextBlock(synopsis: bool) returns (r: Result<()>)
      requires Valid()
      modifies this
      ensures Valid() && old(pos) <= pos && old(out) <= out
      ensures r.Ok? ==> Render.IndentKept(old(State()), State()) && text == [] && !needNewline
      decreases |events| - pos, 0
    {
      while true
        invariant Valid() && old(pos) <= pos && old(out) <= out
        invariant Render.IndentKept(old(State()), State())
        decreases |events| - pos
      {
        var ev :- ReadEvent();
        match ev {
          case Start(name, attrs) =>
            var _ :- HandleTextBlockStart(synopsis, name, attrs);
          case Empty(name, attrs) =>
            if name == "xref" {
              var _ :- HandleXref(attrs);
            } else {
              return Err(UnexpectedEmpty);
            }
          case Text(t) =>
            PushText(Collapse(t));
          case GeneralRef(content) =>
            PushText(content);
          case End(name) =>
            if name in {"para", "synopsis", "simpara", "literallayout"} {
              break;
            }
            return Err(UnexpectedEvent);
          case _ =>
            return Err(UnexpectedEvent);
        }
      }
      FlushText(synopsis);
      return Ok(());
    }

    /** `self.text.push_str`: more pending text; nothing is written. */
    method PushText(t: string)
      requires Valid()
      modifies this
      ensures State() == old(State()).(text := old(text) + t) && pos == old(pos) && Valid()
    {
      text := text + t;
    }

    /** What `handle_text_block` does before a nested block: the text so far
        is written as a paragraph of its own, and a blank line is asked
        for. */
    method BreakText(synopsis: bool)
      requires Valid()
      modifies this
      ensures State() == Render.FlushText(old(State()), synopsis).(needNewline := true)
      ensures pos == old(pos) && Valid() && old(out) <= out && text == []
      ensures Render.IndentKept(old(State()), State())
    {
      FlushText(synopsis);
      needNewline := true;
    }

    /** The start tags `handle_text_block` accepts: inline markup goes into
        the pending text; a synopsis or a list first flushes it. */
    method HandleTextBlockStart(synopsis: bool, name: string, attrs: map<string, string>) returns (r: Result<()>)
      requires Valid()
      modifies this
      ensures Valid() && old(pos) <= pos && old(out) <= out
      ensures r.Ok? ==> Render.IndentKept(old(State()), State())
      decreases |events| - pos, 2
    {
      if name == "synopsis" {
        BreakText(synopsis);
        var _ :- HandlePara(true);
      } else if name in {"itemizedlist", "orderedlist", "variablelist"} {
        BreakText(synopsis);
        var _ :- HandleList(name);
      } else {
        var _ :- HandleInline(name, attrs);
      }
      return Ok(());
    }

    /** The inline elements of `handle_text_block`, each of which appends to
        the pending text; any other name is an error. */
    method HandleInline(name: string, attrs: map<string, string>) returns (r: Result<()>)
      requires Valid()
      modifies this
      ensures Valid() && old(pos) <= pos && State() == old(State()).(text := text)
      ensures !(name in EmphasisClosers || name in CodeClosers || name in {"filename", "ulink", "link"})
        ==> r == Err(UnexpectedStart) && State() == old(State())
      ensures name in EmphasisClosers ==> var sc := ScanTexts(events, old(pos), EmphasisClosers);
        sc.Ok? ==> r.Ok? && pos == sc.value.1 && text == old(text) + "_" + CollapseAll(sc.value.0) + "_"
      ensures name !in EmphasisClosers && name in CodeClosers ==> var sc := ScanTexts(events, old(pos), CodeClosers);
        sc.Ok? ==> r.Ok? && pos == sc.value.1 && text == old(text) + "`" + CollapseAll(sc.value.0) + "`"
      ensures name !in EmphasisClosers && name !in CodeClosers && name == "filename" ==> var sc := ScanTexts(events, old(pos), {"filename"});
        sc.Ok? ==> (r.Ok? && pos == sc.value.1
          && text == old(text) + MarkdownLink(Trim(CollapseAll(sc.value.0)), SourceFileBase + CollapseAll(sc.value.0)))
      ensures name !in EmphasisClosers && name !in CodeClosers && name == "ulink" ==> var sc := ScanTexts(events, old(pos), {"ulink"});
        (r.Ok? <==> sc.Ok? && "url" in attrs)
          && (r.Ok? ==> pos == sc.value.1 && text == old(text) + MarkdownLink(Trim(CollapseAll(sc.value.0)), attrs["url"]))
      ensures name !in EmphasisClosers && name !in CodeClosers && name == "link" ==> var sc := ScanTexts(events, old(pos), {"link"});
        (r.Ok? <==> sc.Ok? && "linkend" in attrs && ResolveLink(attrs["linkend"]).Ok?)
          && (r.Ok? ==> (pos == sc.value.1
                && text == old(text) + MarkdownLink(Trim(CollapseAll(sc.value.0)), ResolveLink(attrs["linkend"]).value)))
    {
      if name in EmphasisClosers {
        r := HandleEmphasis();
      } else if name in CodeClosers {
        r := HandleCode();
      } else {
        r := HandleLinkLike(name, attrs);
      }
    }

    /** The inline elements of `handle_text_block` that become Markdown
        links; any other name is an error. */
    method HandleLinkLike(name: string, attrs: map<string, string>) returns (r: Result<()>)
      requires Valid()
      modifies this
      ensures Valid() && old(pos) <= pos && State() == old(State()).(text := text)
      ensures name !in {"filename", "ulink", "link"} ==> r == Err(UnexpectedStart) && State() == old(State())
      ensures name == "filename" ==> var sc := ScanTexts(events, old(pos), {"filename"});
        sc.Ok? ==> (r.Ok? && pos == sc.value.1
          && text == old(text) + MarkdownLink(Trim(CollapseAll(sc.value.0)), SourceFileBase + CollapseAll(sc.value.0)))
      ensures name == "ulink" ==> var sc := ScanTexts(events, old(pos), {"ulink"});
        (r.Ok? <==> sc.Ok? && "url" in attrs)
          && (r.Ok? ==> pos == sc.value.1 && text == old(text) + MarkdownLink(Trim(CollapseAll(sc.value.0)), attrs["url"]))
      ensures name == "link" ==> var sc := ScanTexts(events, old(pos), {"link"});
        (r.Ok? <==> sc.Ok? && "linkend" in attrs && ResolveLink(attrs["linkend"]).Ok?)
          && (r.Ok? ==> (pos == sc.value.1
                && text == old(text) + MarkdownLink(Trim(CollapseAll(sc.value.0)), ResolveLink(attrs["linkend"]).value)))
    {
      if name == "filename" {
        r := HandleFilename();
      } else if name == "ulink" {
        r := HandleUlink(attrs);
      } else if name == "link" {
        r := HandleLink(attrs);
      } else {
        r := Err(UnexpectedStart);
      }
    }

    /** The three list elements a text block may hold. */
    method HandleList(name: string) returns (r: Result<()>)
      requires Valid() && name in {"itemizedlist", "orderedlist", "variablelist"}
      modifies this
      ensures Valid() && old(pos) <= pos && old(out) <= out
      ensures r.Ok? ==> Render.IndentKept(old(State()), State())
      decreases |events| - pos, 1
    {
      if name == "itemizedlist" {
        r := HandleItemizedList();
      } else if name == "orderedlist" {
        r := HandleOrderedList();
      } else {
        r := HandleVariableList();
      }
    }

    /** `handle_variablelist`: an optional bold title and the entries. */
    method HandleVariableList() returns (r: Result<()>)
      requires Valid()
      modifies this
      ensures Valid() && old(pos) <= pos && old(out) <= out
      ensures r.Ok? ==> Render.IndentKept(old(State()), State())
      decreases |events| - pos, 0
    {
      while true
        invariant Valid() && old(pos) <= pos && old(out) <= out
        invariant Render.IndentKept(old(State()), State())
        decreases |events| - pos
      {
        var ev :- ReadEvent();
        match ev {
          case Start(name, _) =>
            if name == "title" {
              var _ :- HandleTitle(Bold);
            } else if name == "varlistentry" {
              var _ :- HandleVarListEntry();
            } else {
              return Err(UnexpectedStart);
            }
          case End(name) =>
            if name == "variablelist" {
              break;
            }
            return Err(UnexpectedEvent);
          case Text(t) =>
            if !IsBlank(t) {
              return Err(UnexpectedEvent);
            }
          case _ =>
            return Err(UnexpectedEvent);
        }
      }
      return Ok(());
    }

    /** `handle_varlistentry`: terms and their definitions, in any order. */
    method HandleVarListEntry() returns (r: Result<()>)
      requires Valid()
      modifies this
      ensures Valid() && old(pos) <= pos && old(out) <= out
      ensures r.Ok? ==> Render.IndentKept(old(State()), State())
      decreases |events| - pos, 0
    {
      while true
        invariant Valid() && old(pos) <= pos && old(out) <= out
        invariant Render.IndentKept(old(State()), State())
        decreases |events| - pos
      {
        var ev :- ReadEvent();
        match ev {
          case Start(name, _) =>
            if name == "term" {
              var _ :- HandleTerm();
            } else if name == "listitem" {
              var _ :- HandleListItem(Itemized);
            } else {
              return Err(UnexpectedStart);
            }
          case End(name) =>
            if name == "varlistentry" {
              break;
            }
            return Err(UnexpectedEvent);
          case Text(t) =>
            if !IsBlank(t) {
              return Err(UnexpectedEvent);
            }
          case _ =>
            return Err(UnexpectedEvent);
        }
      }
      return Ok(());
    }

    /** `handle_term`: the term's text (all of it, blank or not) and inline
        literals, flushed as one paragraph. */
    method HandleTerm() returns (r: Result<()>)
      requires Valid()
      modifies this
      ensures Valid() && old(pos) <= pos && old(out) <= out
      ensures r.Ok? ==> Render.IndentKept(old(State()), State()) && text == [] && !needNewline
      decreases |events| - pos, 0
    {
      while true
        invariant Valid() && old(pos) <= pos && old(out) <= out
        invariant Render.IndentKept(old(State()), State())
        decreases |events| - pos
      {
        var ev :- ReadEvent();
        match ev {
          case Start(name, _) =>
            if name == "literal" {
              var _ :- HandleCode();
            } else if name == "synopsis" {
              var _ :- HandleTextBlock(false);
            } else {
              return Err(UnexpectedStart);
            }
          case End(name) =>
            if name == "term" {
              break;
            }
            return Err(UnexpectedEvent);
          case Text(t) =>
            PushText(Collapse(t));
          case _ =>
            return Err(UnexpectedEvent);
        }
      }
      FlushText(false);
      return Ok(());
    }

    /** `handle_orderedlist`: items numbered from 1. */
    method HandleOrderedList() returns (r: Result<()>)
      requires Valid()
      modifies this
      ensures Valid() && old(pos) <= pos && old(out) <= out
      ensures r.Ok? ==> Render.IndentKept(old(State()), State())
      decreases |events| - pos, 0
    {
      var n: nat := 1;
      while true
        invariant Valid() && old(pos) <= pos && old(out) <= out
        invariant Render.IndentKept(old(State()), State())
        decreases |events| - pos
      {
        var ev :- ReadEvent();
        match ev {
          case Start(name, _) =>
            if name == "listitem" {
              var _ :- HandleListItem(Numbered(n));
              n := n + 1;
            } else {
              return Err(UnexpectedStart);
            }
          case End(name) =>
            if name == "orderedlist" {
              break;
            }
            return Err(UnexpectedEvent);
          case Text(t) =>
            if !IsBlank(t) {
              return Err(UnexpectedEvent);
            }
          case _ =>
            return Err(UnexpectedEvent);
        }
      }
      return Ok(());
    }

    /** `handle_itemizedlist`: bulleted items. */
    method HandleItemizedList() returns (r: Result<()>)
      requires Valid()
      modifies this
      ensures Valid() && old(pos) <= pos && old(out) <= out
      ensures r.Ok? ==> Render.IndentKept(old(State()), State())
      decreases |events| - pos, 0
    {
      while true
        invariant Valid() && old(pos) <= pos && old(out) <= out
        invariant Render.IndentKept(old(State()), State())
        decreases |events| - pos
      {
        var ev :- ReadEvent();
        match ev {
          case Start(name, _) =>
            if name == "listitem" {
              var _ :- HandleListItem(Bullet);
            } else {
              return Err(UnexpectedStart);
            }
          case End(name) =>
            if name == "itemizedlist" {
              break;
            }
            return Err(UnexpectedEvent);
          case Text(t) =>
            if !IsBlank(t) {
              return Err(UnexpectedEvent);
            }
          case _ =>
            return Err(UnexpectedEvent);
        }
      }
      return Ok(());
    }

    /** `handle_listitem`: the item's blocks are written under the marker,
        continuation lines aligned with the text after it; afterwards both
        prefixes are cut back, which restores the enclosing continuation
        prefix exactly. */
    method HandleListItem(ty: ListType) returns (r: Result<()>)
      requires Valid()
      modifies this
      ensures Valid() && old(pos) <= pos && old(out) <= out
      ensures r.Ok? ==> Render.IndentKept(old(State()), State())
      decreases |events| - pos, 0
    {
      var marker := ListMarker(ty);
      var len := PushIndent(marker, false);
      ghost var pushed := State();
      while true
        invariant Valid() && old(pos) <= pos && old(out) <= out
        invariant Render.IndentKept(pushed, State())
        decreases |events| - pos
      {
        var ev :- ReadEvent();
        match ev {
          case Start(name, _) =>
            if name == "simpara" || name == "para" {
              var _ :- HandlePara(false);
            } else if name == "warning" {
              var _ :- HandleAdmonition("WARNING");
            } else if name == "note" {
              var _ :- HandleAdmonition("NOTE");
            } else if name == "variablelist" {
              var _ :- HandleVariableList();
            } else {
              return Err(UnexpectedStart);
            }
          case End(name) =>
            if name == "listitem" {
              break;
            }
            return Err(UnexpectedEvent);
          case Text(t) =>
            if !IsBlank(t) {
              return Err(UnexpectedEvent);
            }
          case _ =>
            return Err(UnexpectedEvent);
        }
      }
      Render.PushPopRestores(old(State()), marker, false, State());
      PopIndent(len);
      return Ok(());
    }

    /** `handle_admonition`: a GitHub-style alert, `> [!NAME]` followed by
        the paragraphs, every line prefixed with `> `. */
    method HandleAdmonition(name: string) returns (r: Result<()>)
      requires Valid()
      modifies this
      ensures Valid() && old(pos) <= pos && old(out) <= out
      ensures r.Ok? ==> Render.IndentKept(old(State()), State())
      decreases |events| - pos, 0
    {
      var len := PushIndent(">", true);
      ghost var pushed := State();
      WriteLine("[!" + name + "]");
      while true
        invariant Valid() && old(pos) <= pos && old(out) <= out
        invariant Render.IndentKept(pushed, State())
        decreases |events| - pos
      {
        var ev :- ReadEvent();
        match ev {
          case Start(tag, _) =>
            if tag == "simpara" || tag == "para" {
              var _ :- HandlePara(false);
            } else {
              return Err(UnexpectedStart);
            }
          case End(tag) =>
            if tag == "warning" || tag == "note" {
              break;
            }
            return Err(UnexpectedEvent);
          case Text(t) =>
            if !IsBlank(t) {
              return Err(UnexpectedEvent);
            }
          case _ =>
            return Err(UnexpectedEvent);
        }
      }
      Render.PushPopRestores(old(State()), ">", true, State());
      PopIndent(len);
      return Ok(());
    }

    /** `handle_figure`: a bold title and the media objects. */
    method HandleFigure() returns (r: Result<()>)
      requires Valid()
      modifies this
      ensures Valid() && old(pos) <= pos && old(out) <= out
      ensures r.Ok? ==> Render.IndentKept(old(State()), State())
      decreases |events| - pos, 0
    {
      while true
        invariant Valid() && old(pos) <= pos && old(out) <= out
        invariant Render.IndentKept(old(State()), State())
        decreases |events| - pos
      {
        var ev :- ReadEvent();
        match ev {
          case Start(name, _) =>
            if name == "title" {
              var _ :- HandleTitle(Bold);
            } else if name == "mediaobject" || name == "mediaobjectco" {
              var _ :- HandleMediaObject();
            } else {
              return Err(UnexpectedStart);
            }
          case End(name) =>
            if name == "figure" {
              break;
            }
            return Err(UnexpectedEvent);
          case Text(t) =>
            if !IsBlank(t) {
              return Err(UnexpectedEvent);
            }
          case _ =>
            return Err(UnexpectedEvent);
        }
      }
      return Ok(());
    }

    /** `handle_mediaobject`: text alternatives are skipped; images and
        captions are written. */
    method HandleMediaObject() returns (r: Result<()>)
      requires Valid()
      modifies this
      ensures Valid() && old(pos) <= pos && old(out) <= out
      ensures r.Ok? ==> Render.IndentKept(old(State()), State())
      decreases |events| - pos, 0
    {
      while true
        invariant Valid() && old(pos) <= pos && old(out) <= out
        invariant Render.IndentKept(old(State()), State())
        decreases |events| - pos
      {
        var ev :- ReadEvent();
        match ev {
          case Start(name, _) =>
            if name == "textobject" {
              var _ :- SkipUntil("textobject");
            } else if name == "imageobject" {
              var _ :- HandleImageObject();
            } else if name == "imageobjectco" {
              var _ :- HandleImageObjectCo();
            } else if name == "caption" {
              var _ :- HandleCaption();
            } else {
              return Err(UnexpectedStart);
            }
          case End(name) =>
            if name == "mediaobject" || name == "mediaobjectco" {
              break;
            }
            return Err(UnexpectedEvent);
          case Text(t) =>
            if !IsBlank(t) {
              return Err(UnexpectedEvent);
            }
          case _ =>
            return Err(UnexpectedEvent);
        }
      }
      return Ok(());
    }

    /** `handle_imageobject`: callout areas are skipped; the image data is
        written. */
    method HandleImageObject() returns (r: Result<()>)
      requires Valid()
      modifies this
      ensures Valid() && old(pos) <= pos && old(out) <= out
      ensures r.Ok? ==> Render.IndentKept(old(State()), State())
      decreases |events| - pos, 0
    {
      while true
        invariant Valid() && old(pos) <= pos && old(out) <= out
        invariant Render.IndentKept(old(State()), State())
        decreases |events| - pos
      {
        var ev :- ReadEvent();
        match ev {
          case Start(name, _) =>
            if name == "areaspec" {
              var _ :- SkipUntil("areaspec");
            } else {
              return Err(UnexpectedStart);
            }
          case Empty(name, attrs) =>
            if name == "imagedata" {
              var _ :- HandleImageData(attrs);
            } else {
              return Err(UnexpectedEmpty);
            }
          case End(name) =>
            if name == "imageobject" {
              break;
            }
            return Err(UnexpectedEvent);
          case Text(t) =>
            if !IsBlank(t) {
              return Err(UnexpectedEvent);
            }
          case _ =>
            return Err(UnexpectedEvent);
        }
      }
      return Ok(());
    }

    /** `handle_imageobjectco`: callout areas are skipped; the image object
        is written. */
    method HandleImageObjectCo() returns (r: Result<()>)
      requires Valid()
      modifies this
      ensures Valid() && old(pos) <= pos && old(out) <= out
      ensures r.Ok? ==> Render.IndentKept(old(State()), State())
      decreases |events| - pos, 0
    {
      while true
        invariant Valid() && old(pos) <= pos && old(out) <= out
        invariant Render.IndentKept(old(State()), State())
        decreases |events| - pos
      {
        var ev :- ReadEvent();
        match ev {
          case Start(name, _) =>
            if name == "areaspec" {
              var _ :- SkipUntil("areaspec");
            } else if name == "imageobject" {
              var _ :- HandleImageObject();
            } else {
              return Err(UnexpectedStart);
            }
          case End(name) =>
            if name == "imageobjectco" {
              break;
            }
            return Err(UnexpectedEvent);
          case Text(t) =>
            if !IsBlank(t) {
              return Err(UnexpectedEvent);
            }
          case _ =>
            return Err(UnexpectedEvent);
        }
      }
      return Ok(());
    }

    /** `handle_caption`: the caption's paragraphs. */
    method HandleCaption() returns (r: Result<()>)
      requires Valid()
      modifies this
      ensures Valid() && old(pos) <= pos && old(out) <= out
      ensures r.Ok? ==> Render.IndentKept(old(State()), State())
      decreases |events| - pos, 0
    {
      while true
        invariant Valid() && old(pos) <= pos && old(out) <= out
        invariant Render.IndentKept(old(State()), State())
        decreases |events| - pos
      {
        var ev :- ReadEvent();
        match ev {
          case Start(name, _) =>
            if name == "para" {
              var _ :- HandlePara(false);
            } else {
              return Err(UnexpectedStart);
            }
          case End(name) =>
            if name == "caption" {
              break;
            }
            return Err(UnexpectedEvent);
          case Text(t) =>
            if !IsBlank(t) {
              return Err(UnexpectedEvent);
            }
          case _ =>
            return Err(UnexpectedEvent);
        }
      }
      return Ok(());
    }
  }

  /** The free function `handle_chapter_file`: a fresh handler over one
      file's events.  A successful conversion yields Markdown whose blank
      lines are single and never first, and none of whose written lines
      ends in a space (a title line or an image line may itself hold a line break). */
  method ConvertChapterFile(events: seq<Event>) returns (r: Result<seq<string>>)
    ensures r.Ok? ==> Render.NormalOutput(r.value)
  {
    var h := new Handler(events);
    var _ :- h.HandleChapterFile();
    return Ok(h.out);
  }
}
