/** The book summary: the walk `handle_wayland_xml` makes over the top-level
    book file, turning each included chapter file into a link line of the
    mdBook `SUMMARY.md`. */
module Summary {
  import opened Outcomes
  import opened Textual
  import opened Events

  /** What the title table says about an included file. */
  datatype TocEntry = Skipped | Titled(title: string)

  /** The included files that get no summary line. */
  const SkippedIncludes := {"Book_Info.xml", "Foreword.xml", "ProtocolSpec.xml", "Client.xml", "Server.xml"}

  /** The chapter files that get a summary line, with its title. */
  const ChapterTitles: map<string, string> := map[
    "Introduction.xml" := "Introduction",
    "Compositors.xml" := "Types of Compositors",
    "Architecture.xml" := "Wayland Architecture",
    "Protocol.xml" := "Wayland Protocol and Model of Operation",
    "Message_XML.xml" := "Message Definition Language",
    "Xwayland.xml" := "X11 Application Support",
    "Content_Updates.xml" := "Content Updates",
    "Color.xml" := "Color management"]

  /** The title table of the summary walk: a title per chapter file, a skip
      for the files handled elsewhere, a failure for anything else. */
  function TocTitle(href: string): (r: Result<TocEntry>)
    ensures r == Ok(Skipped) <==> href in SkippedIncludes
    ensures r.Err? <==> href !in SkippedIncludes && href !in ChapterTitles
    ensures r.Err? ==> r.error == UnknownInclude
    ensures r.Ok? && r.value.Titled? ==> href in ChapterTitles && r.value.title == ChapterTitles[href]
  {
    if href in SkippedIncludes then Ok(Skipped)
    else if href in ChapterTitles then Ok(Titled(ChapterTitles[href]))
    else Err(UnknownInclude)
  }

  /** The four lines written before the walk starts. */
  const Header: seq<string> := ["# Summary", "", "[Foreword](Foreword.md)", ""]

  /** `- [title](./href)` with `.xml` replaced by `.md`. */
  function EntryLine(title: string, href: string): string {
    "- [" + title + "](./" + Replace(href, ".xml", ".md") + ")"
  }

  /** Lines `done` written before a walk that produced `r`. */
  function After(done: seq<string>, r: Result<seq<string>>): Result<seq<string>> {
    match r
    case Ok(lines) => Ok(done + lines)
    case Err(e) => Err(e)
  }

  /** What one event does to the walk: stop it with a result, or write some
      lines and carry on, inside the `book` element or outside it. */
  datatype Move = Finish(result: Result<seq<string>>) | Continue(lines: seq<string>, inBook: bool)

  /** One turn of the summary loop: the outer loop outside the `book`
      element (`inBook` false), the inner one inside it.  The end of input
      always stops the walk. */
  function Step(ev: Event, inBook: bool): (m: Move)
    ensures ev.Eof? ==> m.Finish?
    ensures ev.Malformed? ==> m == Finish(Err(MalformedInput))
  {
    if ev.Malformed? then Finish(Err(MalformedInput))
    else if !inBook then
      match ev
      case Start(name, _) => if name == "book" then Continue([], true) else Finish(Err(UnexpectedStart))
      case Decl => Continue([], false)
      case DocType => Continue([], false)
      case Text(t) => if IsBlank(t) then Continue([], false) else Finish(Err(UnexpectedEvent))
      case Eof => Finish(Ok([]))
      case _ => Finish(Err(UnexpectedEvent))
    else
      match ev
      case Empty(name, attrs) =>
        if name != "xi:include" then Finish(Err(UnexpectedEvent))
        else if "href" !in attrs then Finish(Err(MissingAttribute))
        else
          (match TocTitle(attrs["href"])
           case Err(e) => Finish(Err(e))
           case Ok(Skipped) => Continue([], true)
           case Ok(Titled(title)) => Continue([EntryLine(title, attrs["href"])], true))
      case Text(t) => if IsBlank(t) then Continue([], true) else Finish(Err(UnexpectedEvent))
      case End(name) => if name == "book" then Continue([], false) else Finish(Err(UnexpectedEvent))
      case _ => Finish(Err(UnexpectedEvent))
  }

  /** The lines the walk writes from event `i` on. */
  function Walk(evs: seq<Event>, i: nat, inBook: bool): Result<seq<string>>
    requires i <= |evs|
    decreases |evs| - i
  {
    match Step(At(evs, i), inBook)
    case Finish(r) => r
    case Continue(lines, next) =>
      assert i < |evs|;
      After(lines, Walk(evs, i + 1, next))
  }

  /** The whole of `SUMMARY.md` for the book's event stream. */
  function Summarize(evs: seq<Event>): (r: Result<seq<string>>)
    ensures r.Ok? ==> |r.value| >= |Header| && r.value[..|Header|] == Header
  {
    After(Header, Walk(evs, 0, false))
  }

  lemma AfterAfter(a: seq<string>, b: seq<string>, r: Result<seq<string>>)
    ensures After(a, After(b, r)) == After(a + b, r)
  {
    match r
    case Ok(lines) =>
      assert a + (b + lines) == a + b + lines;
    case Err(e) =>
  }

  lemma AfterNothing(r: Result<seq<string>>)
    ensures After([], r) == r
  {
    match r
    case Ok(lines) =>
      assert [] + lines == lines;
    case Err(e) =>
  }

  /** Lines written, one batch after the other. */
  function JoinBatches(ls: seq<seq<string>>): (r: seq<string>)
    ensures ls == [] ==> r == []
  {
    if ls == [] then [] else ls[0] + JoinBatches(ls[1..])
  }

  /** Inside the book, a run of events each of which writes some lines and
      stays inside the book writes all those lines, in order, and the walk
      carries on after the run. */
  lemma {:induction false} WalkRun(evs: seq<Event>, i: nat, ls: seq<seq<string>>)
    requires i + |ls| <= |evs|
    requires forall k :: 0 <= k < |ls| ==> Step(evs[i + k], true) == Continue(ls[k], true)
    ensures Walk(evs, i, true) == After(JoinBatches(ls), Walk(evs, i + |ls|, true))
    decreases |ls|
  {
    if ls == [] {
      AfterNothing(Walk(evs, i, true));
    } else {
      var w := Walk(evs, i + |ls|, true);
      assert Walk(evs, i, true) == After(ls[0], Walk(evs, i + 1, true)) by {
        assert Step(At(evs, i), true) == Continue(ls[0], true) by {
          assert evs[i + 0] == evs[i];
        }
      }
      assert Walk(evs, i + 1, true) == After(JoinBatches(ls[1..]), w) by {
        forall k | 0 <= k < |ls[1..]|
          ensures Step(evs[i + 1 + k], true) == Continue(ls[1..][k], true)
        {
          assert evs[i + 1 + k] == evs[i + (k + 1)];
        }
        WalkRun(evs, i + 1, ls[1..]);
      }
      AfterAfter(ls[0], JoinBatches(ls[1..]), w);
    }
  }

  /** An `xi:include` element for each of `hrefs`, in order. */
  function Includes(hrefs: seq<string>): (evs: seq<Event>)
    ensures |evs| == |hrefs|
    ensures forall k :: 0 <= k < |hrefs| ==> evs[k] == Include(hrefs[k])
  {
    seq(|hrefs|, k requires 0 <= k < |hrefs| => Include(hrefs[k]))
  }

  /** `<xi:include href="…"/>`. */
  function Include(href: string): Event {
    Empty("xi:include", map["href" := href])
  }

  /** The summary line of one included file, if the table gives it a title. */
  function EntryOf(href: string): seq<string> {
    match TocTitle(href)
    case Ok(Titled(title)) => [EntryLine(title, href)]
    case _ => []
  }

  /** The summary lines for `hrefs`, in order. */
  function Entries(hrefs: seq<string>): (r: seq<string>)
    ensures r == JoinBatches(seq(|hrefs|, k requires 0 <= k < |hrefs| => EntryOf(hrefs[k])))
  {
    if hrefs == [] then []
    else
      var ls := seq(|hrefs|, k requires 0 <= k < |hrefs| => EntryOf(hrefs[k]));
      assert ls[1..] == seq(|hrefs[1..]|, k requires 0 <= k < |hrefs[1..]| => EntryOf(hrefs[1..][k]));
      EntryOf(hrefs[0]) + Entries(hrefs[1..])
  }

  predicate AllKnown(hrefs: seq<string>) {
    forall k :: 0 <= k < |hrefs| ==> TocTitle(hrefs[k]).Ok?
  }

  /** Inside the book, an include of a known file writes its entry, if it
      has one, and stays inside the book. */
  lemma StepInclude(href: string)
    requires TocTitle(href).Ok?
    ensures Step(Include(href), true) == Continue(EntryOf(href), true)
  {
    var ev := Include(href);
    assert "href" in ev.attrs && ev.attrs["href"] == href;
  }

  /** Inside the book, a run of includes of known files writes their
      entries, in order, and the walk carries on after them. */
  lemma WalkIncludes(evs: seq<Event>, i: nat, hrefs: seq<string>)
    requires i + |hrefs| <= |evs| && AllKnown(hrefs)
    requires forall k :: 0 <= k < |hrefs| ==> evs[i + k] == Include(hrefs[k])
    ensures Walk(evs, i, true) == After(Entries(hrefs), Walk(evs, i + |hrefs|, true))
  {
    var ls := seq(|hrefs|, k requires 0 <= k < |hrefs| => EntryOf(hrefs[k]));
    forall k | 0 <= k < |ls|
      ensures Step(evs[i + k], true) == Continue(ls[k], true)
    {
      StepInclude(hrefs[k]);
    }
    WalkRun(evs, i, ls);
  }

  /** Where the events of a book that opens with includes sit. */
  lemma BookLayout(hrefs: seq<string>, tail: seq<Event>)
    ensures var evs := [Start("book", map[])] + Includes(hrefs) + tail;
      && |evs| == 1 + |hrefs| + |tail| && evs[0] == Start("book", map[])
      && (forall k :: 0 <= k < |hrefs| ==> evs[1 + k] == Include(hrefs[k]))
      && (forall k :: 0 <= k < |tail| ==> evs[1 + |hrefs| + k] == tail[k])
  {
    var evs := [Start("book", map[])] + Includes(hrefs) + tail;
    forall k | 0 <= k < |hrefs|
      ensures evs[1 + k] == Include(hrefs[k])
    {
      assert evs[1 + k] == Includes(hrefs)[k];
    }
  }

  /** A book that opens with includes of known files: the header and their
      entries come first, then whatever the rest of the book writes. */
  lemma {:induction false} BookOpening(hrefs: seq<string>, tail: seq<Event>)
    requires AllKnown(hrefs)
    ensures var evs := [Start("book", map[])] + Includes(hrefs) + tail;
      Summarize(evs) == After(Header + Entries(hrefs), Walk(evs, 1 + |hrefs|, true))
  {
    var evs := [Start("book", map[])] + Includes(hrefs) + tail;
    var w := Walk(evs, 1 + |hrefs|, true);
    BookLayout(hrefs, tail);
    assert Walk(evs, 1, true) == After(Entries(hrefs), w) by {
      WalkIncludes(evs, 1, hrefs);
    }
    assert Walk(evs, 0, false) == Walk(evs, 1, true) by {
      assert At(evs, 0) == Start("book", map[]);
      AfterNothing(Walk(evs, 1, true));
    }
    AfterAfter(Header, Entries(hrefs), w);
  }

  /** A book made only of includes of known files: the header, then one
      line per titled file in document order. */
  lemma BookSummary(hrefs: seq<string>)
    requires AllKnown(hrefs)
    ensures Summarize([Start("book", map[])] + Includes(hrefs) + [End("book")])
      == Ok(Header + Entries(hrefs))
  {
    var evs := [Start("book", map[])] + Includes(hrefs) + [End("book")];
    var n := |hrefs|;
    BookOpening(hrefs, [End("book")]);
    assert Walk(evs, 1 + n, true) == Ok([]) by {
      BookLayout(hrefs, [End("book")]);
      assert At(evs, 1 + n) == End("book");
      assert Walk(evs, 1 + n + 1, false) == Ok([]) by {
        assert At(evs, 1 + n + 1) == Eof;
      }
      AfterNothing(Walk(evs, 1 + n + 1, false));
    }
    assert Header + Entries(hrefs) + [] == Header + Entries(hrefs);
  }

  /** The first include of a file missing from the table stops the walk
      with a failure, whatever follows. */
  lemma UnknownIncludeFails(known: seq<string>, bad: string, rest: seq<Event>)
    requires AllKnown(known) && TocTitle(bad).Err?
    ensures Summarize([Start("book", map[])] + Includes(known) + [Include(bad)] + rest)
      == Err(UnknownInclude)
  {
    var tail := [Include(bad)] + rest;
    var evs := [Start("book", map[])] + Includes(known) + tail;
    assert evs == [Start("book", map[])] + Includes(known) + [Include(bad)] + rest;
    BookOpening(known, tail);
    assert Walk(evs, 1 + |known|, true) == Err(UnknownInclude) by {
      BookLayout(known, tail);
      var ev := Include(bad);
      assert evs[1 + |known| + 0] == ev;
      assert "href" in ev.attrs && ev.attrs["href"] == bad;
    }
  }

  /** `.xml` at the end of a name without other dots becomes `.md`, so each
      summary line links the Markdown file converted from the chapter. */
  lemma XmlLink(stem: string, title: string)
    requires '.' !in stem
    ensures EntryLine(title, stem + ".xml") == "- [" + title + "](./" + stem + ".md)"
  {
    ReplaceSuffix(stem, ".xml", ".md");
  }

  /** Every line the walk writes is a summary entry. */
  lemma {:induction false} WalkWritesEntries(evs: seq<Event>, i: nat, inBook: bool)
    requires i <= |evs|
    ensures Walk(evs, i, inBook).Ok? ==>
      forall line :: line in Walk(evs, i, inBook).value ==> "- [" <= line
    decreases |evs| - i
  {
    match Step(At(evs, i), inBook)
    case Finish(r) =>
    case Continue(lines, next) =>
      WalkWritesEntries(evs, i + 1, next);
      assert forall line :: line in lines ==> "- [" <= line;
  }

  /** The entry of a chapter file `stem.xml` links the converted file
      `stem.md` under the table's title. */
  lemma ChapterEntry(stem: string)
    requires '.' !in stem && stem + ".xml" in ChapterTitles
    ensures EntryOf(stem + ".xml") == ["- [" + ChapterTitles[stem + ".xml"] + "](./" + stem + ".md)"]
  {
    var href := stem + ".xml";
    assert href !in SkippedIncludes by {
      assert href[|href| - 4..] == ".xml";
    }
    XmlLink(stem, ChapterTitles[href]);
  }

  /** An include without an `href` stops the walk. */
  lemma MissingHrefFails(attrs: map<string, string>, rest: seq<Event>)
    requires "href" !in attrs
    ensures Summarize([Start("book", map[]), Empty("xi:include", attrs)] + rest) == Err(MissingAttribute)
  {
    var evs := [Start("book", map[]), Empty("xi:include", attrs)] + rest;
    assert Walk(evs, 1, true) == Err(MissingAttribute) by {
      assert At(evs, 1) == Empty("xi:include", attrs);
    }
    assert At(evs, 0) == Start("book", map[]);
  }

  /** The loop of `handle_wayland_xml`: the outer loop skips the prolog
      until the `book` element, whose includes the inner loop turns into
      summary lines, appended as they are produced. */
  method BuildSummary(events: seq<Event>) returns (r: Result<seq<string>>)
    ensures r == Summarize(events)
  {
    var out := Header;
    var pos := 0;
    while true
      invariant pos <= |events|
      invariant Summarize(events) == After(out, Walk(events, pos, false))
      decreases |events| - pos, 1
    {
      var ev := At(events, pos);
      var inBook := false;
      match ev {
        case Malformed =>
          return Err(MalformedInput);
        case Start(name, _) =>
          if name != "book" {
            return Err(UnexpectedStart);
          }
          inBook := true;
        case Decl =>
        case DocType =>
        case Text(t) =>
          if !IsBlank(t) {
            return Err(UnexpectedEvent);
          }
        case Eof =>
          assert Walk(events, pos, false) == Ok([]);
          assert out + [] == out;
          return Ok(out);
        case _ =>
          return Err(UnexpectedEvent);
      }
      assert Step(ev, false) == Continue([], inBook);
      assert pos < |events|;
      AfterNothing(Walk(events, pos + 1, inBook));
      pos := pos + 1;
      while inBook
        invariant 0 < pos <= |events|
        invariant Summarize(events) == After(out, Walk(events, pos, inBook))
        decreases |events| - pos, inBook
      {
        var lines: seq<string> := [];
        match At(events, pos) {
          case Malformed =>
            return Err(MalformedInput);
          case Empty(tag, attrs) =>
            if tag != "xi:include" {
              return Err(UnexpectedEvent);
            }
            if "href" !in attrs {
              return Err(MissingAttribute);
            }
            var href := attrs["href"];
            var entry := TocTitle(href);
            if entry.Err? {
              return Err(entry.error);
            }
            if entry.value.Titled? {
              lines := [EntryLine(entry.value.title, href)];
            }
          case Text(t) =>
            if !IsBlank(t) {
              return Err(UnexpectedEvent);
            }
          case End(tag) =>
            if tag != "book" {
              return Err(UnexpectedEvent);
            }
            inBook := false;
          case _ =>
            return Err(UnexpectedEvent);
        }
        assert Step(At(events, pos), true) == Continue(lines, inBook);
        assert pos < |events|;
        AfterAfter(out, lines, Walk(events, pos + 1, inBook));
        out := out + lines;
        pos := pos + 1;
      }
    }
  }
}
