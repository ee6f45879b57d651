/** The pull-parser's event stream as the converter sees it, and the event
    loop shared by the inline handlers (`handle_code`, `handle_emphasis`,
    `handle_filename`, `handle_link`, `handle_ulink`, `handle_title`): a run
    of text events ended by one of a few closing tags. */
module Events {
  import opened Outcomes
  import opened Textual

  /** One `quick_xml` event, with names and attribute values already decoded. */
  datatype Event =
    | Start(name: string, attrs: map<string, string>)
    | Empty(name: string, attrs: map<string, string>)
    | End(name: string)
    | Text(content: string)
    | GeneralRef(content: string)
    | Decl
    | DocType
    | Other      // a comment, CDATA section or processing instruction
    | Malformed  // the reader reports an error instead of an event
    | Eof

  /** The event the reader yields at position `i`; once the input is used up
      it yields `Eof` for ever. */
  function At(evs: seq<Event>, i: nat): Event {
    if i < |evs| then evs[i] else Eof
  }

  /** Reads from `i` up to and including the first end tag whose name is in
      `closers`, collecting the text events on the way.  Anything else
      before it (including the end of input) fails.  On success, the
      fragments are exactly the contents of the text events and the position
      is just past the closing tag. */
  function ScanTexts(evs: seq<Event>, i: nat, closers: set<string>): (r: Result<(seq<string>, nat)>)
    requires i <= |evs|
    ensures r.Ok? ==>
      && i < r.value.1 <= |evs|
      && |r.value.0| == r.value.1 - 1 - i
      && (forall k :: 0 <= k < |r.value.0| ==> evs[i + k] == Text(r.value.0[k]))
      && evs[r.value.1 - 1].End? && evs[r.value.1 - 1].name in closers
    ensures r.Err? ==> r.error == MalformedInput || r.error == UnexpectedEvent
    decreases |evs| - i
  {
    if i == |evs| then Err(UnexpectedEvent)
    else match evs[i]
      case Text(t) =>
        (match ScanTexts(evs, i + 1, closers)
         case Ok((frags, next)) =>
           assert forall k :: 1 <= k < |frags| + 1 ==> ([t] + frags)[k] == frags[k - 1];
           Ok(([t] + frags, next))
         case Err(e) => Err(e))
      case End(n) => if n in closers then Ok(([], i + 1)) else Err(UnexpectedEvent)
      case Malformed => Err(MalformedInput)
      case _ => Err(UnexpectedEvent)
  }

  /** Text events up to an end tag in `closers` are a successful scan that
      stops just past that tag. */
  lemma {:induction false} ScanTextsSucceeds(evs: seq<Event>, i: nat, j: nat, closers: set<string>)
    requires i <= j < |evs|
    requires forall k :: i <= k < j ==> evs[k].Text?
    requires evs[j].End? && evs[j].name in closers
    ensures ScanTexts(evs, i, closers).Ok? && ScanTexts(evs, i, closers).value.1 == j + 1
    decreases j - i
  {
    if i < j {
      ScanTextsSucceeds(evs, i + 1, j, closers);
    }
  }

  /** A scan result with fragments `done` read before it. */
  function Prepend(done: seq<string>, r: Result<(seq<string>, nat)>): Result<(seq<string>, nat)> {
    match r
    case Ok((frags, next)) => Ok((done + frags, next))
    case Err(e) => Err(e)
  }

  lemma PrependNothing(r: Result<(seq<string>, nat)>)
    ensures Prepend([], r) == r
  {
    match r
    case Ok((frags, next)) =>
      assert [] + frags == frags;
    case Err(e) =>
  }

  /** A text event continues the scan with one more fragment. */
  lemma ScanTextStep(evs: seq<Event>, i: nat, closers: set<string>, done: seq<string>)
    requires i < |evs| && evs[i].Text?
    ensures Prepend(done, ScanTexts(evs, i, closers))
         == Prepend(done + [evs[i].content], ScanTexts(evs, i + 1, closers))
  {
    match ScanTexts(evs, i + 1, closers)
    case Ok((frags, next)) =>
      assert done + ([evs[i].content] + frags) == done + [evs[i].content] + frags;
    case Err(e) =>
  }

  /** The text events inside an inline element, each with its whitespace
      runs collapsed, one after the other. */
  function CollapseAll(frags: seq<string>): string {
    if frags == [] then [] else CollapseAll(frags[..|frags| - 1]) + Collapse(frags[|frags| - 1])
  }

  /** Collapsed inline text never holds a newline or a tab. */
  lemma {:induction false} CollapseAllFlat(frags: seq<string>)
    ensures forall i :: 0 <= i < |CollapseAll(frags)| ==> CollapseAll(frags)[i] != '\n' && CollapseAll(frags)[i] != '\t'
    decreases |frags|
  {
    if frags != [] {
      CollapseAllFlat(frags[..|frags| - 1]);
      var a := CollapseAll(frags[..|frags| - 1]);
      var b := Collapse(frags[|frags| - 1]);
      assert forall i :: |a| <= i < |a| + |b| ==> (a + b)[i] == b[i - |a|];
    }
  }

  /** The text of a title: each text event trimmed, joined by single spaces. */
  function JoinTrimmed(frags: seq<string>): string {
    if frags == [] then []
    else if |frags| == 1 then Trim(frags[0])
    else JoinTrimmed(frags[..|frags| - 1]) + " " + Trim(frags[|frags| - 1])
  }

  /** Joined non-blank fragments are empty only when there are none, and
      then start and end with a non-whitespace character. */
  lemma {:induction false} JoinTrimmedEnds(frags: seq<string>)
    requires forall k :: 0 <= k < |frags| ==> !IsBlank(frags[k])
    ensures var t := JoinTrimmed(frags);
      (t == [] <==> frags == []) && (t != [] ==> !IsWhitespace(t[0]) && !IsWhitespace(t[|t| - 1]))
    decreases |frags|
  {
    if |frags| > 1 {
      var p := frags[..|frags| - 1];
      JoinTrimmedEnds(p);
      var a := JoinTrimmed(p);
      var b := Trim(frags[|frags| - 1]);
      assert (a + " " + b)[0] == a[0];
    }
  }

  /** Where a loop that ignores everything up to the end tag `closer` stops:
      just past the first such tag.  A reader error fails; so does running
      out of input, where such a loop would read `Eof` for ever. */
  function SkipEnd(evs: seq<Event>, i: nat, closer: string): (r: Result<nat>)
    requires i <= |evs|
    ensures r.Ok? ==>
      && i < r.value <= |evs| && evs[r.value - 1] == End(closer)
      && forall k :: i <= k < r.value - 1 ==> evs[k] != End(closer) && !evs[k].Malformed? && !evs[k].Eof?
    ensures r.Err? ==> r.error == MalformedInput || r.error == InputEnded
    decreases |evs| - i
  {
    if i == |evs| then Err(InputEnded)
    else match evs[i]
      case End(n) => if n == closer then Ok(i + 1) else SkipEnd(evs, i + 1, closer)
      case Malformed => Err(MalformedInput)
      case Eof => Err(InputEnded)
      case _ => SkipEnd(evs, i + 1, closer)
  }

  /** An end tag `closer` with no reader error before it is found: the skip
      succeeds, stopping at that tag or an earlier one of the same name. */
  lemma {:induction false} SkipEndReaches(evs: seq<Event>, i: nat, j: nat, closer: string)
    requires i <= j < |evs| && evs[j] == End(closer)
    requires forall k :: i <= k < j ==> !evs[k].Malformed? && !evs[k].Eof?
    ensures SkipEnd(evs, i, closer).Ok? && SkipEnd(evs, i, closer).value <= j + 1
    decreases j - i
  {
    if i < j && evs[i] != End(closer) {
      SkipEndReaches(evs, i + 1, j, closer);
    }
  }
}
