/** Resolution of DocBook cross-reference identifiers (`linkend`) into
    Markdown link names and targets, as `handle_xref` and `handle_link` do it:
    plain prefix stripping and splitting at the first hyphen, then a fixed
    table. */
module Links {
  import opened Outcomes
  import opened Textual

  /** Anchor base of the generated protocol reference. */
  const ProtocolBase := "https://wayland.app/protocols/wayland#"

  /** Target of `sect-Library-…` links. */
  const LibraryUrl := "https://gitlab.freedesktop.org/wayland/wayland"

  /** Base of the links `handle_filename` makes to files of the repository. */
  const SourceFileBase := LibraryUrl + "/-/blob/main/"

  /** `linkend.strip_prefix("sect-")` followed by `split_once("-")`. */
  function SectParts(linkend: string): (r: Option<(string, string)>)
    ensures r.Some? ==> linkend == "sect-" + r.value.0 + "-" + r.value.1 && '-' !in r.value.0
  {
    match StripPrefix(linkend, "sect-")
    case None => None
    case Some(v) => SplitOnce(v, '-')
  }

  /** Name and target for the remainder `v` of a `protocol-spec-` identifier:
      `interface-type-message` becomes `interface.message` at the anchor
      `interface:type:message`; anything with fewer hyphens is used whole. */
  function ProtocolSpecTarget(v: string): (string, string) {
    match SplitOnce(v, '-')
    case Some((iface, rest)) =>
      (match SplitOnce(rest, '-')
       case Some((ty, message)) => (iface + "." + message, ProtocolBase + iface + ":" + ty + ":" + message)
       case None => (v, ProtocolBase + v))
    case None => (v, ProtocolBase + v)
  }

  /** The `sect-` table of `handle_xref`. */
  function XrefSection(sect: string, v: string): (r: Result<(string, string)>)
    ensures r.Ok? <==> (sect, v) in {("Protocol", "Wire-Format"), ("Protocol", "data-sharing-devices"),
                                     ("MessageXML", "tag-interface"), ("MessageXML", "tag-arg")}
    ensures r.Err? ==> r.error == UnresolvableLink
  {
    if sect == "Protocol" then
      if v == "Wire-Format" then Ok(("Wire Format", "#wire-format"))
      else if v == "data-sharing-devices" then Ok(("Data devices", "#data-devices"))
      else Err(UnresolvableLink)
    else if sect == "MessageXML" then
      if v == "tag-interface" then Ok(("interface", "#interface"))
      else if v == "tag-arg" then Ok(("arg", "#arg"))
      else Err(UnresolvableLink)
    else Err(UnresolvableLink)
  }

  /** The `chap-` table of `handle_xref`. */
  function XrefChapter(v: string): (r: Result<(string, string)>)
    ensures r.Ok? <==> v == "Protocol"
    ensures r.Err? ==> r.error == UnresolvableLink
  {
    if v == "Protocol" then Ok(("Wayland Protocol and Model of Operation", "Protocol.md"))
    else Err(UnresolvableLink)
  }

  /** The `(name, url)` choice of `handle_xref`. */
  function ResolveXref(linkend: string): (r: Result<(string, string)>)
    ensures r.Ok? ==> r.value.1 != []
    ensures r.Err? ==> r.error == UnresolvableLink
  {
    match SectParts(linkend)
    case Some((sect, v)) => XrefSection(sect, v)
    case None =>
      match StripPrefix(linkend, "chap-")
      case Some(v) => XrefChapter(v)
      case None =>
        match StripPrefix(linkend, "protocol-spec-")
        case Some(v) => Ok(ProtocolSpecTarget(v))
        case None => Err(UnresolvableLink)
  }

  /** The `sect-` table of `handle_link`. */
  function LinkSection(sect: string, v: string): (r: Result<string>)
    ensures r.Ok? <==> sect == "Library" || (sect == "Compositors" && v in {"System-Compositor", "Session-Compositor"})
    ensures r.Err? ==> r.error == UnresolvableLink
  {
    if sect == "Compositors" then
      if v == "System-Compositor" then Ok("#system-compositor")
      else if v == "Session-Compositor" then Ok("#session-compositor")
      else Err(UnresolvableLink)
    else if sect == "Library" then Ok(LibraryUrl)
    else Err(UnresolvableLink)
  }

  /** The url choice of `handle_link`. */
  function ResolveLink(linkend: string): (r: Result<string>)
    ensures r.Ok? ==> r.value != []
    ensures r.Err? ==> r.error == UnresolvableLink
  {
    match SectParts(linkend)
    case Some((sect, v)) => LinkSection(sect, v)
    case None =>
      match StripPrefix(linkend, "protocol-spec-")
      case Some(v) => Ok(ProtocolSpecTarget(v).1)
      case None => Err(UnresolvableLink)
  }

  /** `[name](url)`, the Markdown link both handlers append. */
  function MarkdownLink(name: string, url: string): string {
    "[" + name + "](" + url + ")"
  }

  lemma NotSect(rest: string)
    ensures SectParts("protocol-spec-" + rest).None?
    ensures StripPrefix("protocol-spec-" + rest, "chap-").None?
    ensures StripPrefix("protocol-spec-" + rest, "protocol-spec-") == Some(rest)
  {
    var l := "protocol-spec-" + rest;
    assert l[0] == 'p';
    assert l[..|"protocol-spec-"|] == "protocol-spec-";
  }

  /** `protocol-spec-I-T-M`: split at the first two hyphens, so the message
      part keeps any further hyphens. */
  lemma ProtocolSpecFull(iface: string, ty: string, message: string)
    requires '-' !in iface && '-' !in ty
    ensures ResolveXref("protocol-spec-" + iface + "-" + ty + "-" + message)
      == Ok((iface + "." + message, ProtocolBase + iface + ":" + ty + ":" + message))
    ensures ResolveLink("protocol-spec-" + iface + "-" + ty + "-" + message)
      == Ok(ProtocolBase + iface + ":" + ty + ":" + message)
  {
    var rest := iface + "-" + ty + "-" + message;
    assert "protocol-spec-" + iface + "-" + ty + "-" + message == "protocol-spec-" + rest;
    NotSect(rest);
    assert rest == iface + ['-'] + (ty + "-" + message);
    SplitOnceAt(iface, '-', ty + "-" + message);
    assert ty + "-" + message == ty + ['-'] + message;
    SplitOnceAt(ty, '-', message);
  }

  /** `protocol-spec-V` with fewer than two further hyphens: `V` is both the
      name and the anchor. */
  lemma ProtocolSpecShort(v: string)
    requires SplitOnce(v, '-').None? || SplitOnce(SplitOnce(v, '-').value.1, '-').None?
    ensures ResolveXref("protocol-spec-" + v) == Ok((v, ProtocolBase + v))
    ensures ResolveLink("protocol-spec-" + v) == Ok(ProtocolBase + v)
  {
    NotSect(v);
  }

  lemma SectOf(sect: string, v: string)
    requires '-' !in sect
    ensures SectParts("sect-" + sect + "-" + v) == Some((sect, v))
  {
    var l := "sect-" + sect + "-" + v;
    assert l[..5] == "sect-";
    assert l[5..] == sect + ['-'] + v;
    SplitOnceAt(sect, '-', v);
  }

  /** `sect-S-V` (first hyphen after `S`) goes to the section tables, in both
      handlers. */
  lemma SectionForm(sect: string, v: string)
    requires '-' !in sect
    ensures ResolveXref("sect-" + sect + "-" + v) == XrefSection(sect, v)
    ensures ResolveLink("sect-" + sect + "-" + v) == LinkSection(sect, v)
  {
    SectOf(sect, v);
  }

  /** `sect-` followed by no further hyphen matches no rule. */
  lemma SectionWithoutHyphen(v: string)
    requires '-' !in v
    ensures ResolveXref("sect-" + v) == Err(UnresolvableLink)
    ensures ResolveLink("sect-" + v) == Err(UnresolvableLink)
  {
    var l := "sect-" + v;
    assert l[..5] == "sect-" && l[5..] == v;
    assert l[0] == 's';
  }

  /** `chap-V` goes to the chapter table of `handle_xref`; `handle_link` has
      no chapter rule. */
  lemma ChapterForm(v: string)
    ensures ResolveXref("chap-" + v) == XrefChapter(v)
    ensures ResolveLink("chap-" + v) == Err(UnresolvableLink)
  {
    var l := "chap-" + v;
    assert l[..5] == "chap-" && l[5..] == v;
    assert l[0] == 'c';
  }

  /** An identifier with none of the three prefixes is an error. */
  lemma UnknownFormFails(linkend: string)
    requires !("sect-" <= linkend) && !("chap-" <= linkend) && !("protocol-spec-" <= linkend)
    ensures ResolveXref(linkend) == Err(UnresolvableLink)
    ensures ResolveLink(linkend) == Err(UnresolvableLink)
  {
  }

  /** The entries of the tables. */
  lemma Tables()
    ensures XrefSection("Protocol", "Wire-Format") == Ok(("Wire Format", "#wire-format"))
    ensures XrefSection("Protocol", "data-sharing-devices") == Ok(("Data devices", "#data-devices"))
    ensures XrefSection("MessageXML", "tag-interface") == Ok(("interface", "#interface"))
    ensures XrefSection("MessageXML", "tag-arg") == Ok(("arg", "#arg"))
    ensures XrefChapter("Protocol") == Ok(("Wayland Protocol and Model of Operation", "Protocol.md"))
    ensures LinkSection("Compositors", "System-Compositor") == Ok("#system-compositor")
    ensures LinkSection("Compositors", "Session-Compositor") == Ok("#session-compositor")
    ensures forall v :: LinkSection("Library", v) == Ok(LibraryUrl)
  {
  }

  /** A `sect-` or `chap-` identifier whose entry is missing from the
      tables fails in `handle_xref`, and so does a `sect-` identifier
      missing from the table of `handle_link`. */
  lemma UnknownEntriesFail(sect: string, v: string)
    requires '-' !in sect
    ensures (sect, v) !in {("Protocol", "Wire-Format"), ("Protocol", "data-sharing-devices"),
                           ("MessageXML", "tag-interface"), ("MessageXML", "tag-arg")}
      ==> ResolveXref("sect-" + sect + "-" + v) == Err(UnresolvableLink)
    ensures v != "Protocol" ==> ResolveXref("chap-" + v) == Err(UnresolvableLink)
    ensures sect != "Library" && !(sect == "Compositors" && v in {"System-Compositor", "Session-Compositor"})
      ==> ResolveLink("sect-" + sect + "-" + v) == Err(UnresolvableLink)
  {
    SectionForm(sect, v);
    ChapterForm(v);
  }
}
