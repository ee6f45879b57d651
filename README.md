# docbook-to-mdbook and the small_test enum validators, in Dafny

This project models two pieces of the Wayland documentation tooling.

**The DocBook → mdBook converter** (`docbook-to-mdbook/src/main.rs`).
A pull parser yields XML events. `Handler` walks them with one method
per element kind:
- inline elements (`emphasis`, the code-like tags, `filename`, `link`,
  `ulink`, `xref`) append Markdown to a pending `text` buffer;
- block elements flush that buffer, wrapped at 80 columns, behind two
  indentation prefixes (`indent_1` for the next line, `indent_2` for the
  lines after it);
- list items, admonitions and synopses push and pop those prefixes or
  add code fences;
- a deferred blank line (`need_newline`) and the `last_line_has_content`
  flag keep blank lines single.

`handle_wayland_xml` walks the top-level book file. It writes the
`SUMMARY.md` header and one link line per included chapter, taken from a
fixed title table.

**The generated validators** `intf_A_foo_is_valid` and
`intf_A_bar_is_valid` (`tests/data/small-server-core.h`). They accept an
enum value or a bitfield only from the interface version at which each
entry exists.

Modules:
- `Outcomes`: the failure kinds, `Option` and `Result`.
- `Textual`: Rust's Unicode `trim`, the `[\n\t ]+` collapse, `strip_prefix`,
  `split_once`, `replace` and decimal formatting.
- `Wrapping`: a reference first-fit line filler for textwrap's options.
- `Events`: the event datatype, and the text-collecting loop shared by the
  inline handlers, as a function.
- `Links`: the `linkend` tables of `handle_xref` and `handle_link`.
- `Render`: the writer state as a value. Each writer primitive is a
  function on it, with the invariant they keep.
- `Transducer`: class `Handler`. Its fields mirror the Rust struct, and
  reading advances `pos` over a fixed event sequence. Every method updates
  the fields in place. The writer primitives are proved equal to the
  `Render` functions, and the inline handlers to their exact effect on
  `text`. The block handlers are proved only to keep `Render.Inv` and the
  prefixes (see "Left out").
- `Summary`: `handle_wayland_xml`'s loop as a method, proved equal to a
  recursive walk.
- `ServerCore`: the two validators.

The reader is the event sequence plus a position. Reading past the end
yields `Eof` without advancing. A reader error is the event `Malformed`.
The sink `w` is the field `out`: the strings handed to `writeln!`, in
order. Each is one line of the file, except a title whose text events
hold a line break or an image whose `fileref` holds one (see "Left out").

## Model

| member | source | states |
|---|---|---|
| Textual.TrimStart | docbook-to-mdbook/src/main.rs:557 | only a whitespace prefix is removed, and what remains does not start with whitespace |
| Textual.TrimEnd | docbook-to-mdbook/src/main.rs:496 | the result is a prefix of the input, only whitespace is cut, and it does not end in whitespace |
| Textual.Trim | docbook-to-mdbook/src/main.rs:557-558 | both ends are non-whitespace, and the result is empty exactly when every character is whitespace |
| Textual.TrimSlice | docbook-to-mdbook/src/main.rs:557-558 | `trim` keeps a slice of its input, and everything cut before and after that slice is whitespace |
| Textual.TrimEndKeeps | docbook-to-mdbook/src/main.rs:496 | a line that ends in a visible character is not changed by `trim_end` |
| Textual.TrimIdempotent | docbook-to-mdbook/src/main.rs:557-566 | trimming twice equals trimming once, so the second `trim()` before `wrap` changes nothing |
| Textual.Collapse | docbook-to-mdbook/src/main.rs:163 | no newline or tab and no two adjacent spaces remain; a separator run at the start becomes one space; all other characters are kept, in order |
| Textual.CollapseIsSqueeze | docbook-to-mdbook/src/main.rs:163 | the collapse equals an independent reference: every separator turned into a space, then every space that follows a space dropped; so each maximal run of `\n`, `\t` and space, wherever it lies, becomes exactly one space |
| Textual.CollapseIdempotent | docbook-to-mdbook/src/main.rs:163 | collapsing twice equals collapsing once |
| Textual.DropSeps | docbook-to-mdbook/src/main.rs:163 | drops a leading separator run and keeps every other character |
| Textual.StripPrefix | docbook-to-mdbook/src/main.rs:290 | succeeds exactly when the prefix is there, and the input is the prefix followed by the remainder |
| Textual.IndexOf | docbook-to-mdbook/src/main.rs:291 | the first occurrence of the character, or none when it is absent |
| Textual.SplitOnce | docbook-to-mdbook/src/main.rs:291 | splits at the first occurrence: the input is left + separator + right, the left part has no separator, and it fails exactly when the separator is absent |
| Textual.SplitOnceAt | docbook-to-mdbook/src/main.rs:312-313 | a left part without the separator is recovered exactly |
| Textual.ReplaceSuffix | docbook-to-mdbook/src/main.rs:98 | `replace(".xml", ".md")` on a stem without `.` followed by `.xml` gives stem + `.md` |
| Textual.Repeat | docbook-to-mdbook/src/main.rs:213-217 | exactly n copies of the character |
| Textual.NatToString | docbook-to-mdbook/src/main.rs:775 | `format!("{n}")`: decimal digits without a leading zero, whose value is n |
| Events.ScanTexts | docbook-to-mdbook/src/main.rs:442-462 | the inline loop: on success the fragments are exactly the text events before the first closing tag in the set, and the position is just past it; on failure the error is the reader's error or an unexpected event |
| Events.ScanTextsSucceeds | docbook-to-mdbook/src/main.rs:442-462 | text events followed by an end tag in the set always scan successfully, stopping just past that tag |
| Events.ScanTextStep | docbook-to-mdbook/src/main.rs:446-452 | a text event adds its content to the fragments and the scan carries on |
| Events.CollapseAllFlat | docbook-to-mdbook/src/main.rs:449-451 | collapsed inline text never holds a newline or a tab |
| Events.JoinTrimmedEnds | docbook-to-mdbook/src/main.rs:226-234 | title fragments, trimmed and joined by single spaces, are empty only when there are none, and then start and end with a visible character |
| Events.SkipEnd | docbook-to-mdbook/src/main.rs:844-854 | a skip loop stops just past the first matching end tag, having skipped everything else; a reader error or the end of input fails |
| Events.SkipEndReaches | docbook-to-mdbook/src/main.rs:844-854 | a matching end tag with no reader error or end of input before it is always found: the skip succeeds, stopping at it or at an earlier matching tag |
| Links.SectParts | docbook-to-mdbook/src/main.rs:290-291 | `sect-S-V` splits at the first hyphen after the prefix, and S has no hyphen |
| Links.ResolveXref | docbook-to-mdbook/src/main.rs:290-327 | a resolved xref always has a non-empty url, and every failure is `UnresolvableLink` |
| Links.ResolveLink | docbook-to-mdbook/src/main.rs:380-403 | a resolved link always has a non-empty url, and every failure is `UnresolvableLink` |
| Links.XrefSection | docbook-to-mdbook/src/main.rs:292-305 | the `sect-` table of `handle_xref` resolves exactly its four entries (Protocol: Wire-Format, data-sharing-devices; MessageXML: tag-interface, tag-arg) |
| Links.XrefChapter | docbook-to-mdbook/src/main.rs:306-310 | the `chap-` table resolves exactly `Protocol` |
| Links.LinkSection | docbook-to-mdbook/src/main.rs:382-392 | the `sect-` table of `handle_link` resolves every `Library` slug and the two `Compositors` slugs, and nothing else |
| Links.ProtocolSpecFull | docbook-to-mdbook/src/main.rs:311-318 | `Links.ProtocolSpecTarget`: `protocol-spec-I-T-M` gives name `I.M` and url `https://wayland.app/protocols/wayland#I:T:M` in both handlers; M keeps any further hyphens |
| Links.ProtocolSpecShort | docbook-to-mdbook/src/main.rs:319-322 | with fewer than two further hyphens the whole remainder is the name and the anchor |
| Links.NotSect | docbook-to-mdbook/src/main.rs:290-311 | a `protocol-spec-` identifier matches neither the `sect-` nor the `chap-` rule |
| Links.SectOf | docbook-to-mdbook/src/main.rs:290-291 | `sect-S-V` with S free of hyphens splits into S and V |
| Links.SectionForm | docbook-to-mdbook/src/main.rs:290-305 | `sect-S-V` goes to the section tables of both handlers |
| Links.SectionWithoutHyphen | docbook-to-mdbook/src/main.rs:290-327 | `sect-` without a further hyphen fails in both handlers |
| Links.ChapterForm | docbook-to-mdbook/src/main.rs:306-310 | `chap-V` goes to the chapter table in `handle_xref`; `handle_link` has no such rule and fails |
| Links.UnknownFormFails | docbook-to-mdbook/src/main.rs:326-327 | an identifier with none of the three prefixes fails |
| Links.UnknownEntriesFail | docbook-to-mdbook/src/main.rs:290-392 | a `sect-` identifier missing from the table of either handler, or a `chap-` name other than `Protocol`, fails with `UnresolvableLink` |
| Links.Tables | docbook-to-mdbook/src/main.rs:293-310 | the entries of the fixed tables: Wire Format, Data devices, interface, arg, the Protocol chapter, the two compositor anchors and the library url |
| Wrapping.WordLen | docbook-to-mdbook/src/main.rs:562 | a word runs up to the next ASCII space |
| Wrapping.GapLen | docbook-to-mdbook/src/main.rs:562 | the gap after a word is its run of ASCII spaces |
| Wrapping.FindWords | docbook-to-mdbook/src/main.rs:562 | `WordSeparator::AsciiSpace`: the words with their trailing spaces concatenate back to the text, and no word holds a space |
| Wrapping.WordSplitCons | docbook-to-mdbook/src/main.rs:562 | a first word and gap followed by a split of the rest splits the whole |
| Wrapping.ConcatCons | docbook-to-mdbook/src/main.rs:562 | concatenating a first word and gap with the rest gives the text back |
| Wrapping.JoinedLength | docbook-to-mdbook/src/main.rs:566 | a line's length is the span of all but its last word plus that word |
| Wrapping.Fill | docbook-to-mdbook/src/main.rs:561 | first-fit keeps the words already on the line and never passes the end |
| Wrapping.FillFits | docbook-to-mdbook/src/main.rs:561 | the words first-fit takes fit the width (or are a single word), and the next word would not |
| Wrapping.PackLines | docbook-to-mdbook/src/main.rs:559-566 | the lines hold all the words in order, none is empty, and there are none only for no words |
| Wrapping.FirstFill | docbook-to-mdbook/src/main.rs:560-561 | `break_words(false)`: the first line fits or is a single long word, and adding the next word would overflow |
| Wrapping.JoinedSpan | docbook-to-mdbook/src/main.rs:561 | a line's length plus the gap after its last word is its span |
| Wrapping.PackFirstFits | docbook-to-mdbook/src/main.rs:561 | the first packed line fits its width or is one word |
| Wrapping.SecondLineStart | docbook-to-mdbook/src/main.rs:561 | the second line starts with the word after the first line's last |
| Wrapping.PackFirstGreedy | docbook-to-mdbook/src/main.rs:561 | the first line could not have taken the second line's first word |
| Wrapping.PackFits | docbook-to-mdbook/src/main.rs:559-566 | every line fits its width (the first after `indent_1`, the others after `indent_2`) or is a single word, and no line could take the next line's first word |
| Wrapping.WrapText | docbook-to-mdbook/src/main.rs:559-566 | one output line per packed group |
| Wrapping.Indented | docbook-to-mdbook/src/main.rs:564-565 | one prefixed line per group |
| Wrapping.IndentedAt | docbook-to-mdbook/src/main.rs:564-565 | line j is `first` (for j = 0) or `rest`, followed by the words of group j |
| Wrapping.WrapTextAt | docbook-to-mdbook/src/main.rs:564-566 | the first wrapped line carries `indent_1` and every later one `indent_2` |
| Wrapping.JoinedNonEmpty | docbook-to-mdbook/src/main.rs:566 | a line ending in a non-empty word is non-empty |
| Wrapping.GroupWordsNonEmpty | docbook-to-mdbook/src/main.rs:566 | the groups of trimmed text hold only non-empty words without spaces |
| Wrapping.FlattenMember | docbook-to-mdbook/src/main.rs:566 | every word of a line is one of the text's words |
| Wrapping.JoinedLast | docbook-to-mdbook/src/main.rs:566 | a line ends with the last character of its last word |
| Wrapping.WrapLineEnd | docbook-to-mdbook/src/main.rs:566-568 | no wrapped line is empty or ends in a space |
| Wrapping.WrapLinesNonEmpty | docbook-to-mdbook/src/main.rs:558-566 | non-blank text wraps to at least one line, and every line is non-empty |
| Wrapping.WrapWithinWidth | docbook-to-mdbook/src/main.rs:551-566 | every line, indent included, is at most 80 columns unless it is a single word |
| Wrapping.WrapIsGreedy | docbook-to-mdbook/src/main.rs:561 | first-fit: a line plus the next line's first word exceeds 80 columns |
| Wrapping.WrapKeepsWords | docbook-to-mdbook/src/main.rs:560-566 | no word is split and the words keep their order: the groups flatten to exactly the text's words, which rebuild the text |
| Render.ClearIndent1Keeps | docbook-to-mdbook/src/main.rs:518-523 | `clear_indent_1` (`Render.ClearIndent1`) keeps the invariant, and the first-line prefix becomes the continuation prefix |
| Render.PutLineKeeps | docbook-to-mdbook/src/main.rs:494-516 | writing a line (`Render.PutLine`, the body of `write_line`) keeps the invariant and ends with `clear_indent_1` |
| Render.AppendLineNormal | docbook-to-mdbook/src/main.rs:497-512 | a non-empty line without a trailing space, or a blank line after a line with content, keeps the output normal |
| Render.WriteVisibleLine | docbook-to-mdbook/src/main.rs:494-512 | a line ending in a visible character is written whole after `indent_1` |
| Render.HandleNewlineEffect | docbook-to-mdbook/src/main.rs:487-492 | `handle_newline` (`Render.HandleNewline`) writes at most one line (the trimmed first-line prefix), always leaves `need_newline` false, and does nothing when no blank line is pending |
| Render.WriteLineKeeps | docbook-to-mdbook/src/main.rs:494-516 | `write_line` (`Render.WriteLine`) keeps the invariant (so never two blank lines in a row, and no blank first line), leaves `need_newline` false and only appends |
| Render.PutLineEffect | docbook-to-mdbook/src/main.rs:496-515 | visible text is written after `indent_1`; empty text with a blank prefix writes a blank line only if the last line had content, and then clears the flag; the marker is always used up |
| Render.PushIndentShape | docbook-to-mdbook/src/main.rs:525-543 | `push_indent` (`Render.PushIndent`) appends marker and space to `indent_1`, and to `indent_2` when `cont`, otherwise pads `indent_2` with spaces to the same length |
| Render.PushPopRestores | docbook-to-mdbook/src/main.rs:535-546 | truncating to the entry length of `indent_1` after the nested block restores `indent_2` exactly |
| Render.PushIndentKeeps | docbook-to-mdbook/src/main.rs:525-543 | pushing keeps the prefixes of equal length |
| Render.PopIndentKeeps | docbook-to-mdbook/src/main.rs:545-546 | truncating both prefixes (`Render.PopIndent`) keeps the invariant |
| Render.EmitLinesKeeps | docbook-to-mdbook/src/main.rs:567-572 | writing wrapped lines (`Render.EmitLines`) keeps the invariant and the prefixes |
| Render.FenceLine | docbook-to-mdbook/src/main.rs:553-555 | the opening fence is written after `indent_1`, which then becomes `indent_2` |
| Render.FlushBodyKeeps | docbook-to-mdbook/src/main.rs:556-574 | `Render.FlushBody`: whitespace-only text writes nothing; otherwise exactly the wrapped lines of the trimmed text are appended |
| Render.FlushTextEffect | docbook-to-mdbook/src/main.rs:550-580 | `flush_text` (`Render.FlushText`) leaves `text` empty and appends the wrapped body; with `synopsis` that body is bracketed by fence lines |
| Render.FlushTextKeeps | docbook-to-mdbook/src/main.rs:550-580 | `flush_text` keeps the invariant and the prefixes, leaves no blank line pending and only appends |
| Render.FencedFlushKeeps | docbook-to-mdbook/src/main.rs:553-577 | a fenced flush keeps the invariant and only appends |
| Render.PushIndentAppends | docbook-to-mdbook/src/main.rs:531 | pushing only appends output |
| Render.WriteLineIgnoresText | docbook-to-mdbook/src/main.rs:487-516 | `write_line` neither reads nor changes `text` |
| Render.EmitLinesStep | docbook-to-mdbook/src/main.rs:567-572 | emitting one more line appends it and uses up the marker |
| Transducer.HeadingPrefix | docbook-to-mdbook/src/main.rs:211-220 | a chapter title starts with `# `, a section at depth d with d+2 `#` and a space, a bold title with `**` |
| Transducer.ListMarker | docbook-to-mdbook/src/main.rs:773-777 | a bullet item gets `-`, a numbered item its decimal number followed by `.`, a definition `  :`; none ends in whitespace |
| Transducer.ListMarkersDistinct | docbook-to-mdbook/src/main.rs:773-777 | different list types or numbers get different markers |
| Transducer.HeadingLine | docbook-to-mdbook/src/main.rs:236-248 | a heading over non-blank fragments is written as exactly one line after `indent_1` |
| Transducer.HeadingEnds | docbook-to-mdbook/src/main.rs:210-243 | such a heading ends in a visible character |
| Transducer.Handler.TitleMarkup | docbook-to-mdbook/src/main.rs:211-220 | the `for _ in 0..depth` loop builds exactly the heading prefix: `# `, d+2 `#` and a space, or `**` |
| Transducer.Handler.constructor | docbook-to-mdbook/src/main.rs:126-135 | a fresh handler: nothing read, nothing written, no prefixes |
| Transducer.Handler.ReadEvent | docbook-to-mdbook/src/main.rs:170 | `read_event`: the next event (or `Eof` for ever) and one step forward; a reader error fails |
| Transducer.Handler.ClearIndent1 | docbook-to-mdbook/src/main.rs:518-523 | updates the fields as `Render.ClearIndent1` |
| Transducer.Handler.HandleNewline | docbook-to-mdbook/src/main.rs:487-492 | updates the fields as `Render.HandleNewline`, keeps the invariant and leaves `need_newline` false |
| Transducer.Handler.PutLine | docbook-to-mdbook/src/main.rs:496-515 | updates the fields as `Render.PutLine` |
| Transducer.Handler.WriteLine | docbook-to-mdbook/src/main.rs:494-516 | updates the fields as `Render.WriteLine`, keeps the invariant and only appends |
| Transducer.Handler.PushIndent | docbook-to-mdbook/src/main.rs:525-543 | updates the fields as `Render.PushIndent` and returns the entry length of `indent_1` |
| Transducer.Handler.PopIndent | docbook-to-mdbook/src/main.rs:545-546 | updates the fields as `Render.PopIndent` |
| Transducer.Handler.EmitLines | docbook-to-mdbook/src/main.rs:567-572 | the `for line in lines` loop updates the fields as `Render.EmitLines` |
| Transducer.Handler.FlushBody | docbook-to-mdbook/src/main.rs:556-577 | whitespace-only text only empties `text`; otherwise the fields follow `Render.FlushBody` |
| Transducer.Handler.FlushKept | docbook-to-mdbook/src/main.rs:556-577 | the flush body keeps the invariant and the prefixes |
| Transducer.Handler.FlushText | docbook-to-mdbook/src/main.rs:550-580 | updates the fields as `Render.FlushText`, leaves `text` empty and only appends |
| Transducer.Handler.ReadTexts | docbook-to-mdbook/src/main.rs:226-239 | reads exactly what `Events.ScanTexts` describes and fails as it does |
| Transducer.Handler.HandleTitle | docbook-to-mdbook/src/main.rs:210-250 | writes pending text + prefix + trimmed fragments joined by spaces + suffix as one line, empties `text` and sets `need_newline`; a non-text event before `</title>` fails |
| Transducer.Handler.WriteTitle | docbook-to-mdbook/src/main.rs:244-248 | writes the title line, empties `text` and sets `need_newline` |
| Transducer.Handler.HandleCode | docbook-to-mdbook/src/main.rs:442-465 | appends a backtick, the collapsed text events up to any of the seven closing tags, and a backtick; anything else fails |
| Transducer.Handler.HandleEmphasis | docbook-to-mdbook/src/main.rs:467-485 | appends `_` + collapsed text + `_` up to `</emphasis>` or `</firstterm>`; anything else fails |
| Transducer.Handler.HandleFilename | docbook-to-mdbook/src/main.rs:335-357 | appends `[trimmed name](repository blob url + untrimmed name)` |
| Transducer.Handler.HandleLink | docbook-to-mdbook/src/main.rs:359-411 | succeeds exactly when the text scan succeeds, `linkend` is present and resolves; then appends `[trimmed text](url)` |
| Transducer.Handler.HandleUlink | docbook-to-mdbook/src/main.rs:413-440 | succeeds exactly when the scan succeeds and `url` is present; then appends `[trimmed text](url)` |
| Transducer.Handler.HandleXref | docbook-to-mdbook/src/main.rs:281-333 | succeeds exactly when `linkend` is present and resolves, and then appends exactly `[name](url)` |
| Transducer.Handler.SkipUntil | docbook-to-mdbook/src/main.rs:844-854 | skips to just past the matching end tag, as `Events.SkipEnd` says |
| Transducer.Handler.HandleImageData | docbook-to-mdbook/src/main.rs:907-917 | writes `![](fileref)` and sets `need_newline`; a missing `fileref` fails and changes nothing |
| Transducer.Handler.HandleChapterFile | docbook-to-mdbook/src/main.rs:169-185 | keeps the invariant and, on success, has read up to `Eof` |
| Transducer.Handler.HandleChapter | docbook-to-mdbook/src/main.rs:187-208 | keeps the invariant and the prefixes, and only appends |
| Transducer.Handler.HandleSection | docbook-to-mdbook/src/main.rs:252-279 | keeps the invariant and the prefixes, and only appends |
| Transducer.Handler.HandlePara | docbook-to-mdbook/src/main.rs:603-607 | leaves `text` empty and a blank line pending |
| Transducer.Handler.HandleTextBlock | docbook-to-mdbook/src/main.rs:609-670 | ends with `flush_text`, so `text` is empty and no blank line is pending |
| Transducer.Handler.PushText | docbook-to-mdbook/src/main.rs:653-660 | appends to `text` and changes nothing else |
| Transducer.Handler.BreakText | docbook-to-mdbook/src/main.rs:614-645 | flushes the pending text and sets `need_newline` before a nested block |
| Transducer.Handler.HandleTextBlockStart | docbook-to-mdbook/src/main.rs:614-647 | the start-tag arms of `handle_text_block` keep the invariant and the prefixes |
| Transducer.Handler.HandleInline | docbook-to-mdbook/src/main.rs:619-646 | only `text` changes; the emphasis tags append `_` + collapsed text + `_`, the code tags the same in backticks, `filename`, `ulink` and `link` their Markdown link; an unknown start tag fails and changes nothing |
| Transducer.Handler.HandleLinkLike | docbook-to-mdbook/src/main.rs:627-631 | `filename`, `ulink` and `link` append their Markdown link, as `HandleFilename`, `HandleUlink` and `HandleLink` state; any other start tag fails and changes nothing |
| Transducer.Handler.HandleList | docbook-to-mdbook/src/main.rs:631-645 | the three list arms keep the invariant and the prefixes |
| Transducer.Handler.HandleVariableList | docbook-to-mdbook/src/main.rs:672-688 | keeps the invariant and the prefixes |
| Transducer.Handler.HandleVarListEntry | docbook-to-mdbook/src/main.rs:690-708 | keeps the invariant and the prefixes |
| Transducer.Handler.HandleTerm | docbook-to-mdbook/src/main.rs:710-731 | ends with `flush_text(false)`: `text` empty, no blank line pending |
| Transducer.Handler.HandleOrderedList | docbook-to-mdbook/src/main.rs:733-751 | keeps the invariant and the prefixes |
| Transducer.Handler.HandleItemizedList | docbook-to-mdbook/src/main.rs:753-770 | keeps the invariant and the prefixes |
| Transducer.Handler.HandleListItem | docbook-to-mdbook/src/main.rs:772-799 | after the nested blocks, `indent_2` is exactly its entry value |
| Transducer.Handler.HandleAdmonition | docbook-to-mdbook/src/main.rs:582-601 | after the nested paragraphs, `indent_2` is exactly its entry value |
| Transducer.Handler.HandleFigure | docbook-to-mdbook/src/main.rs:801-819 | keeps the invariant and the prefixes |
| Transducer.Handler.HandleMediaObject | docbook-to-mdbook/src/main.rs:821-842 | keeps the invariant and the prefixes |
| Transducer.Handler.HandleImageObject | docbook-to-mdbook/src/main.rs:856-875 | keeps the invariant and the prefixes |
| Transducer.Handler.HandleImageObjectCo | docbook-to-mdbook/src/main.rs:877-893 | keeps the invariant and the prefixes |
| Transducer.Handler.HandleCaption | docbook-to-mdbook/src/main.rs:919-934 | keeps the invariant and the prefixes |
| Transducer.ConvertChapterFile | docbook-to-mdbook/src/main.rs:117-137 | in a converted chapter, the written lines never open with a blank line, never hold two blank lines in a row, and none ends in a space (lines as handed to `writeln!`; see "Left out") |
| Summary.TocTitle | docbook-to-mdbook/src/main.rs:82-97 | the five skipped files and only they are skipped; any file missing from the table fails |
| Summary.Summarize | docbook-to-mdbook/src/main.rs:64-67 | a summary always starts with `# Summary`, a blank line, `[Foreword](Foreword.md)` and a blank line |
| Summary.Step | docbook-to-mdbook/src/main.rs:64-110 | one turn of either loop of `handle_wayland_xml`: the end of input always stops the walk, and a reader error stops it with that error |
| Summary.WalkRun | docbook-to-mdbook/src/main.rs:73-103 | `Summary.Walk`, the whole walk: inside the book, a run of events that each write lines writes them all, in order |
| Summary.Entries | docbook-to-mdbook/src/main.rs:82-98 | the entries are the per-file lines concatenated in document order |
| Summary.StepInclude | docbook-to-mdbook/src/main.rs:76-98 | an include of a known file writes its entry line, if it has one |
| Summary.WalkIncludes | docbook-to-mdbook/src/main.rs:73-98 | a run of includes of known files writes their entries in document order |
| Summary.BookLayout | docbook-to-mdbook/src/main.rs:72-76 | where the events of a book that starts with includes sit |
| Summary.BookOpening | docbook-to-mdbook/src/main.rs:64-98 | the header and the entries come first, then whatever the rest of the book writes |
| Summary.BookSummary | docbook-to-mdbook/src/main.rs:64-111 | a book of known includes gives the header followed by one `- [title](./file.md)` line per titled file, in order |
| Summary.UnknownIncludeFails | docbook-to-mdbook/src/main.rs:96 | the first include of an unknown file fails, whatever follows |
| Summary.XmlLink | docbook-to-mdbook/src/main.rs:98 | `Summary.EntryLine`: a summary line links the `.md` file with the stem of the `.xml` file |
| Summary.WalkWritesEntries | docbook-to-mdbook/src/main.rs:98 | every line after the header is a `- [` entry |
| Summary.ChapterEntry | docbook-to-mdbook/src/main.rs:84-98 | each chapter file `stem.xml` of the table gets the line `- [title](./stem.md)` |
| Summary.MissingHrefFails | docbook-to-mdbook/src/main.rs:77-81 | an include without `href` fails |
| Summary.BuildSummary | docbook-to-mdbook/src/main.rs:64-113 | the nested loops, each turn branching as the source does, produce exactly the walk's result with the header in front |
| ServerCore.ToU32 | tests/data/small-server-core.h:130 | `(uint32_t)` keeps non-negative values and adds 2^32 to negative ones |
| ServerCore.FooIsValid | tests/data/small-server-core.h:121-137 | nothing is valid below version 1 |
| ServerCore.FooMembers | tests/data/small-server-core.h:72-109 | the five enumerators with their versions, all within `int` range |
| ServerCore.FooValidIffMember | tests/data/small-server-core.h:121-137 | a value is valid exactly when it is an enumerator, cast to `uint32_t`, and the version has reached that enumerator's version |
| ServerCore.FooThresholds | tests/data/small-server-core.h:101-135 | 0 and 1 from version 1; 2, 0xFFFFFFFF and 3 from their `*_SINCE_VERSION` (2); every other value never |
| ServerCore.FooMonotone | tests/data/small-server-core.h:123-136 | a value valid at one version stays valid at every later one |
| ServerCore.BarMembers | tests/data/small-server-core.h:142-160 | the three flags with their versions |
| ServerCore.BarMaskValues | tests/data/small-server-core.h:174-180 | the allowed mask is 0 at version 0, 0x03 at version 1 and 0x07 from version 2 |
| ServerCore.BarIsValid | tests/data/small-server-core.h:172-182 | the mask built by the three or-assignments is the union of the flags defined at the version, and the value is valid exactly when it has no bit outside it |
| ServerCore.BarZeroValid | tests/data/small-server-core.h:174-181 | 0 is valid at every version |
| ServerCore.BarThirdNeedsVersion | tests/data/small-server-core.h:155-181 | a value with bit 0x04 is invalid before version 2 |
| ServerCore.BarMonotone | tests/data/small-server-core.h:174-181 | a value valid at one version stays valid at every later one |
| ServerCore.BarThresholds | tests/data/small-server-core.h:146-181 | each flag is valid alone exactly from its version; all three together from version 2 |

## Left out

- File-system glue: `main`, reading the XML files, creating the output files and the `BufWriter`. The model takes an event sequence and produces the output lines.
- Writer failures: `writeln!` is taken never to fail.
- quick_xml internals: tokenising, `decode`, `unescape_value` and `try_get_attribute` are not modelled. Events carry decoded strings and an attribute map. A missing attribute is `MissingAttribute`. Any reader or decoding failure, including the panicking `unwrap` on decode, is the single event `Malformed`.
- The regex crate: `[\n\t ]+` replacement is the plain function `Textual.Collapse`.
- anyhow context chains: failures carry only a kind (`Outcomes.Error`), not the context strings.
- Unicode width: text is taken to be ASCII, so a line's width is its length. Byte lengths (`String::len`, `truncate`) are character counts, and Rust's character-boundary panics in `truncate` cannot arise.
- textwrap: modelled only for the options the converter passes. It is a reference greedy first-fit over words split at ASCII spaces, with no word breaking. textwrap's splitting at `\n` is not modelled. Text events are collapsed first, so no newline comes from them. But attribute values reach `text` uncollapsed: the `url` of `ulink`, and the `protocol-spec-` remainder of a `linkend` in `xref` and `link`. Such a value may hold a newline (literal or `&#10;`). textwrap would break the line there, while the model keeps it inside a word, so `Render.FlushBody` then describes different lines from the program's.
- `Events.SkipEnd`: `handle_textobject` and `handle_areaspec` have no `Eof` arm, so over an unterminated element they would read `Eof` for ever. The model fails with `InputEnded` there instead.
- Transducer.Handler.HandleChapter: states the invariant, progress and kept prefixes, not the lines written. The same holds for HandleSection, HandleVariableList, HandleVarListEntry, HandleOrderedList, HandleItemizedList, HandleFigure, HandleMediaObject, HandleImageObject, HandleImageObjectCo, HandleCaption, HandleTextBlock, HandleTextBlockStart, HandlePara, HandleTerm and HandleList. HandlePara and HandleTerm also state that `text` ends empty and whether a blank line is pending. What these blocks write is stated piecewise: by the primitives they call (WriteLine, FlushText, PushIndent and PopIndent, each equal to its `Render` function), and by `Transducer.ConvertChapterFile`'s normal-output guarantee.
- Transducer.Handler.HandleOrderedList: the item numbers `1.`, `2.`, … are the counter it passes to `HandleListItem`. `ListMarker` states the digits, but no contract ties the n-th item's marker to n.
- Transducer.Handler.HandleListItem: states that the enclosing prefixes are restored, not that the first line of the item carries the marker.
- Transducer.Handler.HandleAdmonition: states that the enclosing prefixes are restored, not that `[!NOTE]`/`[!WARNING]` is the first line written under `> `.
- Transducer.Handler.HandleChapter: an unexpected start element fails with `UnexpectedStart`, as in every block handler. This is visible in the method bodies but not stated in their contracts.
- Transducer.Handler.HandlePara: states that `text` ends empty with a blank line pending, not the paragraph's lines.
- Transducer.Handler.HandleTerm: states that `text` ends empty with no blank line pending, not the term's line.
- Transducer.Handler.HandleList: states the invariant and the kept prefixes, not the list's lines.
- Transducer.ConvertChapterFile: its normal-output guarantee is about the strings handed to `writeln!`. `handle_title` trims only the ends of each text event, so a title whose text holds a line break becomes one such string with an interior `\n`. In the file that is two lines, and the first may end in a space. `handle_imagedata` (main.rs:907-917) likewise hands `![](fileref)` to `write_line` with the `fileref` attribute unchanged, so a `fileref` holding a line break (literal or `&#10;`) also becomes one string and two file lines, the first of which may end in a space. The model does not split strings at `\n`.
- A failing block handler leaves the prefixes pushed, as the source does on its `?` paths. Contracts speak about the prefixes only on success.
- `intf_A_send_hey`, `intf_A_send_yo` and the `intf_A_interface` function-pointer struct are not modelled: they only forward to `wl_resource_post_event` and have no behaviour of their own.
- `handle_wayland_xml` skips `Decl`, `DocType` and blank text only outside the `book` element, and inside it blank text only. This follows the code.
- `handle_varlistentry` accepts any number of `term` and `listitem` children in any order. The model follows the code.
