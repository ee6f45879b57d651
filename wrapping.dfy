/** The paragraph filler that `flush_text` delegates to textwrap with
    `break_words(false)`, `WrapAlgorithm::FirstFit`, `WordSeparator::AsciiSpace`
    and `WordSplitter::NoHyphenation` at 80 columns.  Text is taken to be
    ASCII, so a word's display width is its length. */
module Wrapping {
  import opened Textual

  const MaxWidth: nat := 80

  /** A word and the number of ASCII spaces that follow it in the text. */
  datatype Word = Word(text: string, gap: nat)

  /** Length of the leading run of non-space characters. */
  function WordLen(s: string): (k: nat)
    ensures k <= |s|
    ensures forall i :: 0 <= i < k ==> s[i] != ' '
    ensures k < |s| ==> s[k] == ' '
  {
    if s == [] || s[0] == ' ' then 0 else 1 + WordLen(s[1..])
  }

  /** Length of the leading run of spaces. */
  function GapLen(s: string): (k: nat)
    ensures k <= |s|
    ensures forall i :: 0 <= i < k ==> s[i] == ' '
    ensures k < |s| ==> s[k] != ' '
  {
    if s == [] || s[0] != ' ' then 0 else 1 + GapLen(s[1..])
  }

  /** The text a sequence of words was cut from. */
  function Concat(ws: seq<Word>): string {
    if ws == [] then [] else ws[0].text + Repeat(' ', ws[0].gap) + Concat(ws[1..])
  }

  /** `ws` is `s` cut at ASCII spaces: the pieces put back together give the
      text, no word holds a space, every word but the last is followed by a
      space, and a text that does not start with a space has no empty word. */
  predicate IsWordSplit(s: string, ws: seq<Word>) {
    && Concat(ws) == s
    && (forall j :: 0 <= j < |ws| ==> ' ' !in ws[j].text)
    && (forall j :: 0 <= j < |ws| - 1 ==> ws[j].gap > 0)
    && (ws == [] <==> s == [])
    && (s != [] && s[0] != ' ' ==> forall j :: 0 <= j < |ws| ==> ws[j].text != [])
  }

  /** `WordSeparator::AsciiSpace`: each word keeps the spaces after it. */
  function FindWords(s: string): (ws: seq<Word>)
    ensures IsWordSplit(s, ws)
    decreases |s|
  {
    if s == [] then []
    else
      var k := WordLen(s);
      var g := GapLen(s[k..]);
      var rest := FindWords(s[k + g..]);
      WordSplitCons(s, k, g, rest);
      [Word(s[..k], g)] + rest
  }

  /** One step of the cut: the first word and its spaces, then the rest. */
  lemma WordSplitCons(s: string, k: nat, g: nat, rest: seq<Word>)
    requires s != [] && k == WordLen(s) && g == GapLen(s[k..])
    requires IsWordSplit(s[k + g..], rest)
    ensures IsWordSplit(s, [Word(s[..k], g)] + rest)
  {
    var ws := [Word(s[..k], g)] + rest;
    ConcatCons(s, k, g, rest);
    forall j | 0 <= j < |ws|
      ensures ' ' !in ws[j].text
    {
      if j > 0 {
        assert ws[j] == rest[j - 1];
      }
    }
    forall j | 0 <= j < |ws| - 1
      ensures ws[j].gap > 0
    {
      if j > 0 {
        assert ws[j] == rest[j - 1];
      }
    }
    if s[0] != ' ' {
      forall j | 0 <= j < |ws|
        ensures ws[j].text != []
      {
        if j > 0 {
          assert ws[j] == rest[j - 1];
          assert s[k + g..][0] == s[k + g];
        }
      }
    }
  }

  lemma ConcatCons(s: string, k: nat, g: nat, rest: seq<Word>)
    requires k + g <= |s| && forall i :: k <= i < k + g ==> s[i] == ' '
    requires Concat(rest) == s[k + g..]
    ensures Concat([Word(s[..k], g)] + rest) == s
  {
    var ws := [Word(s[..k], g)] + rest;
    assert ws[1..] == rest;
    assert Repeat(' ', g) == s[k..k + g];
    assert s == s[..k] + s[k..k + g] + s[k + g..];
  }

  /** One output line: the words with the spaces between them, without the
      spaces after the last word (textwrap's slice of the input). */
  function Joined(ws: seq<Word>): string {
    if ws == [] then []
    else if |ws| == 1 then ws[0].text
    else Joined(ws[..|ws| - 1]) + Repeat(' ', ws[|ws| - 2].gap) + ws[|ws| - 1].text
  }

  /** Columns the words take up, counting the spaces after each of them:
      the `width` accumulator of `wrap_first_fit`. */
  function Span(ws: seq<Word>): nat {
    if ws == [] then 0 else Span(ws[..|ws| - 1]) + |ws[|ws| - 1].text| + ws[|ws| - 1].gap
  }

  lemma {:induction false} JoinedLength(ws: seq<Word>)
    requires ws != []
    ensures |Joined(ws)| == Span(ws[..|ws| - 1]) + |ws[|ws| - 1].text|
    decreases |ws|
  {
    if |ws| == 1 {
      assert ws[..0] == [];
    } else {
      var p := ws[..|ws| - 1];
      JoinedLength(p);
      assert p[..|p| - 1] == ws[..|ws| - 2];
    }
  }

  /** `wrap_first_fit` for one line: `ws[..n]` are already on the line and use
      `used` columns; the next word joins while it still fits. */
  function Fill(ws: seq<Word>, width: nat, n: nat, used: nat): (k: nat)
    requires 1 <= n <= |ws|
    ensures n <= k <= |ws|
    decreases |ws| - n
  {
    if n == |ws| || used + |ws[n].text| > width then n
    else Fill(ws, width, n + 1, used + |ws[n].text| + ws[n].gap)
  }

  /** A filled line fits its width unless it is a single word, and the word
      after it would not have fitted; stated with the columns counted so far,
      the trailing spaces of the last word not counting. */
  lemma {:induction false} FillFits(ws: seq<Word>, width: nat, n: nat, used: nat)
    requires 1 <= n <= |ws|
    requires used == Span(ws[..n])
    requires n == 1 || used - ws[n - 1].gap <= width
    ensures var k := Fill(ws, width, n, used);
      && (k == 1 || Span(ws[..k]) - ws[k - 1].gap <= width)
      && (k < |ws| ==> Span(ws[..k]) + |ws[k].text| > width)
    decreases |ws| - n
  {
    if n < |ws| && used + |ws[n].text| <= width {
      var p := ws[..n + 1];
      assert p[..n] == ws[..n];
      FillFits(ws, width, n + 1, used + |ws[n].text| + ws[n].gap);
    }
  }

  function Flatten(lines: seq<seq<Word>>): seq<Word> {
    if lines == [] then [] else lines[0] + Flatten(lines[1..])
  }

  /** `wrap_first_fit` over a whole paragraph: the first line may use `first`
      columns, every later line `rest`.  Lines are never empty and together
      hold exactly the words, in order. */
  function PackLines(ws: seq<Word>, first: nat, rest: nat): (lines: seq<seq<Word>>)
    ensures Flatten(lines) == ws
    ensures forall j :: 0 <= j < |lines| ==> lines[j] != []
    ensures lines == [] <==> ws == []
    decreases |ws|
  {
    if ws == [] then []
    else
      var k := Fill(ws, first, 1, |ws[0].text| + ws[0].gap);
      var tail := PackLines(ws[k..], rest, rest);
      assert ([ws[..k]] + tail)[1..] == tail;
      assert ws[..k] + ws[k..] == ws;
      [ws[..k]] + tail
  }

  function LineWidth(j: nat, first: nat, rest: nat): nat {
    if j == 0 then first else rest
  }

  lemma PackUnfold(ws: seq<Word>, first: nat, rest: nat)
    requires ws != []
    ensures var k := Fill(ws, first, 1, |ws[0].text| + ws[0].gap);
      PackLines(ws, first, rest) == [ws[..k]] + PackLines(ws[k..], rest, rest)
  {
  }

  /** `Fill` started on a line holding just the first word. */
  lemma FirstFill(ws: seq<Word>, width: nat)
    requires ws != []
    ensures var k := Fill(ws, width, 1, |ws[0].text| + ws[0].gap);
      && (k == 1 || |Joined(ws[..k])| <= width)
      && (k < |ws| ==> |Joined(ws[..k + 1])| > width)
  {
    assert ws[..1][..0] == [];
    assert Span(ws[..1]) == |ws[0].text| + ws[0].gap;
    FillFits(ws, width, 1, |ws[0].text| + ws[0].gap);
    var k := Fill(ws, width, 1, |ws[0].text| + ws[0].gap);
    JoinedSpan(ws, k);
    if k < |ws| {
      JoinedSpan(ws, k + 1);
    }
  }

  /** The columns of a prefix of the words, and its text, differ by the
      spaces after its last word. */
  lemma JoinedSpan(ws: seq<Word>, m: nat)
    requires 1 <= m <= |ws|
    ensures |Joined(ws[..m])| + ws[m - 1].gap == Span(ws[..m])
    ensures Span(ws[..m]) == Span(ws[..m - 1]) + |ws[m - 1].text| + ws[m - 1].gap
  {
    JoinedLength(ws[..m]);
    assert ws[..m][..m - 1] == ws[..m - 1];
  }

  /** The first packed line, filled to `first` columns, fits them unless it
      is a single word. */
  lemma PackFirstFits(ws: seq<Word>, first: nat, rest: nat)
    requires ws != []
    ensures var lines := PackLines(ws, first, rest);
      |lines[0]| == 1 || |Joined(lines[0])| <= first
  {
    var k := Fill(ws, first, 1, |ws[0].text| + ws[0].gap);
    PackUnfold(ws, first, rest);
    assert PackLines(ws, first, rest)[0] == ws[..k];
    FirstFill(ws, first);
  }

  /** The second packed line starts with the word after the first line. */
  lemma SecondLineStart(ws: seq<Word>, first: nat, rest: nat)
    requires 1 < |PackLines(ws, first, rest)|
    ensures var k := Fill(ws, first, 1, |ws[0].text| + ws[0].gap);
      var lines := PackLines(ws, first, rest);
      k < |ws| && lines[0] == ws[..k] && lines[1] != [] && lines[1][0] == ws[k]
  {
    var k := Fill(ws, first, 1, |ws[0].text| + ws[0].gap);
    var lines := PackLines(ws, first, rest);
    var ws' := ws[k..];
    var tail := PackLines(ws', rest, rest);
    PackUnfold(ws, first, rest);
    assert lines[0] == ws[..k] && lines[1] == tail[0];
    var k' := Fill(ws', rest, 1, |ws'[0].text| + ws'[0].gap);
    PackUnfold(ws', rest, rest);
    assert tail[0] == ws'[..k'];
  }

  /** The first word of the second line would not have fitted on the first. */
  lemma PackFirstGreedy(ws: seq<Word>, first: nat, rest: nat)
    requires 1 < |PackLines(ws, first, rest)|
    ensures var lines := PackLines(ws, first, rest);
      |Joined(lines[0] + [lines[1][0]])| > first
  {
    var k := Fill(ws, first, 1, |ws[0].text| + ws[0].gap);
    var lines := PackLines(ws, first, rest);
    SecondLineStart(ws, first, rest);
    assert lines[0] + [lines[1][0]] == ws[..k + 1];
    FirstFill(ws, first);
  }

  /** Each packed line fits its width unless it holds one word, and the first
      word of the next line would have overflowed it (first fit). */
  lemma {:induction false} PackFits(ws: seq<Word>, first: nat, rest: nat, j: nat)
    requires j < |PackLines(ws, first, rest)|
    ensures var lines := PackLines(ws, first, rest);
      && (|lines[j]| == 1 || |Joined(lines[j])| <= LineWidth(j, first, rest))
      && (j + 1 < |lines| ==> |Joined(lines[j] + [lines[j + 1][0]])| > LineWidth(j, first, rest))
    decreases |ws|
  {
    PackUnfold(ws, first, rest);
    if j == 0 {
      PackFirstFits(ws, first, rest);
      if 1 < |PackLines(ws, first, rest)| {
        PackFirstGreedy(ws, first, rest);
      }
    } else {
      var k := Fill(ws, first, 1, |ws[0].text| + ws[0].gap);
      PackFits(ws[k..], rest, rest, j - 1);
    }
  }

  /** Columns left for words after an indent (textwrap's saturating subtraction). */
  function Avail(indent: string): nat {
    if |indent| >= MaxWidth then 0 else MaxWidth - |indent|
  }

  /** The words of `body` packed for a first line after `indent1` and later
      lines after `indent2`. */
  function Groups(body: string, indent1: string, indent2: string): seq<seq<Word>> {
    PackLines(FindWords(body), Avail(indent1), Avail(indent2))
  }

  /** `textwrap::wrap(body, options)` with `initial_indent` and
      `subsequent_indent`. */
  function WrapText(body: string, indent1: string, indent2: string): (lines: seq<string>)
    ensures |lines| == |Groups(body, indent1, indent2)|
  {
    Indented(Groups(body, indent1, indent2), indent1, indent2)
  }

  /** Each packed line with its prefix: `first` on the first line, `rest`
      on the others. */
  function Indented(g: seq<seq<Word>>, first: string, rest: string): (lines: seq<string>)
    ensures |lines| == |g|
    decreases |g|
  {
    if g == [] then [] else [first + Joined(g[0])] + Indented(g[1..], rest, rest)
  }

  lemma {:induction false} IndentedAt(g: seq<seq<Word>>, first: string, rest: string)
    ensures forall j :: 0 <= j < |g| ==> Indented(g, first, rest)[j] == (if j == 0 then first else rest) + Joined(g[j])
    decreases |g|
  {
    if g != [] {
      IndentedAt(g[1..], rest, rest);
    }
  }

  /** The lines of a wrapped paragraph, one per packed group of words. */
  lemma WrapTextAt(body: string, indent1: string, indent2: string)
    ensures var g := Groups(body, indent1, indent2);
      forall j :: 0 <= j < |g| ==> WrapText(body, indent1, indent2)[j] == (if j == 0 then indent1 else indent2) + Joined(g[j])
  {
    IndentedAt(Groups(body, indent1, indent2), indent1, indent2);
  }

  /** A text with no leading space packs into words none of which is empty. */
  predicate NoEmptyWord(body: string) {
    body != [] && body[0] != ' '
  }

  lemma JoinedNonEmpty(ws: seq<Word>)
    requires ws != [] && ws[|ws| - 1].text != []
    ensures |Joined(ws)| >= |ws[|ws| - 1].text| > 0
  {
    JoinedLength(ws);
  }

  lemma GroupWordsNonEmpty(body: string, indent1: string, indent2: string, j: nat)
    requires NoEmptyWord(body)
    requires j < |Groups(body, indent1, indent2)|
    ensures var g := Groups(body, indent1, indent2)[j];
      g != [] && forall i :: 0 <= i < |g| ==> g[i].text != [] && ' ' !in g[i].text
  {
    var ws := FindWords(body);
    var lines := Groups(body, indent1, indent2);
    FlattenMember(lines, j);
  }

  lemma {:induction false} FlattenMember(lines: seq<seq<Word>>, j: nat)
    requires j < |lines|
    ensures forall i :: 0 <= i < |lines[j]| ==> lines[j][i] in Flatten(lines)
    decreases |lines|
  {
    assert Flatten(lines) == lines[0] + Flatten(lines[1..]);
    if j > 0 {
      FlattenMember(lines[1..], j - 1);
    }
  }

  /** A line ends with the last character of its last word. */
  lemma JoinedLast(ws: seq<Word>)
    requires ws != [] && ws[|ws| - 1].text != []
    ensures var j := Joined(ws); var w := ws[|ws| - 1].text;
      j != [] && j[|j| - 1] == w[|w| - 1]
  {
    JoinedLength(ws);
  }

  /** A wrapped line never ends with a space: it ends inside its last word. */
  lemma WrapLineEnd(body: string, indent1: string, indent2: string, j: nat)
    requires NoEmptyWord(body)
    requires j < |WrapText(body, indent1, indent2)|
    ensures var line := WrapText(body, indent1, indent2)[j];
      line != [] && line[|line| - 1] != ' '
  {
    WrapTextAt(body, indent1, indent2);
    var g := Groups(body, indent1, indent2)[j];
    GroupWordsNonEmpty(body, indent1, indent2, j);
    JoinedLast(g);
    var w := g[|g| - 1].text;
    assert w[|w| - 1] in w;
  }

  /** No line of a wrapped paragraph is empty: each carries at least one word. */
  lemma WrapLinesNonEmpty(body: string, indent1: string, indent2: string)
    requires NoEmptyWord(body)
    ensures WrapText(body, indent1, indent2) != []
    ensures forall j :: 0 <= j < |WrapText(body, indent1, indent2)| ==> WrapText(body, indent1, indent2)[j] != []
  {
    WrapTextAt(body, indent1, indent2);
    var g := Groups(body, indent1, indent2);
    forall j | 0 <= j < |g|
      ensures WrapText(body, indent1, indent2)[j] != []
    {
      GroupWordsNonEmpty(body, indent1, indent2, j);
      JoinedNonEmpty(g[j]);
    }
  }

  /** Every wrapped line stays within 80 columns, indent included, unless it
      is a single word that is too long on its own (words are never broken). */
  lemma WrapWithinWidth(body: string, indent1: string, indent2: string, j: nat)
    requires NoEmptyWord(body)
    requires j < |WrapText(body, indent1, indent2)|
    ensures |Groups(body, indent1, indent2)[j]| == 1 || |WrapText(body, indent1, indent2)[j]| <= MaxWidth
  {
    WrapTextAt(body, indent1, indent2);
    var g := Groups(body, indent1, indent2);
    PackFits(FindWords(body), Avail(indent1), Avail(indent2), j);
    GroupWordsNonEmpty(body, indent1, indent2, j);
    JoinedNonEmpty(g[j]);
  }

  /** First fit: the first word of the next line would have made this line
      wider than 80 columns. */
  lemma WrapIsGreedy(body: string, indent1: string, indent2: string, j: nat)
    requires NoEmptyWord(body)
    requires j + 1 < |Groups(body, indent1, indent2)|
    ensures var g := Groups(body, indent1, indent2);
      |if j == 0 then indent1 else indent2| + |Joined(g[j] + [g[j + 1][0]])| > MaxWidth
  {
    WrapTextAt(body, indent1, indent2);
    var g := Groups(body, indent1, indent2);
    PackFits(FindWords(body), Avail(indent1), Avail(indent2), j);
    GroupWordsNonEmpty(body, indent1, indent2, j + 1);
    assert (g[j] + [g[j + 1][0]])[|g[j]|] == g[j + 1][0];
    JoinedNonEmpty(g[j] + [g[j + 1][0]]);
  }

  /** No word is split or dropped and the order is kept: the lines, read one
      after the other, hold exactly the words of the text, and those words
      spell the text back. */
  lemma WrapKeepsWords(body: string, indent1: string, indent2: string)
    ensures Flatten(Groups(body, indent1, indent2)) == FindWords(body)
    ensures Concat(FindWords(body)) == body
  {
  }
}
