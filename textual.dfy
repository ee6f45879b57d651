/** String primitives the converter relies on: Rust's Unicode `trim`, the
    `[\n\t ]+` whitespace collapse applied to every text event, prefix
    stripping, `split_once`, `replace` and decimal formatting. */
module Textual {
  import opened Outcomes

  /** Unicode White_Space, the set Rust's `char::is_whitespace` (and so
      `str::trim`, `trim_end` and bstr's `trim`) removes. */
  predicate IsWhitespace(c: char) {
    || c == ' '
    || ('\t' <= c <= '\r')
    || c == '\U{85}' || c == '\U{A0}' || c == '\U{1680}'
    || ('\U{2000}' <= c <= '\U{200A}')
    || c == '\U{2028}' || c == '\U{2029}' || c == '\U{202F}' || c == '\U{205F}' || c == '\U{3000}'
  }

  /** `str::trim_start`: drops leading whitespace and nothing else. */
  function TrimStart(s: string): (r: string)
    ensures |r| <= |s|
    ensures forall i :: 0 <= i < |s| - |r| ==> IsWhitespace(s[i])
    ensures r != [] ==> !IsWhitespace(r[0])
  {
    if s != [] && IsWhitespace(s[0]) then TrimStart(s[1..]) else s
  }

  /** What `trim_start` keeps is a suffix of its input. */
  lemma {:induction false} TrimStartSuffix(s: string)
    ensures TrimStart(s) == s[|s| - |TrimStart(s)|..]
    decreases |s|
  {
    if s != [] && IsWhitespace(s[0]) {
      TrimStartSuffix(s[1..]);
    }
  }

  /** `str::trim_end`: drops trailing whitespace and nothing else. */
  function TrimEnd(s: string): (r: string)
    ensures |r| <= |s| && r == s[..|r|]
    ensures forall i :: |r| <= i < |s| ==> IsWhitespace(s[i])
    ensures r != [] ==> !IsWhitespace(r[|r| - 1])
  {
    if s != [] && IsWhitespace(s[|s| - 1]) then TrimEnd(s[..|s| - 1]) else s
  }

  /** `str::trim`: empty exactly when the input is all whitespace; otherwise
      it starts and ends with a non-whitespace character. */
  function Trim(s: string): (r: string)
    ensures r != [] ==> !IsWhitespace(r[0]) && !IsWhitespace(r[|r| - 1])
    ensures r == [] <==> forall i :: 0 <= i < |s| ==> IsWhitespace(s[i])
  {
    var t := TrimStart(s);
    TrimStartSuffix(s);
    var r := TrimEnd(t);
    assert r != [] ==> r[0] == t[0];
    assert t != [] ==> s[|s| - |t|] == t[0];
    r
  }

  /** `trim` keeps a slice of its input: what it cuts before and after the
      slice is all whitespace. */
  lemma TrimSlice(s: string)
    ensures exists a, b :: (0 <= a <= b <= |s| && Trim(s) == s[a..b]
      && (forall k :: 0 <= k < a ==> IsWhitespace(s[k]))
      && (forall k :: b <= k < |s| ==> IsWhitespace(s[k])))
  {
    var t := TrimStart(s);
    TrimStartSuffix(s);
    var a := |s| - |t|;
    var r := TrimEnd(t);
    var b := a + |r|;
    assert r == t[..|r|] == s[a..b];
    assert forall k :: b <= k < |s| ==> s[k] == t[k - a];
  }

  /** Nothing to remove at the end of a text that ends in a visible
      character. */
  lemma TrimEndKeeps(s: string)
    requires s != [] && !IsWhitespace(s[|s| - 1])
    ensures TrimEnd(s) == s
  {
  }

  lemma TrimIdempotent(s: string)
    ensures Trim(Trim(s)) == Trim(s)
  {
    var r := Trim(s);
    if r != [] {
      assert TrimStart(r) == r;
      assert TrimEnd(r) == r;
    }
  }

  /** `t.trim().is_empty()`, the test for ignorable text between tags. */
  predicate IsBlank(t: string) {
    Trim(t) == []
  }

  /** The characters of the `[\n\t ]+` class. */
  predicate IsSep(c: char) {
    c == '\n' || c == '\t' || c == ' '
  }

  /** The non-separator characters of `s`, in order. */
  function Kept(s: string): string {
    if s == [] then [] else (if IsSep(s[0]) then [] else [s[0]]) + Kept(s[1..])
  }

  function DropSeps(s: string): (r: string)
    ensures |r| <= |s| && r == s[|s| - |r|..]
    ensures r != [] ==> !IsSep(r[0])
    ensures Kept(r) == Kept(s)
  {
    if s != [] && IsSep(s[0]) then DropSeps(s[1..]) else s
  }

  /** `WHITESPACE.replace_all(s, " ")`: every maximal run of `\n`, `\t` and
      space becomes one space.  The result has no newline or tab, never two
      spaces in a row, and the same other characters in the same order. */
  function Collapse(s: string): (r: string)
    ensures forall i :: 0 <= i < |r| ==> r[i] != '\n' && r[i] != '\t'
    ensures forall i, j :: 0 <= i && i + 1 == j < |r| ==> !(r[i] == ' ' && r[j] == ' ')
    ensures r != [] <==> s != []
    ensures r != [] ==> (r[0] == ' ' <==> IsSep(s[0]))
    ensures Kept(r) == Kept(s)
    decreases |s|
  {
    if s == [] then []
    else if IsSep(s[0]) then
      var rest := Collapse(DropSeps(s[1..]));
      assert ([' '] + rest)[1..] == rest;
      [' '] + rest
    else
      var rest := Collapse(s[1..]);
      assert ([s[0]] + rest)[1..] == rest;
      [s[0]] + rest
  }

  lemma {:induction false} CollapseIdempotent(s: string)
    ensures Collapse(Collapse(s)) == Collapse(s)
    decreases |s|
  {
    if s != [] {
      if IsSep(s[0]) {
        var d := DropSeps(s[1..]);
        var rest := Collapse(d);
        assert rest != [] ==> rest[0] != ' ';
        assert ([' '] + rest)[1..] == rest;
        assert DropSeps(rest) == rest;
        CollapseIdempotent(d);
      } else {
        var rest := Collapse(s[1..]);
        assert ([s[0]] + rest)[1..] == rest;
        CollapseIdempotent(s[1..]);
      }
    }
  }

  /** Every separator replaced by a space. */
  function Spaces(s: string): (r: string)
    ensures |r| == |s|
  {
    if s == [] then [] else [if IsSep(s[0]) then ' ' else s[0]] + Spaces(s[1..])
  }

  /** Every space that directly follows another space dropped. */
  function Squeeze(s: string): string {
    if |s| <= 1 then s
    else if s[0] == ' ' && s[1] == ' ' then Squeeze(s[1..])
    else [s[0]] + Squeeze(s[1..])
  }

  /** The collapse is the same as turning every separator into a space and
      then squeezing each run of spaces to one: every maximal run of
      separators, wherever it lies, leaves exactly one space. */
  lemma {:induction false} CollapseIsSqueeze(s: string)
    ensures Collapse(s) == Squeeze(Spaces(s))
    decreases |s|, 0
  {
    if s != [] {
      var t := Spaces(s[1..]);
      assert Spaces(s)[1..] == t;
      if IsSep(s[0]) {
        SqueezeAfterSpace(s[1..]);
      } else if t == [] {
        assert Spaces(s) == [s[0]];
      } else {
        CollapseIsSqueeze(s[1..]);
      }
    }
  }

  /** A space followed by the spaced text `x` squeezes to one space and the
      collapse of what follows the separators at the start of `x`. */
  lemma {:induction false} SqueezeAfterSpace(x: string)
    ensures Squeeze([' '] + Spaces(x)) == [' '] + Collapse(DropSeps(x))
    decreases |x|, 1
  {
    var t := [' '] + Spaces(x);
    assert t[1..] == Spaces(x);
    if x == [] {
      assert t == [' '];
    } else if IsSep(x[0]) {
      assert Spaces(x) == [' '] + Spaces(x[1..]);
      SqueezeAfterSpace(x[1..]);
    } else {
      assert Spaces(x)[0] == x[0];
      CollapseIsSqueeze(x);
    }
  }

  /** `s.strip_prefix(prefix)`. */
  function StripPrefix(s: string, prefix: string): (r: Option<string>)
    ensures r.Some? <==> prefix <= s
    ensures r.Some? ==> s == prefix + r.value
  {
    if prefix <= s then Some(s[|prefix|..]) else None
  }

  /** Position of the first occurrence of `c`. */
  function IndexOf(s: string, c: char): (r: Option<nat>)
    ensures r.Some? ==> r.value < |s| && s[r.value] == c && c !in s[..r.value]
    ensures r.None? ==> c !in s
  {
    if s == [] then None
    else if s[0] == c then Some(0)
    else match IndexOf(s[1..], c)
      case None => None
      case Some(i) =>
        assert s[..i + 1] == [s[0]] + s[1..][..i];
        Some(i + 1)
  }

  /** `s.split_once(c)`: the text before and after the FIRST `c`. */
  function SplitOnce(s: string, c: char): (r: Option<(string, string)>)
    ensures r.Some? ==> s == r.value.0 + [c] + r.value.1 && c !in r.value.0
    ensures r.None? <==> c !in s
  {
    match IndexOf(s, c)
    case None => None
    case Some(i) =>
      assert s == s[..i] + [c] + s[i + 1..];
      Some((s[..i], s[i + 1..]))
  }

  /** Splitting at the first `c` finds the text before the first `c`, whatever
      the text after it holds. */
  lemma SplitOnceAt(a: string, c: char, b: string)
    requires c !in a
    ensures SplitOnce(a + [c] + b, c) == Some((a, b))
  {
    var s := a + [c] + b;
    assert s[|a|] == c;
    var r := SplitOnce(s, c);
    assert r.Some?;
    var (x, y) := r.value;
    assert s[|x|] == c;
    assert forall k :: 0 <= k < |a| ==> s[k] == a[k];
    assert forall k :: 0 <= k < |x| ==> s[k] == x[k];
    assert x == s[..|a|] == a;
    assert y == s[|a| + 1..] == b;
  }

  /** `s.replace(from, to)`: non-overlapping occurrences, left to right. */
  function Replace(s: string, from: string, to: string): string
    requires from != []
    decreases |s|
  {
    if s == [] then []
    else if from <= s then to + Replace(s[|from|..], from, to)
    else [s[0]] + Replace(s[1..], from, to)
  }

  /** A suffix is the only occurrence when its first character is absent from
      the stem, so replacing it swaps exactly that suffix. */
  lemma {:induction false} ReplaceSuffix(stem: string, from: string, to: string)
    requires from != [] && from[0] !in stem
    ensures Replace(stem + from, from, to) == stem + to
    decreases |stem|
  {
    var s := stem + from;
    if stem == [] {
      assert s == from;
      assert s[|from|..] == [];
    } else {
      assert s[0] == stem[0] != from[0];
      assert !(from <= s);
      assert s[1..] == stem[1..] + from;
      ReplaceSuffix(stem[1..], from, to);
    }
  }

  /** `n` copies of `c`. */
  function Repeat(c: char, n: nat): (r: string)
    ensures |r| == n && forall i :: 0 <= i < n ==> r[i] == c
  {
    if n == 0 then [] else Repeat(c, n - 1) + [c]
  }

  predicate IsDigits(s: string) {
    forall i :: 0 <= i < |s| ==> '0' <= s[i] <= '9'
  }

  /** The number a string of decimal digits denotes. */
  function DigitsValue(s: string): nat
    requires IsDigits(s)
  {
    if s == [] then 0 else DigitsValue(s[..|s| - 1]) * 10 + (s[|s| - 1] - '0') as nat
  }

  /** `format!("{n}")`: canonical decimal, no leading zero, denoting `n`. */
  function NatToString(n: nat): (s: string)
    ensures |s| >= 1 && IsDigits(s)
    ensures |s| > 1 ==> s[0] != '0'
    ensures DigitsValue(s) == n
  {
    var d := (n % 10) as char + '0';
    if n < 10 then
      assert [d][..0] == [];
      [d]
    else
      var p := NatToString(n / 10);
      assert (p + [d])[..|p|] == p;
      p + [d]
  }
}
