/**
 * `removeMarkdown` and the `v-markdown` directive. Each `replace` of the chain is one function
 * here, following the JavaScript rules for a global regular expression: the scan goes left to
 * right, a match is replaced and the scan resumes after it, a failed attempt moves on by one
 * character, `.` matches anything but a line terminator, and `*?` takes the shortest match.
 */
module Markdown {
  import opened Wrappers
  import Js
  import opened Text

  /** No line terminator: what `.` can run over. */
  predicate NoLineTerminator(s: string) {
    forall i :: 0 <= i < |s| ==> !IsLineTerminator(s[i])
  }

  /** The only white space is the plain space, and never two in a row. */
  predicate SingleSpaced(s: string) {
    && (forall i :: 0 <= i < |s| && IsJsSpace(s[i]) ==> s[i] == ' ')
    && (forall i :: 0 <= i < |s| - 1 ==> !(IsJsSpace(s[i]) && IsJsSpace(s[i + 1])))
  }

  /** Free of every character that starts a pattern of the chain. */
  predicate Plain(s: string) {
    forall i :: 0 <= i < |s| ==> s[i] !in "#*[`~>"
  }

  /** The length of the run of `#` that `s` starts with. */
  function HashRun(s: string): (n: nat)
    ensures n <= |s|
    ensures forall i :: 0 <= i < n ==> s[i] == '#'
    ensures n < |s| ==> s[n] != '#'
  {
    if |s| > 0 && s[0] == '#' then 1 + HashRun(s[1..]) else 0
  }

  /** `/#+\s/` matches at the start of `s`: a run of `#` followed by a white-space character. */
  predicate HeadingAt(s: string) {
    |s| > 0 && s[0] == '#' && HashRun(s) < |s| && IsJsSpace(s[HashRun(s)])
  }

  /** `.replace(/#+\s/g, '')`. */
  function StripHeadings(s: string): (r: string)
    ensures '#' !in s ==> r == s
  {
    if |s| == 0 then s
    else if HeadingAt(s) then StripHeadings(s[HashRun(s) + 1..])
    else [s[0]] + StripHeadings(s[1..])
  }

  /**
   * Where the shortest `(.*?)d` ends: the first position of `d` in `s` that no line terminator
   * precedes.
   */
  function FindClose(s: string, d: string): (r: Option<nat>)
    requires |d| > 0
    ensures r.Some? ==> r.value + |d| <= |s| && StartsWith(s[r.value..], d) && NoLineTerminator(s[..r.value])
    ensures r.Some? ==> forall j :: 0 <= j < r.value ==> !StartsWith(s[j..], d)
  {
    if StartsWith(s, d) then Some(0)
    else if |s| == 0 || IsLineTerminator(s[0]) then None
    else
      match FindClose(s[1..], d)
      case None => None
      case Some(j) =>
        FirstCloseShift(s, d, j);
        Some(j + 1)
  }

  /** A first close found in `s[1..]` moves one place right in `s`, when `s` itself does not start with `d`. */
  lemma FirstCloseShift(s: string, d: string, j: nat)
    requires |s| > 0 && !IsLineTerminator(s[0]) && !StartsWith(s, d)
    requires j + |d| <= |s| - 1 && StartsWith(s[1..][j..], d) && NoLineTerminator(s[1..][..j])
    requires forall k :: 0 <= k < j ==> !StartsWith(s[1..][k..], d)
    ensures j + 1 + |d| <= |s| && StartsWith(s[j + 1..], d) && NoLineTerminator(s[..j + 1])
    ensures forall k :: 0 <= k < j + 1 ==> !StartsWith(s[k..], d)
  {
    assert forall k :: 1 <= k <= j ==> s[k..] == s[1..][k - 1..];
    assert s[..j + 1] == [s[0]] + s[1..][..j];
  }

  /** The search misses nothing: an occurrence of `d` with no line terminator before it is found. */
  lemma {:induction false} FindCloseComplete(s: string, d: string, j: nat)
    requires |d| > 0
    requires j <= |s| && NoLineTerminator(s[..j]) && StartsWith(s[j..], d)
    ensures FindClose(s, d).Some? && FindClose(s, d).value <= j
    decreases j
  {
    if j > 0 && !StartsWith(s, d) {
      assert s[..j][0] == s[0];
      assert s[1..][j - 1..] == s[j..];
      assert s[1..][..j - 1] == s[1..j];
      assert forall i :: 0 <= i < j - 1 ==> s[1..j][i] == s[..j][i + 1];
      FindCloseComplete(s[1..], d, j - 1);
    }
  }

  /** `.replace(/d(.*?)d/g, '$1')` for a delimiter `d`: `**`, `*`, a backtick or `~~`. */
  function Unwrap(s: string, d: string): (r: string)
    requires |d| > 0
    ensures d[0] !in s ==> r == s
  {
    if |s| == 0 then s
    else if StartsWith(s, d) && FindClose(s[|d|..], d).Some? then
      var j := FindClose(s[|d|..], d).value;
      s[|d|..|d| + j] + Unwrap(s[|d| + j + |d|..], d)
    else [s[0]] + Unwrap(s[1..], d)
  }

  /** `.replace(/\[(.*?)\]\(.*?\)/g, '$1')`: a link keeps its text and loses its target. */
  function StripLinks(s: string): (r: string)
    ensures '[' !in s ==> r == s
  {
    if |s| == 0 then s
    else if s[0] == '[' && FindClose(s[1..], "](").Some? &&
            FindClose(s[1 + FindClose(s[1..], "](").value + 2..], ")").Some? then
      var j := FindClose(s[1..], "](").value;
      var k := FindClose(s[1 + j + 2..], ")").value;
      s[1..1 + j] + StripLinks(s[1 + j + 2 + k + 1..])
    else [s[0]] + StripLinks(s[1..])
  }

  /** The length of the longest prefix of `s` without a line terminator. */
  function LineLength(s: string): (n: nat)
    ensures n <= |s| && NoLineTerminator(s[..n])
    ensures n < |s| ==> IsLineTerminator(s[n])
  {
    if |s| == 0 || IsLineTerminator(s[0]) then 0
    else
      var n := LineLength(s[1..]);
      assert s[..n + 1] == [s[0]] + s[1..][..n];
      n + 1
  }

  /** `.replace(/>\s(.*)/g, '$1')`: `>` and one white-space character go, the rest of the line stays. */
  function StripQuotes(s: string): (r: string)
    ensures '>' !in s ==> r == s
  {
    if |s| == 0 then s
    else if s[0] == '>' && |s| > 1 && IsJsSpace(s[1]) then
      var n := LineLength(s[2..]);
      s[2..2 + n] + StripQuotes(s[2 + n..])
    else [s[0]] + StripQuotes(s[1..])
  }

  /** `n` characters `#`. */
  function Hashes(n: nat): (h: string)
    ensures |h| == n && forall i :: 0 <= i < n ==> h[i] == '#'
  {
    seq(n, _ => '#')
  }

  /** A run of `n` `#` followed by another character is a run of length `n`. */
  lemma {:induction false} HashRunOf(n: nat, rest: string)
    requires rest == [] || rest[0] != '#'
    ensures HashRun(Hashes(n) + rest) == n
    decreases n
  {
    if n > 0 {
      assert (Hashes(n) + rest)[1..] == Hashes(n - 1) + rest;
      HashRunOf(n - 1, rest);
    } else {
      assert Hashes(n) + rest == rest;
    }
  }

  /** A heading marker, one or more `#` and a white-space character, is removed from the front of a line. */
  lemma HeadingRemoved(n: nat, c: char, x: string)
    requires n >= 1 && IsJsSpace(c) && '#' !in x
    ensures StripHeadings(Hashes(n) + [c] + x) == x
  {
    var s := Hashes(n) + [c] + x;
    assert c != '#';
    assert s == Hashes(n) + ([c] + x);
    HashRunOf(n, [c] + x);
    assert s[n] == c;
    assert s[n + 1..] == x;
  }

  /** The line that `.*` runs over ends at the first line terminator, or at the end of the text. */
  lemma {:induction false} LineLengthOf(x: string, rest: string)
    requires NoLineTerminator(x)
    requires rest == [] || IsLineTerminator(rest[0])
    ensures LineLength(x + rest) == |x|
    decreases |x|
  {
    if |x| == 0 {
      assert x + rest == rest;
    } else {
      assert (x + rest)[0] == x[0];
      assert (x + rest)[1..] == x[1..] + rest;
      LineLengthOf(x[1..], rest);
    }
  }

  /**
   * A quote marker, `>` and a white-space character, is removed and the rest of its line kept;
   * the scan goes on at the next line.
   */
  lemma QuoteRemoved(c: char, x: string, t: char, y: string)
    requires IsJsSpace(c) && NoLineTerminator(x) && IsLineTerminator(t)
    ensures StripQuotes(['>', c] + x) == x
    ensures StripQuotes(['>', c] + x + [t] + y) == x + StripQuotes([t] + y)
  {
    var s := ['>', c] + x;
    assert s[2..] == x + [];
    LineLengthOf(x, []);
    assert s[2..2 + |x|] == x && s[2 + |x|..] == [];
    var u := ['>', c] + x + [t] + y;
    assert u[2..] == x + ([t] + y);
    LineLengthOf(x, [t] + y);
    assert u[2..2 + |x|] == x && u[2 + |x|..] == [t] + y;
  }

  /** `.replace(/\n/g, ' ')`. */
  function NewlinesToSpaces(s: string): (r: string)
    ensures |r| == |s|
    ensures forall i :: 0 <= i < |s| ==> r[i] == if s[i] == '\n' then ' ' else s[i]
  {
    if |s| == 0 then s else [if s[0] == '\n' then ' ' else s[0]] + NewlinesToSpaces(s[1..])
  }

  /** The length of the run of white space that `s` starts with. */
  function SpaceRun(s: string): (n: nat)
    ensures n <= |s|
    ensures forall i :: 0 <= i < n ==> IsJsSpace(s[i])
    ensures n < |s| ==> !IsJsSpace(s[n])
  {
    if |s| > 0 && IsJsSpace(s[0]) then 1 + SpaceRun(s[1..]) else 0
  }

  /** `.replace(/\s+/g, ' ')`: every run of white space becomes one space. */
  function CollapseSpaces(s: string): (r: string)
    ensures SingleSpaced(r)
    ensures |r| > 0 <==> |s| > 0
    ensures |r| > 0 ==> (IsJsSpace(r[0]) <==> IsJsSpace(s[0]))
    decreases |s|
  {
    if |s| == 0 then s
    else if IsJsSpace(s[0]) then
      var rest := CollapseSpaces(s[SpaceRun(s)..]);
      assert rest != [] ==> !IsJsSpace(rest[0]);
      [' '] + rest
    else
      var rest := CollapseSpaces(s[1..]);
      [s[0]] + rest
  }

  /** The characters of `s` that are not white space, in order. */
  function NonSpace(s: string): (r: string)
    ensures forall i :: 0 <= i < |r| ==> !IsJsSpace(r[i])
  {
    if |s| == 0 then []
    else (if IsJsSpace(s[0]) then [] else [s[0]]) + NonSpace(s[1..])
  }

  /** Skipping a run of white space skips no other character. */
  lemma {:induction false} NonSpaceAfterRun(s: string)
    ensures NonSpace(s[SpaceRun(s)..]) == NonSpace(s)
    decreases |s|
  {
    if |s| > 0 && IsJsSpace(s[0]) {
      NonSpaceAfterRun(s[1..]);
      assert s[SpaceRun(s)..] == s[1..][SpaceRun(s[1..])..];
    }
  }

  /**
   * Collapsing white space keeps every other character, in order: only white space is dropped,
   * and every white space left is a single `' '` (`SingleSpaced`).
   */
  lemma {:induction false} CollapseKeepsText(s: string)
    ensures NonSpace(CollapseSpaces(s)) == NonSpace(s)
    decreases |s|
  {
    if |s| > 0 {
      if IsJsSpace(s[0]) {
        var rest := CollapseSpaces(s[SpaceRun(s)..]);
        CollapseKeepsText(s[SpaceRun(s)..]);
        NonSpaceAfterRun(s);
        assert ([' '] + rest)[1..] == rest;
      } else {
        var rest := CollapseSpaces(s[1..]);
        CollapseKeepsText(s[1..]);
        assert ([s[0]] + rest)[1..] == rest;
      }
    }
  }

  /** Lines 12-14 of the chain: newlines to spaces, runs of white space to one space, then `trim()`. */
  function Normalize(s: string): string {
    Trim(CollapseSpaces(NewlinesToSpaces(s)))
  }

  /** `removeMarkdown(text)`: the whole chain. */
  function RemoveMarkdown(text: string): string {
    var s1 := StripHeadings(text);
    var s2 := Unwrap(s1, "**");
    var s3 := Unwrap(s2, "*");
    var s4 := StripLinks(s3);
    var s5 := Unwrap(s4, "`");
    var s6 := Unwrap(s5, "~~");
    var s7 := StripQuotes(s6);
    Normalize(s7)
  }

  /** A slice of a single-spaced text is single-spaced. */
  lemma SliceSingleSpaced(s: string, a: nat, b: nat)
    requires SingleSpaced(s) && a <= b <= |s|
    ensures SingleSpaced(s[a..b])
  {
    var t := s[a..b];
    assert forall i :: 0 <= i < |t| ==> t[i] == s[a + i];
  }

  /** `trim()` keeps a text single-spaced. */
  lemma TrimSingleSpaced(s: string)
    requires SingleSpaced(s)
    ensures SingleSpaced(Trim(s))
  {
    var t := TrimStart(s);
    SliceSingleSpaced(s, |s| - |t|, |s|);
    SliceSingleSpaced(t, 0, |TrimEnd(t)|);
  }

  /** A single-spaced text has no line terminator, since line terminators are white space. */
  lemma SingleSpacedOneLine(s: string)
    requires SingleSpaced(s)
    ensures NoLineTerminator(s) && '\n' !in s
  {
    assert forall i :: 0 <= i < |s| && IsLineTerminator(s[i]) ==> IsJsSpace(s[i]);
  }

  /**
   * The output of the normalisation has no white space at its ends, no newline or other line
   * terminator, and every run of white space in it is a single space character.
   */
  lemma NormalizeShape(s: string)
    ensures Trimmed(Normalize(s)) && SingleSpaced(Normalize(s)) && NoLineTerminator(Normalize(s))
  {
    TrimSingleSpaced(CollapseSpaces(NewlinesToSpaces(s)));
    SingleSpacedOneLine(Normalize(s));
  }

  /** The same holds for everything `removeMarkdown` returns. */
  lemma RemoveMarkdownShape(text: string)
    ensures var r := RemoveMarkdown(text);
      Trimmed(r) && SingleSpaced(r) && NoLineTerminator(r)
  {
    var s7 := StripQuotes(Unwrap(Unwrap(StripLinks(Unwrap(Unwrap(StripHeadings(text), "**"), "*")), "`"), "~~"));
    NormalizeShape(s7);
  }

  /** A single-spaced text has only single spaces to collapse: collapsing leaves it alone. */
  lemma {:induction false} CollapseFixes(s: string)
    requires SingleSpaced(s)
    ensures CollapseSpaces(s) == s
    decreases |s|
  {
    if |s| > 0 {
      SliceSingleSpaced(s, 1, |s|);
      CollapseFixes(s[1..]);
      if IsJsSpace(s[0]) {
        assert |s| > 1 ==> !IsJsSpace(s[1]);
        assert SpaceRun(s) == 1;
      }
    }
  }

  /** A trimmed, single-spaced text is left alone by the normalisation. */
  lemma NormalizeFixes(s: string)
    requires Trimmed(s) && SingleSpaced(s)
    ensures Normalize(s) == s
  {
    SingleSpacedOneLine(s);
    assert NewlinesToSpaces(s) == s;
    CollapseFixes(s);
  }

  /** The run of white space at the front of `a + b` reaches into `b` only when `a` is all white space. */
  lemma {:induction false} SpaceRunAppend(a: string, b: string)
    ensures SpaceRun(a + b) == if SpaceRun(a) < |a| then SpaceRun(a) else |a| + SpaceRun(b)
    decreases |a|
  {
    if |a| == 0 {
      assert a + b == b;
    } else {
      assert (a + b)[0] == a[0];
      if IsJsSpace(a[0]) {
        assert (a + b)[1..] == a[1..] + b;
        SpaceRunAppend(a[1..], b);
      }
    }
  }

  /**
   * A whole run of white space between two pieces of text becomes exactly one space: it is
   * neither dropped nor kept as it was.
   */
  lemma CollapseRun(x: string, w: string, y: string)
    requires |w| > 0 && forall i :: 0 <= i < |w| ==> IsJsSpace(w[i])
    requires x == [] || !IsJsSpace(x[|x| - 1])
    requires y == [] || !IsJsSpace(y[0])
    ensures CollapseSpaces(x + w + y) == CollapseSpaces(x) + " " + CollapseSpaces(y)
  {
    AllSpaceRun(w);
    CollapseRunAfter(x, w, y);
  }

  /** A string all of white space is one run. */
  lemma {:induction false} AllSpaceRun(w: string)
    requires forall i :: 0 <= i < |w| ==> IsJsSpace(w[i])
    ensures SpaceRun(w) == |w|
    decreases |w|
  {
    if |w| > 0 {
      AllSpaceRun(w[1..]);
    }
  }

  /** `CollapseRun`, with the run `w` given as one that `SpaceRun` spans, by induction on `x`. */
  lemma {:induction false} CollapseRunAfter(x: string, w: string, y: string)
    requires |w| > 0 && SpaceRun(w) == |w|
    requires x == [] || !IsJsSpace(x[|x| - 1])
    requires y == [] || !IsJsSpace(y[0])
    ensures CollapseSpaces(x + w + y) == CollapseSpaces(x) + " " + CollapseSpaces(y)
    decreases |x|
  {
    var s := x + w + y;
    var c := " " + CollapseSpaces(y);
    AppendAssoc(x, w, y);
    if |x| == 0 {
      assert x + (w + y) == w + y;
      CollapseRunAlone(w, y);
    } else if IsJsSpace(x[0]) {
      var k := SpaceRun(x);
      SpaceRunAppend(x, w + y);
      DropAppend(x, w + y, k);
      AppendAssoc(x[k..], w, y);
      CollapseRunAfter(x[k..], w, y);
      AppendAssoc(CollapseSpaces(x[k..]), " ", CollapseSpaces(y));
      CollapseRunStep(s, x, c);
    } else {
      DropAppend(x, w + y, 1);
      AppendAssoc(x[1..], w, y);
      CollapseRunAfter(x[1..], w, y);
      AppendAssoc(CollapseSpaces(x[1..]), " ", CollapseSpaces(y));
      CollapseWordStep(s, x, c);
    }
    AppendAssoc(CollapseSpaces(x), " ", CollapseSpaces(y));
  }

  /** Two strings that open with the same run of white space collapse alike, as far as what follows the run does. */
  lemma CollapseRunStep(s: string, x: string, c: string)
    requires |x| > 0 && IsJsSpace(x[0]) && SpaceRun(x) < |x|
    requires |s| > 0 && IsJsSpace(s[0]) && SpaceRun(s) == SpaceRun(x)
    requires CollapseSpaces(s[SpaceRun(s)..]) == CollapseSpaces(x[SpaceRun(x)..]) + c
    ensures CollapseSpaces(s) == CollapseSpaces(x) + c
  {
    CollapseLeadingRun(s);
    CollapseLeadingRun(x);
    AppendAssoc([' '], CollapseSpaces(x[SpaceRun(x)..]), c);
  }

  /** Two strings that open with the same character other than white space collapse alike, as far as their tails do. */
  lemma CollapseWordStep(s: string, x: string, c: string)
    requires |x| > 0 && !IsJsSpace(x[0])
    requires |s| > 0 && s[0] == x[0]
    requires CollapseSpaces(s[1..]) == CollapseSpaces(x[1..]) + c
    ensures CollapseSpaces(s) == CollapseSpaces(x) + c
  {
    CollapseWord(s);
    CollapseWord(x);
    AppendAssoc([x[0]], CollapseSpaces(x[1..]), c);
  }

  /** Concatenation is associative; stated once so that the steps above need not prove it by extensionality. */
  lemma AppendAssoc(a: string, b: string, c: string)
    ensures (a + b) + c == a + (b + c)
  {
  }

  /** Dropping a prefix of the left operand of a concatenation. */
  lemma DropAppend(a: string, b: string, k: nat)
    requires k <= |a|
    ensures (a + b)[k..] == a[k..] + b
  {
  }

  /** A first character that is not white space is kept as it is. */
  lemma CollapseWord(t: string)
    requires |t| > 0 && !IsJsSpace(t[0])
    ensures CollapseSpaces(t) == [t[0]] + CollapseSpaces(t[1..])
  {
  }

  /** A leading run of white space becomes one space. */
  lemma CollapseLeadingRun(t: string)
    requires |t| > 0 && IsJsSpace(t[0])
    ensures CollapseSpaces(t) == [' '] + CollapseSpaces(t[SpaceRun(t)..])
  {
  }

  /** A run of white space at the front becomes one space. */
  lemma CollapseRunAlone(w: string, y: string)
    requires |w| > 0 && SpaceRun(w) == |w|
    requires y == [] || !IsJsSpace(y[0])
    ensures CollapseSpaces(w + y) == " " + CollapseSpaces(y)
  {
    SpaceRunAppend(w, y);
    assert (w + y)[0] == w[0];
    assert (w + y)[|w|..] == y;
  }

  /** Two words of normal text separated by any white space, line breaks included, are joined by one space. */
  lemma NormalizeJoins(a: string, w: string, b: string)
    requires a != [] && Trimmed(a) && SingleSpaced(a)
    requires b != [] && Trimmed(b) && SingleSpaced(b)
    requires |w| > 0 && forall i :: 0 <= i < |w| ==> IsJsSpace(w[i])
    ensures Normalize(a + w + b) == a + " " + b
  {
    SingleSpacedOneLine(a);
    SingleSpacedOneLine(b);
    NewlinesOnlyInRun(a, w, b);
    var w' := NewlinesToSpaces(w);
    assert forall i :: 0 <= i < |w'| ==> IsJsSpace(w'[i]) by {
      forall i | 0 <= i < |w'|
        ensures IsJsSpace(w'[i])
      {
        assert IsJsSpace(w[i]);
      }
    }
    CollapseRun(a, w', b);
    CollapseFixes(a);
    CollapseFixes(b);
    TrimmedJoin(a, b);
  }

  /** Replacing newlines in `a + w + b` touches only `w` when `a` and `b` have none. */
  lemma NewlinesOnlyInRun(a: string, w: string, b: string)
    requires '\n' !in a && '\n' !in b
    ensures NewlinesToSpaces(a + w + b) == a + NewlinesToSpaces(w) + b
  {
    var n := NewlinesToSpaces(a + w + b);
    var w' := NewlinesToSpaces(w);
    forall i | 0 <= i < |n|
      ensures n[i] == (a + w' + b)[i]
    {
      if i < |a| {
        assert (a + w + b)[i] == a[i];
      } else if i < |a| + |w| {
        assert (a + w + b)[i] == w[i - |a|];
      } else {
        assert (a + w + b)[i] == b[i - |a| - |w|];
      }
    }
  }

  /** Two trimmed, non-empty strings joined by a space are trimmed. */
  lemma TrimmedJoin(a: string, b: string)
    requires a != [] && Trimmed(a)
    requires b != [] && Trimmed(b)
    ensures Trimmed(a + " " + b)
  {
    assert (a + " " + b)[0] == a[0];
    assert (a + " " + b)[|a + " " + b| - 1] == b[|b| - 1];
  }

  /** The normalisation of lines 12-14 is idempotent. */
  lemma NormalizeIdempotent(s: string)
    ensures Normalize(Normalize(s)) == Normalize(s)
  {
    NormalizeShape(s);
    NormalizeFixes(Normalize(s));
  }

  /** A plain text is left alone by every pattern of the chain before the normalisation. */
  lemma PlainStagesFix(s: string)
    requires Plain(s)
    ensures StripHeadings(s) == s && StripLinks(s) == s && StripQuotes(s) == s
    ensures Unwrap(s, "**") == s && Unwrap(s, "*") == s && Unwrap(s, "`") == s && Unwrap(s, "~~") == s
  {
    assert forall c :: c in s ==> c !in "#*[`~>";
  }

  /** Text free of the pattern characters that is already trimmed and single-spaced comes back unchanged. */
  lemma PlainUnchanged(s: string)
    requires Plain(s) && Trimmed(s) && SingleSpaced(s)
    ensures RemoveMarkdown(s) == s
  {
    PlainStagesFix(s);
    NormalizeFixes(s);
  }

  /** The shortest delimited group in `d + x + d + q`, when `x` cannot start `d` and fits on one line, is `x`. */
  lemma CloseAfterGroup(x: string, d: string, q: string)
    requires |d| > 0 && d[0] !in x && NoLineTerminator(x)
    ensures FindClose(x + d + q, d) == Some(|x|)
    decreases |x|
  {
    if |x| == 0 {
      assert x + d + q == d + q;
      assert StartsWith(d + q, d);
    } else {
      assert (x + d + q)[0] == x[0] && x[0] in x;
      assert !StartsWith(x + d + q, d);
      assert (x + d + q)[1..] == x[1..] + d + q;
      assert forall c :: c in x[1..] ==> c in x;
      CloseAfterGroup(x[1..], d, q);
    }
  }

  /** A delimited group on one line loses its delimiters. */
  lemma UnwrapGroup(x: string, d: string)
    requires |d| > 0 && d[0] !in x && NoLineTerminator(x)
    ensures Unwrap(d + x + d, d) == x
  {
    var s := d + x + d;
    assert s[..|d|] == d;
    assert s[|d|..] == x + d + [];
    CloseAfterGroup(x, d, []);
    assert s[|d|..|d| + |x|] == x;
    assert s[|d| + |x| + |d|..] == [];
  }

  /** The pattern characters a plain text lacks, one by one. */
  lemma PlainLacks(s: string)
    requires Plain(s)
    ensures '#' !in s && '*' !in s && '[' !in s && '`' !in s && '~' !in s && '>' !in s
  {
    assert forall c :: c in s ==> c !in "#*[`~>";
  }

  /** For plain `x`, `removeMarkdown` of `s` is `x` once the stage that removes the markup turns `s` into `x`. */
  lemma ChainEndsPlain(x: string)
    requires Plain(x) && Trimmed(x) && SingleSpaced(x)
    ensures Normalize(StripQuotes(x)) == x
    ensures Normalize(StripQuotes(Unwrap(x, "~~"))) == x
    ensures Normalize(StripQuotes(Unwrap(Unwrap(x, "`"), "~~"))) == x
  {
    PlainStagesFix(x);
    NormalizeFixes(x);
  }

  /** `**x**` becomes `x`, for plain, trimmed, single-spaced `x`. */
  lemma BoldRemoved(x: string)
    requires Plain(x) && Trimmed(x) && SingleSpaced(x)
    ensures RemoveMarkdown("**" + x + "**") == x
  {
    var s := "**" + x + "**";
    SingleSpacedOneLine(x);
    PlainLacks(x);
    assert StripHeadings(s) == s;
    UnwrapGroup(x, "**");
    PlainStagesFix(x);
    assert StripLinks(Unwrap(Unwrap(s, "**"), "*")) == x;
    ChainEndsPlain(x);
  }

  /** `` `x` `` becomes `x`, for plain, trimmed, single-spaced `x`. */
  lemma CodeRemoved(x: string)
    requires Plain(x) && Trimmed(x) && SingleSpaced(x)
    ensures RemoveMarkdown("`" + x + "`") == x
  {
    var s := "`" + x + "`";
    SingleSpacedOneLine(x);
    PlainLacks(x);
    assert StripHeadings(s) == s;
    assert Unwrap(s, "**") == s;
    assert Unwrap(s, "*") == s;
    assert StripLinks(s) == s;
    UnwrapGroup(x, "`");
    ChainEndsPlain(x);
  }

  /** `~~x~~` becomes `x`, for plain, trimmed, single-spaced `x`. */
  lemma StrikeRemoved(x: string)
    requires Plain(x) && Trimmed(x) && SingleSpaced(x)
    ensures RemoveMarkdown("~~" + x + "~~") == x
  {
    var s := "~~" + x + "~~";
    SingleSpacedOneLine(x);
    PlainLacks(x);
    assert StripHeadings(s) == s;
    assert Unwrap(s, "**") == s;
    assert Unwrap(s, "*") == s;
    assert StripLinks(s) == s;
    assert Unwrap(s, "`") == s;
    UnwrapGroup(x, "~~");
    ChainEndsPlain(x);
  }

  /** The link pattern applied to `[t](u)`, for one-line `t` without `]` and one-line `u` without `)`. */
  lemma LinkGroup(t: string, u: string)
    requires NoLineTerminator(t) && ']' !in t
    requires NoLineTerminator(u) && ')' !in u
    ensures StripLinks("[" + t + "](" + u + ")") == t
  {
    var s := "[" + t + "](" + u + ")";
    var j, k := |t|, |u|;
    LinkPieces(t, u);
    CloseAfterGroup(t, "](", u + ")");
    assert FindClose(s[1..], "](") == Some(j);
    CloseAfterGroup(u, ")", []);
    assert FindClose(s[1 + j + 2..], ")") == Some(k);
    assert StripLinks(s) == s[1..1 + j] + StripLinks(s[1 + j + 2 + k + 1..]);
  }

  /** Where the pieces of `[t](u)` sit. */
  lemma LinkPieces(t: string, u: string)
    ensures var s := "[" + t + "](" + u + ")";
      && |s| == |t| + |u| + 4 && s[0] == '['
      && s[1..] == t + "](" + (u + ")")
      && s[1 + |t| + 2..] == u + ")" + []
      && s[1..1 + |t|] == t
      && s[1 + |t| + 2 + |u| + 1..] == []
  {
    var s := "[" + t + "](" + u + ")";
    assert s == ['['] + (t + ("](" + (u + ")")));
  }

  /** `[t](u)` becomes `t`, for plain, trimmed, single-spaced `t` without `]` and a one-line plain `u` without `)`. */
  lemma LinkRemoved(t: string, u: string)
    requires Plain(t) && Trimmed(t) && SingleSpaced(t) && ']' !in t
    requires Plain(u) && NoLineTerminator(u) && ')' !in u
    ensures RemoveMarkdown("[" + t + "](" + u + ")") == t
  {
    SingleSpacedOneLine(t);
    LinkSurvivesEmphasis(t, u);
    LinkGroup(t, u);
    ChainEndsPlain(t);
    PlainStagesFix(t);
  }

  /** The heading and emphasis stages, which run before the link stage, leave a link over plain text alone. */
  lemma LinkSurvivesEmphasis(t: string, u: string)
    requires Plain(t) && Plain(u)
    ensures var s := "[" + t + "](" + u + ")"; Unwrap(Unwrap(StripHeadings(s), "**"), "*") == s
  {
    var s := "[" + t + "](" + u + ")";
    PlainLacks(t);
    PlainLacks(u);
    assert StripHeadings(s) == s;
    assert Unwrap(s, "**") == s;
    assert Unwrap(s, "*") == s;
  }

  /** An element carrying `v-markdown`: its `title` attribute and its text. */
  class TextElement {
    var title: string
    var textContent: string

    constructor (textContent: string)
      ensures this.textContent == textContent && title == ""
    {
      this.textContent := textContent;
      title := "";
    }

    /** `setAttribute('title', originalText)`, then the stripped text as the element's text. */
    method Show(originalText: string)
      modifies this
      ensures title == originalText && textContent == RemoveMarkdown(originalText)
    {
      title := originalText;
      textContent := RemoveMarkdown(originalText);
    }

    /**
     * `mounted`: the original text is the binding value when it is a non-empty string, else
     * the element's text; it is kept in `title` and the text becomes its stripped form.
     */
    method Mounted(value: Option<string>)
      modifies this
      ensures title == (if Js.StrTruthy(value) then value.value else old(textContent))
      ensures textContent == RemoveMarkdown(title)
    {
      var originalText := if value.Some? && value.value != "" then value.value else textContent;
      Show(originalText);
    }

    /** `updated`: the same as `mounted`, on the element's current text. */
    method Updated(value: Option<string>)
      modifies this
      ensures title == (if Js.StrTruthy(value) then value.value else old(textContent))
      ensures textContent == RemoveMarkdown(title)
    {
      var originalText := if value.Some? && value.value != "" then value.value else textContent;
      Show(originalText);
    }
  }
}
