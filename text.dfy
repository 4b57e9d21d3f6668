/**
 * The JavaScript string operations the client relies on: `startsWith`, `trim`,
 * `split` on one separator character, and the decimal rendering of an index.
 */
module Text {

  /** The characters that end a line for JavaScript (and that `.` in a regular expression does not match). */
  predicate IsLineTerminator(c: char) {
    c == '\n' || c == '\r' || c == '\U{2028}' || c == '\U{2029}'
  }

  /** `\s` in a JavaScript regular expression; also exactly what `String.prototype.trim` removes. */
  predicate IsJsSpace(c: char) {
    || IsLineTerminator(c)
    || c == '\t' || c == '\U{000B}' || c == '\U{000C}' || c == ' ' || c == '\U{00A0}'
    || c == '\U{1680}' || ('\U{2000}' <= c <= '\U{200A}')
    || c == '\U{202F}' || c == '\U{205F}' || c == '\U{3000}' || c == '\U{FEFF}'
  }

  /** `s.startsWith(prefix)`. */
  predicate StartsWith(s: string, prefix: string) {
    |prefix| <= |s| && s[..|prefix|] == prefix
  }

  /** `s.trimStart()`: the suffix left after dropping leading white space. */
  function TrimStart(s: string): (r: string)
    ensures |r| <= |s| && r == s[|s| - |r|..]
    ensures r != [] ==> !IsJsSpace(r[0])
    ensures forall i :: 0 <= i < |s| - |r| ==> IsJsSpace(s[i])
    decreases |s|
  {
    if |s| > 0 && IsJsSpace(s[0]) then TrimStart(s[1..]) else s
  }

  /** `s.trimEnd()`: the prefix left after dropping trailing white space. */
  function TrimEnd(s: string): (r: string)
    ensures |r| <= |s| && r == s[..|r|]
    ensures r != [] ==> !IsJsSpace(r[|r| - 1])
    ensures forall i :: |r| <= i < |s| ==> IsJsSpace(s[i])
    decreases |s|
  {
    if |s| > 0 && IsJsSpace(s[|s| - 1]) then TrimEnd(s[..|s| - 1]) else s
  }

  /** No white space at either end. */
  predicate Trimmed(s: string) {
    s == [] || (!IsJsSpace(s[0]) && !IsJsSpace(s[|s| - 1]))
  }

  /** `s.trim()`. */
  function Trim(s: string): (r: string)
    ensures Trimmed(r)
    ensures Trimmed(s) ==> r == s
  {
    var t := TrimStart(s);
    var r := TrimEnd(t);
    assert r != [] ==> r[0] == t[0];
    r
  }

  /** `trimEnd` empties a string that starts with a non-space character only if it is already empty. */
  lemma TrimEndKeepsHead(t: string)
    requires t == [] || !IsJsSpace(t[0])
    requires TrimEnd(t) == []
    ensures t == []
  {
  }

  /** `s.trim()` is empty exactly when `s` is blank. */
  lemma TrimEmptyIff(s: string)
    ensures Trim(s) == [] <==> forall i :: 0 <= i < |s| ==> IsJsSpace(s[i])
  {
    var t := TrimStart(s);
    if Trim(s) == [] {
      // a non-empty `t` would start with a character that `trimEnd` keeps
      TrimEndKeepsHead(t);
    }
  }

  /** `s.split(sep)` for a one-character separator: never empty, and no piece holds `sep`. */
  function Split(s: string, sep: char): (parts: seq<string>)
    ensures |parts| >= 1
    ensures forall p :: p in parts ==> sep !in p
    decreases |s|
  {
    if |s| == 0 then [""]
    else
      var rest := Split(s[1..], sep);
      if s[0] == sep then [""] + rest
      else
        var first := [s[0]] + rest[0];
        assert forall p :: p in rest[1..] ==> p in rest;
        [first] + rest[1..]
  }

  /** Every piece followed by `sep`: the text a sequence of complete lines came from. */
  function Terminated(pieces: seq<string>, sep: char): string
  {
    if |pieces| == 0 then "" else pieces[0] + [sep] + Terminated(pieces[1..], sep)
  }

  /** The pieces of `s` that a separator closes: all but the last piece of `Split`. */
  function CompleteLines(s: string, sep: char): (lines: seq<string>)
    ensures forall p :: p in lines ==> sep !in p
  {
    var parts := Split(s, sep);
    assert forall p :: p in parts[..|parts| - 1] ==> p in parts;
    parts[..|parts| - 1]
  }

  /** The text after the last separator of `s` (all of `s` when it has none). */
  function LastPiece(s: string, sep: char): (piece: string)
    ensures sep !in piece
  {
    var parts := Split(s, sep);
    assert parts[|parts| - 1] in parts;
    parts[|parts| - 1]
  }

  lemma {:induction false} TerminatedAppend(a: seq<string>, b: seq<string>, sep: char)
    ensures Terminated(a + b, sep) == Terminated(a, sep) + Terminated(b, sep)
    decreases |a|
  {
    if |a| > 0 {
      assert (a + b)[1..] == a[1..] + b;
      TerminatedAppend(a[1..], b, sep);
    } else {
      assert a + b == b;
    }
  }

  /** The pieces of a split put back together: each but the last followed by `sep`, then the last. */
  function Rejoin(parts: seq<string>, sep: char): string
    requires |parts| >= 1
  {
    Terminated(parts[..|parts| - 1], sep) + parts[|parts| - 1]
  }

  /** Rejoining a first piece and at least one more puts `sep` between them. */
  lemma RejoinCons(x: string, ps: seq<string>, sep: char)
    requires |ps| >= 1
    ensures Rejoin([x] + ps, sep) == x + [sep] + Rejoin(ps, sep)
  {
    var q := [x] + ps;
    assert q[..|q| - 1] == [x] + ps[..|ps| - 1];
    assert ([x] + ps[..|ps| - 1])[1..] == ps[..|ps| - 1];
    assert q[|q| - 1] == ps[|ps| - 1];
  }

  /** A character put in front of the first piece is put in front of the rejoined text. */
  lemma RejoinHeadChar(c: char, ps: seq<string>, sep: char)
    requires |ps| >= 1
    ensures Rejoin([[c] + ps[0]] + ps[1..], sep) == [c] + Rejoin(ps, sep)
  {
    if |ps| == 1 {
      assert [[c] + ps[0]] + ps[1..] == [[c] + ps[0]];
      assert Rejoin(ps, sep) == ps[0];
    } else {
      RejoinCons([c] + ps[0], ps[1..], sep);
      RejoinCons(ps[0], ps[1..], sep);
      assert ps == [ps[0]] + ps[1..];
    }
  }

  /** The complete lines, each re-terminated, followed by the last piece, give back the text. */
  lemma {:induction false} SplitRebuilds(s: string, sep: char)
    ensures Terminated(CompleteLines(s, sep), sep) + LastPiece(s, sep) == s
    decreases |s|
  {
    if |s| > 0 {
      var rest := Split(s[1..], sep);
      SplitRebuilds(s[1..], sep);
      assert Rejoin(rest, sep) == s[1..];
      if s[0] == sep {
        RejoinCons("", rest, sep);
      } else {
        RejoinHeadChar(s[0], rest, sep);
      }
      assert s == [s[0]] + s[1..];
    }
  }

  lemma TerminatedHasSeparator(pieces: seq<string>, rest: string, sep: char)
    requires |pieces| > 0
    ensures sep in Terminated(pieces, sep) + rest
  {
    assert (Terminated(pieces, sep) + rest)[|pieces[0]|] == sep;
  }

  /** In `p + sep + u` with `sep` not in `p`, the first separator sits right after `p`. */
  lemma FirstSeparatorIndex(p: string, u: string, sep: char)
    requires sep !in p
    ensures (p + [sep] + u)[|p|] == sep
    ensures forall i :: 0 <= i < |p| ==> (p + [sep] + u)[i] != sep
  {
    forall i | 0 <= i < |p| ensures (p + [sep] + u)[i] != sep {
      assert (p + [sep] + u)[i] == p[i];
      assert p[i] in p;
    }
  }

  /** The first separator splits a text the same way, whichever way it was written. */
  lemma FirstSeparator(p: string, u: string, q: string, v: string, sep: char)
    requires sep !in p && sep !in q
    requires p + [sep] + u == q + [sep] + v
    ensures p == q && u == v
  {
    var w := p + [sep] + u;
    FirstSeparatorIndex(p, u, sep);
    FirstSeparatorIndex(q, v, sep);
    assert |p| == |q|;
    assert w[..|p|] == p && (q + [sep] + v)[..|q|] == q;
    assert w[|p| + 1..] == u && (q + [sep] + v)[|q| + 1..] == v;
  }

  /** Complete lines and a last piece free of the separator are determined by their text. */
  lemma {:induction false} TerminatedUnique(a: seq<string>, x: string, b: seq<string>, y: string, sep: char)
    requires forall p :: p in a ==> sep !in p
    requires forall p :: p in b ==> sep !in p
    requires sep !in x && sep !in y
    requires Terminated(a, sep) + x == Terminated(b, sep) + y
    ensures a == b && x == y
    decreases |a|
  {
    if |a| == 0 && |b| == 0 {
      assert Terminated(a, sep) == "" && Terminated(b, sep) == "";
      assert Terminated(a, sep) + x == x;
      assert Terminated(b, sep) + y == y;
    } else if |a| == 0 {
      assert Terminated(a, sep) + x == x;
      TerminatedHasSeparator(b, y, sep);
      assert false;
    } else if |b| == 0 {
      assert Terminated(b, sep) + y == y;
      TerminatedHasSeparator(a, x, sep);
      assert false;
    } else {
      assert a[0] in a && b[0] in b;
      assert Terminated(a, sep) + x == a[0] + [sep] + (Terminated(a[1..], sep) + x);
      assert Terminated(b, sep) + y == b[0] + [sep] + (Terminated(b[1..], sep) + y);
      FirstSeparator(a[0], Terminated(a[1..], sep) + x, b[0], Terminated(b[1..], sep) + y, sep);
      assert forall p :: p in a[1..] ==> p in a;
      assert forall p :: p in b[1..] ==> p in b;
      TerminatedUnique(a[1..], x, b[1..], y, sep);
      assert a == [a[0]] + a[1..] && b == [b[0]] + b[1..];
    }
  }

  /** Splitting text built from separator-free lines recovers exactly those lines. */
  lemma SplitTerminated(lines: seq<string>, last: string, sep: char)
    requires forall p :: p in lines ==> sep !in p
    requires sep !in last
    ensures CompleteLines(Terminated(lines, sep) + last, sep) == lines
    ensures LastPiece(Terminated(lines, sep) + last, sep) == last
  {
    var s := Terminated(lines, sep) + last;
    SplitRebuilds(s, sep);
    TerminatedUnique(CompleteLines(s, sep), LastPiece(s, sep), lines, last, sep);
  }

  /**
   * Splitting incrementally agrees with splitting everything at once: the lines of `s + t`
   * are the lines of `s` followed by the lines of the carried-over last piece of `s` plus `t`.
   */
  lemma SplitAppend(s: string, t: string, sep: char)
    ensures CompleteLines(s + t, sep) == CompleteLines(s, sep) + CompleteLines(LastPiece(s, sep) + t, sep)
    ensures LastPiece(s + t, sep) == LastPiece(LastPiece(s, sep) + t, sep)
  {
    var a, x := CompleteLines(s, sep), LastPiece(s, sep);
    var b, y := CompleteLines(x + t, sep), LastPiece(x + t, sep);
    SplitRebuilds(s, sep);
    SplitRebuilds(x + t, sep);
    SplitRebuilds(s + t, sep);
    TerminatedAppend(a, b, sep);
    calc {
      s + t;
      Terminated(a, sep) + x + t;
      Terminated(a, sep) + (x + t);
      Terminated(a, sep) + (Terminated(b, sep) + y);
      Terminated(a + b, sep) + y;
    }
    TerminatedUnique(CompleteLines(s + t, sep), LastPiece(s + t, sep), a + b, y, sep);
  }

  /** `Split` as a sequence of pieces, in terms of the complete lines and the last piece. */
  lemma SplitIsLinesAndLast(s: string, sep: char)
    ensures Split(s, sep) == CompleteLines(s, sep) + [LastPiece(s, sep)]
  {
    var parts := Split(s, sep);
    assert parts == parts[..|parts| - 1] + [parts[|parts| - 1]];
  }

  /** A separator ends the first piece: `(a + sep + b).split(sep)` is `[a]` followed by the pieces of `b`. */
  lemma SplitAfterSeparator(a: string, b: string, sep: char)
    requires sep !in a
    ensures Split(a + [sep] + b, sep) == [a] + Split(b, sep)
  {
    var lines, last := CompleteLines(b, sep), LastPiece(b, sep);
    SplitRebuilds(b, sep);
    assert ([a] + lines)[1..] == lines;
    assert Terminated([a] + lines, sep) == a + [sep] + Terminated(lines, sep);
    assert Terminated([a] + lines, sep) + last == a + [sep] + b;
    assert forall p :: p in [a] + lines ==> p == a || p in lines;
    SplitTerminated([a] + lines, last, sep);
    SplitIsLinesAndLast(a + [sep] + b, sep);
    SplitIsLinesAndLast(b, sep);
  }

  /** Text without the separator is a single piece. */
  lemma SplitWithoutSeparator(s: string, sep: char)
    requires sep !in s
    ensures Split(s, sep) == [s]
  {
    SplitTerminated([], s, sep);
    SplitIsLinesAndLast(s, sep);
  }

  /** The decimal digit for `d < 10`. */
  function DigitChar(d: nat): (c: char)
    requires d < 10
    ensures '0' <= c <= '9'
    ensures c as int - '0' as int == d
  {
    ('0' as int + d) as char
  }

  /** `String(n)` for a natural number: its decimal digits, without leading zeros. */
  function NatToDecimal(n: nat): (r: string)
    ensures |r| >= 1
    ensures forall i :: 0 <= i < |r| ==> '0' <= r[i] <= '9'
    ensures |r| > 1 ==> r[0] != '0'
    decreases n
  {
    if n < 10 then [DigitChar(n)] else NatToDecimal(n / 10) + [DigitChar(n % 10)]
  }

  /** The number a string of decimal digits denotes. */
  function DecimalValue(s: string): nat
    requires forall i :: 0 <= i < |s| ==> '0' <= s[i] <= '9'
  {
    if |s| == 0 then 0
    else DecimalValue(s[..|s| - 1]) * 10 + (s[|s| - 1] as int - '0' as int)
  }

  /** Reading the digits back gives the number. */
  lemma {:induction false} DecimalRoundTrip(n: nat)
    ensures DecimalValue(NatToDecimal(n)) == n
    decreases n
  {
    if n >= 10 {
      DecimalRoundTrip(n / 10);
      var r := NatToDecimal(n);
      assert r[..|r| - 1] == NatToDecimal(n / 10);
    }
  }

  /** Distinct numbers have distinct decimal forms. */
  lemma DecimalInjective(m: nat, n: nat)
    requires m != n
    ensures NatToDecimal(m) != NatToDecimal(n)
  {
    DecimalRoundTrip(m);
    DecimalRoundTrip(n);
  }
}
