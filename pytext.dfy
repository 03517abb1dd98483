/**
 * The parts of Python's `str` that the credential resolver relies on:
 * `str.strip()`, `str.lstrip(chars)` and `str.splitlines()`.
 */
module PyText {

  /** `c.isspace()`: the characters `str.strip()` removes. */
  predicate IsSpace(c: char)
  {
    || '\t' <= c <= '\r'                 // \t \n \v \f \r
    || '\U{1C}' <= c <= ' '               // file, group, record and unit separators; space
    || c == '\U{85}' || c == '\U{A0}' || c == '\U{1680}'
    || '\U{2000}' <= c <= '\U{200A}'
    || c == '\U{2028}' || c == '\U{2029}' || c == '\U{202F}' || c == '\U{205F}' || c == '\U{3000}'
  }

  /** The line boundaries of `str.splitlines()`; the pair "\r\n" counts as one boundary. */
  predicate IsLineBreak(c: char)
  {
    || '\n' <= c <= '\r'                 // \n \v \f \r
    || '\U{1C}' <= c <= '\U{1E}'
    || c == '\U{85}' || c == '\U{2028}' || c == '\U{2029}'
  }

  lemma {:induction false} LineBreaksAreSpaces(c: char)
    requires IsLineBreak(c)
    ensures IsSpace(c)
  {
  }

  /** How many characters at the front of `s` satisfy `drop`. */
  function LeadingCount(s: string, drop: char -> bool): (n: nat)
    ensures n <= |s|
    ensures forall k :: 0 <= k < n ==> drop(s[k])
    ensures n < |s| ==> !drop(s[n])
    decreases |s|
  {
    if s != [] && drop(s[0]) then 1 + LeadingCount(s[1..], drop) else 0
  }

  /** How many characters at the back of `s` satisfy `drop`. */
  function TrailingCount(s: string, drop: char -> bool): (n: nat)
    ensures n <= |s|
    ensures forall k :: |s| - n <= k < |s| ==> drop(s[k])
    ensures n < |s| ==> !drop(s[|s| - 1 - n])
    decreases |s|
  {
    if s != [] && drop(s[|s| - 1]) then 1 + TrailingCount(s[..|s| - 1], drop) else 0
  }

  /**
   * `s.lstrip(chars)`, with `chars` given as its membership test `drop`: the suffix of `s`
   * that is left once every leading character in `chars` is removed.
   */
  function LStrip(s: string, drop: char -> bool): (r: string)
    ensures |r| <= |s| && r == s[|s| - |r|..]
    ensures forall k :: 0 <= k < |s| - |r| ==> drop(s[k])
    ensures r != [] ==> !drop(r[0])
  {
    s[LeadingCount(s, drop)..]
  }

  /** `s.rstrip(chars)`, with `chars` given as its membership test `drop`. */
  function RStrip(s: string, drop: char -> bool): string
  {
    s[..|s| - TrailingCount(s, drop)]
  }

  /** Stripping the same characters twice strips nothing more. */
  lemma {:induction false} LStripIdempotent(s: string, drop: char -> bool)
    ensures LStrip(LStrip(s, drop), drop) == LStrip(s, drop)
  {
    var r := LStrip(s, drop);
    assert r == [] || r[0] == s[LeadingCount(s, drop)];
  }

  /** Leading characters from the stripped set make no difference. */
  lemma {:induction false} LStripIgnoresPrefix(p: string, s: string, drop: char -> bool)
    requires forall k :: 0 <= k < |p| ==> drop(p[k])
    ensures LStrip(p + s, drop) == LStrip(s, drop)
    decreases |p|
  {
    if p == [] {
      assert p + s == s;
    } else {
      assert (p + s)[0] == p[0];
      assert (p + s)[1..] == p[1..] + s;
      LStripIgnoresPrefix(p[1..], s, drop);
    }
  }

  /** Whether `s` consists of whitespace only (the empty string included). */
  predicate IsBlank(s: string)
  {
    forall k :: 0 <= k < |s| ==> IsSpace(s[k])
  }

  /**
   * `s.strip()`: `s` without its leading and trailing whitespace. It is empty exactly
   * when `s` is blank, and otherwise begins and ends with a non-whitespace character.
   */
  function Strip(s: string): (r: string)
    ensures r == [] <==> IsBlank(s)
  {
    var l := LStrip(s, IsSpace);
    var r := RStrip(l, IsSpace);
    assert r == [] ==> IsBlank(s) by {
      if r == [] {
        assert l == [];
      }
    }
    r
  }

  /** A non-empty `s.strip()` begins and ends with a character that is not whitespace. */
  lemma {:induction false} StripEnds(s: string)
    ensures var r := Strip(s);
      r != [] ==> !IsSpace(r[0]) && !IsSpace(r[|r| - 1])
  {
    var l := LStrip(s, IsSpace);
    var r := Strip(s);
    if r != [] {
      assert r[0] == l[0];
    }
  }

  /**
   * `s.strip()` is `s` without its surrounding whitespace: a slice of `s` with only
   * whitespace before and after it. With `StripEnds`, which says the slice neither
   * starts nor ends with whitespace, this fixes the result.
   */
  lemma {:induction false} StripIsTrimmedSlice(s: string)
    ensures exists a, b :: 0 <= a <= b <= |s| && Strip(s) == s[a..b] && IsBlank(s[..a]) && IsBlank(s[b..])
  {
    var a := LeadingCount(s, IsSpace);
    var l := s[a..];
    var r := RStrip(l, IsSpace);
    var b := a + |r|;
    assert r == s[a..b];
    BlankSlice(s, 0, a);
    BlankSlice(s, b, |s|);
    assert s[0..a] == s[..a];
  }

  /** A slice made only of whitespace is blank. */
  lemma {:induction false} BlankSlice(s: string, i: nat, j: nat)
    requires i <= j <= |s| && forall k :: i <= k < j ==> IsSpace(s[k])
    ensures IsBlank(s[i..j])
  {
    assert forall k :: 0 <= k < j - i ==> s[i..j][k] == s[i + k];
  }

  /** Stripping is idempotent. */
  lemma {:induction false} StripIdempotent(s: string)
    ensures Strip(Strip(s)) == Strip(s)
  {
    var r := Strip(s);
    StripEnds(s);
    assert LeadingCount(r, IsSpace) == 0;
    assert TrailingCount(r, IsSpace) == 0;
  }

  /** Whether `s` holds no line boundary. */
  predicate IsLine(s: string)
  {
    forall k :: 0 <= k < |s| ==> !IsLineBreak(s[k])
  }

  /** The index of the first line boundary in `s`, or `|s|` if there is none. */
  function BreakIndex(s: string): (i: nat)
    ensures i <= |s| && IsLine(s[..i])
    ensures i < |s| ==> IsLineBreak(s[i])
  {
    if s == [] || IsLineBreak(s[0]) then 0
    else
      var i := 1 + BreakIndex(s[1..]);
      assert s[..i] == [s[0]] + s[1..][..i - 1];
      i
  }

  /** The length of the line boundary at `s[i]`: 2 for "\r\n", otherwise 1. */
  function BreakWidth(s: string, i: nat): (w: nat)
    requires i < |s| && IsLineBreak(s[i])
    ensures 1 <= w && i + w <= |s|
    ensures forall k :: i <= k < i + w ==> IsLineBreak(s[k])
  {
    if s[i] == '\r' && i + 1 < |s| && s[i + 1] == '\n' then 2 else 1
  }

  /**
   * `s.splitlines()`: the lines of `s`, without their line boundaries. A final
   * boundary does not start a further (empty) line, and "" has no lines.
   */
  function SplitLines(s: string): (lines: seq<string>)
    ensures s == [] <==> lines == []
    decreases |s|
  {
    if s == [] then []
    else
      var i := BreakIndex(s);
      if i == |s| then [s]
      else [s[..i]] + SplitLines(s[i + BreakWidth(s, i)..])
  }

  /** The characters of `s` that are not line boundaries, in order. */
  function WithoutBreaks(s: string): string
  {
    if s == [] then []
    else (if IsLineBreak(s[0]) then [] else [s[0]]) + WithoutBreaks(s[1..])
  }

  /** All lines, joined with nothing in between. */
  function Concat(lines: seq<string>): string
  {
    if lines == [] then [] else lines[0] + Concat(lines[1..])
  }

  lemma {:induction false} WithoutBreaksAppend(a: string, b: string)
    ensures WithoutBreaks(a + b) == WithoutBreaks(a) + WithoutBreaks(b)
    decreases |a|
  {
    if a != [] {
      assert (a + b)[1..] == a[1..] + b;
      WithoutBreaksAppend(a[1..], b);
    } else {
      assert a + b == b;
    }
  }

  lemma {:induction false} WithoutBreaksOfLine(s: string)
    requires IsLine(s)
    ensures WithoutBreaks(s) == s
    decreases |s|
  {
    if s != [] {
      WithoutBreaksOfLine(s[1..]);
    }
  }

  lemma {:induction false} WithoutBreaksOfBreaks(s: string)
    requires forall k :: 0 <= k < |s| ==> IsLineBreak(s[k])
    ensures WithoutBreaks(s) == []
    decreases |s|
  {
    if s != [] {
      WithoutBreaksOfBreaks(s[1..]);
    }
  }

  /** A line, then its boundary, then the rest: only the line and the rest's text remain. */
  lemma {:induction false} WithoutBreaksAtBreak(line: string, brk: string, rest: string)
    requires IsLine(line)
    requires forall k :: 0 <= k < |brk| ==> IsLineBreak(brk[k])
    ensures WithoutBreaks(line + brk + rest) == line + WithoutBreaks(rest)
  {
    WithoutBreaksOfLine(line);
    WithoutBreaksOfBreaks(brk);
    WithoutBreaksAppend(brk, rest);
    WithoutBreaksAppend(line, brk + rest);
    assert line + brk + rest == line + (brk + rest);
  }

  lemma {:induction false} ConcatCons(line: string, lines: seq<string>)
    ensures Concat([line] + lines) == line + Concat(lines)
  {
    assert ([line] + lines)[1..] == lines;
  }

  /** At its first line boundary, `s` falls apart into its first line, the boundary and the rest. */
  lemma {:induction false} SplitLinesAtBreak(s: string)
    requires BreakIndex(s) < |s|
    ensures var i := BreakIndex(s);
      var j := i + BreakWidth(s, i);
      && s == s[..i] + s[i..j] + s[j..]
      && SplitLines(s) == [s[..i]] + SplitLines(s[j..])
  {
    var i := BreakIndex(s);
    var j := i + BreakWidth(s, i);
    assert s != [];
    assert s[..i] + s[i..j] + s[j..] == s[..j] + s[j..] == s;
  }

  /**
   * Splitting into lines loses only the line boundaries: the lines, joined back
   * together, are the text of `s` with its boundaries removed.
   */
  lemma {:induction false} SplitLinesKeepsText(s: string)
    ensures Concat(SplitLines(s)) == WithoutBreaks(s)
    decreases |s|
  {
    if s != [] {
      var i := BreakIndex(s);
      if i == |s| {
        assert s[..i] == s;
        WithoutBreaksOfLine(s);
        ConcatCons(s, []);
      } else {
        var j := i + BreakWidth(s, i);
        var line, brk, rest := s[..i], s[i..j], s[j..];
        SplitLinesAtBreak(s);
        ConcatCons(line, SplitLines(rest));
        SplitLinesKeepsText(rest);
        WithoutBreaksAtBreak(line, brk, rest);
      }
    }
  }

  /** A line boundary of `str.splitlines()`: one line-break character, or "\r\n". */
  predicate IsBoundary(b: string)
  {
    (|b| == 1 && IsLineBreak(b[0])) || (|b| == 2 && b[0] == '\r' && b[1] == '\n')
  }

  /** Whether `b` is the one-character string `c`. */
  predicate IsChar(b: string, c: char)
  {
    |b| == 1 && b[0] == c
  }

  /**
   * The boundary that ends each line of `SplitLines(s)`, in order; "" after a last line
   * that the text ends without a boundary.
   */
  function LineEnds(s: string): (ends: seq<string>)
    ensures |ends| == |SplitLines(s)|
    decreases |s|
  {
    if s == [] then []
    else
      var i := BreakIndex(s);
      if i == |s| then [""]
      else [s[i..i + BreakWidth(s, i)]] + LineEnds(s[i + BreakWidth(s, i)..])
  }

  /** Each line followed by its boundary, all joined together. */
  function Interleave(lines: seq<string>, ends: seq<string>): string
    requires |lines| == |ends|
  {
    if lines == [] then [] else lines[0] + ends[0] + Interleave(lines[1..], ends[1..])
  }

  /**
   * The shape of a split into lines: every line is free of boundaries and every line
   * but the last ends with a boundary; the last ends with a boundary or, if it is not
   * empty, with nothing; and a "\r" is never followed by the "\n" of an empty next line
   * (that pair is one boundary).
   */
  predicate WellSplit(lines: seq<string>, ends: seq<string>)
    requires |lines| == |ends|
  {
    lines == [] ||
    (&& IsLine(lines[0])
     && (if |lines| == 1 then IsBoundary(ends[0]) || (ends[0] == [] && lines[0] != [])
         else
           && IsBoundary(ends[0])
           && (IsChar(ends[0], '\r') ==> lines[1] != [] || !IsChar(ends[1], '\n'))
           && WellSplit(lines[1..], ends[1..])))
  }

  /** At its first line boundary, `s` falls apart into its first line, the boundary and the rest. */
  lemma {:induction false} LineEndsAtBreak(s: string)
    requires BreakIndex(s) < |s|
    ensures var i := BreakIndex(s);
      var j := i + BreakWidth(s, i);
      LineEnds(s) == [s[i..j]] + LineEnds(s[j..])
  {
  }

  lemma {:induction false} InterleaveCons(line: string, brk: string, lines: seq<string>, ends: seq<string>)
    requires |lines| == |ends|
    ensures Interleave([line] + lines, [brk] + ends) == line + brk + Interleave(lines, ends)
  {
    assert ([line] + lines)[1..] == lines && ([brk] + ends)[1..] == ends;
  }

  lemma {:induction false} WellSplitCons(line: string, brk: string, lines: seq<string>, ends: seq<string>)
    requires |lines| == |ends| && WellSplit(lines, ends)
    requires IsLine(line) && IsBoundary(brk)
    requires IsChar(brk, '\r') && lines != [] ==> lines[0] != [] || !IsChar(ends[0], '\n')
    ensures WellSplit([line] + lines, [brk] + ends)
  {
    assert ([line] + lines)[1..] == lines && ([brk] + ends)[1..] == ends;
  }

  /** A text that does not start with "\n" does not start with an empty line ended by "\n". */
  lemma {:induction false} NoNewlineAhead(s: string)
    requires s != [] && s[0] != '\n'
    ensures SplitLines(s)[0] != [] || !IsChar(LineEnds(s)[0], '\n')
  {
    if BreakIndex(s) == 0 {
      SplitLinesAtBreak(s);
      LineEndsAtBreak(s);
    }
  }

  /** The round trip of a text without boundaries: one line, ended by nothing. */
  lemma {:induction false} RoundTripOneLine(s: string)
    requires s != [] && BreakIndex(s) == |s|
    ensures Interleave(SplitLines(s), LineEnds(s)) == s
    ensures WellSplit(SplitLines(s), LineEnds(s))
  {
    assert s[..|s|] == s;
    InterleaveCons(s, "", [], []);
  }

  /** The text at the first boundary: the first line, its boundary, then the rest's lines. */
  lemma {:induction false} JoinAtBreak(s: string)
    requires BreakIndex(s) < |s|
    requires var rest := s[BreakIndex(s) + BreakWidth(s, BreakIndex(s))..];
      Interleave(SplitLines(rest), LineEnds(rest)) == rest
    ensures Interleave(SplitLines(s), LineEnds(s)) == s
  {
    var i := BreakIndex(s);
    var j := i + BreakWidth(s, i);
    SplitLinesAtBreak(s);
    LineEndsAtBreak(s);
    InterleaveCons(s[..i], s[i..j], SplitLines(s[j..]), LineEnds(s[j..]));
  }

  /** The first boundary is a boundary, and a lone "\r" there is not followed by "\n". */
  lemma {:induction false} BoundaryAtBreak(s: string)
    requires BreakIndex(s) < |s|
    ensures var i := BreakIndex(s);
      var j := i + BreakWidth(s, i);
      && IsBoundary(s[i..j])
      && (IsChar(s[i..j], '\r') && j < |s| ==> s[j] != '\n')
  {
  }

  /** The shape at the first boundary: a line, a boundary, then the rest's shape. */
  lemma {:induction false} ShapeAtBreak(s: string)
    requires BreakIndex(s) < |s|
    requires var rest := s[BreakIndex(s) + BreakWidth(s, BreakIndex(s))..];
      WellSplit(SplitLines(rest), LineEnds(rest))
    ensures WellSplit(SplitLines(s), LineEnds(s))
  {
    var i := BreakIndex(s);
    var j := i + BreakWidth(s, i);
    var brk, rest := s[i..j], s[j..];
    SplitLinesAtBreak(s);
    LineEndsAtBreak(s);
    BoundaryAtBreak(s);
    if IsChar(brk, '\r') && rest != [] {
      assert rest[0] == s[j];
      NoNewlineAhead(rest);
    }
    WellSplitCons(s[..i], brk, SplitLines(rest), LineEnds(rest));
  }

  /**
   * `str.splitlines()` round trip: the lines, each followed by its boundary, give back
   * `s`, and the lines with their boundaries have the shape of a split.
   */
  lemma {:induction false} SplitLinesRoundTrip(s: string)
    ensures Interleave(SplitLines(s), LineEnds(s)) == s
    ensures WellSplit(SplitLines(s), LineEnds(s))
    decreases |s|
  {
    if s != [] {
      var i := BreakIndex(s);
      if i == |s| {
        RoundTripOneLine(s);
      } else {
        SplitLinesRoundTrip(s[i + BreakWidth(s, i)..]);
        JoinAtBreak(s);
        ShapeAtBreak(s);
      }
    }
  }

  /** Where the first boundary is, when a line is followed by a boundary or by nothing. */
  lemma {:induction false} BreakIndexAfterLine(line: string, t: string)
    requires IsLine(line) && (t == [] || IsLineBreak(t[0]))
    ensures BreakIndex(line + t) == |line|
    decreases |line|
  {
    if line != [] {
      assert (line + t)[1..] == line[1..] + t;
      BreakIndexAfterLine(line[1..], t);
    } else {
      assert line + t == t;
    }
  }

  /**
   * `SplitLines` is the only split of `s` with that shape: any lines and boundaries of
   * the shape that give back `s` are `SplitLines(s)` and `LineEnds(s)`.
   */
  lemma {:induction false} SplitLinesUnique(s: string, lines: seq<string>, ends: seq<string>)
    requires |lines| == |ends| && WellSplit(lines, ends) && Interleave(lines, ends) == s
    ensures lines == SplitLines(s) && ends == LineEnds(s)
    decreases |lines|
  {
    if lines != [] {
      var line, brk := lines[0], ends[0];
      var rest := Interleave(lines[1..], ends[1..]);
      assert s == line + (brk + rest);
      if brk == [] {
        assert s == line;
        BreakIndexAfterLine(line, []);
      } else {
        BreakIndexAfterLine(line, brk + rest);
        if |lines| > 1 {
          SplitLinesUnique(rest, lines[1..], ends[1..]);
        }
        SplitFirstLine(s, line, brk, rest, lines[1..], ends[1..]);
      }
    }
  }

  /** What a split's shape says of its first line and boundary. */
  lemma {:induction false} WellSplitHead(line: string, brk: string, lines: seq<string>, ends: seq<string>)
    requires |lines| == |ends| && WellSplit([line] + lines, [brk] + ends) && brk != []
    ensures IsLine(line) && IsBoundary(brk) && WellSplit(lines, ends)
    ensures var rest := Interleave(lines, ends);
      IsChar(brk, '\r') ==> rest == [] || rest[0] != '\n'
  {
    assert ([line] + lines)[1..] == lines && ([brk] + ends)[1..] == ends;
    if IsChar(brk, '\r') && lines != [] {
      var next := Interleave(lines[1..], ends[1..]);
      assert Interleave(lines, ends) == lines[0] + ends[0] + next;
      if lines[0] == [] {
        assert Interleave(lines, ends) == ends[0] + next;
        if ends[0] != [] {
          assert Interleave(lines, ends)[0] == ends[0][0];
        }
      } else {
        assert Interleave(lines, ends)[0] == lines[0][0];
      }
    }
  }

  /** A boundary right after the first line is the boundary `SplitLines` finds there. */
  lemma {:induction false} BoundaryWidth(s: string, line: string, brk: string, rest: string)
    requires IsBoundary(brk) && s == line + (brk + rest) && BreakIndex(s) == |line|
    requires IsChar(brk, '\r') ==> rest == [] || rest[0] != '\n'
    ensures BreakWidth(s, |line|) == |brk|
    ensures s[..|line|] == line && s[|line|..|line| + |brk|] == brk && s[|line| + |brk|..] == rest
  {
    var i := |line|;
    assert s[i..] == brk + rest;
    if |brk| == 1 && i + 1 < |s| {
      assert s[i + 1] == (brk + rest)[1];
    }
  }

  /** One step of `SplitLinesUnique`: the first line and boundary are where `SplitLines` puts them. */
  lemma {:induction false} SplitFirstLine(s: string, line: string, brk: string, rest: string,
                                         lines: seq<string>, ends: seq<string>)
    requires |lines| == |ends| && rest == Interleave(lines, ends)
    requires WellSplit([line] + lines, [brk] + ends) && brk != []
    requires s == line + (brk + rest) && BreakIndex(s) == |line|
    requires lines != [] ==> lines == SplitLines(rest) && ends == LineEnds(rest)
    ensures [line] + lines == SplitLines(s) && [brk] + ends == LineEnds(s)
  {
    WellSplitHead(line, brk, lines, ends);
    BoundaryWidth(s, line, brk, rest);
    SplitLinesAtBreak(s);
    LineEndsAtBreak(s);
  }
}
