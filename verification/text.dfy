/**
 * The pieces of Python's `str` that the visitor-text parser relies on:
 * `str.isspace`, `str.strip()`, `str.replace(",", "\n")` and `str.splitlines()`.
 */
module Text {

  /** The line boundaries recognised by `str.splitlines`. */
  predicate IsLineBreak(c: char) {
    || c == '\n' || c == '\r'
    || c == '\U{000B}' || c == '\U{000C}'
    || c == '\U{001C}' || c == '\U{001D}' || c == '\U{001E}'
    || c == '\U{0085}' || c == '\U{2028}' || c == '\U{2029}'
  }

  /** The characters `str.isspace` accepts, which `str.strip()` removes. */
  predicate IsSpace(c: char) {
    || IsLineBreak(c)
    || c == ' ' || c == '\t' || c == '\U{001F}'
    || c == '\U{00A0}' || c == '\U{1680}'
    || ('\U{2000}' <= c <= '\U{200A}')
    || c == '\U{202F}' || c == '\U{205F}' || c == '\U{3000}'
  }

  predicate AllSpace(s: string) {
    forall i :: 0 <= i < |s| ==> IsSpace(s[i])
  }

  /** Neither end of `s` is whitespace: what `strip` leaves behind. */
  predicate NoEdgeSpace(s: string) {
    s == [] || (!IsSpace(s[0]) && !IsSpace(s[|s| - 1]))
  }

  /** The number of whitespace characters `s` starts with. */
  function LeadingSpace(s: string): (n: nat)
    ensures n <= |s|
    ensures forall k :: 0 <= k < n ==> IsSpace(s[k])
    ensures n < |s| ==> !IsSpace(s[n])
  {
    if s != [] && IsSpace(s[0]) then 1 + LeadingSpace(s[1..]) else 0
  }

  /** Where `s[lo..hi]` ends once its trailing whitespace is cut off. */
  function TrailingCut(s: string, lo: nat, hi: nat): (j: nat)
    requires lo <= hi <= |s|
    ensures lo <= j <= hi
    ensures forall k :: j <= k < hi ==> IsSpace(s[k])
    ensures j > lo ==> !IsSpace(s[j - 1])
    decreases hi
  {
    if hi > lo && IsSpace(s[hi - 1]) then TrailingCut(s, lo, hi - 1) else hi
  }

  /**
   * Python's `s.strip()`: what is left of `s` after removing the whitespace
   * on both sides; only whitespace is removed (`StripRemovesOnlySpace`).
   */
  function Strip(s: string): (r: string)
    ensures |r| <= |s|
    ensures NoEdgeSpace(r)
    ensures r == [] <==> AllSpace(s)
    ensures NoComma(s) ==> NoComma(r)
    ensures NoLineBreak(s) ==> NoLineBreak(r)
  {
    var i := LeadingSpace(s);
    var j := TrailingCut(s, i, |s|);
    assert i == j ==> AllSpace(s);
    s[i..j]
  }

  /** `Strip(s)` is the infix of `s` after its leading whitespace, with only whitespace after it. */
  lemma StripRemovesOnlySpace(s: string)
    ensures var i := LeadingSpace(s);
      && i + |Strip(s)| <= |s|
      && Strip(s) == s[i..i + |Strip(s)|]
      && (forall k :: i + |Strip(s)| <= k < |s| ==> IsSpace(s[k]))
  {
  }

  /** Stripping a string that has no whitespace at its ends changes nothing. */
  lemma StripKeeps(s: string)
    requires NoEdgeSpace(s)
    ensures Strip(s) == s
  {
  }

  /** `strip` is idempotent. */
  lemma StripIdempotent(s: string)
    ensures Strip(Strip(s)) == Strip(s)
  {
    StripKeeps(Strip(s));
  }

  /** Python's `s.replace(",", "\n")`. */
  function CommasToNewlines(s: string): (r: string)
    ensures |r| == |s| && NoComma(r)
    ensures NoComma(s) ==> r == s
  {
    if s == [] then [] else [if s[0] == ',' then '\n' else s[0]] + CommasToNewlines(s[1..])
  }

  /** Every comma becomes a "\n" and every other character stays. */
  lemma {:induction false} CommasToNewlinesAt(s: string, i: nat)
    requires i < |s|
    ensures CommasToNewlines(s)[i] == if s[i] == ',' then '\n' else s[i]
  {
    if i > 0 {
      CommasToNewlinesAt(s[1..], i - 1);
    }
  }

  /** Replacing commas distributes over concatenation. */
  lemma {:induction false} CommasToNewlinesAppend(a: string, b: string)
    ensures CommasToNewlines(a + b) == CommasToNewlines(a) + CommasToNewlines(b)
  {
    if a == [] {
      assert a + b == b;
    } else {
      assert (a + b)[1..] == a[1..] + b;
      CommasToNewlinesAppend(a[1..], b);
    }
  }

  /** Index of the first character of `s` that satisfies `p`, or `|s|` when there is none. */
  function FirstWhere(s: string, p: char -> bool): (i: nat)
    ensures i <= |s|
    ensures i < |s| ==> p(s[i])
  {
    if s == [] || p(s[0]) then 0 else 1 + FirstWhere(s[1..], p)
  }

  /** Nothing before the first match satisfies `p`. */
  lemma {:induction false} FirstWhereBefore(s: string, p: char -> bool)
    ensures forall k :: 0 <= k < FirstWhere(s, p) ==> !p(s[k])
  {
    if s != [] && !p(s[0]) {
      FirstWhereBefore(s[1..], p);
      forall k | 1 <= k < FirstWhere(s, p)
        ensures !p(s[k])
      {
        assert s[k] == s[1..][k - 1];
      }
    }
  }

  /** Index of the first line break in `s`, or `|s|` when there is none. */
  function FirstBreak(s: string): (i: nat)
    ensures i <= |s|
    ensures i < |s| ==> IsLineBreak(s[i])
  {
    FirstWhere(s, IsLineBreak)
  }

  predicate NoComma(s: string) {
    forall i :: 0 <= i < |s| ==> s[i] != ','
  }

  predicate NoLineBreak(s: string) {
    forall i :: 0 <= i < |s| ==> !IsLineBreak(s[i])
  }

  /**
   * Python's `s.splitlines()`: the lines of `s` without their terminators.
   * "\r\n" is a single boundary, a final terminator does not open an empty
   * last line, and the empty string has no lines.
   */
  function SplitLines(s: string): (lines: seq<string>)
    ensures s == [] <==> lines == []
    decreases |s|
  {
    if s == [] then []
    else
      var i := FirstBreak(s);
      if i == |s| then [s] else [s[..i]] + SplitLines(s[LineEnd(s, i)..])
  }

  /** Where the next line starts after the break at `i`: "\r\n" is one boundary of two characters. */
  function LineEnd(s: string, i: nat): (j: nat)
    requires i < |s|
    ensures i + 1 <= j <= |s|
    ensures j == i + 2 <==> s[i] == '\r' && i + 1 < |s| && s[i + 1] == '\n'
  {
    if s[i] == '\r' && i + 1 < |s| && s[i + 1] == '\n' then i + 2 else i + 1
  }

  /** One step of `SplitLines` at the first break `i`: the line before it, then the rest. */
  lemma SplitLinesStep(s: string, i: nat)
    requires i < |s| && FirstBreak(s) == i
    ensures SplitLines(s) == [s[..i]] + SplitLines(s[LineEnd(s, i)..])
  {
  }

  /** No line holds a break, and no line of a comma-free text holds a comma. */
  lemma {:induction false} SplitLinesClean(s: string)
    ensures forall k :: 0 <= k < |SplitLines(s)| ==> NoLineBreak(SplitLines(s)[k])
    ensures NoComma(s) ==> forall k :: 0 <= k < |SplitLines(s)| ==> NoComma(SplitLines(s)[k])
    decreases |s|
  {
    if s != [] {
      var i := FirstBreak(s);
      FirstWhereBefore(s, IsLineBreak);
      if i < |s| {
        SplitLinesStep(s, i);
        SplitLinesClean(s[LineEnd(s, i)..]);
      }
    }
  }

  /** Lines glued back together with "\n", the inverse of `SplitLines`. */
  function JoinLines(lines: seq<string>): (s: string)
    ensures lines == [] ==> s == []
  {
    if lines == [] then []
    else if |lines| == 1 then lines[0]
    else lines[0] + "\n" + JoinLines(lines[1..])
  }

  /**
   * Splitting undoes joining, as long as no line holds a break and the last
   * line is not empty (Python drops a trailing empty line).
   */
  lemma {:induction false} SplitJoinLines(lines: seq<string>)
    requires forall k :: 0 <= k < |lines| ==> NoLineBreak(lines[k])
    requires lines != [] ==> lines[|lines| - 1] != []
    ensures SplitLines(JoinLines(lines)) == lines
  {
    if |lines| == 1 {
      assert FirstBreak(lines[0]) == |lines[0]|;
    } else if |lines| > 1 {
      SplitJoinLines(lines[1..]);
      JoinLinesNonEmpty(lines[1..]);
      SplitLinesCons(lines[0], JoinLines(lines[1..]));
    }
  }

  /** "\r\n" is a single boundary: `"a\r\nb".splitlines()` is two lines, not three. */
  lemma SplitLinesCrLf(x: char, y: char)
    requires !IsLineBreak(x) && !IsLineBreak(y)
    ensures SplitLines([x, '\r', '\n', y]) == [[x], [y]]
  {
    var s := [x, '\r', '\n', y];
    FirstBreakOf([x], ['\r', '\n', y]);
    assert s == [x] + ['\r', '\n', y];
    assert s[3..] == [y] == [y] + [];
    FirstBreakOf([y], []);
  }

  /** "\n\r" is two boundaries, and so is "\n\n": the line between them is empty. */
  lemma SplitLinesBlankLine(x: char, y: char)
    requires !IsLineBreak(x) && !IsLineBreak(y)
    ensures SplitLines([x, '\n', '\r', y]) == [[x], [], [y]]
    ensures SplitLines([x, '\n', '\n', y]) == [[x], [], [y]]
  {
    BlankLine(x, '\r', y);
    BlankLine(x, '\n', y);
  }

  /** A break, then another break `c`: the line between them is empty. */
  lemma BlankLine(x: char, c: char, y: char)
    requires !IsLineBreak(x) && !IsLineBreak(y) && IsLineBreak(c)
    ensures SplitLines([x, '\n', c, y]) == [[x], [], [y]]
  {
    var s, t := [x, '\n', c, y], [c, y];
    FirstBreakOf([x], ['\n', c, y]);
    assert s == [x] + ['\n', c, y];
    SplitLinesStep(s, 1);
    assert s[2..] == t;
    SplitLinesStep(t, 0);
    assert t[1..] == [y] == [y] + [];
    FirstBreakOf([y], []);
  }

  /** A final terminator does not open an empty last line: `"a\n".splitlines()` is one line. */
  lemma SplitLinesTrailing(x: char)
    requires !IsLineBreak(x)
    ensures SplitLines([x, '\n']) == [[x]]
  {
    var s := [x, '\n'];
    FirstBreakOf([x], ['\n']);
    assert s == [x] + ['\n'];
    assert s[2..] == [];
  }

  /** A lone terminator ends one empty line: `"\n".splitlines()` is `[""]`. */
  lemma SplitLinesLoneBreak()
    ensures SplitLines("\n") == [""]
  {
    assert FirstBreak("\n") == 0;
    assert "\n"[1..] == [];
  }

  /** The first break after a break-free prefix. */
  lemma FirstBreakOf(a: string, b: string)
    requires NoLineBreak(a)
    ensures FirstBreak(a + b) == |a| + FirstBreak(b)
  {
    FirstWherePrefix(a, b, IsLineBreak);
  }

  /** A break-free line followed by "\n" is split off as one line. */
  lemma SplitLinesCons(head: string, rest: string)
    requires NoLineBreak(head) && rest != []
    ensures SplitLines(head + "\n" + rest) == [head] + SplitLines(rest)
  {
    var s := head + "\n" + rest;
    assert FirstBreak(s) == |head| by {
      FirstWherePrefix(head, "\n" + rest, IsLineBreak);
      assert s == head + ("\n" + rest);
    }
    assert s[..|head|] == head;
    assert s[|head| + 1..] == rest;
    assert s[|head|] == '\n';
  }

  lemma {:induction false} JoinLinesNonEmpty(lines: seq<string>)
    requires lines != [] && lines[|lines| - 1] != []
    ensures JoinLines(lines) != []
  {
    if |lines| > 1 {
      JoinLinesNonEmpty(lines[1..]);
    }
  }

  /** A character that comes after a prefix without `p` is found after that prefix. */
  lemma {:induction false} FirstWherePrefix(a: string, b: string, p: char -> bool)
    requires forall k :: 0 <= k < |a| ==> !p(a[k])
    ensures FirstWhere(a + b, p) == |a| + FirstWhere(b, p)
  {
    if a != [] {
      assert (a + b)[1..] == a[1..] + b;
      FirstWherePrefix(a[1..], b, p);
    } else {
      assert a + b == b;
    }
  }

  /** A character with `p` inside `a` stays the first one when text is appended. */
  lemma {:induction false} FirstWhereExtend(a: string, t: string, p: char -> bool)
    requires FirstWhere(a, p) < |a|
    ensures FirstWhere(a + t, p) == FirstWhere(a, p)
  {
    if !p(a[0]) {
      assert (a + t)[1..] == a[1..] + t;
      FirstWhereExtend(a[1..], t, p);
    }
  }

  /**
   * `s` cut at EVERY character satisfying `p`: one more piece than there are
   * such characters. With `p` the line breaks this is `splitlines` without
   * its own "\r\n" and trailing-break rules, a tool for reasoning about
   * `SplitLines`.
   */
  function Pieces(s: string, p: char -> bool): (ps: seq<string>)
    ensures |ps| >= 1
    decreases |s|
  {
    var i := FirstWhere(s, p);
    if i == |s| then [s] else [s[..i]] + Pieces(s[i + 1..], p)
  }

  /** Cutting at a separator character splits the pieces at that point. */
  lemma {:induction false} PiecesAppend(a: string, c: char, b: string, p: char -> bool)
    requires p(c)
    ensures Pieces(a + [c] + b, p) == Pieces(a, p) + Pieces(b, p)
    decreases |a|
  {
    var i := FirstWhere(a, p);
    if i == |a| {
      PiecesAppendBase(a, c, b, p);
    } else {
      PiecesAppend(a[i + 1..], c, b, p);
      PiecesAppendStep(a, i, c, b, p);
    }
  }

  /** `PiecesAppend` when `a` has no separator: `a` is the first piece. */
  lemma PiecesAppendBase(a: string, c: char, b: string, p: char -> bool)
    requires FirstWhere(a, p) == |a| && p(c)
    ensures Pieces(a + [c] + b, p) == Pieces(a, p) + Pieces(b, p)
  {
    var s := a + [c] + b;
    assert FirstWhere(s, p) == |a| by {
      FirstWhereBefore(a, p);
      FirstWherePrefix(a, [c] + b, p);
      assert s == a + ([c] + b);
    }
    assert s[..|a|] == a;
    assert s[|a| + 1..] == b;
  }

  /** The inductive step of `PiecesAppend`, at the first separator `i` of `a`. */
  lemma PiecesAppendStep(a: string, i: nat, c: char, b: string, p: char -> bool)
    requires i < |a| && FirstWhere(a, p) == i && p(c)
    requires Pieces(a[i + 1..] + [c] + b, p) == Pieces(a[i + 1..], p) + Pieces(b, p)
    ensures Pieces(a + [c] + b, p) == Pieces(a, p) + Pieces(b, p)
  {
    PiecesCutAppend(a, i, c, b, p);
    PiecesUnfold(a, i, p);
    AppendAssoc([a[..i]], Pieces(a[i + 1..], p), Pieces(b, p));
  }

  /** The first cut of `a + [c] + b` is the first cut of `a`. */
  lemma PiecesCutAppend(a: string, i: nat, c: char, b: string, p: char -> bool)
    requires i < |a| && FirstWhere(a, p) == i
    ensures Pieces(a + [c] + b, p) == [a[..i]] + Pieces(a[i + 1..] + [c] + b, p)
  {
    var t := [c] + b;
    PiecesCut(a, i, t, p);
    assert a + [c] + b == a + t;
    assert a[i + 1..] + [c] + b == a[i + 1..] + t;
  }

  /** The first cut of `a + t` is the first cut of `a`, whatever follows it. */
  lemma PiecesCut(a: string, i: nat, t: string, p: char -> bool)
    requires i < |a| && FirstWhere(a, p) == i
    ensures Pieces(a + t, p) == [a[..i]] + Pieces(a[i + 1..] + t, p)
  {
    FirstWhereExtend(a, t, p);
    PiecesUnfold(a + t, i, p);
    SliceOfAppend(a, t, i + 1);
    assert (a + t)[..i] == a[..i];
  }

  /** Concatenation of piece lists is associative (spelled out for the solver). */
  lemma AppendAssoc(x: seq<string>, y: seq<string>, z: seq<string>)
    ensures x + (y + z) == (x + y) + z
  {
  }

  /** One cut of `Pieces` at its first separator `i`. */
  lemma PiecesUnfold(s: string, i: nat, p: char -> bool)
    requires i < |s| && FirstWhere(s, p) == i
    ensures Pieces(s, p) == [s[..i]] + Pieces(s[i + 1..], p)
  {
    assert i != |s|;
  }

  /** A suffix of `a + t` that starts inside `a`. */
  lemma SliceOfAppend(a: string, t: string, i: nat)
    requires i <= |a|
    ensures (a + t)[i..] == a[i..] + t
  {
  }
}
