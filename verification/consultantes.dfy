/**
 * The visitor ("consultantes") text box: free text in which visitors are
 * separated by line breaks or commas, turned into an ordered list of clean
 * entries, one per visitor.
 */
module Consultantes {
  import opened Options
  import opened Text

  /** A clean entry: non-empty, stripped, with no separator inside. */
  predicate IsEntry(e: string) {
    e != [] && NoEdgeSpace(e) && NoComma(e) && NoLineBreak(e)
  }

  /** The characters that end an entry: a comma or any `splitlines` boundary. */
  predicate IsSeparator(c: char) {
    c == ',' || IsLineBreak(c)
  }

  /** Strip every line and drop the blank ones, keeping the order. */
  function Clean(lines: seq<string>): (entries: seq<string>)
    ensures |entries| <= |lines|
  {
    if lines == [] then []
    else
      var e := Strip(lines[0]);
      (if e == [] then [] else [e]) + Clean(lines[1..])
  }

  /** The parser on a present, non-empty text: commas become newlines, then `splitlines`, then `Clean`. */
  function ParseText(s: string): seq<string> {
    Clean(SplitLines(CommasToNewlines(s)))
  }

  /** Cleaning lines that hold no separator gives clean entries. */
  lemma {:induction false} CleanEntries(lines: seq<string>)
    requires forall k :: 0 <= k < |lines| ==> NoComma(lines[k]) && NoLineBreak(lines[k])
    ensures forall k :: 0 <= k < |Clean(lines)| ==> IsEntry(Clean(lines)[k])
  {
    if lines != [] {
      CleanEntries(lines[1..]);
    }
  }

  /** Every entry the parser produces is clean. */
  lemma ParseTextEntries(s: string)
    ensures forall k :: 0 <= k < |ParseText(s)| ==> IsEntry(ParseText(s)[k])
  {
    SplitLinesClean(CommasToNewlines(s));
    CleanEntries(SplitLines(CommasToNewlines(s)));
  }

  /**
   * `parse_consultantes_texto`: `None` and the empty text give no entries;
   * any other text gives its clean entries in order.
   */
  function Parse(texto: Option<string>): (entries: seq<string>)
    ensures texto == None || texto == Some("") ==> entries == []
    ensures forall k :: 0 <= k < |entries| ==> IsEntry(entries[k])
  {
    match texto
    case None => []
    case Some(s) => if s == "" then [] else ParseTextEntries(s); ParseText(s)
  }

  lemma {:induction false} CleanAppend(a: seq<string>, b: seq<string>)
    ensures Clean(a + b) == Clean(a) + Clean(b)
  {
    if a == [] {
      assert a + b == b;
    } else {
      var e := Strip(a[0]);
      var head := if e == [] then [] else [e];
      assert Clean(a + b) == head + Clean(a[1..] + b) by {
        assert (a + b)[0] == a[0];
        assert (a + b)[1..] == a[1..] + b;
      }
      CleanAppend(a[1..], b);
    }
  }

  /** Cleaning two lists that clean alike, behind the same first line, gives the same result. */
  lemma CleanCons(x: string, a: seq<string>, b: seq<string>)
    requires Clean(a) == Clean(b)
    ensures Clean([x] + a) == Clean([x] + b)
  {
    CleanAppend([x], a);
    CleanAppend([x], b);
  }

  /** An empty line disappears when cleaning. */
  lemma CleanDropsEmpty(a: seq<string>)
    ensures Clean([[]] + a) == Clean(a)
  {
    CleanAppend([[]], a);
    assert Clean([[]]) == [];
  }

  /**
   * Python's "\r\n" boundary only saves an empty piece, which cleaning drops
   * anyway: after cleaning, `SplitLines` and `Pieces` agree.
   */
  lemma {:induction false} CleanSplitLines(s: string)
    ensures Clean(SplitLines(s)) == Clean(Pieces(s, IsLineBreak))
    decreases |s|
  {
    var i := FirstBreak(s);
    if i == |s| {
      WithoutBreak(s);
    } else if LineEnd(s, i) == i + 2 {
      CleanSplitLines(s[i + 2..]);
      CleanCrLf(s, i);
    } else {
      CleanSplitLines(s[i + 1..]);
      CleanSingleBreak(s, i);
    }
  }

  /** A text without a break: `SplitLines` drops it when empty, `Pieces` keeps it as one piece. */
  lemma WithoutBreak(s: string)
    requires FirstBreak(s) == |s|
    ensures SplitLines(s) == if s == [] then [] else [s]
    ensures Pieces(s, IsLineBreak) == [s]
  {
  }

  /** The "\r\n" step of `CleanSplitLines`. */
  lemma CleanCrLf(s: string, i: nat)
    requires i < |s| && FirstBreak(s) == i && LineEnd(s, i) == i + 2
    requires Clean(SplitLines(s[i + 2..])) == Clean(Pieces(s[i + 2..], IsLineBreak))
    ensures Clean(SplitLines(s)) == Clean(Pieces(s, IsLineBreak))
  {
    var tail, rest := s[i + 1..], s[i + 2..];
    SplitLinesStep(s, i);
    PiecesUnfold(s, i, IsLineBreak);
    assert Pieces(tail, IsLineBreak) == [[]] + Pieces(rest, IsLineBreak) by {
      assert FirstBreak(tail) == 0;
      assert tail[1..] == rest;
    }
    assert Clean(Pieces(tail, IsLineBreak)) == Clean(SplitLines(rest)) by {
      CleanDropsEmpty(Pieces(rest, IsLineBreak));
    }
    CleanCons(s[..i], SplitLines(rest), Pieces(tail, IsLineBreak));
  }

  /** The step of `CleanSplitLines` at any other break. */
  lemma CleanSingleBreak(s: string, i: nat)
    requires i < |s| && FirstBreak(s) == i && LineEnd(s, i) == i + 1
    requires Clean(SplitLines(s[i + 1..])) == Clean(Pieces(s[i + 1..], IsLineBreak))
    ensures Clean(SplitLines(s)) == Clean(Pieces(s, IsLineBreak))
  {
    var tail := s[i + 1..];
    SplitLinesStep(s, i);
    PiecesUnfold(s, i, IsLineBreak);
    CleanCons(s[..i], SplitLines(tail), Pieces(tail, IsLineBreak));
  }

  /** The parser, stated through `Pieces`. */
  lemma ParseTextPieces(s: string)
    ensures ParseText(s) == Clean(Pieces(CommasToNewlines(s), IsLineBreak))
  {
    CleanSplitLines(CommasToNewlines(s));
  }

  /**
   * Order and separators: text before a separator yields its entries first,
   * then the text after it; commas and every line break act alike.
   */
  lemma ParseSeparator(a: string, c: char, b: string)
    requires IsSeparator(c)
    ensures ParseText(a + [c] + b) == ParseText(a) + ParseText(b)
  {
    var c' := if c == ',' then '\n' else c;
    CommasToNewlinesAppend(a + [c], b);
    CommasToNewlinesAppend(a, [c]);
    assert CommasToNewlines([c]) == [c'];
    var ra, rb := CommasToNewlines(a), CommasToNewlines(b);
    assert CommasToNewlines(a + [c] + b) == ra + [c'] + rb;
    ParseTextPieces(a + [c] + b);
    ParseTextPieces(a);
    ParseTextPieces(b);
    PiecesAppend(ra, c', rb, IsLineBreak);
    CleanAppend(Pieces(ra, IsLineBreak), Pieces(rb, IsLineBreak));
  }

  /** A comma and a newline between the same two texts give the same entries. */
  lemma CommaIsNewline(a: string, b: string)
    ensures ParseText(a + "," + b) == ParseText(a + "\n" + b)
  {
    ParseSeparator(a, ',', b);
    ParseSeparator(a, '\n', b);
  }

  /** Text without a separator is one entry, its stripped self, unless it is blank. */
  lemma ParseSingle(s: string)
    requires NoComma(s) && NoLineBreak(s)
    ensures ParseText(s) == if AllSpace(s) then [] else [Strip(s)]
  {
    assert CommasToNewlines(s) == s;
    assert FirstBreak(s) == |s|;
    ParseTextPieces(s);
  }

  /** A clean entry parses to itself. */
  lemma ParseEntry(e: string)
    requires IsEntry(e)
    ensures ParseText(e) == [e]
  {
    ParseSingle(e);
    StripKeeps(e);
    assert !IsSpace(e[0]);
  }

  /** Joining clean entries with "\n" and parsing gives the same entries back. */
  lemma {:induction false} ParseJoin(entries: seq<string>)
    requires forall k :: 0 <= k < |entries| ==> IsEntry(entries[k])
    ensures ParseText(JoinLines(entries)) == entries
  {
    if entries == [] {
      assert SplitLines([]) == [];
    } else if |entries| == 1 {
      ParseEntry(entries[0]);
    } else {
      var e, rest := entries[0], entries[1..];
      ParseEntry(e);
      ParseJoin(rest);
      assert JoinLines(entries) == e + ['\n'] + JoinLines(rest);
      ParseSeparator(e, '\n', JoinLines(rest));
      assert entries == [e] + rest;
    }
  }

  /** The parser is idempotent: re-parsing its output joined with "\n" changes nothing. */
  lemma ParseIdempotent(texto: Option<string>)
    ensures Parse(Some(JoinLines(Parse(texto)))) == Parse(texto)
  {
    var entries := Parse(texto);
    ParseJoin(entries);
    if entries != [] {
      assert entries[0] != [];
      JoinLinesStartsWith(entries);
    }
  }

  lemma JoinLinesStartsWith(lines: seq<string>)
    requires lines != []
    ensures |JoinLines(lines)| >= |lines[0]|
  {
  }

  /** An entry, a separator, then text with no separator: two entries, the second stripped. */
  lemma ParsePair(a: string, c: char, b: string)
    requires IsEntry(a) && IsSeparator(c) && NoComma(b) && NoLineBreak(b) && !AllSpace(b)
    ensures ParseText(a + [c] + b) == [a, Strip(b)]
  {
    ParseEntry(a);
    ParseSingle(b);
    ParseSeparator(a, c, b);
  }

  /**
   * The placeholder example of the form, "Juan - 3123123\nMaría - 987654": one visitor per line.
   * The two lines are parameters fixed by `requires` so the solver never compares long literals.
   */
  lemma ExampleLines(a: string, b: string)
    requires a == "Juan - 3123123" && b == "María - 987654"
    ensures Parse(Some(a + "\n" + b)) == [a, b]
  {
    ExampleEntry(a);
    ExampleEntry(b);
    StripKeeps(b);
    ParsePair(a, '\n', b);
  }

  /** The two visitors of the placeholder are clean entries. */
  lemma ExampleEntry(e: string)
    requires e == "Juan - 3123123" || e == "María - 987654"
    ensures IsEntry(e) && !IsSpace(e[0])
  {
    assert e[0] != ' ' && e[|e| - 1] != ' ';
  }

  /**
   * The placeholder example of the form, "juan, maria": spaces around names are stripped.
   * As in `ExampleLines`, the literals are parameters fixed by `requires` to keep the proof cheap.
   */
  lemma ExampleCommas(a: string, b: string)
    requires a == "juan" && b == " maria"
    ensures Parse(Some(a + "," + b)) == ["juan", "maria"]
  {
    assert IsEntry(a);
    assert !IsSpace(b[1]);
    ParsePair(a, ',', b);
    StripExample(b);
  }

  lemma StripExample(b: string)
    requires b == " maria"
    ensures Strip(b) == "maria"
  {
    assert LeadingSpace(b) == 1 by {
      assert b[1..] == "maria";
      assert LeadingSpace(b) == 1 + LeadingSpace(b[1..]);
    }
    assert TrailingCut(b, 1, |b|) == |b|;
    assert b[1..|b|] == "maria";
  }
}
