// The text page of a Word document: a greedy word wrap, then a drawing
// loop that stops at the bottom margin.

module DocLayout {

  import opened JsText

  const FontSize: real := 12.0
  const Margin: real := 50.0
  const MaxWidth: real := 595.0 - 2.0 * Margin

  /** The width test of the wrap: `testLine.length * (fontSize * 0.6) >
      maxWidth`, each character counted as 0.6 of the font size. */
  predicate TooWide(len: nat)
  {
    (len as real) * (FontSize * 0.6) > MaxWidth
  }

  /** In whole characters the test reads `len >= 69`. */
  lemma TooWideIff(len: nat)
    ensures TooWide(len) <==> len >= 69
  {
  }

  const MaxLineLength: nat := 68

  /** The wrap loop's variables: the finished lines and the line being
      filled. */
  datatype WrapState = WrapState(lines: seq<string>, current: string)

  /** One round of the wrap loop for `word`. */
  function Step(st: WrapState, word: string): WrapState
  {
    var test := st.current + (if st.current != "" then " " else "") + word;
    if TooWide(|test|) then
      if st.current != "" then WrapState(st.lines + [st.current], word)
      else WrapState(st.lines + [word], "")
    else WrapState(st.lines, test)
  }

  /** The loop state after the given words. */
  function Fold(words: seq<string>): WrapState
    decreases |words|
  {
    if words == [] then WrapState([], "")
    else Step(Fold(words[..|words| - 1]), words[|words| - 1])
  }

  /** The lines once the last, partial line is pushed. */
  function Flush(st: WrapState): seq<string>
  {
    if st.current != "" then st.lines + [st.current] else st.lines
  }

  /** The lines the wrap produces for `text` split at single spaces. */
  function Wrap(text: string): seq<string>
  {
    Flush(Fold(Split(text, ' ')))
  }

  /** The wrap loop of `addDocToPDF`. */
  method WrapText(text: string) returns (lines: seq<string>)
    ensures lines == Wrap(text)
  {
    var words := Split(text, ' ');
    lines := [];
    var current := "";
    for i := 0 to |words|
      invariant WrapState(lines, current) == Fold(words[..i])
    {
      assert words[..i + 1][..i] == words[..i];
      var word := words[i];
      var test := current + (if current != "" then " " else "") + word;
      if |test| as real * (FontSize * 0.6) > MaxWidth {
        if current != "" {
          lines := lines + [current];
          current := word;
        } else {
          lines := lines + [word];
        }
      } else {
        current := test;
      }
    }
    assert words[..|words|] == words;
    if current != "" {
      lines := lines + [current];
    }
  }

  /** A line is acceptable when it is not empty and fits, or is one word
      too long to break. */
  predicate LineFits(line: string)
  {
    line != "" && (|line| <= MaxLineLength || ' ' !in line)
  }

  predicate StateFits(st: WrapState)
  {
    (forall i :: 0 <= i < |st.lines| ==> LineFits(st.lines[i]))
    && (st.current == "" || LineFits(st.current))
  }

  lemma {:induction false} FoldFits(words: seq<string>)
    requires forall i :: 0 <= i < |words| ==> ' ' !in words[i]
    ensures StateFits(Fold(words))
    decreases |words|
  {
    if words != [] {
      FoldFits(words[..|words| - 1]);
      TooWideIff(|Fold(words[..|words| - 1]).current| + 1 + |words[|words| - 1]|);
      TooWideIff(|words[|words| - 1]|);
    }
  }

  /** Every wrapped line is non-empty and at most 68 characters long, unless
      it is a single word too long for a line of its own. */
  lemma WrapLinesFit(text: string)
    ensures forall i :: 0 <= i < |Wrap(text)| ==> LineFits(Wrap(text)[i])
  {
    SplitPartsFree(text, ' ');
    FoldFits(Split(text, ' '));
  }

  lemma {:induction false} JoinSnoc(parts: seq<string>, p: string, sep: string)
    ensures Join(parts + [p], sep) == if parts == [] then p else Join(parts, sep) + sep + p
  {
    assert (parts + [p])[..|parts|] == parts;
  }

  /** One round with a non-empty word adds that word, after a space, to
      the joined text. */
  lemma StepKeepsText(st: WrapState, w: string)
    requires w != ""
    ensures Flush(Step(st, w)) != []
    ensures Join(Flush(Step(st, w)), " ")
            == if Flush(st) == [] then w else Join(Flush(st), " ") + " " + w
  {
    var test := st.current + (if st.current != "" then " " else "") + w;
    if st.current == "" {
      assert test == w;
      JoinSnoc(st.lines, w, " ");
    } else if TooWide(|test|) {
      JoinSnoc(st.lines + [st.current], w, " ");
    } else {
      JoinSnoc(st.lines, st.current, " ");
      JoinSnoc(st.lines, test, " ");
    }
  }

  /** With no empty words, the flushed lines joined by spaces are the words
      joined by spaces. */
  lemma {:induction false} FoldKeepsText(words: seq<string>)
    requires forall i :: 0 <= i < |words| ==> words[i] != ""
    ensures Join(Flush(Fold(words)), " ") == Join(words, " ")
    ensures Flush(Fold(words)) == [] <==> words == []
    decreases |words|
  {
    if words != [] {
      var init := words[..|words| - 1];
      var w := words[|words| - 1];
      FoldKeepsText(init);
      StepKeepsText(Fold(init), w);
      JoinSnoc(init, w, " ");
      assert words == init + [w];
    }
  }

  /** When the text has no leading, trailing or doubled spaces, joining
      the wrapped lines with single spaces gives the text back. */
  lemma WrapKeepsText(text: string)
    requires forall i :: 0 <= i < |Split(text, ' ')| ==> Split(text, ' ')[i] != ""
    ensures Join(Wrap(text), " ") == text
  {
    FoldKeepsText(Split(text, ' '));
    SplitJoin(text, ' ');
  }

  // ---- drawing ----

  /** Positions are kept in tenths of a point: the first line is drawn at
      842 - 50 = 792 points, each line 12 * 1.2 = 14.4 points below the
      last, and drawing stops once the position falls below the 50-point
      margin. */
  const TopTenths: int := 7920
  const StepTenths: int := 144
  const MarginTenths: int := 500

  /** At most this many lines fit on the page. */
  const MaxLines: nat := 52

  datatype DrawnLine = DrawnLine(text: string, yTenths: int)

  /** The lines drawn, in closed form: the first 52 lines at their
      positions, every later line dropped. */
  function DrawnLines(lines: seq<string>): (r: seq<DrawnLine>)
    ensures |r| <= MaxLines && |r| <= |lines|
  {
    var n := if |lines| < MaxLines then |lines| else MaxLines;
    seq(n, i requires 0 <= i < n => DrawnLine(lines[i], TopTenths - StepTenths * i))
  }

  /** The drawing loop of `addDocToPDF`. */
  method DrawText(lines: seq<string>) returns (drawn: seq<DrawnLine>)
    ensures drawn == DrawnLines(lines)
  {
    drawn := [];
    var y := TopTenths;
    var i := 0;
    while i < |lines|
      invariant 0 <= i <= |lines| && i <= MaxLines
      invariant y == TopTenths - StepTenths * i
      invariant drawn == DrawnLines(lines[..i])
    {
      if y < MarginTenths {
        break;
      }
      drawn := drawn + [DrawnLine(lines[i], y)];
      y := y - StepTenths;
      i := i + 1;
      assert lines[..i][..i - 1] == lines[..i - 1];
    }
    assert i == |lines| || i == MaxLines;
    assert drawn == DrawnLines(lines) by {
      if i < |lines| {
        assert forall k :: 0 <= k < MaxLines ==> lines[..i][k] == lines[k];
      } else {
        assert lines[..i] == lines;
      }
    }
  }

  /** What is drawn is the text's first lines, in order, each inside the
      margins; the page holds 52 lines, and any line after the 52nd is
      dropped. */
  lemma DrawnLinesOnPage(lines: seq<string>)
    ensures |DrawnLines(lines)| == if |lines| <= MaxLines then |lines| else MaxLines
    ensures forall i :: 0 <= i < |DrawnLines(lines)| ==>
              DrawnLines(lines)[i].text == lines[i]
              && MarginTenths <= DrawnLines(lines)[i].yTenths <= TopTenths
    ensures TopTenths - StepTenths * (MaxLines as int) < MarginTenths
  {
  }
}
