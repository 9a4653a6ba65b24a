/**
 * What `NodeGenerator`'s line structurer does to a segment and to the whole printed statement:
 * how it counts and redistributes a run of trailing `)`, how it moves the indentation counter,
 * and that the laid-out code holds exactly the characters of the printed code.
 */
module NodeGeneratorProperties {
  import opened PhpString
  import opened Lines
  import opened NodeGenerator

  /** `m` closing parentheses. */
  function Parens(m: nat): (s: string)
    ensures |s| == m
    ensures forall i :: 0 <= i < m ==> s[i] == ')'
  {
    seq(m, _ => ')')
  }

  /** `TrailingParens` is the length of the run of `)` that ends the line, and the run is maximal. */
  lemma {:induction false} TrailingParensShape(line: string)
    ensures line[|line| - TrailingParens(line)..] == Parens(TrailingParens(line))
    ensures TrailingParens(line) < |line| ==> line[|line| - 1 - TrailingParens(line)] != ')'
    decreases |line|
  {
    var k := TrailingParens(line);
    if k > 0 {
      var init := line[..|line| - 1];
      TrailingParensShape(init);
      assert k == 1 + TrailingParens(init);
      assert line[|line| - k..] == init[|init| - (k - 1)..] + [line[|line| - 1]];
      assert Parens(k - 1) + [')'] == Parens(k);
      if k < |line| {
        assert line[|line| - 1 - k] == init[|init| - 1 - (k - 1)];
      }
    } else {
      assert line[|line|..] == [] == Parens(0);
    }
  }

  /** A line that ends in exactly `m` parentheses has `m` trailing parentheses. */
  lemma {:induction false} TrailingParensExact(s: string, m: nat)
    requires m <= |s| && s[|s| - m..] == Parens(m)
    requires m < |s| ==> s[|s| - 1 - m] != ')'
    ensures TrailingParens(s) == m
    decreases m
  {
    if m > 0 {
      var init := s[..|s| - 1];
      assert s[|s| - 1] == s[|s| - m..][m - 1];
      var run := init[|init| - (m - 1)..];
      assert run == Parens(m - 1) by {
        forall j | 0 <= j < |run|
          ensures run[j] == ')'
        {
          assert run[j] == s[|s| - m..][j];
        }
      }
      if m - 1 < |init| {
        assert init[|init| - 1 - (m - 1)] == s[|s| - 1 - m];
      }
      TrailingParensExact(init, m - 1);
    } else if s != [] {
      assert s[|s| - 1] != ')';
    }
  }

  /**
   * A segment that is a run of three or more `)` and nothing else: the counting loop of
   * `structuredLine` goes round it twice, by negative offsets.
   */
  predicate LongParenRun(line: string) {
    |line| >= 3 && TrailingParens(line) == |line|
  }

  predicate NoLongParenRun(lines: seq<string>) {
    forall i :: 0 <= i < |lines| ==> !LongParenRun(lines[i])
  }

  /** The lone `)` rows put together are as many `)`. */
  lemma {:induction false} ClosingTexts(position: int, m: nat)
    ensures Concat(Texts(ClosingRows(position, m))) == Parens(m)
    decreases m
  {
    if m > 0 {
      ClosingTexts(position, m - 1);
      ClosingRowsSnoc(position, m - 1);
      TextsSnoc(ClosingRows(position, m - 1), Row(position - 1 - (m - 1), ")"));
      ConcatAppend(Texts(ClosingRows(position, m - 1)), [")"]);
      assert Concat([")"]) == ")" + "";
      assert Parens(m - 1) + ")" == Parens(m);
    }
  }

  /**
   * A segment with something other than `)` in it: with `k` trailing `)`, the counting loop
   * finds exactly `k`; for `k > 2` the first row keeps the rest of the segment and exactly two
   * `)`, and `k - 2` rows of a lone `)` follow, each one level further out; otherwise the
   * segment is one row.
   */
  lemma LineShape(line: string, position: int)
    requires TrailingParens(line) < |line|
    ensures BraceCount(line) == TrailingParens(line)
    ensures var k := TrailingParens(line); var rows := LineRows(line, position);
      && (k > 2 ==>
        && |rows| == k - 1
        && rows[0] == Row(position, line[..|line| - (k - 2)])
        && TrailingParens(rows[0].text) == 2
        && rows[0].text + Parens(k - 2) == line
        && (forall i :: 1 <= i < |rows| ==> rows[i] == Row(position - i, ")")))
      && (k <= 2 ==> rows == [Row(position, line)])
  {
    var k := TrailingParens(line);
    TrailingParensShape(line);
    if k > 2 {
      var head := line[..|line| - (k - 2)];
      assert head[|head| - 2..] == line[|line| - k..][..2];
      assert head[|head| - 1 - 2] == line[|line| - 1 - k];
      TrailingParensExact(head, 2);
      assert line[|line| - (k - 2)..] == line[|line| - k..][2..];
      assert head + line[|line| - (k - 2)..] == line;
    }
  }

  /** Outside a long run of `)`, the rows emitted for a segment hold the segment, in order. */
  lemma LineKeepsText(line: string, position: int)
    requires !LongParenRun(line)
    ensures Concat(Texts(LineRows(line, position))) == line
    ensures '\n' !in line ==> RowsUnbroken(LineRows(line, position))
  {
    var b := BraceCount(line);
    var head := if b > 2 then DropLast(line, b - 2) else line;
    var m := Closing(b);
    TextsAppend([Row(position, head)], ClosingRows(position, m));
    assert Texts([Row(position, head)]) == [head];
    ConcatAppend([head], Texts(ClosingRows(position, m)));
    assert Concat([head]) == head + "";
    ClosingTexts(position, m);
    TrailingParensShape(line);
    if TrailingParens(line) < |line| {
      LineShape(line, position);
      if b > 2 {
        assert head + Parens(m) == line;
      }
    } else if |line| == 2 {
      assert line == Parens(2);
    }
  }

  /**
   * A segment of three `)`: the loop counts six, so the segment becomes an empty row
   * followed by four rows of a lone `)`, one more `)` than the segment had.
   */
  lemma ParenOnlySegment(position: int)
    ensures LineRows(")))", position) == [Row(position, "")] + ClosingRows(position, 4)
    ensures Concat(Texts(LineRows(")))", position))) == Parens(4)
  {
    var line := ")))";
    assert line[..2] == "))" && line[..1] == ")" && line[..0] == "";
    assert TrailingParens(line) == 3;
    assert BraceCount(line) == 6;
    TextsAppend([Row(position, "")], ClosingRows(position, 4));
    assert Texts([Row(position, "")]) == [""];
    ConcatAppend([""], Texts(ClosingRows(position, 4)));
    assert Concat([""]) == "";
    ClosingTexts(position, 4);
  }

  /**
   * The indentation counter after a segment: raised by one exactly when the segment is an `->add`
   * and the last structured line opened a scope, then lowered once per lone `)` row.
   */
  lemma AdvanceDepth(line: string, st: State)
    requires TrailingParens(line) < |line|
    ensures var k := TrailingParens(line);
      Advance(line, st).position + (if k > 2 then k - 2 else 0)
        == (if StartsWith(line, "->add") && OpensScope(LastStructured(st.rows)) then st.position + 1 else st.position)
    ensures |Advance(line, st).rows| == |st.rows| + 1 + (if TrailingParens(line) > 2 then TrailingParens(line) - 2 else 0)
  {
    LineShape(line, Opened(line, LastStructured(st.rows), st.position));
  }

  /** One step of the scan appends the rows of the segment, at the level `position` it reached. */
  lemma ScanRows(lines: seq<string>, n: nat) returns (position: int)
    requires 0 < n <= |lines|
    ensures Scan(lines, n).rows == Scan(lines, n - 1).rows + LineRows(lines[n - 1], position)
  {
    var st := Scan(lines, n - 1);
    position := Opened(lines[n - 1], LastStructured(st.rows), st.position);
  }

  lemma StepKeepsText(rows: seq<Row>, rows': seq<Row>, line: string, position: int)
    requires rows' == rows + LineRows(line, position)
    requires RowsUnbroken(rows) && '\n' !in line && !LongParenRun(line)
    ensures Concat(Texts(rows')) == Concat(Texts(rows)) + line
    ensures RowsUnbroken(rows')
  {
    LineKeepsText(line, position);
    RowsAppend(rows, LineRows(line, position));
  }

  /** The scan keeps every character of the segments, in order, and adds no line break. */
  lemma {:induction false} ScanKeepsText(lines: seq<string>, n: nat)
    requires n <= |lines| && Unbroken(lines) && NoLongParenRun(lines)
    ensures Concat(Texts(Scan(lines, n).rows)) == Concat(lines[..n])
    ensures RowsUnbroken(Scan(lines, n).rows)
    decreases n
  {
    if n == 0 {
      assert lines[..0] == [];
    } else {
      ScanKeepsText(lines, n - 1);
      var st := Scan(lines, n - 1);
      var line := lines[n - 1];
      var p := ScanRows(lines, n);
      StepKeepsText(st.rows, Scan(lines, n).rows, line, p);
      ConcatPrefix(lines, n);
    }
  }

  /** Appending `;` to the last row appends it to the rows' text. */
  lemma TerminatedText(rows: seq<Row>)
    requires rows != [] && RowsUnbroken(rows)
    ensures Concat(Texts(Terminated(rows))) == Concat(Texts(rows)) + ";"
    ensures RowsUnbroken(Terminated(rows))
  {
    var init := rows[..|rows| - 1];
    var last := rows[|rows| - 1];
    assert rows == init + [last];
    TextsSnoc(init, last);
    TextsSnoc(init, Row(last.indent, last.text + ";"));
    ConcatAppend(Texts(init), [last.text]);
    ConcatAppend(Texts(init), [last.text + ";"]);
    assert Concat([last.text]) == last.text + "";
    assert Concat([last.text + ";"]) == last.text + ";" + "";
    assert '\n' !in last.text + ";";
    assert RowsUnbroken(Terminated(rows)) by {
      forall i | 0 <= i < |Terminated(rows)|
        ensures '\n' !in Terminated(rows)[i].text
      {
        if i < |init| {
          assert Terminated(rows)[i] == rows[i];
        }
      }
    }
  }

  /**
   * The laid-out code holds the printed code without its last character and its line breaks,
   * and then the `;` that `structureCode` appends; apart from indentation and line breaks the
   * output is that text.
   */
  lemma StructuredRowsKeepText(code: string)
    requires NoLongParenRun(GetLinesByCode(code))
    ensures Concat(Texts(StructuredRows(code))) == Remove(DropLast(code, 1), '\n') + ";"
    ensures Remove(Remove(Output(StructuredRows(code)), '\n'), ' ') == Remove(Remove(DropLast(code, 1), '\n') + ";", ' ')
  {
    var lines := GetLinesByCode(code);
    assert Unbroken(lines);
    ScanKeepsText(lines, |lines|);
    assert lines[..|lines|] == lines;
    TerminatedText(Scan(lines, |lines|).rows);
    OutputIsLayout(StructuredRows(code));
  }

  /**
   * Splitting a line-break-free string before every `search`: the first piece begins the
   * string, and every later piece begins with `search`.
   */
  lemma {:induction false} SegmentShapes(s: string, search: string, sep: char)
    requires search != [] && sep !in s && sep !in search
    ensures var parts := Explode(ReplaceAll(s, search, [sep] + search), sep);
      && StartsWith(s, parts[0])
      && (forall i :: 0 < i < |parts| ==> StartsWith(parts[i], search))
    decreases |s|
  {
    var r := ReplaceAll(s, search, [sep] + search);
    var parts := Explode(r, sep);
    if |s| < |search| {
      ExplodeWhole(s, sep);
    } else if s[..|search|] == search {
      var t := s[|search|..];
      SegmentShapes(t, search, sep);
      var rest := Explode(ReplaceAll(t, search, [sep] + search), sep);
      assert r == [] + [sep] + (search + ReplaceAll(t, search, [sep] + search));
      ExplodeChunk([], search + ReplaceAll(t, search, [sep] + search), sep);
      ExplodePrefix(search, ReplaceAll(t, search, [sep] + search), sep);
      assert parts == [""] + ([search + rest[0]] + rest[1..]);
      forall i | 0 < i < |parts|
        ensures StartsWith(parts[i], search)
      {
        if i == 1 {
          assert parts[1] == search + rest[0];
          assert parts[1][..|search|] == search;
        } else {
          assert parts[i] == rest[i - 1];
        }
      }
    } else {
      var t := s[1..];
      SegmentShapes(t, search, sep);
      var rest := Explode(ReplaceAll(t, search, [sep] + search), sep);
      assert r == [s[0]] + ReplaceAll(t, search, [sep] + search);
      assert sep !in [s[0]];
      ExplodePrefix([s[0]], ReplaceAll(t, search, [sep] + search), sep);
      assert parts == [[s[0]] + rest[0]] + rest[1..];
      assert s[..|parts[0]|] == [s[0]] + t[..|rest[0]|];
      forall i | 0 < i < |parts|
        ensures StartsWith(parts[i], search)
      {
        assert parts[i] == rest[i];
      }
    }
  }

  /** A segment that does not begin with `)` is not a long run of `)`. */
  lemma NotParenRun(line: string)
    requires line != [] ==> line[0] != ')'
    ensures !LongParenRun(line)
  {
    if |line| >= 3 && TrailingParens(line) == |line| {
      TrailingParensShape(line);
    }
  }

  /**
   * The segments of a printed statement on one line that does not begin with `)`: no segment
   * is a long run of `)`, since the first begins the statement and the others begin `->add`.
   */
  lemma PrintedSegments(code: string)
    requires '\n' !in code && (code != [] ==> code[0] != ')')
    ensures NoLongParenRun(GetLinesByCode(code))
  {
    var s := DropLast(code, 1);
    var lines := GetLinesByCode(code);
    assert lines == Explode(ReplaceAll(s, "->add", ['\n'] + "->add"), '\n') by {
      assert "\n->add" == ['\n'] + "->add";
    }
    assert '\n' !in s && '\n' !in "->add";
    assert "->add"[0] == '-';
    SegmentShapes(s, "->add", '\n');
    forall i | 0 <= i < |lines|
      ensures !LongParenRun(lines[i])
    {
      if lines[i] != [] {
        if i == 0 {
          assert lines[0][0] == s[0] == code[0];
        } else {
          assert lines[i][0] == '-';
        }
      }
      NotParenRun(lines[i]);
    }
  }

  /** Dropping the last character of a string ending in `;` and appending `;` restores it. */
  lemma SemicolonRestored(code: string)
    requires code != [] && code[|code| - 1] == ';'
    ensures DropLast(code, 1) + ";" == code
  {
  }

  /**
   * End to end for a printed statement ending in `;` on one line: the laid-out code holds
   * exactly the printed characters, the `;` dropped by the split restored at the end, and
   * differs from the printed code only in indentation and line breaks.
   */
  lemma PrintedKeepsText(code: string)
    requires code != [] && code[|code| - 1] == ';' && '\n' !in code && code[0] != ')'
    ensures Concat(Texts(StructuredRows(code))) == code
    ensures Remove(Remove(Output(StructuredRows(code)), '\n'), ' ') == Remove(code, ' ')
  {
    PrintedSegments(code);
    StructuredRowsKeepText(code);
    assert '\n' !in DropLast(code, 1);
    RemoveAbsent(DropLast(code, 1), '\n');
    SemicolonRestored(code);
  }
}
