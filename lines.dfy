/**
 * The output of both line structurers. A structured line is kept as its indentation counter
 * and its text; what the PHP code stores in `$structuredLines` is `str_pad('', 4 * indent)`
 * followed by the text.
 */
module Lines {
  import opened PhpString

  datatype Row = Row(indent: int, text: string)

  /** The state the structurers thread through their scan: `$position` and `$structuredLines`. */
  datatype State = State(position: int, rows: seq<Row>)

  function Render(row: Row): (s: string) {
    Spaces(4 * row.indent) + row.text
  }

  function RenderAll(rows: seq<Row>): (lines: seq<string>)
    ensures |lines| == |rows|
    ensures forall i :: 0 <= i < |rows| ==> lines[i] == Render(rows[i])
  {
    seq(|rows|, i requires 0 <= i < |rows| => Render(rows[i]))
  }

  /** The texts of the rows, without their indentation. */
  function Texts(rows: seq<Row>): (texts: seq<string>)
    ensures |texts| == |rows|
    ensures forall i :: 0 <= i < |rows| ==> texts[i] == rows[i].text
  {
    seq(|rows|, i requires 0 <= i < |rows| => rows[i].text)
  }

  /** The final text: the rendered rows joined with line breaks, as `implode("\n", ...)` does. */
  function Output(rows: seq<Row>): (s: string) {
    Implode(RenderAll(rows), "\n")
  }

  /** No segment holds a line break. */
  predicate Unbroken(lines: seq<string>) {
    forall i :: 0 <= i < |lines| ==> '\n' !in lines[i]
  }

  /** No row holds a line break. */
  predicate RowsUnbroken(rows: seq<Row>) {
    forall i :: 0 <= i < |rows| ==> '\n' !in rows[i].text
  }

  lemma TextsAppend(a: seq<Row>, b: seq<Row>)
    ensures Texts(a + b) == Texts(a) + Texts(b)
  {
    assert |Texts(a + b)| == |Texts(a) + Texts(b)|;
  }

  /** Rows appended: their texts are appended, and no line break comes in. */
  lemma RowsAppend(a: seq<Row>, b: seq<Row>)
    ensures Concat(Texts(a + b)) == Concat(Texts(a)) + Concat(Texts(b))
    ensures RowsUnbroken(a) && RowsUnbroken(b) ==> RowsUnbroken(a + b)
  {
    TextsAppend(a, b);
    ConcatAppend(Texts(a), Texts(b));
    if RowsUnbroken(a) && RowsUnbroken(b) {
      forall i | 0 <= i < |a + b|
        ensures '\n' !in (a + b)[i].text
      {
        if i >= |a| {
          assert (a + b)[i] == b[i - |a|];
        }
      }
    }
  }

  lemma TextsSnoc(rows: seq<Row>, r: Row)
    ensures Texts(rows + [r]) == Texts(rows) + [r.text]
  {
    assert |Texts(rows + [r])| == |Texts(rows) + [r.text]|;
  }

  /** Indentation is spaces only. */
  lemma SpacesAreLayout(n: int)
    ensures Remove(Spaces(n), '\n') == Spaces(n)
    ensures Remove(Spaces(n), ' ') == ""
    decreases if n > 0 then n else 0
  {
    RemoveAbsent(Spaces(n), '\n');
    if n > 0 {
      assert Spaces(n) == [' '] + Spaces(n - 1);
      RemoveCons(' ', Spaces(n - 1), ' ');
      SpacesAreLayout(n - 1);
    }
  }

  /** A row rendered, with line breaks and spaces taken out, is its text with spaces taken out. */
  lemma RenderIsLayout(r: Row)
    requires '\n' !in r.text
    ensures Remove(Remove(Render(r), '\n'), ' ') == Remove(r.text, ' ')
  {
    SpacesAreLayout(4 * r.indent);
    RemoveAbsent(r.text, '\n');
    RemoveAppend(Spaces(4 * r.indent), r.text, '\n');
    RemoveAppend(Spaces(4 * r.indent), r.text, ' ');
  }

  /**
   * The output differs from the texts of its rows only in layout: taking out line breaks and
   * spaces from both leaves the same characters in the same order.
   */
  lemma {:induction false} OutputIsLayout(rows: seq<Row>)
    requires forall i :: 0 <= i < |rows| ==> '\n' !in rows[i].text
    ensures Remove(Remove(Output(rows), '\n'), ' ') == Remove(Concat(Texts(rows)), ' ')
    decreases |rows|
  {
    if rows == [] {
    } else {
      var lines := RenderAll(rows);
      RenderIsLayout(rows[0]);
      assert Texts(rows)[1..] == Texts(rows[1..]);
      RemoveAppend(rows[0].text, Concat(Texts(rows[1..])), ' ');
      if |rows| == 1 {
        assert Concat(Texts(rows)) == rows[0].text + "";
      } else {
        OutputIsLayout(rows[1..]);
        assert lines[1..] == RenderAll(rows[1..]);
        var head := Render(rows[0]);
        var tail := Output(rows[1..]);
        assert Output(rows) == head + "\n" + tail;
        RemoveAppend(head + "\n", tail, '\n');
        RemoveAppend(head, "\n", '\n');
        assert Remove("\n", '\n') == "";
        assert Remove(head + "\n", '\n') == Remove(head, '\n');
        assert Remove(Output(rows), '\n') == Remove(head, '\n') + Remove(tail, '\n');
        RemoveAppend(Remove(head, '\n'), Remove(tail, '\n'), ' ');
        assert Concat(Texts(rows)) == rows[0].text + Concat(Texts(rows[1..]));
      }
    }
  }
}
