/**
 * What the fluent chain and its layout promise: how many `end` and attaching calls a chain
 * holds, which method names it uses, and that re-laying the printed code out only inserts
 * indentation and line breaks — which holds for the layout as written only when no empty
 * container is the last thing closed before a statement ends.
 */
module QueryBuilderProperties {
  import opened Json
  import opened PhpAst
  import opened PhpString
  import opened Lines
  import opened QueryBuilderGenerator

  /** The node-creating methods called on `$qb`. */
  const CreationNames: set<string> :=
    {"objectNode", "arrayNode", "intNode", "floatNode", "boolNode", "nullNode", "stringNode"}

  const EndNames: set<string> := {"end"}

  const AddNames: set<string> := {"add", "addToObjectNode", "addToArrayNode"}

  /** The arguments of an attaching call hold no call to count. */
  lemma ArgumentsUncounted(key: string, v: JValue, names: set<string>)
    requires names !! CreationNames
    ensures CallCount(CreateArgument(v), names) == 0
    ensures ArgsCallCount([CreateArgument(v)], names) == 0
    ensures ArgsCallCount([StringLit(key), CreateArgument(v)], names) == 0
  {
    var a := CreateArgument(v);
    assert a.name in CreationNames;
    assert |a.args| <= 1 && forall i :: 0 <= i < |a.args| ==> !a.args[i].MethodCall?;
    if a.args != [] {
      assert a.args[1..] == [];
      assert CallCount(a.args[0], names) == 0;
    }
    assert ArgsCallCount(a.args, names) == 0;
    assert CallCount(QB, names) == 0;
    assert [StringLit(key), a][1..] == [a];
    assert [a][1..] == [];
  }

  /** `names` counts the `end` calls of a chain built with `m`, and no other call it holds. */
  predicate CountsEnds(names: set<string>, m: bool) {
    "end" in names && ObjectAddName(m) !in names && ArrayAddName(m) !in names && names !! CreationNames
  }

  /** `names` counts the attaching calls of a chain built with `m`, and no other call it holds. */
  predicate CountsAdds(names: set<string>, m: bool) {
    "end" !in names && ObjectAddName(m) in names && ArrayAddName(m) in names && names !! CreationNames
  }

  lemma {:induction false} ObjectChildEnds(expr: Expr, key: string, v: JValue, m: bool, names: set<string>)
    requires CountsEnds(names, m)
    ensures CallCount(AppendObjectChild(expr, key, v, m), names) == CallCount(expr, names) + Containers(v)
    decreases v
  {
    var added := MethodCall(expr, ObjectAddName(m), [StringLit(key), CreateArgument(v)]);
    ArgumentsUncounted(key, v, names);
    assert CallCount(added, names) == CallCount(expr, names);
    match v
    case Obj(ms) => ObjectChildrenEnds(added, ms, m, names);
    case Arr(items) => ArrayChildrenEnds(added, items, m, names);
    case _ =>
  }

  lemma {:induction false} ObjectChildrenEnds(expr: Expr, ms: seq<(string, JValue)>, m: bool, names: set<string>)
    requires CountsEnds(names, m)
    ensures CallCount(AppendChildrenToObjectNode(expr, ms, m), names) == CallCount(expr, names) + MembersContainers(ms)
    decreases ms
  {
    if ms != [] {
      assert ms[0].1 < ms[0];
      ObjectChildEnds(expr, ms[0].0, ms[0].1, m, names);
      ObjectChildrenEnds(AppendObjectChild(expr, ms[0].0, ms[0].1, m), ms[1..], m, names);
    }
  }

  lemma {:induction false} ArrayChildEnds(expr: Expr, v: JValue, m: bool, names: set<string>)
    requires CountsEnds(names, m)
    ensures CallCount(AppendArrayChild(expr, v, m), names) == CallCount(expr, names) + Containers(v)
    decreases v
  {
    var added := MethodCall(expr, ArrayAddName(m), [CreateArgument(v)]);
    ArgumentsUncounted("", v, names);
    assert CallCount(added, names) == CallCount(expr, names);
    match v
    case Obj(ms) => ObjectChildrenEnds(added, ms, m, names);
    case Arr(items) => ArrayChildrenEnds(added, items, m, names);
    case _ =>
  }

  lemma {:induction false} ArrayChildrenEnds(expr: Expr, items: seq<JValue>, m: bool, names: set<string>)
    requires CountsEnds(names, m)
    ensures CallCount(AppendChildrenToArrayNode(expr, items, m), names) == CallCount(expr, names) + ItemsContainers(items)
    decreases items
  {
    if items != [] {
      ArrayChildEnds(expr, items[0], m, names);
      ArrayChildrenEnds(AppendArrayChild(expr, items[0], m), items[1..], m, names);
    }
  }

  lemma {:induction false} ObjectChildAdds(expr: Expr, key: string, v: JValue, m: bool, names: set<string>)
    requires CountsAdds(names, m)
    ensures CallCount(AppendObjectChild(expr, key, v, m), names) == CallCount(expr, names) + 1 + ValuesBelow(v)
    decreases v
  {
    var added := MethodCall(expr, ObjectAddName(m), [StringLit(key), CreateArgument(v)]);
    ArgumentsUncounted(key, v, names);
    assert CallCount(added, names) == CallCount(expr, names) + 1;
    match v
    case Obj(ms) => ObjectChildrenAdds(added, ms, m, names);
    case Arr(items) => ArrayChildrenAdds(added, items, m, names);
    case _ =>
  }

  lemma {:induction false} ObjectChildrenAdds(expr: Expr, ms: seq<(string, JValue)>, m: bool, names: set<string>)
    requires CountsAdds(names, m)
    ensures CallCount(AppendChildrenToObjectNode(expr, ms, m), names) == CallCount(expr, names) + MembersValues(ms)
    decreases ms
  {
    if ms != [] {
      assert ms[0].1 < ms[0];
      ObjectChildAdds(expr, ms[0].0, ms[0].1, m, names);
      ObjectChildrenAdds(AppendObjectChild(expr, ms[0].0, ms[0].1, m), ms[1..], m, names);
    }
  }

  lemma {:induction false} ArrayChildAdds(expr: Expr, v: JValue, m: bool, names: set<string>)
    requires CountsAdds(names, m)
    ensures CallCount(AppendArrayChild(expr, v, m), names) == CallCount(expr, names) + 1 + ValuesBelow(v)
    decreases v
  {
    var added := MethodCall(expr, ArrayAddName(m), [CreateArgument(v)]);
    ArgumentsUncounted("", v, names);
    assert CallCount(added, names) == CallCount(expr, names) + 1;
    match v
    case Obj(ms) => ObjectChildrenAdds(added, ms, m, names);
    case Arr(items) => ArrayChildrenAdds(added, items, m, names);
    case _ =>
  }

  lemma {:induction false} ArrayChildrenAdds(expr: Expr, items: seq<JValue>, m: bool, names: set<string>)
    requires CountsAdds(names, m)
    ensures CallCount(AppendChildrenToArrayNode(expr, items, m), names) == CallCount(expr, names) + ItemsValues(items)
    decreases items
  {
    if items != [] {
      ArrayChildAdds(expr, items[0], m, names);
      ArrayChildrenAdds(AppendArrayChild(expr, items[0], m), items[1..], m, names);
    }
  }

  lemma EndsFromRoot(root: Expr, ms: seq<(string, JValue)>, m: bool)
    requires CallCount(root, EndNames) == 0
    ensures CallCount(AppendChildrenToObjectNode(root, ms, m), EndNames) == MembersContainers(ms)
  {
    assert CountsEnds(EndNames, m);
    ObjectChildrenEnds(root, ms, m, EndNames);
  }

  lemma AddsFromRoot(root: Expr, ms: seq<(string, JValue)>, m: bool)
    requires CallCount(root, AddNames) == 0
    ensures CallCount(AppendChildrenToObjectNode(root, ms, m), AddNames) == MembersValues(ms)
  {
    assert CountsAdds(AddNames, m);
    ObjectChildrenAdds(root, ms, m, AddNames);
  }

  /** The chain on `$qb` holds one `end` per container strictly below the root. */
  lemma ChainEndCount(ms: seq<(string, JValue)>, m: bool)
    ensures CallCount(AppendChildrenToObjectNode(QB, ms, m), EndNames) == ContainersBelow(Obj(ms))
  {
    EndsFromRoot(QB, ms, m);
  }

  /** The chain on `$qb` holds one attaching call per value strictly below the root. */
  lemma ChainAddCount(ms: seq<(string, JValue)>, m: bool)
    ensures CallCount(AppendChildrenToObjectNode(QB, ms, m), AddNames) == ValuesBelow(Obj(ms))
  {
    AddsFromRoot(QB, ms, m);
  }

  /** The method names a chain built with `m` uses. */
  function UsedNames(m: bool): (used: set<string>) {
    CreationNames + {"end", ObjectAddName(m), ArrayAddName(m)}
  }

  lemma {:induction false} ObjectChildAvoids(expr: Expr, key: string, v: JValue, m: bool, names: set<string>)
    requires names !! UsedNames(m)
    ensures CallCount(AppendObjectChild(expr, key, v, m), names) == CallCount(expr, names)
    decreases v
  {
    var added := MethodCall(expr, ObjectAddName(m), [StringLit(key), CreateArgument(v)]);
    ArgumentsUncounted(key, v, names);
    assert CallCount(added, names) == CallCount(expr, names);
    match v
    case Obj(ms) => ObjectChildrenAvoid(added, ms, m, names);
    case Arr(items) => ArrayChildrenAvoid(added, items, m, names);
    case _ =>
  }

  lemma {:induction false} ObjectChildrenAvoid(expr: Expr, ms: seq<(string, JValue)>, m: bool, names: set<string>)
    requires names !! UsedNames(m)
    ensures CallCount(AppendChildrenToObjectNode(expr, ms, m), names) == CallCount(expr, names)
    decreases ms
  {
    if ms != [] {
      assert ms[0].1 < ms[0];
      ObjectChildAvoids(expr, ms[0].0, ms[0].1, m, names);
      ObjectChildrenAvoid(AppendObjectChild(expr, ms[0].0, ms[0].1, m), ms[1..], m, names);
    }
  }

  lemma {:induction false} ArrayChildAvoids(expr: Expr, v: JValue, m: bool, names: set<string>)
    requires names !! UsedNames(m)
    ensures CallCount(AppendArrayChild(expr, v, m), names) == CallCount(expr, names)
    decreases v
  {
    var added := MethodCall(expr, ArrayAddName(m), [CreateArgument(v)]);
    ArgumentsUncounted("", v, names);
    assert CallCount(added, names) == CallCount(expr, names);
    match v
    case Obj(ms) => ObjectChildrenAvoid(added, ms, m, names);
    case Arr(items) => ArrayChildrenAvoid(added, items, m, names);
    case _ =>
  }

  lemma {:induction false} ArrayChildrenAvoid(expr: Expr, items: seq<JValue>, m: bool, names: set<string>)
    requires names !! UsedNames(m)
    ensures CallCount(AppendChildrenToArrayNode(expr, items, m), names) == CallCount(expr, names)
    decreases items
  {
    if items != [] {
      ArrayChildAvoids(expr, items[0], m, names);
      ArrayChildrenAvoid(AppendArrayChild(expr, items[0], m), items[1..], m, names);
    }
  }

  /** With `useMethodName` no plain `add` is emitted; without it, neither typed variant is. */
  lemma ChainMethodNames(ms: seq<(string, JValue)>, m: bool)
    ensures m ==> CallCount(AppendChildrenToObjectNode(QB, ms, m), {"add"}) == 0
    ensures !m ==> CallCount(AppendChildrenToObjectNode(QB, ms, m), {"addToObjectNode", "addToArrayNode"}) == 0
  {
    if m {
      ObjectChildrenAvoid(QB, ms, m, {"add"});
    } else {
      ObjectChildrenAvoid(QB, ms, m, {"addToObjectNode", "addToArrayNode"});
    }
  }

  /** Each element's calls are chained onto the chain already built for the elements before it. */
  lemma {:induction false} ArrayChainSnoc(expr: Expr, items: seq<JValue>, v: JValue, m: bool)
    ensures AppendChildrenToArrayNode(expr, items + [v], m) == AppendArrayChild(AppendChildrenToArrayNode(expr, items, m), v, m)
    decreases items
  {
    if items == [] {
      assert items + [v] == [v];
    } else {
      assert (items + [v])[0] == items[0] && (items + [v])[1..] == items[1..] + [v];
      ArrayChainSnoc(AppendArrayChild(expr, items[0], m), items[1..], v, m);
    }
  }

  /** Each member's calls are chained onto the chain already built for the members before it. */
  lemma {:induction false} ObjectChainSnoc(expr: Expr, ms: seq<(string, JValue)>, key: string, v: JValue, m: bool)
    ensures AppendChildrenToObjectNode(expr, ms + [(key, v)], m)
      == AppendObjectChild(AppendChildrenToObjectNode(expr, ms, m), key, v, m)
    decreases ms
  {
    if ms == [] {
      assert ms + [(key, v)] == [(key, v)];
    } else {
      assert (ms + [(key, v)])[0] == ms[0] && (ms + [(key, v)])[1..] == ms[1..] + [(key, v)];
      ObjectChainSnoc(AppendObjectChild(expr, ms[0].0, ms[0].1, m), ms[1..], key, v, m);
    }
  }

  /** No segment comes before the first, so the first `->end` segment never merges. */
  lemma NothingBeforeFirst()
    ensures !CreatesContainer("")
  {
    ShortNotContains("", "->objectNode");
    ShortNotContains("", "->arrayNode");
  }

  /** A segment cannot start with both `->add` and `->end`. */
  lemma AddIsNotEnd(line: string)
    ensures !(StartsWith(line, "->add") && StartsWith(line, "->end"))
  {
    if StartsWith(line, "->add") {
      assert line[2] == 'a';
    }
  }

  /** `line` merges onto the previous row: an `->end` segment right after a container was created. */
  predicate Merges(line: string, lastLine: string) {
    StartsWith(line, "->end") && CreatesContainer(lastLine)
  }

  /** One step of the scan either appends a row holding the segment or extends the last row. */
  lemma AdvanceShape(line: string, lastLine: string, st: State, merged: string)
    requires st.rows == [] ==> lastLine == ""
    ensures var r := Advance(line, lastLine, st, merged);
      !Merges(line, lastLine) ==> r.rows == st.rows + [r.rows[|r.rows| - 1]] && r.rows[|r.rows| - 1].text == line
    ensures var r := Advance(line, lastLine, st, merged); var k := |st.rows|;
      Merges(line, lastLine) ==>
        k > 0 && r.rows == st.rows[..k - 1] + [Row(st.rows[k - 1].indent, st.rows[k - 1].text + merged)]
  {
    AddIsNotEnd(line);
    if st.rows == [] {
      NothingBeforeFirst();
    }
  }

  /** The step of the scan, with the previous segment's row list non-empty unless it is the first. */
  lemma ScanStep(lines: seq<string>, n: nat, corrected: bool)
    requires 0 < n <= |lines|
    ensures var st := Scan(lines, n - 1, corrected); st.rows == [] ==> LastLine(lines, n - 1) == ""
    ensures Scan(lines, n, corrected)
      == Advance(lines[n - 1], LastLine(lines, n - 1), Scan(lines, n - 1, corrected), MergedText(lines[n - 1], corrected))
  {
  }

  /** One step of the scan, in the terms of `AdvanceShape`. */
  lemma ScanShape(lines: seq<string>, n: nat, corrected: bool)
    requires 0 < n <= |lines|
    ensures var prev := Scan(lines, n - 1, corrected).rows; var rows := Scan(lines, n, corrected).rows;
      var line := lines[n - 1];
      && (!Merges(line, LastLine(lines, n - 1)) ==> rows == prev + [rows[|rows| - 1]] && rows[|rows| - 1].text == line)
      && (Merges(line, LastLine(lines, n - 1)) ==>
            |prev| > 0 && rows == prev[..|prev| - 1] + [Row(prev[|prev| - 1].indent, prev[|prev| - 1].text + MergedText(line, corrected))])
  {
    ScanStep(lines, n, corrected);
    AdvanceShape(lines[n - 1], LastLine(lines, n - 1), Scan(lines, n - 1, corrected), MergedText(lines[n - 1], corrected));
  }

  /** Appending a segment to the rows, as a new row or onto the last one, keeps the text and no breaks. */
  lemma AppendKeepsText(rows: seq<Row>, rows': seq<Row>, line: string, merged: bool)
    requires RowsUnbroken(rows) && '\n' !in line
    requires !merged ==> |rows'| > 0 && rows' == rows + [rows'[|rows'| - 1]] && rows'[|rows'| - 1].text == line
    requires merged ==>
      (|rows| > 0 && rows' == rows[..|rows| - 1] + [Row(rows[|rows| - 1].indent, rows[|rows| - 1].text + line)])
    ensures Concat(Texts(rows')) == Concat(Texts(rows)) + line
    ensures RowsUnbroken(rows')
  {
    if !merged {
      TextsSnoc(rows, rows'[|rows'| - 1]);
      ConcatAppend(Texts(rows), [line]);
      assert Concat([line]) == line + "";
    } else {
      var k := |rows|;
      var init := rows[..k - 1];
      var last := rows[k - 1];
      assert rows == init + [last];
      TextsSnoc(init, Row(last.indent, last.text + line));
      TextsSnoc(init, last);
      ConcatAppend(Texts(init), [last.text + line]);
      ConcatAppend(Texts(init), [last.text]);
      assert Concat([last.text + line]) == last.text + line + "";
      assert Concat([last.text]) == last.text + "";
      assert '\n' !in last.text + line;
    }
  }

  /**
   * With the `->end` segment merged whole, the scan keeps every character of the segments in
   * order: the texts of its rows, put together, are the segments put together.
   */
  lemma {:induction false} CorrectedScanKeepsText(lines: seq<string>, n: nat)
    requires n <= |lines| && Unbroken(lines)
    ensures Concat(Texts(Scan(lines, n, true).rows)) == Concat(lines[..n])
    ensures RowsUnbroken(Scan(lines, n, true).rows)
    decreases n
  {
    if n == 0 {
      assert lines[..0] == [];
    } else {
      CorrectedScanKeepsText(lines, n - 1);
      var line := lines[n - 1];
      ScanShape(lines, n, true);
      AppendKeepsText(Scan(lines, n - 1, true).rows, Scan(lines, n, true).rows, line, Merges(line, LastLine(lines, n - 1)));
      ConcatPrefix(lines, n);
    }
  }

  /** Every merged `->end` segment is exactly `->end()`, as inside a statement. */
  predicate BareEndMerges(lines: seq<string>) {
    forall i :: 0 < i < |lines| && Merges(lines[i], lines[i - 1]) ==> lines[i] == "->end()"
  }

  /** Where every merged segment is `->end()`, the scan as written and the corrected scan agree. */
  lemma {:induction false} ScanAgrees(lines: seq<string>, n: nat)
    requires n <= |lines| && BareEndMerges(lines)
    ensures Scan(lines, n, false) == Scan(lines, n, true)
    decreases n
  {
    if n > 0 {
      ScanAgrees(lines, n - 1);
      ScanStep(lines, n, false);
      ScanStep(lines, n, true);
      if n - 1 == 0 {
        NothingBeforeFirst();
      }
      AdvanceAgrees(lines[n - 1], LastLine(lines, n - 1), Scan(lines, n - 1, true));
    }
  }

  /** The text merged onto the previous row matters only when the segment merges. */
  lemma AdvanceAgrees(line: string, lastLine: string, st: State)
    requires st.rows == [] ==> lastLine == ""
    requires Merges(line, lastLine) ==> line == "->end()"
    ensures Advance(line, lastLine, st, "->end()") == Advance(line, lastLine, st, line)
  {
  }

  /** The corrected layout keeps the printed code: only line breaks are inserted. */
  lemma CorrectedRowsKeepText(code: string)
    ensures Concat(Texts(CorrectedStructuredRows(code))) == Remove(code, '\n')
    ensures Remove(Remove(Output(CorrectedStructuredRows(code)), '\n'), ' ') == Remove(Remove(code, '\n'), ' ')
  {
    var lines := GetLinesByCode(code);
    CorrectedScanKeepsText(lines, |lines|);
    assert lines[..|lines|] == lines;
    OutputIsLayout(CorrectedStructuredRows(code));
  }

  /** The layout as written keeps the printed code whenever every merged segment is `->end()`. */
  lemma StructuredRowsKeepText(code: string)
    requires BareEndMerges(GetLinesByCode(code))
    ensures Concat(Texts(StructuredRows(code))) == Remove(code, '\n')
    ensures Remove(Remove(Output(StructuredRows(code)), '\n'), ' ') == Remove(Remove(code, '\n'), ' ')
  {
    var lines := GetLinesByCode(code);
    ScanAgrees(lines, |lines|);
    CorrectedRowsKeepText(code);
  }
}
