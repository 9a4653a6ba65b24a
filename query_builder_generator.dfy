/**
 * `QueryBuilderGenerator`: the fluent style. The generated code first binds `$qb` to a fresh
 * `QueryBuilder`, then chains one `add` (or `addToObjectNode` / `addToArrayNode`) call per
 * child on `$qb`, creating containers with `$qb->objectNode()` / `$qb->arrayNode()` and
 * closing every nested container with `->end()`. The printed chain is then re-laid out one
 * call per line by a scan that splits it before every `->add` and `->end`.
 */
module QueryBuilderGenerator {
  import opened Wrappers
  import opened Json
  import opened PhpAst
  import opened PhpString
  import opened Lines

  /** The builder variable `$qb`: receiver of every creation call and root of the chain. */
  const QB: Expr := Variable("qb")

  /** The exceptions `generateByJson` lets escape. */
  datatype GenerateError =
    | InvalidArgument(message: string)  // the query is not valid JSON
    | TypeError                         // the decoded root is not an object (`\stdClass` parameter)

  /** `$qb = new QueryBuilder()`. */
  function CreateQueryBuilderNode(): (e: Expr)
    ensures e.Assign? && e.target == QB && e.value == New("QueryBuilder", [])
  {
    Assign(QB, New("QueryBuilder", []))
  }

  /** `$qb->objectNode()`: an empty object, created on the builder. */
  function CreateObjectNode(): (e: Expr)
    ensures e.MethodCall? && e.receiver == QB && e.name == "objectNode" && e.args == []
  {
    MethodCall(QB, "objectNode", [])
  }

  /** `$qb->arrayNode()`: an empty array, created on the builder. */
  function CreateArrayNode(): (e: Expr)
    ensures e.MethodCall? && e.receiver == QB && e.name == "arrayNode" && e.args == []
  {
    MethodCall(QB, "arrayNode", [])
  }

  /** The call on `$qb` that creates the node of a scalar value. */
  function CreateScalarNode(v: JValue): (e: Expr)
    requires !v.IsContainer()
    ensures e.MethodCall? && e.receiver == QB
    ensures v.Null? <==> e.args == []
  {
    match v
    case Int(n) => MethodCall(QB, "intNode", [LNumber(n)])
    case Float(f) => MethodCall(QB, "floatNode", [DNumber(f)])
    case Bool(b) => MethodCall(QB, "boolNode", [ConstFetch(if b then "true" else "false")])
    case Null => MethodCall(QB, "nullNode", [])
    case Str(s) => MethodCall(QB, "stringNode", [StringLit(s)])
  }

  /** `$argument` in the loops: a fresh empty container, or the scalar's node. */
  function CreateArgument(v: JValue): (e: Expr) {
    match v
    case Obj(_) => CreateObjectNode()
    case Arr(_) => CreateArrayNode()
    case _ => CreateScalarNode(v)
  }

  function ArrayAddName(useMethodName: bool): (name: string) {
    if useMethodName then "addToArrayNode" else "add"
  }

  function ObjectAddName(useMethodName: bool): (name: string) {
    if useMethodName then "addToObjectNode" else "add"
  }

  /** One pass of the loop of `appendChildrenToArrayNode`: attach `v`, fill it and close it. */
  function AppendArrayChild(expr: Expr, v: JValue, useMethodName: bool): (r: Expr)
    ensures r.MethodCall?
    ensures !v.IsContainer() ==> r == MethodCall(expr, ArrayAddName(useMethodName), [CreateScalarNode(v)])
    ensures v.IsContainer() ==> r.name == "end" && r.args == []
    decreases v
  {
    var added := MethodCall(expr, ArrayAddName(useMethodName), [CreateArgument(v)]);
    match v
    case Obj(ms) => MethodCall(AppendChildrenToObjectNode(added, ms, useMethodName), "end", [])
    case Arr(items) => MethodCall(AppendChildrenToArrayNode(added, items, useMethodName), "end", [])
    case _ => added
  }

  /** `appendChildrenToArrayNode`: `$expr` rebuilt once per element, in order. */
  function AppendChildrenToArrayNode(expr: Expr, items: seq<JValue>, useMethodName: bool): (r: Expr)
    ensures items == [] ==> r == expr
    ensures items != [] ==> r.MethodCall? && (r.name == "end" <==> items[|items| - 1].IsContainer())
    decreases items
  {
    if items == [] then expr
    else AppendChildrenToArrayNode(AppendArrayChild(expr, items[0], useMethodName), items[1..], useMethodName)
  }

  /** One pass of the loop of `appendChildrenToObjectNode`: attach `key => v`, fill it and close it. */
  function AppendObjectChild(expr: Expr, key: string, v: JValue, useMethodName: bool): (r: Expr)
    ensures r.MethodCall?
    ensures !v.IsContainer() ==> r == MethodCall(expr, ObjectAddName(useMethodName), [StringLit(key), CreateScalarNode(v)])
    ensures v.IsContainer() ==> r.name == "end" && r.args == []
    decreases v
  {
    var added := MethodCall(expr, ObjectAddName(useMethodName), [StringLit(key), CreateArgument(v)]);
    match v
    case Obj(ms) => MethodCall(AppendChildrenToObjectNode(added, ms, useMethodName), "end", [])
    case Arr(items) => MethodCall(AppendChildrenToArrayNode(added, items, useMethodName), "end", [])
    case _ => added
  }

  /** `appendChildrenToObjectNode`: `$expr` rebuilt once per member, in key order. */
  function AppendChildrenToObjectNode(expr: Expr, ms: seq<(string, JValue)>, useMethodName: bool): (r: Expr)
    ensures ms == [] ==> r == expr
    ensures ms != [] ==> r.MethodCall? && (r.name == "end" <==> ms[|ms| - 1].1.IsContainer())
    decreases ms
  {
    if ms == [] then expr
    else
      assert ms[0].1 < ms[0];
      AppendChildrenToObjectNode(AppendObjectChild(expr, ms[0].0, ms[0].1, useMethodName), ms[1..], useMethodName)
  }

  /** The two statements handed to the printer. */
  function Statements(ms: seq<(string, JValue)>, useMethodName: bool): (stmts: seq<Expr>) {
    [CreateQueryBuilderNode(), AppendChildrenToObjectNode(QB, ms, useMethodName)]
  }

  /** `getLinesByCode`: a line break before every `->add`, then before every `->end`, then split. */
  function GetLinesByCode(code: string): (lines: seq<string>)
    ensures Implode(lines, "\n") == ReplaceAll(ReplaceAll(code, "->add", "\n->add"), "->end", "\n->end")
    ensures Concat(lines) == Remove(code, '\n')
  {
    var withAdd := ReplaceAll(code, "->add", "\n->add");
    var withEnd := ReplaceAll(withAdd, "->end", "\n->end");
    ImplodeExplode(withEnd, '\n');
    ConcatExplode(withEnd, '\n');
    assert "\n->add" == ['\n'] + "->add" && "\n->end" == ['\n'] + "->end";
    ReplaceInsertsOnly(code, "->add", '\n');
    ReplaceInsertsOnly(withAdd, "->end", '\n');
    Explode(withEnd, '\n')
  }

  /** An `->add` segment opens a scope unless the previous raw segment ended one or held a scalar. */
  predicate OpensScope(lastLine: string) {
    && !Contains(lastLine, "->end")
    && !Contains(lastLine, "->boolNode")
    && !Contains(lastLine, "->floatNode")
    && !Contains(lastLine, "->intNode")
    && !Contains(lastLine, "->nullNode")
    && !Contains(lastLine, "->stringNode")
  }

  /** The previous raw segment created a container (the `strpos` at offset 0 does not count). */
  predicate CreatesContainer(lastLine: string) {
    FoundAfterStart(lastLine, "->objectNode") || FoundAfterStart(lastLine, "->arrayNode")
  }

  /**
   * The effect of `structuredLine` on `$position` and `$structuredLines`, with `merged` the text
   * appended to the previous line when an `->end` closes a container that got no children.
   */
  function Advance(line: string, lastLine: string, st: State, merged: string): (r: State)
    requires st.rows == [] ==> lastLine == ""
    ensures r.rows != []
  {
    if StartsWith(line, "->add") then
      var p := if OpensScope(lastLine) then st.position + 1 else st.position;
      State(p, st.rows + [Row(p, line)])
    else if StartsWith(line, "->end") then
      if CreatesContainer(lastLine) then
        var last := st.rows[|st.rows| - 1];
        State(st.position, st.rows[..|st.rows| - 1] + [Row(last.indent, last.text + merged)])
      else
        State(st.position - 1, st.rows + [Row(st.position - 1, line)])
    else
      State(st.position, st.rows + [Row(0, line)])
  }

  /** What is merged onto the previous line: the literal `->end()` as written, or the segment itself. */
  function MergedText(line: string, corrected: bool): (text: string) {
    if corrected then line else "->end()"
  }

  /** `$lines[$i - 1] ?? ''`. */
  function LastLine(lines: seq<string>, i: nat): (last: string)
    requires i <= |lines|
  {
    if i == 0 then "" else lines[i - 1]
  }

  /** The state after the first `n` segments. */
  function Scan(lines: seq<string>, n: nat, corrected: bool): (st: State)
    requires n <= |lines|
    ensures n > 0 ==> st.rows != []
    decreases n
  {
    if n == 0 then State(0, [])
    else Advance(lines[n - 1], LastLine(lines, n - 1), Scan(lines, n - 1, corrected), MergedText(lines[n - 1], corrected))
  }

  /** The structured rows for `code`, as `structureCode` computes them. */
  function StructuredRows(code: string): (rows: seq<Row>) {
    var lines := GetLinesByCode(code);
    Scan(lines, |lines|, false).rows
  }

  /** The structured rows when an empty container's `->end` segment is merged whole. */
  function CorrectedStructuredRows(code: string): (rows: seq<Row>) {
    var lines := GetLinesByCode(code);
    Scan(lines, |lines|, true).rows
  }

  /** `structuredLine`: `position` and `structuredLines` are PHP by-reference parameters. */
  method StructuredLine(line: string, lastLine: string, position: int, structuredLines: seq<Row>)
    returns (position': int, structuredLines': seq<Row>)
    requires structuredLines == [] ==> lastLine == ""
    ensures StartsWith(line, "->add") ==>
      && position' == (if OpensScope(lastLine) then position + 1 else position)
      && structuredLines' == structuredLines + [Row(position', line)]
    ensures !StartsWith(line, "->add") && StartsWith(line, "->end") && CreatesContainer(lastLine) ==>
      var n := |structuredLines|;
      && position' == position
      && structuredLines' == structuredLines[..n - 1]
           + [Row(structuredLines[n - 1].indent, structuredLines[n - 1].text + "->end()")]
    ensures !StartsWith(line, "->add") && StartsWith(line, "->end") && !CreatesContainer(lastLine) ==>
      && position' == position - 1
      && structuredLines' == structuredLines + [Row(position - 1, line)]
    ensures !StartsWith(line, "->add") && !StartsWith(line, "->end") ==>
      && position' == position
      && structuredLines' == structuredLines + [Row(0, line)]
  {
    position', structuredLines' := position, structuredLines;
    if StartsWith(line, "->add") {
      if !Contains(lastLine, "->end") && !Contains(lastLine, "->boolNode") && !Contains(lastLine, "->floatNode")
        && !Contains(lastLine, "->intNode") && !Contains(lastLine, "->nullNode") && !Contains(lastLine, "->stringNode")
      {
        position' := position' + 1;
      }
      structuredLines' := structuredLines' + [Row(position', line)];
      return;
    }
    if StartsWith(line, "->end") {
      if FoundAfterStart(lastLine, "->objectNode") || FoundAfterStart(lastLine, "->arrayNode") {
        var n := |structuredLines'|;
        var last := structuredLines'[n - 1];
        structuredLines' := structuredLines'[n - 1 := Row(last.indent, last.text + "->end()")];
        return;
      }
      position' := position' - 1;
      structuredLines' := structuredLines' + [Row(position', line)];
      return;
    }
    structuredLines' := structuredLines' + [Row(0, line)];
  }

  /** `structureCode`: scan the segments, threading `$position` and `$structuredLines`. */
  method StructureCode(code: string) returns (out: string)
    ensures out == Output(StructuredRows(code))
  {
    var lines := GetLinesByCode(code);
    var position := 0;
    var structuredLines: seq<Row> := [];
    for i := 0 to |lines|
      invariant State(position, structuredLines) == Scan(lines, i, false)
    {
      var lastLine := if i == 0 then "" else lines[i - 1];
      position, structuredLines := StructuredLine(lines[i], lastLine, position, structuredLines);
    }
    out := Output(structuredLines);
  }

  /**
   * `generateByJson`. `decoded` is what `json_decode` made of `query` (its failure carries
   * `json_last_error_msg()`), and `prettyPrint` is the external printer.
   */
  method GenerateByJson(query: string, decoded: Result<JValue, string>, prettyPrint: seq<Expr> -> string,
                        useMethodName: bool)
    returns (r: Result<string, GenerateError>)
    ensures decoded.Failure? ==> r == Failure(InvalidArgument("Message: " + decoded.error + ", query: " + query))
    ensures decoded.Success? && !decoded.value.Obj? ==> r == Failure(TypeError)
    ensures decoded.Success? && decoded.value.Obj? ==>
      r == Success(Output(StructuredRows(prettyPrint(Statements(decoded.value.members, useMethodName)))))
  {
    if decoded.Failure? {
      return Failure(InvalidArgument("Message: " + decoded.error + ", query: " + query));
    }
    if !decoded.value.Obj? {
      return Failure(TypeError);
    }
    var stmts := [CreateQueryBuilderNode(), AppendChildrenToObjectNode(QB, decoded.value.members, useMethodName)];
    var code := StructureCode(prettyPrint(stmts));
    r := Success(code);
  }
}
