/**
 * `NodeGenerator`: the nested-argument style. Every node is built with `new`, and every child
 * is passed, fully built, as the argument of an `add` call on its parent, so the generated code
 * is a single statement assigning the root node to `$node`. The printed statement is re-laid
 * out by a scan that splits it before every `->add` and moves runs of closing parentheses onto
 * lines of their own.
 */
module NodeGenerator {
  import opened Wrappers
  import opened Json
  import opened PhpAst
  import opened PhpString
  import opened Lines

  /** The exceptions `generateByJson` lets escape. */
  datatype GenerateError =
    | InvalidArgument(message: string)  // the query is not valid JSON
    | TypeError                         // the decoded root is a scalar (`array` parameter, strict types)

  /** `new ObjectNode()`: an empty object. */
  function CreateObjectNode(): (e: Expr)
    ensures e.New? && e.className == "ObjectNode" && e.args == []
  {
    New("ObjectNode", [])
  }

  /** `new ArrayNode()`: an empty array. */
  function CreateArrayNode(): (e: Expr)
    ensures e.New? && e.className == "ArrayNode" && e.args == []
  {
    New("ArrayNode", [])
  }

  /** The node of a scalar: JSON `null` becomes a `StringNode` holding the constant `null`. */
  function CreateScalarNode(v: JValue): (e: Expr)
    requires !v.IsContainer()
    ensures e.New? && |e.args| == 1
    ensures v.Null? ==> e == New("StringNode", [ConstFetch("null")])
    ensures e.className == "StringNode" <==> v.Str? || v.Null?
  {
    match v
    case Int(n) => New("IntNode", [LNumber(n)])
    case Float(f) => New("FloatNode", [DNumber(f)])
    case Bool(b) => New("BoolNode", [ConstFetch(if b then "true" else "false")])
    case Null => New("StringNode", [ConstFetch("null")])
    case Str(s) => New("StringNode", [StringLit(s)])
  }

  /** `$nodeExpr` in both loops: a container fully built, or the scalar's node. */
  function NodeExpr(v: JValue): (e: Expr)
    decreases v, 2
  {
    match v
    case Obj(ms) => AppendChildrenToObjectNode(ms)
    case Arr(items) => AppendChildrenToArrayNode(items)
    case _ => CreateScalarNode(v)
  }

  /** The loop of `appendChildrenToArrayNode`: one `add(node)` per element, in order. */
  function AddItems(expr: Expr, items: seq<JValue>): (e: Expr)
    ensures items == [] ==> e == expr
    ensures items != [] ==> e.MethodCall? && e.name == "add" && |e.args| == 1
    decreases items, 0
  {
    if items == [] then expr
    else AddItems(MethodCall(expr, "add", [NodeExpr(items[0])]), items[1..])
  }

  /** The loop of `appendChildrenToObjectNode`: one `add(key, node)` per member, in order. */
  function AddMembers(expr: Expr, ms: seq<(string, JValue)>): (e: Expr)
    ensures ms == [] ==> e == expr
    ensures ms != [] ==> e.MethodCall? && e.name == "add" && |e.args| == 2 && e.args[0] == StringLit(ms[|ms| - 1].0)
    decreases ms, 0
  {
    if ms == [] then expr
    else
      assert ms[0].1 < ms[0];
      AddMembers(MethodCall(expr, "add", [StringLit(ms[0].0), NodeExpr(ms[0].1)]), ms[1..])
  }

  /** `appendChildrenToArrayNode`: a fresh `ArrayNode` with one `add` per element. */
  function AppendChildrenToArrayNode(items: seq<JValue>): (e: Expr)
    ensures items == [] ==> e == New("ArrayNode", [])
    ensures items != [] ==> e.MethodCall? && e.name == "add" && |e.args| == 1
    decreases items, 1
  {
    AddItems(CreateArrayNode(), items)
  }

  /** `appendChildrenToObjectNode`: a fresh `ObjectNode` with one `add(key, node)` per member. */
  function AppendChildrenToObjectNode(ms: seq<(string, JValue)>): (e: Expr)
    ensures ms == [] ==> e == New("ObjectNode", [])
    ensures ms != [] ==> e.MethodCall? && e.name == "add" && |e.args| == 2 && e.args[0] == StringLit(ms[|ms| - 1].0)
    decreases ms, 1
  {
    AddMembers(CreateObjectNode(), ms)
  }

  /** The statement handed to the printer: `$node = <root chain>`. */
  function Statement(root: Expr): (s: Expr) {
    Assign(Variable("node"), root)
  }

  /** `getLinesByCode`: drop the printed `;`, put a line break before every `->add`, then split. */
  function GetLinesByCode(code: string): (lines: seq<string>)
    ensures Implode(lines, "\n") == ReplaceAll(DropLast(code, 1), "->add", "\n->add")
    ensures Concat(lines) == Remove(DropLast(code, 1), '\n')
  {
    var withAdd := ReplaceAll(DropLast(code, 1), "->add", "\n->add");
    ImplodeExplode(withAdd, '\n');
    ConcatExplode(withAdd, '\n');
    assert "\n->add" == ['\n'] + "->add";
    ReplaceInsertsOnly(DropLast(code, 1), "->add", '\n');
    Explode(withAdd, '\n')
  }

  /** An `->add` segment opens a scope unless the last structured line closed one or holds a scalar. */
  predicate OpensScope(lastStructuredLine: string) {
    && !Contains(lastStructuredLine, " )")
    && !Contains(lastStructuredLine, "BoolNode")
    && !Contains(lastStructuredLine, "FloatNode")
    && !Contains(lastStructuredLine, "IntNode")
    && !Contains(lastStructuredLine, "StringNode")
  }

  /** `$position` after the opening test of `structuredLine`. */
  function Opened(line: string, lastStructuredLine: string, position: int): (p: int) {
    if StartsWith(line, "->add") && OpensScope(lastStructuredLine) then position + 1 else position
  }

  /** The number of `)` that end `line`. */
  function TrailingParens(line: string): (k: nat)
    ensures k <= |line|
    decreases |line|
  {
    if line == [] || line[|line| - 1] != ')' then 0 else 1 + TrailingParens(line[..|line| - 1])
  }

  /**
   * What the counting loop of `structuredLine` ends with. It reads `$line` at offsets
   * `|line| - 1` downwards; negative offsets count from the end, so on a line made only of `)`
   * it goes round once more and stops only past offset `-|line|`.
   */
  function BraceCount(line: string): (b: nat) {
    var k := TrailingParens(line);
    if k == |line| then 2 * |line| else k
  }

  /** The number of lone `)` lines that follow the line itself. */
  function Closing(braceCount: nat): (m: nat) {
    if braceCount > 2 then braceCount - 2 else 0
  }

  /** `m` lines holding a lone `)`, each one level further out than the one before. */
  function ClosingRows(position: int, m: nat): (rows: seq<Row>)
    ensures |rows| == m
    ensures forall i :: 0 <= i < m ==> rows[i] == Row(position - 1 - i, ")")
  {
    seq(m, i requires 0 <= i < m => Row(position - 1 - i, ")"))
  }

  /** The rows `structuredLine` emits for `line` when `$position` is `position` after the opening test. */
  function LineRows(line: string, position: int): (rows: seq<Row>)
    ensures |rows| == 1 + Closing(BraceCount(line))
  {
    var b := BraceCount(line);
    var head := if b > 2 then DropLast(line, b - 2) else line;
    [Row(position, head)] + ClosingRows(position, Closing(b))
  }

  /** The rendered last structured line, or `''` before the first. */
  function LastStructured(rows: seq<Row>): (s: string) {
    if rows == [] then "" else Render(rows[|rows| - 1])
  }

  /** The effect of `structuredLine` on `$position` and `$structuredLines`. */
  function Advance(line: string, st: State): (r: State)
    ensures |r.rows| > |st.rows|
  {
    var p := Opened(line, LastStructured(st.rows), st.position);
    State(p - Closing(BraceCount(line)), st.rows + LineRows(line, p))
  }

  /** The state after the first `n` segments. */
  function Scan(lines: seq<string>, n: nat): (st: State)
    requires n <= |lines|
    ensures n > 0 ==> st.rows != []
    decreases n
  {
    if n == 0 then State(0, []) else Advance(lines[n - 1], Scan(lines, n - 1))
  }

  /** The rows with `;` appended to the last one. */
  function Terminated(rows: seq<Row>): (done: seq<Row>)
    requires rows != []
  {
    var last := rows[|rows| - 1];
    rows[..|rows| - 1] + [Row(last.indent, last.text + ";")]
  }

  /** The structured rows for `code`, as `structureCode` computes them. */
  function StructuredRows(code: string): (rows: seq<Row>) {
    var lines := GetLinesByCode(code);
    Terminated(Scan(lines, |lines|).rows)
  }

  /** `structuredLine`: `position` and `structuredLines` are PHP by-reference parameters. */
  method StructuredLine(line: string, lastStructuredLine: string, position: int, structuredLines: seq<Row>)
    returns (position': int, structuredLines': seq<Row>)
    ensures position' == Opened(line, lastStructuredLine, position) - Closing(BraceCount(line))
    ensures structuredLines' == structuredLines + LineRows(line, Opened(line, lastStructuredLine, position))
  {
    position' := position;
    if StartsWith(line, "->add") && OpensScope(lastStructuredLine) {
      position' := position' + 1;
    }
    var level := position';
    assert level == Opened(line, lastStructuredLine, position);

    // `while (')' === $line[--$lineLength]) $braceCount++;`
    var lineLength := |line|;
    var braceCount := 0;
    lineLength := lineLength - 1;
    BraceCountBoundary(line);
    while CharAt(line, lineLength) == Some(')')
      invariant lineLength == |line| - 1 - braceCount
      invariant braceCount <= BraceCount(line)
      decreases BraceCount(line) - braceCount
    {
      braceCount := braceCount + 1;
      lineLength := lineLength - 1;
    }
    BraceCountStops(line, braceCount);

    if braceCount > 2 {
      structuredLines' := structuredLines + [Row(position', DropLast(line, braceCount - 2))];
    } else {
      structuredLines' := structuredLines + [Row(position', line)];
    }
    var rowsOfLine := structuredLines';

    // `while ($braceCount-- > 2) { $position--; $structuredLines[] = ...; }`
    while braceCount > 2
      invariant 0 <= braceCount <= BraceCount(line)
      invariant BraceCount(line) > 2 ==> braceCount >= 2
      invariant position' == level - (Closing(BraceCount(line)) - Closing(braceCount))
      invariant structuredLines' == rowsOfLine + ClosingRows(level, Closing(BraceCount(line)) - Closing(braceCount))
      decreases braceCount
    {
      ClosingRowsSnoc(level, Closing(BraceCount(line)) - Closing(braceCount));
      braceCount := braceCount - 1;
      position' := position' - 1;
      structuredLines' := structuredLines' + [Row(position', ")")];
    }
    assert Closing(braceCount) == 0;
    LineRowsAfter(structuredLines, rowsOfLine, line, level);
  }

  /** The rows of the line, appended after the row holding the line itself. */
  lemma LineRowsAfter(rows: seq<Row>, rowsOfLine: seq<Row>, line: string, p: int)
    requires var b := BraceCount(line);
      rowsOfLine == rows + [Row(p, if b > 2 then DropLast(line, b - 2) else line)]
    ensures rowsOfLine + ClosingRows(p, Closing(BraceCount(line))) == rows + LineRows(line, p)
  {
  }

  lemma ClosingRowsSnoc(position: int, m: nat)
    ensures ClosingRows(position, m + 1) == ClosingRows(position, m) + [Row(position - 1 - m, ")")]
  {
  }

  /** The counting loop of `structuredLine` cannot stop before `BraceCount(line)`. */
  lemma BraceCountStops(line: string, k: nat)
    requires k <= BraceCount(line)
    requires CharAt(line, |line| - 1 - k) != Some(')')
    ensures k == BraceCount(line)
  {
    if k < BraceCount(line) {
      BraceCountParens(line, k);
    }
  }

  /** The characters `structuredLine`'s loop reads before it stops are all `)`. */
  lemma BraceCountParens(line: string, k: nat)
    requires k < BraceCount(line)
    ensures CharAt(line, |line| - 1 - k) == Some(')')
  {
    if TrailingParens(line) == |line| {
      if k < |line| {
        TrailingParensAt(line, k);
      } else {
        TrailingParensAt(line, k - |line|);
      }
    } else {
      TrailingParensAt(line, k);
    }
  }

  /** The character at which `structuredLine`'s loop stops is not `)`. */
  lemma BraceCountBoundary(line: string)
    ensures CharAt(line, |line| - 1 - BraceCount(line)) != Some(')')
  {
    if TrailingParens(line) < |line| {
      TrailingParensEnd(line);
    }
  }

  lemma {:induction false} TrailingParensAt(line: string, k: nat)
    requires k < TrailingParens(line)
    ensures line[|line| - 1 - k] == ')'
    decreases |line|
  {
    if k > 0 {
      var init := line[..|line| - 1];
      TrailingParensAt(init, k - 1);
      assert init[|init| - 1 - (k - 1)] == line[|line| - 1 - k];
    }
  }

  lemma {:induction false} TrailingParensEnd(line: string)
    requires TrailingParens(line) < |line|
    ensures line[|line| - 1 - TrailingParens(line)] != ')'
    decreases |line|
  {
    if line[|line| - 1] == ')' {
      var init := line[..|line| - 1];
      TrailingParensEnd(init);
      assert init[|init| - 1 - TrailingParens(init)] == line[|line| - 1 - TrailingParens(line)];
    }
  }

  /** `structureCode`: scan the segments, then append `;` to the last structured line. */
  method StructureCode(code: string) returns (out: string)
    ensures out == Output(StructuredRows(code))
  {
    var lines := GetLinesByCode(code);
    var position := 0;
    var structuredLines: seq<Row> := [];
    for i := 0 to |lines|
      invariant State(position, structuredLines) == Scan(lines, i)
    {
      var lastStructuredLine := if structuredLines == [] then "" else Render(structuredLines[|structuredLines| - 1]);
      position, structuredLines := StructuredLine(lines[i], lastStructuredLine, position, structuredLines);
    }
    var n := |structuredLines|;
    var last := structuredLines[n - 1];
    TerminatedUpdate(structuredLines);
    structuredLines := structuredLines[n - 1 := Row(last.indent, last.text + ";")];
    out := Output(structuredLines);
  }

  lemma TerminatedUpdate(rows: seq<Row>)
    requires rows != []
    ensures rows[|rows| - 1 := Row(rows[|rows| - 1].indent, rows[|rows| - 1].text + ";")] == Terminated(rows)
  {
  }

  /**
   * `generateByJson`. `decoded` is what `json_decode` made of `query` (its failure carries
   * `json_last_error_msg()`), and `prettyPrint` is the external printer.
   */
  method GenerateByJson(query: string, decoded: Result<JValue, string>, prettyPrint: seq<Expr> -> string)
    returns (r: Result<string, GenerateError>)
    ensures decoded.Failure? ==> r == Failure(InvalidArgument("Message: " + decoded.error + ", query: " + query))
    ensures decoded.Success? && !decoded.value.IsContainer() ==> r == Failure(TypeError)
    ensures decoded.Success? && decoded.value.Obj? ==>
      r == Success(Output(StructuredRows(prettyPrint([Statement(AppendChildrenToObjectNode(decoded.value.members))]))))
    ensures decoded.Success? && decoded.value.Arr? ==>
      r == Success(Output(StructuredRows(prettyPrint([Statement(AppendChildrenToArrayNode(decoded.value.items))]))))
  {
    if decoded.Failure? {
      return Failure(InvalidArgument("Message: " + decoded.error + ", query: " + query));
    }
    var data := decoded.value;
    var expr;
    if data.Obj? {
      expr := AppendChildrenToObjectNode(data.members);
    } else if data.Arr? {
      expr := AppendChildrenToArrayNode(data.items);
    } else {
      return Failure(TypeError);
    }
    var code := prettyPrint([Assign(Variable("node"), expr)]);
    var structured := StructureCode(code);
    r := Success(structured);
  }
}
