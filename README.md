# A verified model of a JSON-to-node-builder PHP code generator

The system turns a decoded JSON value into PHP source code that rebuilds the value through a
node-builder library. It has two independent generators, and each works in two stages. The
first stage builds a PhpParser expression tree. The second stage takes the printed code and
re-lays it out, one call per line, indented by nesting depth.

- `QueryBuilderGenerator` uses a fluent style with `end`. For example, `$qb->add('a', $qb->objectNode())->add('b', $qb->intNode(1))->end()`.
  Containers are created on `$qb`, children are attached with `add` (or with
  `addToObjectNode`/`addToArrayNode` when `useMethodName` is set), and each container child is closed by
  `->end()`. Its structurer splits the code before every `->add` and `->end`.
- `NodeGenerator` uses a nested-argument style: `$node = (new ObjectNode())->add('a', new IntNode(1))`.
  Every child is built fully and then passed to `add`. Its structurer splits the code before
  every `->add` and moves each run of closing parentheses onto lines of its own.

The model is organised as follows:

- `wrappers.dfy` holds `Option` and `Result`.
- `json.dfy` holds the decoded value and counts of what lies below a value.
- `php_ast.dfy` holds the expression nodes the generators build and a count of method calls.
- `php_string.dfy` holds the PHP string functions used (`strpos` as a test, `str_pad`,
  `str_replace`, `explode`, `implode`, `substr`, negative string offsets) and their laws.
- `lines.dfy` holds the structured line: an indentation counter plus text, rendered as
  `4 * indent` spaces followed by the text.
- `query_builder_generator.dfy` and `node_generator.dfy` model the two source files.
  - Expression building is pure recursive functions.
  - `structureCode` in both generators and `structuredLine` in `NodeGenerator` are methods with
    `while`/`for` loops. Each is proved against a scan function over the segments.
  - `structuredLine` in `QueryBuilderGenerator` and `generateByJson` in both generators are
    methods without loops. Their contracts state the new state or the result outright.
- `query_builder_reference.dfy` and `node_reference.dfy` are independent readings of the
  generated expression as the value it builds. They are the partner definitions of the builders.
- `query_builder_properties.dfy` and `node_generator_properties.dfy` hold the per-generator
  properties: call counts, method names, how the scans move the indentation, and text
  preservation.
- `query_builder_finding.dfy` works out one input on which the fluent structurer loses the final `;`.

External pieces are parameters:

- The JSON decoder: `GenerateByJson` takes its `Result` (a failure carries the decoder's message).
- The PhpParser printer: a function from statements to a string. No property depends on how
  it prints, except in three places:
  - `NodeGeneratorProperties.PrintedKeepsText` requires printed code on one line, ending in `;`,
    not starting with `)`.
  - `QueryBuilderProperties.StructuredRowsKeepText` requires that every segment merged onto the
    previous line is the bare `->end()` (`BareEndMerges`).
  - `QueryBuilderFinding` fixes one printing, `Printed`, of the statements for `{"a":{}}`.
    `MissingSemicolon`, `CorrectedKeepsSemicolon` and `SegmentsOfPrinted` are about that string.

## Model

| member | source | states |
|---|---|---|
| QueryBuilderGenerator.CreateScalarNode | src/QueryBuilderGenerator.php:98-111 | Every scalar becomes a call on `$qb`, and only `null` gives a call with no argument (`nullNode()`). |
| QueryBuilderGenerator.CreateQueryBuilderNode | src/QueryBuilderGenerator.php:67-70 | The first statement assigns a fresh, argument-less `new QueryBuilder()` to `$qb`, the variable every later call goes through. |
| QueryBuilderGenerator.CreateObjectNode | src/QueryBuilderGenerator.php:77-80 | An empty object is created by `objectNode()` called on `$qb`, with no argument. |
| QueryBuilderGenerator.CreateArrayNode | src/QueryBuilderGenerator.php:87-90 | An empty array is created by `arrayNode()` called on `$qb`, with no argument. |
| QueryBuilderGenerator.AppendChildrenToArrayNode | src/QueryBuilderGenerator.php:120-143 | No element leaves the chain unchanged. Otherwise the chain ends in a method call, and that call is `end()` exactly when the last element is a container. The chain for the last element is built on the chain for the others (`ArrayChainSnoc`). |
| QueryBuilderGenerator.AppendChildrenToObjectNode | src/QueryBuilderGenerator.php:152-175 | No member leaves the chain unchanged. Otherwise the chain ends in a method call, and that call is `end()` exactly when the last member's value is a container. The chain for the last member is built on the chain for the others (`ObjectChainSnoc`). |
| QueryBuilderProperties.ArrayChainSnoc | src/QueryBuilderGenerator.php:120-143 | The chain for the elements plus one more is one pass of the loop on the chain for the elements. That pass gives a scalar as `add(node)` (or `addToArrayNode`) on the chain so far, and wraps a container, filled in turn, in `end()`. |
| QueryBuilderProperties.ObjectChainSnoc | src/QueryBuilderGenerator.php:152-175 | The chain for the members plus one more is one pass of the loop on the chain for the members. That pass gives a scalar as `add(key, node)` (or `addToObjectNode`), key first, on the chain so far, and wraps a container, filled in turn, in `end()`. |
| QueryBuilderReference.ScalarNodeRoundTrip | src/QueryBuilderGenerator.php:98-111 | Reading back the node built for a scalar gives that scalar: int, float, `true`/`false`, null and string each map to their own node method. |
| QueryBuilderReference.ChainRebuildsObject | src/QueryBuilderGenerator.php:120-175 | With either naming of the attaching calls, the fluent chain on `$qb`, run as a builder with `end` returning to the parent, rebuilds the decoded object exactly: every key and element in input order, at every depth. |
| QueryBuilderProperties.ChainEndCount | src/QueryBuilderGenerator.php:120-175 | The chain holds exactly one `end()` per container strictly below the root. |
| QueryBuilderProperties.ChainAddCount | src/QueryBuilderGenerator.php:120-175 | The chain holds exactly one attaching call (`add`, `addToObjectNode` or `addToArrayNode`) per value strictly below the root. |
| QueryBuilderProperties.ChainMethodNames | src/QueryBuilderGenerator.php:131-171 | With `useMethodName`, no plain `add` is emitted. Without it, neither `addToObjectNode` nor `addToArrayNode` is. |
| QueryBuilderGenerator.GetLinesByCode | src/QueryBuilderGenerator.php:203-209 | Joining the segments with line breaks gives the code with a break put before every `->add` and then before every `->end`. The segments put together are the code without its line breaks. |
| QueryBuilderGenerator.StructuredLine | src/QueryBuilderGenerator.php:217-250 | An `->add` segment raises the counter by one exactly when the previous raw segment holds no `->end` and no scalar node call, and is emitted at the new depth. An `->end` after a container creation (found past offset 0) appends the literal `->end()` to the last line. Any other `->end` lowers the counter and is emitted at the new depth. Anything else is emitted unindented. |
| QueryBuilderGenerator.StructureCode | src/QueryBuilderGenerator.php:182-196 | The result is the rows of the scan over all segments, each previous raw segment passed along, rendered and joined with line breaks. |
| QueryBuilderGenerator.GenerateByJson | src/QueryBuilderGenerator.php:47-62 | A decoder failure gives `InvalidArgument` with the message `Message: <diagnostic>, query: <query>`. A root that is not an object is a type error. An object gives the laid-out printing of `$qb = new QueryBuilder();` and the chain. |
| QueryBuilderProperties.NothingBeforeFirst | src/QueryBuilderGenerator.php:236 | The first segment, whose previous line is `''`, never counts as following a container creation. |
| QueryBuilderProperties.AddIsNotEnd | src/QueryBuilderGenerator.php:219-235 | No segment takes both the `->add` branch and the `->end` branch. |
| QueryBuilderProperties.CorrectedScanKeepsText | src/QueryBuilderGenerator.php:217-250 | When an empty container's `->end` segment is merged whole, the rows of the scan hold exactly the segments' characters, in order, and no line break. |
| QueryBuilderProperties.ScanAgrees | src/QueryBuilderGenerator.php:235-240 | When every merged segment is exactly `->end()`, the structurer as written and the corrected one produce the same rows. |
| QueryBuilderProperties.CorrectedRowsKeepText | src/QueryBuilderGenerator.php:182-209 | With the correction, the laid-out code holds the printed code with only its line breaks removed. Removing spaces and breaks, the output equals the printed code. |
| QueryBuilderProperties.StructuredRowsKeepText | src/QueryBuilderGenerator.php:182-250 | The structurer as written keeps the printed code in the same sense, whenever every merged `->end` segment is the bare `->end()`. |
| QueryBuilderFinding.MissingSemicolon | src/QueryBuilderGenerator.php:235-240 | For the printing of `{"a":{}}` the structurer as written gives three rows whose last one ends in `->end()`. Its text is not the printed code: the final `;` is gone. |
| QueryBuilderFinding.CorrectedKeepsSemicolon | src/QueryBuilderGenerator.php:235-240 | With the segment merged whole, the same input keeps `->end();` on the last row. |
| QueryBuilderFinding.SegmentsOfPrinted | src/QueryBuilderGenerator.php:203-209 | The printing of `{"a":{}}` splits into the four segments `$qb = new QueryBuilder();`, `$qb`, `->add('a', $qb->objectNode())` and `->end();`. |
| NodeGenerator.CreateScalarNode | src/NodeGenerator.php:77-90 | Every scalar becomes a one-argument `new`. `null` becomes `new StringNode(null)`. The class is `StringNode` exactly for strings and null. |
| NodeGenerator.CreateObjectNode | src/NodeGenerator.php:60-63 | An empty object is `new ObjectNode()` with no argument. |
| NodeGenerator.CreateArrayNode | src/NodeGenerator.php:68-71 | An empty array is `new ArrayNode()` with no argument. |
| NodeGenerator.AppendChildrenToArrayNode | src/NodeGenerator.php:96-119 | No element gives a bare `new ArrayNode()`. Otherwise the outermost call is an `add` with one argument. |
| NodeGenerator.AppendChildrenToObjectNode | src/NodeGenerator.php:125-148 | No member gives a bare `new ObjectNode()`. Otherwise the outermost call is an `add` with two arguments, the last member's key first. |
| NodeReference.ItemsSnoc | src/NodeGenerator.php:96-119 | The chain for the elements plus one more is `add(node)` on the chain for the elements, with the new element's node fully built as the argument. |
| NodeReference.MembersSnoc | src/NodeGenerator.php:125-148 | The chain for the members plus one more is `add(key, node)` on the chain for the members: the key, then the new member's node fully built. |
| NodeReference.ScalarNodeRoundTrip | src/NodeGenerator.php:77-90 | Reading back the node built for a scalar gives the scalar: `IntNode`, `FloatNode`, `BoolNode(true/false)`, `StringNode(s)`, and `StringNode(null)` as null. |
| NodeReference.NodeRoundTrip | src/NodeGenerator.php:96-148 | Reading back the expression built for any value gives that value. Containers start from a fresh `new ObjectNode`/`new ArrayNode` and get one `add` per key (key first) or element, in input order, with each child fully built. |
| NodeReference.MembersRebuild | src/NodeGenerator.php:125-148 | The `add(key, node)` calls for a member list, on an object already holding some members, append exactly those members, in order. |
| NodeReference.ItemsRebuild | src/NodeGenerator.php:96-119 | The `add(node)` calls for an element list, on an array already holding some elements, append exactly those elements, in order. |
| NodeReference.NodeCalls | src/NodeGenerator.php:96-148 | For any set of method names, the expression holds as many calls with those names as there are values below the root if the set contains `add`, and none otherwise. So every call the generator emits is an `add`. |
| NodeReference.AddCount | src/NodeGenerator.php:96-148 | Exactly one `add` per value strictly below the root. |
| NodeReference.NoEndCalls | src/NodeGenerator.php:96-148 | No `end` call is emitted. |
| NodeGenerator.GetLinesByCode | src/NodeGenerator.php:176-181 | Joining the segments with line breaks gives the code without its last character, with a break before every `->add`. The segments put together are that text without line breaks. |
| NodeGenerator.StructuredLine | src/NodeGenerator.php:189-219 | The counter rises by one exactly for an `->add` segment whose last structured line holds none of ` )`, `BoolNode`, `FloatNode`, `IntNode`, `StringNode`. The counting loop ends with the trailing-`)` count (wrapping round negative offsets on a line of only `)`). The emitted rows are the segment's rows. The counter falls by one per lone `)` row. |
| NodeGenerator.BraceCountStops | src/NodeGenerator.php:200-205 | The counting loop cannot stop before the count the model gives: every offset it reads before then holds `)`. |
| NodeGenerator.BraceCountBoundary | src/NodeGenerator.php:200-205 | The offset at which the counting loop stops does not hold `)`. |
| NodeGenerator.StructureCode | src/NodeGenerator.php:154-170 | The result is the scan over all segments, with `;` appended to the last structured line, rendered and joined with line breaks. The last structured line passed to each step is the rendered last row, or `''` before the first. |
| NodeGenerator.GenerateByJson | src/NodeGenerator.php:39-55 | A decoder failure gives `InvalidArgument` with `Message: <diagnostic>, query: <query>`. A scalar root is a type error (the `array` parameter under strict types). An object or array root gives the laid-out printing of `$node = <chain>`. |
| NodeGeneratorProperties.TrailingParensShape | src/NodeGenerator.php:200-205 | The trailing-parenthesis count is the length of the run of `)` that ends the segment, and the character before the run is not `)`. |
| NodeGeneratorProperties.LineShape | src/NodeGenerator.php:200-218 | For a segment holding something other than `)`, with k trailing `)`, the loop counts exactly k. If k > 2, the first row keeps the rest of the segment and exactly two `)`, followed by k − 2 rows of a lone `)`, each one level further out. Otherwise the segment is one row at the current depth. |
| NodeGeneratorProperties.AdvanceDepth | src/NodeGenerator.php:189-218 | After a segment with k trailing `)`, the counter is the opened depth minus k − 2 (when k > 2), and k − 1 rows or one row were added. |
| NodeGeneratorProperties.LineKeepsText | src/NodeGenerator.php:207-218 | Unless the segment is a run of three or more `)` alone, its rows put together are the segment, so every `)` is kept. |
| NodeGeneratorProperties.ParenOnlySegment | src/NodeGenerator.php:200-218 | A segment `)))` is counted as six `)`. It becomes an empty row and four lone `)` rows: one `)` more than it had. |
| NodeGeneratorProperties.ScanKeepsText | src/NodeGenerator.php:154-170 | With no long run of `)` alone among the segments, the scan's rows hold the segments' characters in order, and no line break. |
| NodeGeneratorProperties.StructuredRowsKeepText | src/NodeGenerator.php:154-181 | The laid-out code holds the code without its last character and line breaks, then the appended `;`. Removing spaces and breaks from the output gives the same text. |
| NodeGeneratorProperties.SegmentShapes | src/NodeGenerator.php:176-181 | Splitting a line-break-free string before every `->add`: the first segment begins the string and every later segment begins with `->add`. |
| NodeGeneratorProperties.PrintedSegments | src/NodeGenerator.php:176-205 | For a one-line statement not starting with `)`, no segment is a long run of `)` alone. |
| NodeGeneratorProperties.PrintedKeepsText | src/NodeGenerator.php:154-181 | For a one-line printed statement ending in `;`, the laid-out code holds exactly the printed code: the `;` dropped by the split is restored. Removing spaces and breaks from the output gives the printed code without spaces. |
| Lines.OutputIsLayout | src/NodeGenerator.php:169 | Output joined with line breaks, with line breaks and spaces removed, is the rows' texts put together without spaces: rendering adds only indentation and breaks. |
| PhpString.ImplodeExplode | src/NodeGenerator.php:176-181 | `implode` with the separator undoes `explode` on a one-character separator. |
| PhpString.ReplaceInsertsOnly | src/NodeGenerator.php:178 | Putting a character in front of every occurrence of a pattern only adds that character. |

## Left out

- JSON decoding (`json_decode`, `json_last_error`, `json_last_error_msg`) is a foreign call. The decoded value, or the decoder's diagnostic, is a parameter.
- The PhpParser printer `Standard::prettyPrint` is an external library. It is a function parameter of `GenerateByJson`. Three parts of the model depend on what it prints, each stated where the part is declared. `NodeGeneratorProperties.PrintedKeepsText` requires one line, ending in `;`, not starting with `)`. `QueryBuilderProperties.StructuredRowsKeepText` requires `BareEndMerges` of the segments. `QueryBuilderFinding.MissingSemicolon`, `QueryBuilderFinding.CorrectedKeepsSemicolon` and `QueryBuilderFinding.SegmentsOfPrinted` rest on the printing `Printed` of `{"a":{}}`, taken as what the printer produces.
- Float-literal formatting (`DNumber`) and string escaping (`String_`) are printer concerns. A float is an opaque token and a string literal keeps its text.
- The console commands under `src/Command/` (argument handling, output, exit codes) and their deprecation notices (`trigger_error`) are I/O and global error state.
- The node classes themselves (`ObjectNode::add` and the others) are not part of this model. `QueryBuilderReference` and `NodeReference` are stated readings of what they build, and reading `new StringNode(null)` as JSON `null` is an assumption.
- The constructor and its `useMethodName` flag (src/QueryBuilderGenerator.php:36-40) are a parameter of the chain functions and of `GenerateByJson`. The printer injected into either constructor is the `prettyPrint` parameter.
- The `$queryBuilder` parameter of `createObjectNode`, `createArrayNode`, `createScalarNode` and both `appendChildrenTo*` methods in src/QueryBuilderGenerator.php is always the variable `$qb` (line 54), so the model fixes it to `QB` rather than passing it.
- Integers are unbounded in the model. The decoder turns a JSON integer beyond PHP's 64-bit range into a float, so the generators never see one that would wrap.
- Negative string offsets are modelled as in PHP 7.1 and later. On PHP 7.0 the counting loop of `structuredLine` in src/NodeGenerator.php would stop at offset -1 instead.
- `NodeGenerator.StructuredLine`, on a segment that is a run of three or more `)` alone, follows the code: the count wraps round and the rows gain `)` (see `NodeGeneratorProperties.ParenOnlySegment`). A one-line printed statement never has such a segment (`NodeGeneratorProperties.PrintedSegments`). A string value holding a line break is printed with that break inside the literal, and its printing can have such a segment. For example, `GetLinesByCode("x\n)))\ny;")` is `["x", ")))", "y"]`. The model does not claim any property of the layout of such a printing.
- Line breaks inside string literals: `getLinesByCode` in both generators splits at every line break, including one inside a string literal. The layout then puts each later part of the literal on its own row with its indentation, so the string's text gains spaces. The text-preservation lemmas remove line breaks on both sides (`Remove(code, '\n')`), and the whitespace-insensitive ones remove spaces too. They do not promise that such a literal keeps its text.
- Expectations in the repository's tests that the code does not meet (`::create()` factories, `NullNode`, a `useQueryBuilderFactory` constructor argument, a constructor deprecation) are not modelled. The model follows the code.

## Findings

| source | as written | input that shows it | evidently intended | confidence | as-written member | corrected member |
|---|---|---|---|---|---|---|
| src/QueryBuilderGenerator.php:235-240 | After an `->end` segment that follows a container creation, the literal `->end()` is appended to the previous line and the segment itself is dropped. The last segment is `->end();`, so its `;` is lost when the root's last member is an empty container. | `{"a":{}}`, printed as `$qb = new QueryBuilder();` + line break + `$qb->add('a', $qb->objectNode())->end();` | Append the segment itself (`->end();` at the end of the statement), so that the laid-out code is the printed code re-indented | not executed | QueryBuilderFinding.MissingSemicolon | QueryBuilderProperties.CorrectedRowsKeepText |
