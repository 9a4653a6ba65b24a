/**
 * A reference reading of the code `QueryBuilderGenerator` emits, and the proofs that the
 * generated chain means the decoded value. The reading follows the fluent builder the code
 * targets: `$qb` starts on an empty root object; `add(key, node)` on an object and
 * `add(node)` on an array attach a child, and a child created by `objectNode()` or
 * `arrayNode()` becomes the container the following calls fill, until `end()` returns to its
 * parent. `addToObjectNode` and `addToArrayNode` are accepted only on the matching kind.
 */
module QueryBuilderReference {
  import opened Wrappers
  import opened Json
  import opened PhpAst
  import opened QueryBuilderGenerator

  const Builder: Expr := Variable("qb")

  /** A container that is being filled. */
  datatype Open = OpenObject(members: seq<(string, JValue)>) | OpenArray(items: seq<JValue>)

  /** Where a container goes when it is closed. */
  datatype Slot = Root | Keyed(key: string) | Listed

  datatype Frame = Frame(slot: Slot, open: Open)

  function ValueOf(o: Open): (v: JValue) {
    match o
    case OpenObject(ms) => Obj(ms)
    case OpenArray(items) => Arr(items)
  }

  /** The empty container a creation call on `$qb` makes, if `e` is one. */
  function Created(e: Expr): (r: Option<Open>) {
    if e == MethodCall(Builder, "objectNode", []) then Some(OpenObject([]))
    else if e == MethodCall(Builder, "arrayNode", []) then Some(OpenArray([]))
    else None
  }

  /** The scalar a node-creating call on `$qb` stands for, if `e` is one. */
  function ScalarOf(e: Expr): (r: Option<JValue>) {
    if !e.MethodCall? || e.receiver != Builder then None
    else if e.name == "intNode" && |e.args| == 1 && e.args[0].LNumber? then Some(Int(e.args[0].number))
    else if e.name == "floatNode" && |e.args| == 1 && e.args[0].DNumber? then Some(Float(e.args[0].float))
    else if e.name == "boolNode" && e.args == [ConstFetch("true")] then Some(Bool(true))
    else if e.name == "boolNode" && e.args == [ConstFetch("false")] then Some(Bool(false))
    else if e.name == "nullNode" && e.args == [] then Some(Null)
    else if e.name == "stringNode" && |e.args| == 1 && e.args[0].StringLit? then Some(Str(e.args[0].text))
    else None
  }

  /** `o` with `v` put in `slot`, if the slot fits the kind of container. */
  function Put(o: Open, slot: Slot, v: JValue): (r: Option<Open>) {
    match (o, slot)
    case (OpenObject(ms), Keyed(k)) => Some(OpenObject(ms + [(k, v)]))
    case (OpenArray(items), Listed) => Some(OpenArray(items + [v]))
    case _ => None
  }

  /** Attach `child` to the innermost open container, in `slot`. */
  function Attach(stack: seq<Frame>, slot: Slot, child: Expr): (r: Option<seq<Frame>>)
    requires stack != []
  {
    var top := stack[|stack| - 1];
    match Created(child)
    case Some(o) => Some(stack + [Frame(slot, o)])
    case None =>
      match ScalarOf(child)
      case None => None
      case Some(v) =>
        match Put(top.open, slot, v)
        case None => None
        case Some(o') => Some(stack[..|stack| - 1] + [Frame(top.slot, o')])
  }

  /** An attaching call on the chain. */
  function Add(stack: seq<Frame>, name: string, args: seq<Expr>): (r: Option<seq<Frame>>)
    requires stack != []
  {
    var top := stack[|stack| - 1];
    if top.open.OpenObject? && (name == "add" || name == "addToObjectNode") && |args| == 2 && args[0].StringLit? then
      Attach(stack, Keyed(args[0].text), args[1])
    else if top.open.OpenArray? && (name == "add" || name == "addToArrayNode") && |args| == 1 then
      Attach(stack, Listed, args[0])
    else None
  }

  /** `end()`: the innermost container is complete and goes into its parent. */
  function Close(stack: seq<Frame>): (r: Option<seq<Frame>>) {
    if |stack| < 2 then None
    else
      var top := stack[|stack| - 1];
      var parent := stack[|stack| - 2];
      match Put(parent.open, top.slot, ValueOf(top.open))
      case None => None
      case Some(o) => Some(stack[..|stack| - 2] + [Frame(parent.slot, o)])
  }

  /** The open containers after the chain `e`, or `None` when `e` is not a well-formed chain on `$qb`. */
  function Run(e: Expr): (r: Option<seq<Frame>>)
    decreases e
  {
    if e == Builder then Some([Frame(Root, OpenObject([]))])
    else if !e.MethodCall? then None
    else
      match Run(e.receiver)
      case None => None
      case Some(stack) =>
        if stack == [] then None
        else if e.name == "end" && e.args == [] then Close(stack)
        else Add(stack, e.name, e.args)
  }

  /** The JSON value a complete chain builds. */
  function Eval(e: Expr): (r: Option<JValue>) {
    match Run(e)
    case Some(stack) => if |stack| == 1 && stack[0].slot == Root then Some(ValueOf(stack[0].open)) else None
    case None => None
  }

  /** Every scalar maps to the node-creating call that stands for it, and to no container. */
  lemma ScalarNodeRoundTrip(v: JValue)
    requires !v.IsContainer()
    ensures ScalarOf(CreateScalarNode(v)) == Some(v)
    ensures Created(CreateScalarNode(v)) == None
  {
  }

  /** A call with arguments on a well-formed chain is an attaching call on its open containers. */
  lemma RunAdd(expr: Expr, name: string, args: seq<Expr>, stack: seq<Frame>)
    requires Run(expr) == Some(stack) && stack != [] && args != []
    ensures Run(MethodCall(expr, name, args)) == Add(stack, name, args)
  {
  }

  /** Either naming of the array call attaches its one argument to an open array. */
  lemma ArrayAdd(stack: seq<Frame>, m: bool, child: Expr)
    requires stack != [] && stack[|stack| - 1].open.OpenArray?
    ensures Add(stack, ArrayAddName(m), [child]) == Attach(stack, Listed, child)
  {
  }

  /** Either naming of the object call attaches its second argument to an open object, under the first. */
  lemma ObjectAdd(stack: seq<Frame>, m: bool, key: string, child: Expr)
    requires stack != [] && stack[|stack| - 1].open.OpenObject?
    ensures Add(stack, ObjectAddName(m), [StringLit(key), child]) == Attach(stack, Keyed(key), child)
  {
  }

  /** Attaching a freshly created container opens it on top of the stack. */
  lemma AttachCreated(stack: seq<Frame>, slot: Slot, v: JValue)
    requires stack != [] && v.IsContainer()
    ensures Attach(stack, slot, CreateArgument(v)) == Some(stack + [Frame(slot, if v.Obj? then OpenObject([]) else OpenArray([]))])
  {
  }

  /** Attaching a scalar's node puts the scalar into the innermost open container. */
  lemma AttachScalar(stack: seq<Frame>, slot: Slot, v: JValue, o: Open)
    requires stack != [] && !v.IsContainer()
    requires Put(stack[|stack| - 1].open, slot, v) == Some(o)
    ensures Attach(stack, slot, CreateArgument(v)) == Some(stack[..|stack| - 1] + [Frame(stack[|stack| - 1].slot, o)])
  {
    ScalarNodeRoundTrip(v);
  }

  /** `end()` on a chain puts the innermost container into its parent. */
  lemma ClosesChild(expr: Expr, below: seq<Frame>, parent: Frame, child: Frame, o: Open)
    requires Run(expr) == Some(below + [parent, child])
    requires Put(parent.open, child.slot, ValueOf(child.open)) == Some(o)
    ensures Run(MethodCall(expr, "end", [])) == Some(below + [Frame(parent.slot, o)])
  {
    var st := below + [parent, child];
    assert st[..|st| - 2] == below;
    assert st[|st| - 1] == child && st[|st| - 2] == parent;
  }

  /** An object child, once filled, is closed by `end()` and put into its parent. */
  lemma {:induction false} NestedObjectRuns(added: Expr, ms: seq<(string, JValue)>, m: bool,
                                            below: seq<Frame>, parent: Frame, slot: Slot, o: Open)
    requires Run(added) == Some(below + [parent, Frame(slot, OpenObject([]))])
    requires Put(parent.open, slot, Obj(ms)) == Some(o)
    ensures Run(MethodCall(AppendChildrenToObjectNode(added, ms, m), "end", [])) == Some(below + [Frame(parent.slot, o)])
    decreases ms, 1
  {
    assert below + [parent, Frame(slot, OpenObject([]))] == (below + [parent]) + [Frame(slot, OpenObject([]))];
    ObjectChildrenRun(added, ms, m, below + [parent], slot, []);
    assert [] + ms == ms;
    assert (below + [parent]) + [Frame(slot, OpenObject(ms))] == below + [parent, Frame(slot, OpenObject(ms))];
    ClosesChild(AppendChildrenToObjectNode(added, ms, m), below, parent, Frame(slot, OpenObject(ms)), o);
  }

  /** An array child, once filled, is closed by `end()` and put into its parent. */
  lemma {:induction false} NestedArrayRuns(added: Expr, items: seq<JValue>, m: bool,
                                           below: seq<Frame>, parent: Frame, slot: Slot, o: Open)
    requires Run(added) == Some(below + [parent, Frame(slot, OpenArray([]))])
    requires Put(parent.open, slot, Arr(items)) == Some(o)
    ensures Run(MethodCall(AppendChildrenToArrayNode(added, items, m), "end", [])) == Some(below + [Frame(parent.slot, o)])
    decreases items, 1
  {
    assert below + [parent, Frame(slot, OpenArray([]))] == (below + [parent]) + [Frame(slot, OpenArray([]))];
    ArrayChildrenRun(added, items, m, below + [parent], slot, []);
    assert [] + items == items;
    assert (below + [parent]) + [Frame(slot, OpenArray(items))] == below + [parent, Frame(slot, OpenArray(items))];
    ClosesChild(AppendChildrenToArrayNode(added, items, m), below, parent, Frame(slot, OpenArray(items)), o);
  }

  lemma {:induction false} ObjectChildRuns(expr: Expr, key: string, v: JValue, m: bool,
                                           below: seq<Frame>, slot: Slot, done: seq<(string, JValue)>)
    requires Run(expr) == Some(below + [Frame(slot, OpenObject(done))])
    ensures Run(AppendObjectChild(expr, key, v, m)) == Some(below + [Frame(slot, OpenObject(done + [(key, v)]))])
    decreases v, 2
  {
    var parent := Frame(slot, OpenObject(done));
    var stack := below + [parent];
    var args := [StringLit(key), CreateArgument(v)];
    var added := MethodCall(expr, ObjectAddName(m), args);
    RunAdd(expr, ObjectAddName(m), args, stack);
    ObjectAdd(stack, m, key, CreateArgument(v));
    if v.Obj? {
      AttachCreated(stack, Keyed(key), v);
      assert stack + [Frame(Keyed(key), OpenObject([]))] == below + [parent, Frame(Keyed(key), OpenObject([]))];
      NestedObjectRuns(added, v.members, m, below, parent, Keyed(key), OpenObject(done + [(key, v)]));
    } else if v.Arr? {
      AttachCreated(stack, Keyed(key), v);
      assert stack + [Frame(Keyed(key), OpenArray([]))] == below + [parent, Frame(Keyed(key), OpenArray([]))];
      NestedArrayRuns(added, v.items, m, below, parent, Keyed(key), OpenObject(done + [(key, v)]));
    } else {
      AttachScalar(stack, Keyed(key), v, OpenObject(done + [(key, v)]));
      assert stack[..|stack| - 1] == below;
    }
  }

  lemma {:induction false} ObjectChildrenRun(expr: Expr, ms: seq<(string, JValue)>, m: bool,
                                             below: seq<Frame>, slot: Slot, done: seq<(string, JValue)>)
    requires Run(expr) == Some(below + [Frame(slot, OpenObject(done))])
    ensures Run(AppendChildrenToObjectNode(expr, ms, m)) == Some(below + [Frame(slot, OpenObject(done + ms))])
    decreases ms, 0
  {
    if ms == [] {
      assert done + ms == done;
    } else {
      assert ms[0].1 < ms[0];
      ObjectChildRuns(expr, ms[0].0, ms[0].1, m, below, slot, done);
      ObjectChildrenRun(AppendObjectChild(expr, ms[0].0, ms[0].1, m), ms[1..], m, below, slot, done + [ms[0]]);
      ObjectChildrenUnfold(expr, ms, m);
      AppendFirst(done, ms);
    }
  }

  lemma ObjectChildrenUnfold(expr: Expr, ms: seq<(string, JValue)>, m: bool)
    requires ms != []
    ensures AppendChildrenToObjectNode(expr, ms, m) == AppendChildrenToObjectNode(AppendObjectChild(expr, ms[0].0, ms[0].1, m), ms[1..], m)
  {
  }

  lemma ArrayChildrenUnfold(expr: Expr, items: seq<JValue>, m: bool)
    requires items != []
    ensures AppendChildrenToArrayNode(expr, items, m) == AppendChildrenToArrayNode(AppendArrayChild(expr, items[0], m), items[1..], m)
  {
  }

  lemma {:induction false} ArrayChildRuns(expr: Expr, v: JValue, m: bool,
                                          below: seq<Frame>, slot: Slot, done: seq<JValue>)
    requires Run(expr) == Some(below + [Frame(slot, OpenArray(done))])
    ensures Run(AppendArrayChild(expr, v, m)) == Some(below + [Frame(slot, OpenArray(done + [v]))])
    decreases v, 2
  {
    var parent := Frame(slot, OpenArray(done));
    var stack := below + [parent];
    var args := [CreateArgument(v)];
    var added := MethodCall(expr, ArrayAddName(m), args);
    RunAdd(expr, ArrayAddName(m), args, stack);
    ArrayAdd(stack, m, CreateArgument(v));
    if v.Obj? {
      AttachCreated(stack, Listed, v);
      assert stack + [Frame(Listed, OpenObject([]))] == below + [parent, Frame(Listed, OpenObject([]))];
      NestedObjectRuns(added, v.members, m, below, parent, Listed, OpenArray(done + [v]));
    } else if v.Arr? {
      AttachCreated(stack, Listed, v);
      assert stack + [Frame(Listed, OpenArray([]))] == below + [parent, Frame(Listed, OpenArray([]))];
      NestedArrayRuns(added, v.items, m, below, parent, Listed, OpenArray(done + [v]));
    } else {
      AttachScalar(stack, Listed, v, OpenArray(done + [v]));
      assert stack[..|stack| - 1] == below;
    }
  }

  lemma {:induction false} ArrayChildrenRun(expr: Expr, items: seq<JValue>, m: bool,
                                            below: seq<Frame>, slot: Slot, done: seq<JValue>)
    requires Run(expr) == Some(below + [Frame(slot, OpenArray(done))])
    ensures Run(AppendChildrenToArrayNode(expr, items, m)) == Some(below + [Frame(slot, OpenArray(done + items))])
    decreases items, 0
  {
    if items == [] {
      assert done + items == done;
    } else {
      ArrayChildRuns(expr, items[0], m, below, slot, done);
      ArrayChildrenRun(AppendArrayChild(expr, items[0], m), items[1..], m, below, slot, done + [items[0]]);
      ArrayChildrenUnfold(expr, items, m);
      AppendFirst(done, items);
    }
  }

  /**
   * The chain built on `$qb` rebuilds the decoded object exactly: every key, in order, every
   * element, in order, at every depth, with either naming of the attaching calls.
   */
  lemma ChainRebuildsObject(ms: seq<(string, JValue)>, useMethodName: bool)
    ensures Eval(AppendChildrenToObjectNode(QB, ms, useMethodName)) == Some(Obj(ms))
  {
    assert QB == Builder;
    assert Run(Builder) == Some([Frame(Root, OpenObject([]))]);
    assert [] + [Frame(Root, OpenObject([]))] == [Frame(Root, OpenObject([]))];
    ObjectChildrenRun(QB, ms, useMethodName, [], Root, []);
    assert [] + ms == ms;
  }
}
