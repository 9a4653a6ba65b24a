/**
 * A reference reading of the expression `NodeGenerator` builds, and the proofs that it means
 * the decoded value. The reading follows the node classes the code targets: `new ObjectNode()`
 * and `new ArrayNode()` are empty containers, `new IntNode(n)` and the other scalar classes
 * hold their argument, `add(key, node)` on an object and `add(node)` on an array attach a
 * child that is already built. `new StringNode(null)` is read as JSON `null`.
 */
module NodeReference {
  import opened Wrappers
  import opened Json
  import opened PhpAst
  import opened NodeGenerator

  /** The scalar a `new` of a scalar node class stands for, if `e` is one. */
  function ScalarNodeOf(e: Expr): (r: Option<JValue>) {
    if !e.New? || |e.args| != 1 then None
    else
      var a := e.args[0];
      if e.className == "IntNode" && a.LNumber? then Some(Int(a.number))
      else if e.className == "FloatNode" && a.DNumber? then Some(Float(a.float))
      else if e.className == "BoolNode" && a == ConstFetch("true") then Some(Bool(true))
      else if e.className == "BoolNode" && a == ConstFetch("false") then Some(Bool(false))
      else if e.className == "StringNode" && a == ConstFetch("null") then Some(Null)
      else if e.className == "StringNode" && a.StringLit? then Some(Str(a.text))
      else None
  }

  /** The value a node expression builds, or `None` when it is not one the node classes accept. */
  function Eval(e: Expr): (r: Option<JValue>)
    decreases e
  {
    if e == New("ObjectNode", []) then Some(Obj([]))
    else if e == New("ArrayNode", []) then Some(Arr([]))
    else if e.New? then ScalarNodeOf(e)
    else if !e.MethodCall? || e.name != "add" then None
    else
      match Eval(e.receiver)
      case Some(Obj(ms)) =>
        if |e.args| != 2 || !e.args[0].StringLit? then None
        else
          (match Eval(e.args[1])
           case Some(v) => Some(Obj(ms + [(e.args[0].text, v)]))
           case None => None)
      case Some(Arr(items)) =>
        if |e.args| != 1 then None
        else
          (match Eval(e.args[0])
           case Some(v) => Some(Arr(items + [v]))
           case None => None)
      case _ => None
  }

  /** Every scalar node reads back as the scalar it was made from. */
  lemma ScalarNodeRoundTrip(v: JValue)
    requires !v.IsContainer()
    ensures Eval(CreateScalarNode(v)) == Some(v)
  {
    var e := CreateScalarNode(v);
    assert e != New("ObjectNode", []) && e != New("ArrayNode", []);
  }

  /** An object `add` attaches the child under its key, after the members already there. */
  lemma AddMemberStep(expr: Expr, key: string, child: Expr, acc: seq<(string, JValue)>, v: JValue)
    requires Eval(expr) == Some(Obj(acc)) && Eval(child) == Some(v)
    ensures Eval(MethodCall(expr, "add", [StringLit(key), child])) == Some(Obj(acc + [(key, v)]))
  {
  }

  /** An array `add` attaches the child after the elements already there. */
  lemma AddItemStep(expr: Expr, child: Expr, acc: seq<JValue>, v: JValue)
    requires Eval(expr) == Some(Arr(acc)) && Eval(child) == Some(v)
    ensures Eval(MethodCall(expr, "add", [child])) == Some(Arr(acc + [v]))
  {
  }

  /** The node built for any value reads back as that value. */
  lemma {:induction false} NodeRoundTrip(v: JValue)
    ensures Eval(NodeExpr(v)) == Some(v)
    decreases v, 1
  {
    match v
    case Obj(ms) =>
      MembersRebuild(CreateObjectNode(), ms, []);
      assert [] + ms == ms;
    case Arr(items) =>
      ItemsRebuild(CreateArrayNode(), items, []);
      assert [] + items == items;
    case _ =>
      ScalarNodeRoundTrip(v);
  }

  /** The `add` calls for `ms`, on an object holding `acc`, make an object holding `acc + ms`. */
  lemma {:induction false} MembersRebuild(expr: Expr, ms: seq<(string, JValue)>, acc: seq<(string, JValue)>)
    requires Eval(expr) == Some(Obj(acc))
    ensures Eval(AddMembers(expr, ms)) == Some(Obj(acc + ms))
    decreases ms, 0
  {
    if ms == [] {
      assert acc + ms == acc;
    } else {
      assert ms[0].1 < ms[0];
      NodeRoundTrip(ms[0].1);
      AddMemberStep(expr, ms[0].0, NodeExpr(ms[0].1), acc, ms[0].1);
      MembersRebuild(MethodCall(expr, "add", [StringLit(ms[0].0), NodeExpr(ms[0].1)]), ms[1..], acc + [ms[0]]);
      AppendFirst(acc, ms);
    }
  }

  /** The `add` calls for `items`, on an array holding `acc`, make an array holding `acc + items`. */
  lemma {:induction false} ItemsRebuild(expr: Expr, items: seq<JValue>, acc: seq<JValue>)
    requires Eval(expr) == Some(Arr(acc))
    ensures Eval(AddItems(expr, items)) == Some(Arr(acc + items))
    decreases items, 0
  {
    if items == [] {
      assert acc + items == acc;
    } else {
      NodeRoundTrip(items[0]);
      AddItemStep(expr, NodeExpr(items[0]), acc, items[0]);
      ItemsRebuild(MethodCall(expr, "add", [NodeExpr(items[0])]), items[1..], acc + [items[0]]);
      AppendFirst(acc, items);
    }
  }

  /** Each element is attached by one `add` on the chain already built for the elements before it. */
  lemma {:induction false} ItemsSnoc(expr: Expr, items: seq<JValue>, v: JValue)
    ensures AddItems(expr, items + [v]) == MethodCall(AddItems(expr, items), "add", [NodeExpr(v)])
    decreases items
  {
    if items == [] {
      assert items + [v] == [v];
    } else {
      assert (items + [v])[0] == items[0] && (items + [v])[1..] == items[1..] + [v];
      ItemsSnoc(MethodCall(expr, "add", [NodeExpr(items[0])]), items[1..], v);
    }
  }

  /** Each member is attached by one `add(key, node)` on the chain already built for the members before it. */
  lemma {:induction false} MembersSnoc(expr: Expr, ms: seq<(string, JValue)>, key: string, v: JValue)
    ensures AddMembers(expr, ms + [(key, v)]) == MethodCall(AddMembers(expr, ms), "add", [StringLit(key), NodeExpr(v)])
    decreases ms
  {
    if ms == [] {
      assert ms + [(key, v)] == [(key, v)];
    } else {
      assert (ms + [(key, v)])[0] == ms[0] && (ms + [(key, v)])[1..] == ms[1..] + [(key, v)];
      assert ms[0].1 < ms[0];
      MembersSnoc(MethodCall(expr, "add", [StringLit(ms[0].0), NodeExpr(ms[0].1)]), ms[1..], key, v);
    }
  }

  /** How many calls an `add` weighs when counting the calls named in `names`. */
  function AddWeight(names: set<string>): (w: nat) {
    if "add" in names then 1 else 0
  }

  /** A scalar node holds no method call. */
  lemma ScalarNodeUncounted(v: JValue, names: set<string>)
    requires !v.IsContainer()
    ensures CallCount(CreateScalarNode(v), names) == 0
  {
    var e := CreateScalarNode(v);
    assert e.args[1..] == [];
    assert !e.args[0].MethodCall? && !e.args[0].New? && !e.args[0].Assign?;
    assert CallCount(e.args[0], names) == 0;
    assert ArgsCallCount(e.args, names) == 0;
  }

  /** An `add` call counts its own weight, its receiver's calls and its arguments' calls. */
  lemma AddCallCount(expr: Expr, args: seq<Expr>, names: set<string>)
    requires 1 <= |args| <= 2
    ensures CallCount(MethodCall(expr, "add", args), names)
      == AddWeight(names) + CallCount(expr, names) + CallCount(args[|args| - 1], names)
         + (if |args| == 2 then CallCount(args[0], names) else 0)
  {
    if |args| == 2 {
      assert args[1..] == [args[1]];
      assert args[1..][1..] == [];
      assert ArgsCallCount(args[1..], names) == CallCount(args[1], names);
    } else {
      assert args[1..] == [];
      assert ArgsCallCount(args[1..], names) == 0;
    }
  }

  /**
   * The node built for `v` holds one `add` per value below `v`, and no call of any other name;
   * in particular no `end`.
   */
  lemma {:induction false} NodeCalls(v: JValue, names: set<string>)
    ensures CallCount(NodeExpr(v), names) == AddWeight(names) * ValuesBelow(v)
    decreases v, 1
  {
    match v
    case Obj(ms) =>
      MembersCalls(CreateObjectNode(), ms, names);
    case Arr(items) =>
      ItemsCalls(CreateArrayNode(), items, names);
    case _ =>
      ScalarNodeUncounted(v, names);
  }

  lemma {:induction false} MembersCalls(expr: Expr, ms: seq<(string, JValue)>, names: set<string>)
    ensures CallCount(AddMembers(expr, ms), names) == CallCount(expr, names) + AddWeight(names) * MembersValues(ms)
    decreases ms, 0
  {
    if ms != [] {
      assert ms[0].1 < ms[0];
      var args := [StringLit(ms[0].0), NodeExpr(ms[0].1)];
      NodeCalls(ms[0].1, names);
      AddCallCount(expr, args, names);
      MembersCalls(MethodCall(expr, "add", args), ms[1..], names);
    }
  }

  lemma {:induction false} ItemsCalls(expr: Expr, items: seq<JValue>, names: set<string>)
    ensures CallCount(AddItems(expr, items), names) == CallCount(expr, names) + AddWeight(names) * ItemsValues(items)
    decreases items, 0
  {
    if items != [] {
      var args := [NodeExpr(items[0])];
      NodeCalls(items[0], names);
      AddCallCount(expr, args, names);
      ItemsCalls(MethodCall(expr, "add", args), items[1..], names);
    }
  }

  /** Counting calls named in a set holding `add` counts every call of the chain. */
  lemma CountWithAdd(v: JValue, names: set<string>)
    requires "add" in names
    ensures CallCount(NodeExpr(v), names) == ValuesBelow(v)
  {
    NodeCalls(v, names);
  }

  /** Counting calls named in a set without `add` finds none. */
  lemma CountWithoutAdd(v: JValue, names: set<string>)
    requires "add" !in names
    ensures CallCount(NodeExpr(v), names) == 0
  {
    NodeCalls(v, names);
  }

  /** The chain built for `v` holds exactly one `add` per value below `v`. */
  lemma AddCount(v: JValue)
    ensures CallCount(NodeExpr(v), {"add"}) == ValuesBelow(v)
  {
    CountWithAdd(v, {"add"});
  }

  /** The chain built for `v` holds no `end` call. */
  lemma NoEndCalls(v: JValue)
    ensures CallCount(NodeExpr(v), {"end"}) == 0
  {
    assert "add"[0] != "end"[0];
    CountWithoutAdd(v, {"end"});
  }
}
