/**
 * The subset of PhpParser's expression nodes the generators build: `Variable`, `New_`,
 * `MethodCall`, `Assign`, `LNumber`, `DNumber`, `ConstFetch` and `String_`. An `Arg` wrapper
 * adds nothing, so an argument list is a sequence of expressions.
 */
module PhpAst {
  import opened Json

  datatype Expr =
    | Variable(id: string)
    | New(className: string, args: seq<Expr>)
    | MethodCall(receiver: Expr, name: string, args: seq<Expr>)
    | Assign(target: Expr, value: Expr)
    | LNumber(number: int)
    | DNumber(float: FloatLit)
    | ConstFetch(constant: string)
    | StringLit(text: string)

  /** Number of method calls, anywhere in `e`, whose name is in `names`. */
  function CallCount(e: Expr, names: set<string>): (count: nat)
    decreases e
  {
    match e
    case Variable(_) => 0
    case New(_, args) => ArgsCallCount(args, names)
    case MethodCall(r, m, args) =>
      (if m in names then 1 else 0) + CallCount(r, names) + ArgsCallCount(args, names)
    case Assign(t, v) => CallCount(t, names) + CallCount(v, names)
    case _ => 0
  }

  function ArgsCallCount(args: seq<Expr>, names: set<string>): (count: nat)
    decreases args
  {
    if args == [] then 0 else CallCount(args[0], names) + ArgsCallCount(args[1..], names)
  }
}
