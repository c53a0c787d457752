/**
 * The syntax tree: expressions (a closed family of four node kinds),
 * prototypes and functions. Each node owns its children, so the tree is
 * a value.
 */
module Ast {
  import opened Grammar

  datatype Expr =
    | Number(value: Num)
    | Variable(name: string)
    | Binary(op: string, lhs: Expr, rhs: Expr)
    | Call(callee: string, args: seq<Expr>)

  datatype Prototype = Prototype(name: string, params: seq<string>)

  datatype Function = Function(proto: Prototype, body: Expr)

  /**
   * The variadic Call constructor: copies the argument array, element by
   * element, into a fresh list.
   */
  method NewCall(callee: string, args: array<Expr>) returns (e: Expr)
    ensures e.Call? && e.callee == callee
    ensures |e.args| == args.Length
    ensures forall i :: 0 <= i < args.Length ==> e.args[i] == args[i]
  {
    var arguments: seq<Expr> := [];
    for i := 0 to args.Length
      invariant arguments == args[..i]
    {
      arguments := arguments + [args[i]];
    }
    e := Call(callee, arguments);
  }
}
