/** The abstract syntax: two statement forms, five expression forms and the
    closed enumeration of binary operators. */
module Ast {

  datatype BinaryOp = Plus | Minus | Mul

  /** What an operator means on the source language's unbounded integers. */
  function Apply(op: BinaryOp, a: int, b: int): int
  {
    match op
    case Plus => a + b
    case Minus => a - b
    case Mul => a * b
  }

  /** `num` carries an unbounded integer: the 32-bit range is only enforced by
      code generation. `builtin2` carries a sequence whose length the type does
      not fix; `WellFormedExpr` states what lowering guarantees about it. */
  datatype Expr =
    | Num(value: int)
    | Id(name: string)
    | Builtin1(name: string, arg: Expr)
    | Builtin2(name: string, args: seq<Expr>)
    | BiryExpr(op: BinaryOp, left: Expr, right: Expr)

  datatype Stmt =
    | Define(name: string, value: Expr)
    | ExprStmt(expr: Expr)

  /** The intrinsics callable with one argument and with two. */
  const Builtin1Names: set<string> := {"print", "abs"}
  const Builtin2Names: set<string> := {"max", "min", "pow"}

  /** Intrinsic names come from the allow-list for their arity and a
      two-argument call has exactly two arguments. */
  predicate WellFormedExpr(e: Expr)
  {
    match e
    case Num(_) => true
    case Id(_) => true
    case Builtin1(f, a) => f in Builtin1Names && WellFormedExpr(a)
    case Builtin2(f, args) =>
      f in Builtin2Names && |args| == 2 && WellFormedExpr(args[0]) && WellFormedExpr(args[1])
    case BiryExpr(_, l, r) => WellFormedExpr(l) && WellFormedExpr(r)
  }

  predicate WellFormedStmt(st: Stmt)
  {
    match st
    case Define(_, v) => WellFormedExpr(v)
    case ExprStmt(e) => WellFormedExpr(e)
  }

  predicate WellFormedProgram(stmts: seq<Stmt>)
  {
    forall i :: 0 <= i < |stmts| ==> WellFormedStmt(stmts[i])
  }
}
