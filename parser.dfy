/** Lowering: the concrete syntax tree, read through a cursor, becomes the
    abstract syntax. The functions state what each node lowers to, read off
    the tree as a value; the methods walk the tree with the cursor step by
    step, as the source does, and are proved to compute those functions and
    to return the cursor to the node where they started. */
module Parser {
  import opened Results
  import opened Ast
  import opened Decimal
  import opened Tree

  /** The node kinds that lowering descends into carry at least the children
      their grammar rules give them: a callee and an argument list that opens
      with a parenthesis, an operator and an operand, a left operand, an
      operator and a right operand, a target, `=` and a value, an expression.
      Other shapes are not lowered here. On them the source's walk steps out
      of a call without a usable argument list, recurses without end on an
      empty binary expression, lowers the last child it reached as the value
      of a short assignment, and otherwise fails. */
  predicate Shaped(n: Node)
  {
    && (n.kind.CallExpression? ==> |n.children| >= 2 && |n.children[1].children| >= 1)
    && (n.kind.UnaryExpression? ==> |n.children| >= 2)
    && (n.kind.BinaryExpression? ==> |n.children| >= 3)
    && (n.kind.AssignStatement? ==> |n.children| >= 3)
    && (n.kind.ExpressionStatement? ==> |n.children| >= 1)
    && forall i :: 0 <= i < |n.children| ==> Shaped(n.children[i])
  }

  /** The children at odd positions 1, 3, 5, ...: where the arguments of an
      argument list `( e1 , e2 , ... )` sit. */
  function ArgNodes(cs: seq<Node>): (r: seq<Node>)
    ensures |r| == |cs| / 2
    ensures forall j :: 0 <= j < |r| ==> r[j] == cs[2 * j + 1]
  {
    seq(|cs| / 2, j requires 0 <= j < |cs| / 2 => cs[2 * j + 1])
  }

  /** Chooses the intrinsic form of a call from its argument count and name. */
  function Dispatch(name: string, args: seq<Expr>): (r: Result<Expr>)
    ensures r.Ok? <==>
      (|args| == 1 && name in Builtin1Names) || (|args| == 2 && name in Builtin2Names)
  {
    if |args| == 1 then
      if name != "print" && name != "abs" then Err(UnknownBuiltin1(name))
      else Ok(Builtin1(name, args[0]))
    else if |args| == 2 then
      if name != "max" && name != "min" && name != "pow" then Err(UnknownBuiltin2(name))
      else Ok(Builtin2(name, args))
    else
      Err(UnknownCall(name, |args|))
  }

  /** The lexeme of each operator, as the source text writes it. */
  function OpLexeme(op: BinaryOp): string
  {
    match op
    case Plus => "+"
    case Minus => "-"
    case Mul => "*"
  }

  /** Resolves the middle child of a binary expression to an operator. */
  function ParseBinaryOp(lexeme: string): (r: Result<BinaryOp>)
    ensures r.Ok? <==> lexeme in {"+", "-", "*"}
  {
    if lexeme == "+" then Ok(Plus)
    else if lexeme == "-" then Ok(Minus)
    else if lexeme == "*" then Ok(Mul)
    else Err(UnknownBinaryOp(lexeme))
  }

  /** What an expression node lowers to, by its kind. */
  function LowerExpr(n: Node, s: string): (r: Result<Expr>)
    requires Shaped(n)
    decreases n, 2
  {
    if n.kind.Number? then
      var t := Text(n, s);
      if IsDigits(t) then Ok(Num(DigitsValue(t))) else Err(UnsupportedNumeral(t))
    else if n.kind.VariableName? then
      Ok(Id(Text(n, s)))
    else if n.kind.CallExpression? then
      LowerCall(n, s)
    else if n.kind.UnaryExpression? then
      LowerUnary(n, s)
    else if n.kind.BinaryExpression? then
      LowerBinary(n, s)
    else
      Err(UnknownExpr(n.from, n.to))
  }

  /** A call: every argument is lowered before the callee name is checked. */
  function LowerCall(n: Node, s: string): (r: Result<Expr>)
    requires Shaped(n) && n.kind.CallExpression?
    decreases n, 1
  {
    var args :- LowerArgs(n.children[1], s, 0);
    Dispatch(Text(n.children[0], s), args)
  }

  /** A signed literal: the operand numeral, negated whichever sign is written. */
  function LowerUnary(n: Node, s: string): (r: Result<Expr>)
    requires Shaped(n) && n.kind.UnaryExpression?
  {
    var unaryOp := Text(n.children[0], s);
    if unaryOp != "-" && unaryOp != "+" then Err(NotANumber)
    else
      var operand := Text(n.children[1], s);
      if IsDigits(operand) then Ok(Num(-(DigitsValue(operand) as int))) else Err(NotANumber)
  }

  /** A binary expression: left operand, operator, right operand, in that order. */
  function LowerBinary(n: Node, s: string): (r: Result<Expr>)
    requires Shaped(n) && n.kind.BinaryExpression?
    decreases n, 1
  {
    var left :- LowerExpr(n.children[0], s);
    var op :- ParseBinaryOp(Text(n.children[1], s));
    var right :- LowerExpr(n.children[2], s);
    Ok(BiryExpr(op, left, right))
  }

  /** The arguments of argument list `a` from the `m`-th on: the child at
      position 2m+1 is lowered, separators at even positions are skipped. */
  function LowerArgs(a: Node, s: string, m: nat): (r: Result<seq<Expr>>)
    requires Shaped(a)
    decreases a, 0, |a.children| - 2 * m
  {
    if 2 * m + 1 < |a.children| then
      var e :- LowerExpr(a.children[2 * m + 1], s);
      var rest :- LowerArgs(a, s, m + 1);
      Ok([e] + rest)
    else
      Ok([])
  }

  /** One step of the argument walk: the argument at position `2 * m + 1`
      either fails, failing the rest, or is put in front of the rest. */
  lemma ArgStep(a: Node, s: string, m: nat)
    requires Shaped(a) && 2 * m + 1 < |a.children|
    ensures Shaped(a.children[2 * m + 1])
    ensures var e := LowerExpr(a.children[2 * m + 1], s);
      LowerArgs(a, s, m) == if e.Err? then Err(e.error) else Prepend([e.value], LowerArgs(a, s, m + 1))
  {
  }

  /** The argument walk's invariant across one argument: a failing argument
      fails the whole list, a lowered one joins the arguments collected so far. */
  lemma ArgsAdvance(a: Node, s: string, args: seq<Expr>, e: Result<Expr>, whole: Result<seq<Expr>>)
    requires Shaped(a) && 2 * |args| + 1 < |a.children|
    requires e == LowerExpr(a.children[2 * |args| + 1], s)
    requires whole == Prepend(args, LowerArgs(a, s, |args|))
    ensures e.Err? ==> whole == Err(e.error)
    ensures e.Ok? ==> whole == Prepend(args + [e.value], LowerArgs(a, s, |args| + 1))
  {
    ArgStep(a, s, |args|);
    if e.Ok? {
      PrependOneMore(args, e.value, LowerArgs(a, s, |args| + 1));
    }
  }

  /** What a statement node lowers to. */
  function LowerStmt(n: Node, s: string): (r: Result<Stmt>)
    requires Shaped(n)
  {
    if n.kind.AssignStatement? then
      var value :- LowerExpr(n.children[2], s);
      Ok(Define(Text(n.children[0], s), value))
    else if n.kind.ExpressionStatement? then
      var e :- LowerExpr(n.children[0], s);
      Ok(ExprStmt(e))
    else
      Err(UnknownStmt(n.from, n.to))
  }

  /** The statements of a sequence of statement nodes, in order; the first
      failure ends lowering. */
  function LowerStmts(ns: seq<Node>, s: string): (r: Result<seq<Stmt>>)
    requires forall i :: 0 <= i < |ns| ==> Shaped(ns[i])
  {
    if |ns| == 0 then Ok([])
    else
      var st :- LowerStmt(ns[0], s);
      var rest :- LowerStmts(ns[1..], s);
      Ok([st] + rest)
  }

  /** What a whole script lowers to. A script without children fails: the
      loop over its statements runs once even then, on the script node itself. */
  function LowerScript(n: Node, s: string): (r: Result<seq<Stmt>>)
    requires Shaped(n)
  {
    if !n.kind.Script? then Err(UnknownProgram(n.from, n.to))
    else if |n.children| == 0 then Err(UnknownStmt(n.from, n.to))
    else LowerStmts(n.children, s)
  }

  /** Lowers the argument list under the cursor: descend, then repeatedly
      step to the next sibling, lower it and skip the separator after it. */
  method TraverseArglist(c: Cursor, s: string) returns (r: Result<seq<Expr>>)
    requires c.Valid() && Shaped(c.node) && |c.node.children| >= 1
    modifies c
    ensures c.Valid()
    ensures r == LowerArgs(old(c.node), s, 0)
    ensures Extends(c.up, old(c.up))
    ensures r.Ok? ==> c.node == old(c.node) && c.up == old(c.up)
    decreases c.node, 0
  {
    ghost var a, u := c.node, c.up;
    ghost var whole := LowerArgs(a, s, 0);
    var moved := c.FirstChild();
    var args: seq<Expr> := [];
    var more := c.NextSibling();
    PrependNothing(whole);
    while more
      invariant c.Valid() && c.up.Step? && c.up.outer == u && c.up.parent == a
      invariant more ==> c.up.index == 2 * |args| + 1
      invariant !more ==> 2 * |args| + 1 >= |a.children|
      invariant whole == Prepend(args, LowerArgs(a, s, |args|))
      decreases |a.children| - c.up.index, more
    {
      var e := TraverseArgument(c, s, a, u, args, whole);
      if e.Err? {
        return Err(e.error);
      }
      args := args + [e.value];
      moved := c.NextSibling();
      more := c.NextSibling();
    }
    assert args + [] == args;
    moved := c.Parent();
    assert c.node == a && c.up == u;
    r := Ok(args);
  }

  /** One argument of the walk above: lowers the argument under the cursor
      and carries the walk's invariant over it. */
  method TraverseArgument(c: Cursor, s: string, ghost a: Node, ghost u: Path, ghost args: seq<Expr>,
                          ghost whole: Result<seq<Expr>>) returns (e: Result<Expr>)
    requires c.Valid() && Shaped(a) && 2 * |args| + 1 < |a.children|
    requires c.up == Step(u, a, 2 * |args| + 1) && c.node == a.children[2 * |args| + 1]
    requires whole == Prepend(args, LowerArgs(a, s, |args|))
    modifies c
    ensures c.Valid()
    ensures e.Err? ==> whole == Err(e.error) && Extends(c.up, u)
    ensures e.Ok? ==> whole == Prepend(args + [e.value], LowerArgs(a, s, |args| + 1))
    ensures e.Ok? ==> c.node == old(c.node) && c.up == old(c.up)
    decreases c.node, 3
  {
    ArgStep(a, s, |args|);
    e := TraverseExpr(c, s);
    ArgsAdvance(a, s, args, e, whole);
    if e.Err? {
      ExtendsStep(c.up, u, a, 2 * |args| + 1);
    }
  }

  /** Lowers the expression node under the cursor, by its kind. */
  method TraverseExpr(c: Cursor, s: string) returns (r: Result<Expr>)
    requires c.Valid() && Shaped(c.node)
    modifies c
    ensures c.Valid()
    ensures r == LowerExpr(old(c.node), s)
    ensures Extends(c.up, old(c.up))
    ensures r.Ok? ==> c.node == old(c.node) && c.up == old(c.up)
    decreases c.node, 2
  {
    var kind := c.node.kind;
    if kind.Number? {
      var t := Text(c.node, s);
      if IsDigits(t) {
        r := Ok(Num(DigitsValue(t)));
      } else {
        r := Err(UnsupportedNumeral(t));
      }
    } else if kind.VariableName? {
      r := Ok(Id(Text(c.node, s)));
    } else if kind.CallExpression? {
      r := TraverseCall(c, s);
    } else if kind.UnaryExpression? {
      r := TraverseUnary(c, s);
    } else if kind.BinaryExpression? {
      r := TraverseBinary(c, s);
    } else {
      r := Err(UnknownExpr(c.node.from, c.node.to));
    }
  }

  /** A call: read the callee name, lower the argument list, then check the
      name against the allow-list for the argument count. */
  method TraverseCall(c: Cursor, s: string) returns (r: Result<Expr>)
    requires c.Valid() && Shaped(c.node) && c.node.kind.CallExpression?
    modifies c
    ensures c.Valid()
    ensures r == LowerCall(old(c.node), s)
    ensures Extends(c.up, old(c.up))
    ensures r.Ok? ==> c.node == old(c.node) && c.up == old(c.up)
    decreases c.node, 1
  {
    var moved := c.FirstChild();
    var callName := Text(c.node, s);
    moved := c.NextSibling();
    var args := TraverseArglist(c, s);
    if args.Err? {
      ExtendsStep(c.up, old(c.up), old(c.node), 1);
      return Err(args.error);
    }
    moved := c.Parent();
    r := Dispatch(callName, args.value);
  }

  /** A signed literal: the operator must be `+` or `-`, and the operand text
      is read with a `-` in front whichever sign was written. */
  method TraverseUnary(c: Cursor, s: string) returns (r: Result<Expr>)
    requires c.Valid() && Shaped(c.node) && c.node.kind.UnaryExpression?
    modifies c
    ensures c.Valid()
    ensures r == LowerUnary(old(c.node), s)
    ensures Extends(c.up, old(c.up))
    ensures r.Ok? ==> c.node == old(c.node) && c.up == old(c.up)
  {
    var moved := c.FirstChild();
    var unaryOp := Text(c.node, s);
    if unaryOp != "-" && unaryOp != "+" {
      return Err(NotANumber);
    }
    moved := c.NextSibling();
    var operand := Text(c.node, s);
    if !IsDigits(operand) {
      return Err(NotANumber);
    }
    moved := c.Parent();
    r := Ok(Num(-(DigitsValue(operand) as int)));
  }

  /** A binary expression: left operand, operator lexeme, right operand. */
  method TraverseBinary(c: Cursor, s: string) returns (r: Result<Expr>)
    requires c.Valid() && Shaped(c.node) && c.node.kind.BinaryExpression?
    modifies c
    ensures c.Valid()
    ensures r == LowerBinary(old(c.node), s)
    ensures Extends(c.up, old(c.up))
    ensures r.Ok? ==> c.node == old(c.node) && c.up == old(c.up)
    decreases c.node, 1
  {
    ghost var n, u := c.node, c.up;
    var moved := c.FirstChild();
    var left := TraverseExpr(c, s);
    if left.Err? {
      ExtendsStep(c.up, u, n, 0);
      return Err(left.error);
    }
    assert c.node == n.children[0] && c.up == Step(u, n, 0);
    moved := c.NextSibling();
    assert c.node == n.children[1] && c.up == Step(u, n, 1);
    var op := ParseBinaryOp(Text(c.node, s));
    if op.Err? {
      return Err(op.error);
    }
    moved := c.NextSibling();
    assert c.node == n.children[2] && c.up == Step(u, n, 2);
    var right := TraverseExpr(c, s);
    if right.Err? {
      ExtendsStep(c.up, u, n, 2);
      return Err(right.error);
    }
    moved := c.Parent();
    r := Ok(BiryExpr(op.value, left.value, right.value));
  }

  /** Lowers the statement node under the cursor. */
  method TraverseStmt(c: Cursor, s: string) returns (r: Result<Stmt>)
    requires c.Valid() && Shaped(c.node)
    modifies c
    ensures c.Valid()
    ensures r == LowerStmt(old(c.node), s)
    ensures Extends(c.up, old(c.up))
    ensures r.Ok? ==> c.node == old(c.node) && c.up == old(c.up)
  {
    var kind := c.node.kind;
    var moved: bool;
    if kind.AssignStatement? {
      moved := c.FirstChild();
      var name := Text(c.node, s);
      moved := c.NextSibling();
      moved := c.NextSibling();
      var value := TraverseExpr(c, s);
      if value.Err? {
        ExtendsStep(c.up, old(c.up), old(c.node), 2);
        return Err(value.error);
      }
      moved := c.Parent();
      r := Ok(Define(name, value.value));
    } else if kind.ExpressionStatement? {
      moved := c.FirstChild();
      var e := TraverseExpr(c, s);
      if e.Err? {
        ExtendsStep(c.up, old(c.up), old(c.node), 0);
        return Err(e.error);
      }
      moved := c.Parent();
      r := Ok(ExprStmt(e.value));
    } else {
      r := Err(UnknownStmt(c.node.from, c.node.to));
    }
  }

  /** Lowers the script node under the cursor: descend, then lower one
      statement per child until the siblings run out. The cursor is left on
      the last statement. */
  method Traverse(c: Cursor, s: string) returns (r: Result<seq<Stmt>>)
    requires c.Valid() && Shaped(c.node)
    modifies c
    ensures c.Valid()
    ensures r == LowerScript(old(c.node), s)
    ensures r.Ok? ==>
      var n := old(c.node);
      c.up == Step(old(c.up), n, |n.children| - 1) && c.node == n.children[|n.children| - 1]
  {
    ghost var n := c.node;
    if c.node.kind.Script? {
      var moved := c.FirstChild();
      var stmts: seq<Stmt> := [];
      var more := true;
      if moved {
        PrependNothing(LowerStmts(n.children, s));
        assert n.children[0..] == n.children;
      }
      while more
        invariant c.Valid()
        invariant moved <==> |n.children| > 0
        invariant !moved ==> more && c.node == n && stmts == []
        invariant moved && more ==>
          |stmts| < |n.children| && c.up == Step(old(c.up), n, |stmts|) && c.node == n.children[|stmts|]
        invariant moved && !more ==>
          |stmts| == |n.children| && c.up == Step(old(c.up), n, |stmts| - 1) && c.node == n.children[|stmts| - 1]
        invariant moved ==> LowerScript(n, s) == Prepend(stmts, LowerStmts(n.children[|stmts|..], s))
        decreases |n.children| - |stmts|, more
      {
        var st := TraverseStmt(c, s);
        if st.Err? {
          return Err(st.error);
        }
        ghost var rest := n.children[|stmts|..];
        assert rest[1..] == n.children[|stmts| + 1..];
        assert LowerStmts(rest, s) == Prepend([st.value], LowerStmts(rest[1..], s));
        PrependOneMore(stmts, st.value, LowerStmts(rest[1..], s));
        stmts := stmts + [st.value];
        more := c.NextSibling();
      }
      assert n.children[|stmts|..] == [];
      assert stmts + [] == stmts;
      r := Ok(stmts);
    } else {
      r := Err(UnknownProgram(c.node.from, c.node.to));
    }
  }

  // Properties of lowering

  /** Lowering establishes what the abstract syntax's types leave open:
      intrinsic names from the allow-list of their arity, and exactly two
      arguments for a two-argument intrinsic. */
  lemma {:induction false} LowerExprWellFormed(n: Node, s: string)
    requires Shaped(n)
    ensures LowerExpr(n, s).Ok? ==> WellFormedExpr(LowerExpr(n, s).value)
    decreases n, 2
  {
    if n.kind.CallExpression? {
      var a := n.children[1];
      LowerArgsWellFormed(a, s, 0);
      var args := LowerArgs(a, s, 0);
      if args.Ok? {
        assert LowerExpr(n, s) == Dispatch(Text(n.children[0], s), args.value);
        if |args.value| >= 1 {
          assert WellFormedExpr(args.value[0]);
        }
        if |args.value| == 2 {
          assert WellFormedExpr(args.value[1]);
        }
      }
    } else if n.kind.BinaryExpression? {
      LowerExprWellFormed(n.children[0], s);
      LowerExprWellFormed(n.children[2], s);
    }
  }

  lemma {:induction false} LowerArgsWellFormed(a: Node, s: string, m: nat)
    requires Shaped(a)
    ensures LowerArgs(a, s, m).Ok? ==>
      forall j :: 0 <= j < |LowerArgs(a, s, m).value| ==> WellFormedExpr(LowerArgs(a, s, m).value[j])
    decreases a, 0, |a.children| - 2 * m
  {
    if 2 * m + 1 < |a.children| {
      LowerExprWellFormed(a.children[2 * m + 1], s);
      LowerArgsWellFormed(a, s, m + 1);
    }
  }

  /** A lowered script is well formed. */
  lemma {:induction false} LowerScriptWellFormed(n: Node, s: string)
    requires Shaped(n)
    ensures LowerScript(n, s).Ok? ==> WellFormedProgram(LowerScript(n, s).value)
  {
    if n.kind.Script? {
      LowerStmtsWellFormed(n.children, s);
    }
  }

  lemma {:induction false} LowerStmtsWellFormed(ns: seq<Node>, s: string)
    requires forall i :: 0 <= i < |ns| ==> Shaped(ns[i])
    ensures LowerStmts(ns, s).Ok? ==> WellFormedProgram(LowerStmts(ns, s).value)
  {
    if |ns| > 0 {
      var n := ns[0];
      if n.kind.AssignStatement? {
        LowerExprWellFormed(n.children[2], s);
      } else if n.kind.ExpressionStatement? {
        LowerExprWellFormed(n.children[0], s);
      }
      LowerStmtsWellFormed(ns[1..], s);
    }
  }

  /** A `Number` node whose text is the decimal numeral of `v` lowers to the
      literal `v`; a `VariableName` node lowers to the identifier spelled by
      its text. */
  lemma LeafLowering(n: Node, s: string, v: nat)
    requires Shaped(n)
    ensures n.kind.Number? && Text(n, s) == NatToString(v) ==> LowerExpr(n, s) == Ok(Num(v))
    ensures n.kind.VariableName? ==> LowerExpr(n, s) == Ok(Id(Text(n, s)))
  {
    NatToStringRoundTrip(v);
  }

  /** The arguments of an argument list are its children at positions
      1, 3, 5, ...: lowering succeeds exactly when each of them lowers, and
      then yields their lowerings in source order, one per separator pair.
      So a list of 2n+1 children yields n arguments. */
  lemma ArgumentsAtOddPositions(a: Node, s: string)
    requires Shaped(a)
    ensures var nodes := ArgNodes(a.children);
      (LowerArgs(a, s, 0).Ok? <==> forall j :: 0 <= j < |nodes| ==> LowerExpr(nodes[j], s).Ok?) &&
      (LowerArgs(a, s, 0).Ok? ==>
        |LowerArgs(a, s, 0).value| == |nodes| &&
        forall j :: 0 <= j < |nodes| ==> LowerArgs(a, s, 0).value[j] == LowerExpr(nodes[j], s).value)
  {
    LowerArgsFrom(a, s, 0);
    assert ArgNodes(a.children)[0..] == ArgNodes(a.children);
  }

  lemma {:induction false} LowerArgsFrom(a: Node, s: string, m: nat)
    requires Shaped(a) && 2 * m <= |a.children|
    ensures var nodes := ArgNodes(a.children)[m..];
      (LowerArgs(a, s, m).Ok? <==> forall j :: 0 <= j < |nodes| ==> LowerExpr(nodes[j], s).Ok?) &&
      (LowerArgs(a, s, m).Ok? ==>
        |LowerArgs(a, s, m).value| == |nodes| &&
        forall j :: 0 <= j < |nodes| ==> LowerArgs(a, s, m).value[j] == LowerExpr(nodes[j], s).value)
    decreases |a.children| - 2 * m
  {
    var nodes := ArgNodes(a.children)[m..];
    if 2 * m + 1 < |a.children| {
      LowerArgsFrom(a, s, m + 1);
      assert nodes[0] == a.children[2 * m + 1];
      assert nodes[1..] == ArgNodes(a.children)[m + 1..];
    } else {
      assert nodes == [];
    }
  }

  /** Call dispatch: a call lowers to a one-argument intrinsic exactly when its
      argument list has two or three children (one argument), the callee is
      `print` or `abs` and the argument lowers; to a two-argument intrinsic
      exactly when the list has four or five children, the callee is `max`,
      `min` or `pow` and both arguments lower; every other combination fails.
      When an argument fails, its error is reported before any check of the
      name or the count. */
  lemma CallDispatch(n: Node, s: string)
    requires Shaped(n) && n.kind.CallExpression?
    requires Shaped(n.children[1]) // implied by the first; spelled out for the clauses below
    ensures var name := Text(n.children[0], s);
      var a := n.children[1];
      var k := |a.children|;
      var r := LowerExpr(n, s);
      && (r.Ok? && r.value.Builtin1? <==>
            (k == 2 || k == 3) && name in Builtin1Names && LowerExpr(a.children[1], s).Ok?)
      && (r.Ok? && r.value.Builtin1? ==> r.value == Builtin1(name, LowerExpr(a.children[1], s).value))
      && (r.Ok? && r.value.Builtin2? <==>
            (k == 4 || k == 5) && name in Builtin2Names &&
            LowerExpr(a.children[1], s).Ok? && LowerExpr(a.children[3], s).Ok?)
      && (r.Ok? && r.value.Builtin2? ==>
            r.value == Builtin2(name, [LowerExpr(a.children[1], s).value, LowerExpr(a.children[3], s).value]))
      && (r.Ok? ==> r.value.Builtin1? || r.value.Builtin2?)
      && (LowerArgs(a, s, 0).Err? ==> r == Err(LowerArgs(a, s, 0).error))
  {
    var a := n.children[1];
    ArgsByCount(a, s);
    var args := LowerArgs(a, s, 0);
    if args.Ok? {
      assert LowerExpr(n, s) == Dispatch(Text(n.children[0], s), args.value);
    }
  }

  /** One argument exactly when the list has two or three children, two
      exactly when it has four or five; each is the lowering of the child at
      position 1 or 3. */
  lemma ArgsByCount(a: Node, s: string)
    requires Shaped(a)
    ensures var args := LowerArgs(a, s, 0);
      var k := |a.children|;
      && (args.Ok? && |args.value| == 1 <==> (k == 2 || k == 3) && LowerExpr(a.children[1], s).Ok?)
      && (args.Ok? && |args.value| == 1 ==> args.value == [LowerExpr(a.children[1], s).value])
      && (args.Ok? && |args.value| == 2 <==>
            (k == 4 || k == 5) && LowerExpr(a.children[1], s).Ok? && LowerExpr(a.children[3], s).Ok?)
      && (args.Ok? && |args.value| == 2 ==>
            args.value == [LowerExpr(a.children[1], s).value, LowerExpr(a.children[3], s).value])
  {
    ArgumentsAtOddPositions(a, s);
    var nodes := ArgNodes(a.children);
    if |nodes| >= 1 {
      assert nodes[0] == a.children[1];
    }
    if |nodes| >= 2 {
      assert nodes[1] == a.children[3];
    }
    var args := LowerArgs(a, s, 0);
    if args.Ok? && |args.value| == 2 {
      assert args.value == [args.value[0], args.value[1]];
    }
  }

  /** An empty call `f()` fails: its argument list holds only the two
      parentheses, and the closing one is handed to expression lowering. */
  lemma EmptyCallFails(n: Node, s: string)
    requires Shaped(n) && n.kind.CallExpression?
    requires |n.children[1].children| == 2 && n.children[1].children[1].kind.Other?
    ensures var close := n.children[1].children[1];
      LowerExpr(n, s) == Err(UnknownExpr(close.from, close.to))
  {
    var a := n.children[1];
    assert LowerExpr(a.children[1], s) == Err(UnknownExpr(a.children[1].from, a.children[1].to));
    assert LowerArgs(a, s, 0) == Err(UnknownExpr(a.children[1].from, a.children[1].to));
  }

  /** Unary sign folding: a `+` or `-` applied to a numeral lowers to a
      literal, and that literal is the numeral negated for both signs. Any
      other operator, or an operand that is not a numeral, fails. */
  lemma UnarySignFolding(n: Node, s: string, v: nat)
    requires Shaped(n) && n.kind.UnaryExpression?
    ensures var op := Text(n.children[0], s);
      var operand := Text(n.children[1], s);
      && (LowerExpr(n, s).Ok? <==> (op == "+" || op == "-") && IsDigits(operand))
      && (LowerExpr(n, s).Ok? ==> LowerExpr(n, s).value.Num? && LowerExpr(n, s).value.value <= 0)
      && (LowerExpr(n, s).Err? ==> LowerExpr(n, s) == Err(NotANumber))
      && ((op == "+" || op == "-") && operand == NatToString(v) ==> LowerExpr(n, s) == Ok(Num(-(v as int))))
  {
    NatToStringRoundTrip(v);
  }

  /** The operator lexemes and the operators correspond one to one. */
  lemma BinaryOpRoundTrip(op: BinaryOp, lexeme: string)
    ensures ParseBinaryOp(OpLexeme(op)) == Ok(op)
    ensures ParseBinaryOp(lexeme).Ok? ==> OpLexeme(ParseBinaryOp(lexeme).value) == lexeme
  {
  }

  /** A binary expression lowers when its first and third children lower and
      its middle child is one of the three operator lexemes; the operator is
      the one that lexeme denotes and the operands keep their order. */
  lemma BinaryLowering(n: Node, s: string)
    requires Shaped(n) && n.kind.BinaryExpression?
    ensures var lexeme := Text(n.children[1], s);
      var left := LowerExpr(n.children[0], s);
      var right := LowerExpr(n.children[2], s);
      var r := LowerExpr(n, s);
      && (r.Ok? <==> left.Ok? && lexeme in {"+", "-", "*"} && right.Ok?)
      && (r.Ok? ==> r.value.BiryExpr? && OpLexeme(r.value.op) == lexeme &&
                    r.value.left == left.value && r.value.right == right.value)
  {
    BinaryOpRoundTrip(Plus, Text(n.children[1], s));
  }

  /** Where a lowered statement comes from: it is well formed, it is a
      definition exactly when the node is an assignment, and the name it
      defines is a contiguous piece of the source text (the raw span of the
      target, whatever that target is). Nodes of other kinds never lower. */
  lemma StatementProvenance(n: Node, s: string)
    requires Shaped(n)
    ensures var r := LowerStmt(n, s);
      r.Ok? ==>
        && WellFormedStmt(r.value)
        && (r.value.Define? <==> n.kind.AssignStatement?)
        && (r.value.Define? ==> exists i, j :: 0 <= i <= j <= |s| && r.value.name == s[i..j])
    ensures !n.kind.AssignStatement? && !n.kind.ExpressionStatement? ==> LowerStmt(n, s).Err?
  {
    if n.kind.AssignStatement? {
      LowerExprWellFormed(n.children[2], s);
      var t := n.children[0];
      var lo := if t.from < |s| then t.from else |s|;
      var hi := if t.to < |s| then t.to else |s|;
      if lo <= hi {
        assert Text(t, s) == s[lo..hi];
      } else {
        assert Text(t, s) == s[hi..lo];
      }
    } else if n.kind.ExpressionStatement? {
      LowerExprWellFormed(n.children[0], s);
    }
  }

  /** A script lowers to one statement per child, in order, exactly when each
      child lowers; a script without children, or a node that is not a
      script, fails. */
  lemma ScriptLowering(n: Node, s: string)
    requires Shaped(n)
    ensures LowerScript(n, s).Ok? <==>
      n.kind.Script? && |n.children| > 0 &&
      forall i :: 0 <= i < |n.children| ==> LowerStmt(n.children[i], s).Ok?
    ensures LowerScript(n, s).Ok? ==>
      |LowerScript(n, s).value| == |n.children| &&
      forall i :: 0 <= i < |n.children| ==> LowerScript(n, s).value[i] == LowerStmt(n.children[i], s).value
  {
    if n.kind.Script? {
      LowerStmtsPointwise(n.children, s);
    }
  }

  lemma {:induction false} LowerStmtsPointwise(ns: seq<Node>, s: string)
    requires forall i :: 0 <= i < |ns| ==> Shaped(ns[i])
    ensures LowerStmts(ns, s).Ok? <==> forall i :: 0 <= i < |ns| ==> LowerStmt(ns[i], s).Ok?
    ensures LowerStmts(ns, s).Ok? ==>
      |LowerStmts(ns, s).value| == |ns| &&
      forall i :: 0 <= i < |ns| ==> LowerStmts(ns, s).value[i] == LowerStmt(ns[i], s).value
  {
    if |ns| > 0 {
      LowerStmtsPointwise(ns[1..], s);
      assert forall i :: 1 <= i < |ns| ==> ns[i] == ns[1..][i - 1];
    }
  }
}
