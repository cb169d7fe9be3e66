/** Code generation: postfix emission of WebAssembly text for the abstract
    syntax. Variable reads are checked against a table of defined names that
    lives in the compiler object and survives from one compilation to the
    next. */
module CodeGen {
  import opened Results
  import opened Ast
  import opened Wat
  import Tree
  import Parser

  /** The signed 32-bit range an `i32.const` literal must fit. */
  const MinI32: int := -0x8000_0000
  const MaxI32: int := 0x7FFF_FFFF

  predicate NoDuplicates(vs: seq<string>)
  {
    forall i, j :: 0 <= i < j < |vs| ==> vs[i] != vs[j]
  }

  // Expressions

  /** The instruction of an operator: always one of the three arithmetic ones. */
  function CodeGenOp(op: BinaryOp): (l: Line)
    ensures l.I32Add? || l.I32Sub? || l.I32Mul?
  {
    match op
    case Plus => I32Add
    case Minus => I32Sub
    case Mul => I32Mul
  }

  /** The number of syntax nodes of an expression. */
  function Size(e: Expr): (n: nat)
    ensures n >= 1
    decreases e, 1
  {
    match e
    case Num(_) => 1
    case Id(_) => 1
    case Builtin1(_, a) => Size(a) + 1
    case Builtin2(_, args) => SizeAll(args) + 1
    case BiryExpr(_, l, r) => Size(l) + Size(r) + 1
  }

  function SizeAll(es: seq<Expr>): nat
    decreases es, 0
  {
    if |es| == 0 then 0 else Size(es[0]) + SizeAll(es[1..])
  }

  /** The instruction contributed by the root node of an expression. */
  function RootLine(e: Expr): Line
  {
    match e
    case Num(v) => I32Const(v)
    case Id(x) => LocalGet(x)
    case Builtin1(f, _) => Call(f)
    case Builtin2(f, _) => Call(f)
    case BiryExpr(op, _, _) => CodeGenOp(op)
  }

  /** A line an expression may emit, reading only names of `vars`: no
      declaration and no store. */
  predicate ReadsOnly(l: Line, vars: seq<string>)
  {
    (l.I32Const? || l.LocalGet? || l.Call? || l.I32Add? || l.I32Sub? || l.I32Mul?) &&
    (l.LocalGet? ==> l.name in vars)
  }

  /** Every literal of the expression fits in 32 bits. */
  predicate LiteralsFit(e: Expr)
    decreases e, 1
  {
    match e
    case Num(v) => MinI32 <= v <= MaxI32
    case Id(_) => true
    case Builtin1(_, a) => LiteralsFit(a)
    case Builtin2(_, args) => LiteralsFitAll(args)
    case BiryExpr(_, l, r) => LiteralsFit(l) && LiteralsFit(r)
  }

  predicate LiteralsFitAll(es: seq<Expr>)
    decreases es, 0
  {
    |es| == 0 || (LiteralsFit(es[0]) && LiteralsFitAll(es[1..]))
  }

  /** The variables the expression reads. */
  function Names(e: Expr): set<string>
    decreases e, 1
  {
    match e
    case Num(_) => {}
    case Id(x) => {x}
    case Builtin1(_, a) => Names(a)
    case Builtin2(_, args) => NamesAll(args)
    case BiryExpr(_, l, r) => Names(l) + Names(r)
  }

  function NamesAll(es: seq<Expr>): set<string>
    decreases es, 0
  {
    if |es| == 0 then {} else Names(es[0]) + NamesAll(es[1..])
  }

  /** Postfix code for an expression: operands first, then the operation.
      Every node contributes exactly one instruction, the root's comes last,
      and the code reads only variables of `vars`. A literal outside the
      32-bit range or a read of an undefined variable fails. */
  function CodeGenExpr(e: Expr, vars: seq<string>): (r: Result<seq<Line>>)
    ensures r.Ok? ==> |r.value| == Size(e) && r.value[|r.value| - 1] == RootLine(e)
    ensures r.Ok? ==> forall i :: 0 <= i < |r.value| ==> ReadsOnly(r.value[i], vars)
    decreases e, 1
  {
    match e
    case Num(v) =>
      if v < MinI32 || v > MaxI32 then Err(Overflow(v)) else Ok([I32Const(v)])
    case Id(x) =>
      if x !in vars then Err(Reference(x)) else Ok([LocalGet(x)])
    case Builtin1(f, a) =>
      var code :- CodeGenExpr(a, vars);
      Ok(code + [Call(f)])
    case Builtin2(f, args) =>
      var code :- CodeGenAll(args, vars);
      Ok(code + [Call(f)])
    case BiryExpr(op, l, r) =>
      var left :- CodeGenExpr(l, vars);
      var right :- CodeGenExpr(r, vars);
      Ok(left + right + [CodeGenOp(op)])
  }

  /** The code of each expression, concatenated in order; the first failure wins. */
  function CodeGenAll(es: seq<Expr>, vars: seq<string>): (r: Result<seq<Line>>)
    ensures r.Ok? ==> |r.value| == SizeAll(es)
    ensures r.Ok? ==> forall i :: 0 <= i < |r.value| ==> ReadsOnly(r.value[i], vars)
    decreases es, 0
  {
    if |es| == 0 then Ok([])
    else
      var first :- CodeGenExpr(es[0], vars);
      var rest :- CodeGenAll(es[1..], vars);
      Ok(first + rest)
  }

  // Statements

  /** The line that stores a statement's value. */
  function StoreLine(st: Stmt): Line
  {
    match st
    case Define(x, _) => LocalSet(x)
    case ExprStmt(_) => SetScratch
  }

  function StmtExpr(st: Stmt): Expr
  {
    match st
    case Define(_, v) => v
    case ExprStmt(e) => e
  }

  /** The code of a statement: its expression's code, then the store of the
      value into the defined variable or into the scratch local. */
  function GenStmt(st: Stmt, vars: seq<string>): (r: Result<seq<Line>>)
    ensures r.Ok? ==>
      |r.value| == Size(StmtExpr(st)) + 1 && r.value[|r.value| - 1] == StoreLine(st) &&
      forall i :: 0 <= i < |r.value| - 1 ==> ReadsOnly(r.value[i], vars)
    ensures r.Ok? <==> CodeGenExpr(StmtExpr(st), vars).Ok?
  {
    match st
    case Define(x, v) =>
      var code :- CodeGenExpr(v, vars);
      Ok(code + [LocalSet(x)])
    case ExprStmt(e) =>
      var code :- CodeGenExpr(e, vars);
      Ok(code + [SetScratch])
  }

  /** `Set.prototype.add` on an insertion-ordered set. */
  function Declare(vars: seq<string>, x: string): (r: seq<string>)
    ensures vars <= r && x in r
    ensures forall y :: y in r <==> y in vars || y == x
    ensures NoDuplicates(vars) ==> NoDuplicates(r)
  {
    if x in vars then vars else vars + [x]
  }

  /** The table after generating one statement: a definition adds its name,
      but only once its value's code has been generated. */
  function StmtVars(st: Stmt, vars: seq<string>): seq<string>
  {
    if st.Define? && GenStmt(st, vars).Ok? then Declare(vars, st.name) else vars
  }

  /** `ast.map(codeGen)`: the statements' code groups in program order, each
      generated against the table its predecessors left; the first failure
      aborts. */
  function GenStmts(sts: seq<Stmt>, vars: seq<string>): (r: Result<seq<seq<Line>>>)
    ensures r.Ok? ==> |r.value| == |sts|
    decreases |sts|
  {
    if |sts| == 0 then Ok([])
    else
      var group :- GenStmt(sts[0], vars);
      var rest :- GenStmts(sts[1..], StmtVars(sts[0], vars));
      Ok([group] + rest)
  }

  /** The table once `ast.map(codeGen)` is done or has stopped at a failure. */
  function VarsAfter(sts: seq<Stmt>, vars: seq<string>): seq<string>
    decreases |sts|
  {
    if |sts| == 0 || GenStmt(sts[0], vars).Err? then vars
    else VarsAfter(sts[1..], StmtVars(sts[0], vars))
  }

  /** One statement of `ast.map(codeGen)`: a failing statement fails the
      whole program and keeps the table, a compiled one joins the groups so far. */
  lemma CompileStep(sts: seq<Stmt>, i: nat, vars0: seq<string>, vars: seq<string>,
                    done: seq<seq<Line>>, group: Result<seq<Line>>)
    requires i < |sts|
    requires GenStmts(sts, vars0) == Prepend(done, GenStmts(sts[i..], vars))
    requires VarsAfter(sts, vars0) == VarsAfter(sts[i..], vars)
    requires group == GenStmt(sts[i], vars)
    ensures group.Err? ==> GenStmts(sts, vars0) == Err(group.error) && VarsAfter(sts, vars0) == vars
    ensures group.Ok? ==>
      GenStmts(sts, vars0) == Prepend(done + [group.value], GenStmts(sts[i + 1..], StmtVars(sts[i], vars)))
    ensures group.Ok? ==> VarsAfter(sts, vars0) == VarsAfter(sts[i + 1..], StmtVars(sts[i], vars))
  {
    assert sts[i..][0] == sts[i] && sts[i..][1..] == sts[i + 1..];
    if group.Ok? {
      PrependOneMore(done, group.value, GenStmts(sts[i + 1..], StmtVars(sts[i], vars)));
    }
  }

  function Flatten(gs: seq<seq<Line>>): seq<Line>
  {
    if |gs| == 0 then [] else gs[0] + Flatten(gs[1..])
  }

  /** One declaration per name of the table, in the table's order. */
  function Decls(vars: seq<string>): (r: seq<Line>)
    ensures |r| == |vars|
    ensures forall i :: 0 <= i < |vars| ==> r[i] == DeclLocal(vars[i])
  {
    if |vars| == 0 then [] else Decls(vars[..|vars| - 1]) + [DeclLocal(vars[|vars| - 1])]
  }

  /** The lines `compile` emits: the scratch declaration, one declaration per
      name of the table as it stands after all statements, then the
      statements' code in program order. */
  function CompileLines(sts: seq<Stmt>, vars: seq<string>): Result<seq<Line>>
  {
    var groups :- GenStmts(sts, vars);
    Ok([DeclScratch] + Decls(VarsAfter(sts, vars)) + Flatten(groups))
  }

  /** The emitted text: the rendered lines joined by line breaks. */
  function Emit(r: Result<seq<Line>>): Result<string>
  {
    if r.Err? then Err(r.error) else Ok(Join(RenderAll(r.value)))
  }

  // Properties of code generation

  /** An expression compiles exactly when all its literals fit in 32 bits and
      every variable it reads is in the table. */
  lemma {:induction false} CodeGenExprSucceeds(e: Expr, vars: seq<string>)
    ensures CodeGenExpr(e, vars).Ok? <==> LiteralsFit(e) && forall x :: x in Names(e) ==> x in vars
    decreases e, 1
  {
    match e
    case Num(_) =>
    case Id(_) =>
    case Builtin1(_, a) => CodeGenExprSucceeds(a, vars);
    case Builtin2(_, args) => CodeGenAllSucceeds(args, vars);
    case BiryExpr(_, l, r) =>
      CodeGenExprSucceeds(l, vars);
      CodeGenExprSucceeds(r, vars);
  }

  lemma {:induction false} CodeGenAllSucceeds(es: seq<Expr>, vars: seq<string>)
    ensures CodeGenAll(es, vars).Ok? <==> LiteralsFitAll(es) && forall x :: x in NamesAll(es) ==> x in vars
    decreases es, 0
  {
    if |es| > 0 {
      CodeGenExprSucceeds(es[0], vars);
      CodeGenAllSucceeds(es[1..], vars);
    }
  }

  /** The table only decides whether an expression compiles, not its code:
      code generated against a table is generated unchanged against any
      larger one. */
  lemma {:induction false} CodeGenExprMonotone(e: Expr, vars: seq<string>, more: seq<string>)
    requires forall x :: x in vars ==> x in more
    ensures CodeGenExpr(e, vars).Ok? ==> CodeGenExpr(e, more) == CodeGenExpr(e, vars)
    decreases e, 1
  {
    match e
    case Num(_) =>
    case Id(_) =>
    case Builtin1(_, a) => CodeGenExprMonotone(a, vars, more);
    case Builtin2(_, args) => CodeGenAllMonotone(args, vars, more);
    case BiryExpr(_, l, r) =>
      CodeGenExprMonotone(l, vars, more);
      CodeGenExprMonotone(r, vars, more);
  }

  lemma {:induction false} CodeGenAllMonotone(es: seq<Expr>, vars: seq<string>, more: seq<string>)
    requires forall x :: x in vars ==> x in more
    ensures CodeGenAll(es, vars).Ok? ==> CodeGenAll(es, more) == CodeGenAll(es, vars)
    decreases es, 0
  {
    if |es| > 0 {
      CodeGenExprMonotone(es[0], vars, more);
      CodeGenAllMonotone(es[1..], vars, more);
    }
  }

  /** The operator instructions are distinct. */
  lemma CodeGenOpInjective(a: BinaryOp, b: BinaryOp)
    ensures CodeGenOp(a) == CodeGenOp(b) ==> a == b
  {
  }

  /** The instruction emitted for an operator computes that operator on 32-bit
      operands, up to wrap-around modulo 2^32, and exactly when the integer
      result fits. */
  lemma CodeGenOpComputes(op: BinaryOp, a: int, b: int)
    ensures ApplyBinary(CodeGenOp(op), a, b) == Some(WrapI32(Apply(op, a, b)))
    ensures MinI32 <= Apply(op, a, b) <= MaxI32 ==> ApplyBinary(CodeGenOp(op), a, b) == Some(Apply(op, a, b))
  {
  }

  /** The names the statements define. */
  function DefinedNames(sts: seq<Stmt>): set<string>
  {
    if |sts| == 0 then {}
    else (if sts[0].Define? then {sts[0].name} else {}) + DefinedNames(sts[1..])
  }

  /** Every variable the statement reads is in the table or in `earlier`. */
  predicate InScope(st: Stmt, vars: seq<string>, earlier: set<string>)
  {
    forall x :: x in Names(StmtExpr(st)) ==> x in vars || x in earlier
  }

  /** Moving the first statement's definition from the earlier names into the
      table leaves every later statement's scope as it was. */
  lemma ScopeShift(sts: seq<Stmt>, vars: seq<string>, v1: seq<string>)
    requires |sts| > 0
    requires forall y :: y in v1 <==> y in vars || (sts[0].Define? && y == sts[0].name)
    ensures forall i :: 0 <= i < |sts| - 1 ==>
      (InScope(sts[1..][i], v1, DefinedNames(sts[1..][..i])) <==>
       InScope(sts[i + 1], vars, DefinedNames(sts[..i + 1])))
  {
    var d0: set<string> := if sts[0].Define? then {sts[0].name} else {};
    forall i | 0 <= i < |sts| - 1
      ensures InScope(sts[1..][i], v1, DefinedNames(sts[1..][..i])) <==>
              InScope(sts[i + 1], vars, DefinedNames(sts[..i + 1]))
    {
      assert sts[..i + 1][1..] == sts[1..][..i];
      assert DefinedNames(sts[..i + 1]) == d0 + DefinedNames(sts[1..][..i]);
    }
  }

  /** Scoping: a program compiles exactly when each statement's literals fit
      and each statement reads only names that were in the table before the
      compilation or are defined by an earlier statement. A statement's own
      definition is not yet visible to its value. */
  lemma {:induction false} ScopeRule(sts: seq<Stmt>, vars: seq<string>)
    ensures GenStmts(sts, vars).Ok? <==>
      forall i :: 0 <= i < |sts| ==>
        LiteralsFit(StmtExpr(sts[i])) && InScope(sts[i], vars, DefinedNames(sts[..i]))
    decreases |sts|
  {
    if |sts| > 0 {
      var v1 := StmtVars(sts[0], vars);
      CodeGenExprSucceeds(StmtExpr(sts[0]), vars);
      assert DefinedNames(sts[..0]) == {};
      if GenStmt(sts[0], vars).Ok? {
        ScopeRule(sts[1..], v1);
        ScopeShift(sts, vars, v1);
        if forall i :: 0 <= i < |sts| ==>
             LiteralsFit(StmtExpr(sts[i])) && InScope(sts[i], vars, DefinedNames(sts[..i])) {
          forall i | 0 <= i < |sts| - 1
            ensures LiteralsFit(StmtExpr(sts[1..][i])) && InScope(sts[1..][i], v1, DefinedNames(sts[1..][..i]))
          {
            assert LiteralsFit(StmtExpr(sts[i + 1])) && InScope(sts[i + 1], vars, DefinedNames(sts[..i + 1]));
          }
        }
        if GenStmts(sts, vars).Ok? {
          forall i | 0 <= i < |sts|
            ensures LiteralsFit(StmtExpr(sts[i])) && InScope(sts[i], vars, DefinedNames(sts[..i]))
          {
            if i > 0 {
              assert LiteralsFit(StmtExpr(sts[1..][i - 1])) && InScope(sts[1..][i - 1], v1, DefinedNames(sts[1..][..i - 1]));
            }
          }
        }
      }
    }
  }

  /** Defining `x` from a value that reads `x` fails unless an earlier
      definition (in this or a previous compilation) put `x` in the table, and
      the failed definition leaves the table as it was: `x = x` with a fresh
      `x` is a reference error. */
  lemma DefineBeforeUse(x: string, v: Expr, vars: seq<string>)
    requires x !in vars && x in Names(v)
    ensures GenStmt(Define(x, v), vars).Err?
    ensures StmtVars(Define(x, v), vars) == vars
  {
    CodeGenExprSucceeds(v, vars);
  }

  /** The table only grows, keeps its order, and stays free of duplicates. */
  lemma {:induction false} VarsAfterGrows(sts: seq<Stmt>, vars: seq<string>)
    ensures vars <= VarsAfter(sts, vars)
    ensures NoDuplicates(vars) ==> NoDuplicates(VarsAfter(sts, vars))
    decreases |sts|
  {
    if |sts| > 0 && GenStmt(sts[0], vars).Ok? {
      var v1 := StmtVars(sts[0], vars);
      VarsAfterGrows(sts[1..], v1);
      assert vars <= v1;
    }
  }

  /** After a successful compilation the table holds exactly the names it
      held before and the names the program defines. */
  lemma {:induction false} TableAfterCompile(sts: seq<Stmt>, vars: seq<string>)
    requires GenStmts(sts, vars).Ok?
    ensures forall y :: y in VarsAfter(sts, vars) <==> y in vars || y in DefinedNames(sts)
    decreases |sts|
  {
    if |sts| > 0 {
      TableAfterCompile(sts[1..], StmtVars(sts[0], vars));
    }
  }

  /** When statement `k` is the first that fails, the compilation fails with
      its error, yet the definitions of statements `0..k-1` stay in the table
      for later compilations. */
  lemma {:induction false} FailureKeepsEarlierDefinitions(sts: seq<Stmt>, vars: seq<string>, k: nat)
    requires k < |sts|
    requires GenStmts(sts[..k], vars).Ok?
    requires GenStmt(sts[k], VarsAfter(sts[..k], vars)).Err?
    ensures GenStmts(sts, vars) == Err(GenStmt(sts[k], VarsAfter(sts[..k], vars)).error)
    ensures CompileLines(sts, vars).Err?
    ensures VarsAfter(sts, vars) == VarsAfter(sts[..k], vars)
    ensures forall y :: y in VarsAfter(sts, vars) <==> y in vars || y in DefinedNames(sts[..k])
    decreases k
  {
    TableAfterCompile(sts[..k], vars);
    if k > 0 {
      var v1 := StmtVars(sts[0], vars);
      assert sts[..k][0] == sts[0];
      assert sts[..k][1..] == sts[1..][..k - 1];
      assert sts[1..][k - 1] == sts[k];
      FailureKeepsEarlierDefinitions(sts[1..], v1, k - 1);
    }
  }

  /** A variable use or store whose name has a declaration in `table`, and
      which is not itself a declaration. */
  predicate BodyLine(l: Line, table: seq<string>)
  {
    !l.DeclScratch? && !l.DeclLocal? && ((l.LocalGet? || l.LocalSet?) ==> l.name in table)
  }

  lemma {:induction false} FlattenBody(gs: seq<seq<Line>>, table: seq<string>)
    requires forall i, j :: 0 <= i < |gs| && 0 <= j < |gs[i]| ==> BodyLine(gs[i][j], table)
    ensures forall k :: 0 <= k < |Flatten(gs)| ==> BodyLine(Flatten(gs)[k], table)
  {
    if |gs| > 0 {
      FlattenBody(gs[1..], table);
      var f := Flatten(gs);
      assert f == gs[0] + Flatten(gs[1..]);
      forall k | 0 <= k < |f|
        ensures BodyLine(f[k], table)
      {
        if k >= |gs[0]| {
          assert f[k] == Flatten(gs[1..])[k - |gs[0]|];
        }
      }
    }
  }

  /** Every line of every statement's code is an instruction whose variable,
      if any, is in the final table. */
  lemma {:induction false} GroupsDeclared(sts: seq<Stmt>, vars: seq<string>)
    requires GenStmts(sts, vars).Ok?
    ensures var gs := GenStmts(sts, vars).value;
      forall i, j :: 0 <= i < |gs| && 0 <= j < |gs[i]| ==> BodyLine(gs[i][j], VarsAfter(sts, vars))
    decreases |sts|
  {
    if |sts| > 0 {
      var v1 := StmtVars(sts[0], vars);
      var table := VarsAfter(sts, vars);
      GroupsDeclared(sts[1..], v1);
      VarsAfterGrows(sts[1..], v1);
      assert vars <= v1 <= table;
      var g := GenStmt(sts[0], vars).value;
      forall j | 0 <= j < |g|
        ensures BodyLine(g[j], table)
      {
        if j < |g| - 1 {
          assert ReadsOnly(g[j], vars);
        }
      }
    }
  }

  /** The layout of the emitted program: the scratch declaration first, then
      one declaration per name of the table in first-definition order, each
      name once, then code that declares nothing and uses only declared
      locals. The table extends the one the compilation started from. */
  lemma OutputLayout(sts: seq<Stmt>, vars: seq<string>)
    requires NoDuplicates(vars) && CompileLines(sts, vars).Ok?
    ensures var out := CompileLines(sts, vars).value;
      var table := VarsAfter(sts, vars);
      && |out| >= 1 + |table|
      && out[0] == DeclScratch
      && (forall k :: 0 <= k < |table| ==> out[1 + k] == DeclLocal(table[k]))
      && NoDuplicates(table)
      && vars <= table
      && (forall k :: 1 + |table| <= k < |out| ==> BodyLine(out[k], table))
  {
    var table := VarsAfter(sts, vars);
    var gs := GenStmts(sts, vars).value;
    VarsAfterGrows(sts, vars);
    GroupsDeclared(sts, vars);
    FlattenBody(gs, table);
    Layout(table, Flatten(gs));
  }

  /** The emitted line list, read as preamble and body. */
  lemma Layout(table: seq<string>, body: seq<Line>)
    requires forall k :: 0 <= k < |body| ==> BodyLine(body[k], table)
    ensures var out := [DeclScratch] + Decls(table) + body;
      && |out| >= 1 + |table|
      && out[0] == DeclScratch
      && (forall k :: 0 <= k < |table| ==> out[1 + k] == DeclLocal(table[k]))
      && (forall k :: 1 + |table| <= k < |out| ==> BodyLine(out[k], table))
  {
    var pre := [DeclScratch] + Decls(table);
    var out := pre + body;
    assert |pre| == 1 + |table|;
    forall k | 0 <= k < |table|
      ensures out[1 + k] == DeclLocal(table[k])
    {
      assert out[1 + k] == pre[1 + k] == Decls(table)[k];
    }
    forall k | 1 + |table| <= k < |out|
      ensures BodyLine(out[k], table)
    {
      assert out[k] == body[k - |pre|];
    }
  }

  /** The compiler and the table of defined names it keeps between
      compilations. */
  class Compiler {
    /** The names definitions have added, in first-insertion order, as a
        JavaScript `Set` enumerates them. */
    var globalVars: seq<string>

    ghost predicate Valid()
      reads this
    {
      NoDuplicates(globalVars)
    }

    constructor ()
      ensures Valid() && globalVars == []
    {
      globalVars := [];
    }

    /** Generates one statement. A definition adds its name to the table
        after its value has been generated. */
    method CodeGen(st: Stmt) returns (r: Result<seq<Line>>)
      requires Valid()
      modifies this
      ensures Valid()
      ensures r == GenStmt(st, old(globalVars))
      ensures globalVars == StmtVars(st, old(globalVars))
    {
      match st
      case Define(x, v) =>
        var valStmts := CodeGenExpr(v, globalVars);
        if valStmts.Err? {
          return Err(valStmts.error);
        }
        if x !in globalVars {
          globalVars := globalVars + [x];
        }
        r := Ok(valStmts.value + [LocalSet(x)]);
      case ExprStmt(e) =>
        var exprStmts := CodeGenExpr(e, globalVars);
        if exprStmts.Err? {
          return Err(exprStmts.error);
        }
        r := Ok(exprStmts.value + [SetScratch]);
    }

    /** Compiles a lowered program: generates every statement, then declares
        every name of the table, then emits the text. Definitions made before
        a failing statement stay in the table. */
    method Compile(stmts: seq<Stmt>) returns (r: Result<string>)
      requires Valid()
      modifies this
      ensures Valid()
      ensures globalVars == VarsAfter(stmts, old(globalVars))
      ensures r == Emit(CompileLines(stmts, old(globalVars)))
    {
      ghost var vars0 := globalVars;
      var commandGroups: seq<seq<Line>> := [];
      PrependNothing(GenStmts(stmts, vars0));
      var i := 0;
      while i < |stmts|
        invariant 0 <= i <= |stmts|
        invariant Valid()
        invariant GenStmts(stmts, vars0) == Prepend(commandGroups, GenStmts(stmts[i..], globalVars))
        invariant VarsAfter(stmts, vars0) == VarsAfter(stmts[i..], globalVars)
      {
        ghost var before := globalVars;
        var group := CodeGen(stmts[i]);
        CompileStep(stmts, i, vars0, before, commandGroups, group);
        if group.Err? {
          return Err(group.error);
        }
        commandGroups := commandGroups + [group.value];
        i := i + 1;
      }
      assert stmts[i..] == [];
      assert commandGroups + [] == commandGroups;
      var localDefines := LocalDefines();
      var commands := localDefines + Flatten(commandGroups);
      r := Ok(Join(RenderAll(commands)));
    }

    /** The preamble of the emitted function: the scratch declaration, then
        `globalVars.forEach` pushing one declaration per name of the table. */
    method LocalDefines() returns (localDefines: seq<Line>)
      ensures localDefines == [DeclScratch] + Decls(globalVars)
    {
      localDefines := [DeclScratch];
      var j := 0;
      while j < |globalVars|
        invariant 0 <= j <= |globalVars|
        invariant localDefines == [DeclScratch] + Decls(globalVars[..j])
      {
        assert globalVars[..j + 1][..j] == globalVars[..j];
        localDefines := localDefines + [DeclLocal(globalVars[j])];
        j := j + 1;
      }
      assert globalVars[..j] == globalVars;
    }

    /** `compile` on an already parsed program: lower the concrete tree with
        a fresh cursor, then compile the statements. A lowering failure
        leaves the table as it was. */
    method CompileTree(tree: Tree.Node, s: string) returns (r: Result<string>)
      requires Valid() && Parser.Shaped(tree)
      modifies this
      ensures Valid()
      ensures var ast := Parser.LowerScript(tree, s);
        && (ast.Err? ==> r == Err(ast.error) && globalVars == old(globalVars))
        && (ast.Ok? ==> r == Emit(CompileLines(ast.value, old(globalVars))) &&
                        globalVars == VarsAfter(ast.value, old(globalVars)))
    {
      var c := new Tree.Cursor(tree);
      var ast := Parser.Traverse(c, s);
      if ast.Err? {
        return Err(ast.error);
      }
      r := Compile(ast.value);
    }
  }
}
