/** Worked programs from the repository's tests, lowered and compiled end to
    end through the model. */
module Scenarios {
  import opened Results
  import opened Ast
  import opened Wat
  import opened Tree
  import opened Parser
  import opened CodeGen
  import opened Decimal

  const Source: string := "x=4\nprint(x)"

  // The concrete tree the Python grammar gives `Source`, node by node.
  const Target: Node := Node(VariableName, 0, 1, [])
  const Four: Node := Node(Number, 2, 3, [])
  const Assign: Node := Node(AssignStatement, 0, 3, [Target, Node(Other("AssignOp"), 1, 2, []), Four])
  const Callee: Node := Node(VariableName, 4, 9, [])
  const Arg: Node := Node(VariableName, 10, 11, [])
  const Args: Node := Node(Other("ArgList"), 9, 12, [Node(Other("("), 9, 10, []), Arg, Node(Other(")"), 11, 12, [])])
  const PrintCall: Node := Node(CallExpression, 4, 12, [Callee, Args])
  const PrintStmt: Node := Node(ExpressionStatement, 4, 12, [PrintCall])
  const Program: Node := Node(Script, 0, 12, [Assign, PrintStmt])

  lemma AssignLowering()
    ensures Shaped(Assign)
    ensures LowerStmt(Assign, Source) == Ok(Define("x", Num(4)))
  {
    assert Text(Target, Source) == "x";
    assert Text(Four, Source) == "4";
    assert DigitsValue("4") == 4;
    assert LowerExpr(Four, Source) == Ok(Num(4));
  }

  lemma ArgsLowering()
    ensures Shaped(Args)
    ensures LowerArgs(Args, Source, 0) == Ok([Id("x")])
  {
    assert Text(Arg, Source) == "x";
    assert LowerExpr(Arg, Source) == Ok(Id("x"));
    assert LowerArgs(Args, Source, 1) == Ok([]);
    assert [Id("x")] + [] == [Id("x")];
  }

  lemma PrintLowering()
    ensures Shaped(PrintStmt)
    ensures LowerStmt(PrintStmt, Source) == Ok(ExprStmt(Builtin1("print", Id("x"))))
  {
    ArgsLowering();
    assert Text(Callee, Source) == "print";
    assert Shaped(PrintCall);
    assert LowerExpr(PrintCall, Source) == Ok(Builtin1("print", Id("x")));
  }

  /** `x=4` followed by `print(x)` lowers to a definition and a print. */
  lemma ProgramLowering()
    ensures Shaped(Program)
    ensures LowerScript(Program, Source) == Ok([Define("x", Num(4)), ExprStmt(Builtin1("print", Id("x")))])
  {
    AssignLowering();
    PrintLowering();
    var printX := ExprStmt(Builtin1("print", Id("x")));
    assert [PrintStmt][1..] == [];
    assert LowerStmts([PrintStmt], Source) == Ok([printX]) by {
      assert LowerStmts([], Source) == Ok([]);
      assert [printX] + [] == [printX];
    }
    assert Program.children[1..] == [PrintStmt];
    assert [Define("x", Num(4))] + [printX] == [Define("x", Num(4)), printX];
  }

  lemma DefineCode()
    ensures GenStmt(Define("x", Num(4)), []) == Ok([I32Const(4), LocalSet("x")])
    ensures StmtVars(Define("x", Num(4)), []) == ["x"]
  {
    assert CodeGenExpr(Num(4), []) == Ok([I32Const(4)]);
    assert [I32Const(4)] + [LocalSet("x")] == [I32Const(4), LocalSet("x")];
  }

  lemma PrintCode()
    ensures GenStmt(ExprStmt(Builtin1("print", Id("x"))), ["x"]) == Ok([LocalGet("x"), Call("print"), SetScratch])
  {
    assert CodeGenExpr(Id("x"), ["x"]) == Ok([LocalGet("x")]);
    assert [LocalGet("x")] + [Call("print")] == [LocalGet("x"), Call("print")];
    assert CodeGenExpr(Builtin1("print", Id("x")), ["x"]) == Ok([LocalGet("x"), Call("print")]);
    assert [LocalGet("x"), Call("print")] + [SetScratch] == [LocalGet("x"), Call("print"), SetScratch];
  }

  /** The code groups of that program, and the table it leaves. */
  lemma ProgramGroups()
    ensures GenStmts([Define("x", Num(4)), ExprStmt(Builtin1("print", Id("x")))], []) ==
      Ok([[I32Const(4), LocalSet("x")], [LocalGet("x"), Call("print"), SetScratch]])
    ensures VarsAfter([Define("x", Num(4)), ExprStmt(Builtin1("print", Id("x")))], []) == ["x"]
  {
    var sts := [Define("x", Num(4)), ExprStmt(Builtin1("print", Id("x")))];
    DefineCode();
    PrintCode();
    var g0 := [I32Const(4), LocalSet("x")];
    var g1 := [LocalGet("x"), Call("print"), SetScratch];
    assert sts[1..] == [sts[1]] && sts[1..][1..] == [];
    assert GenStmts(sts[1..], ["x"]) == Ok([g1]) by {
      assert GenStmts([], ["x"]) == Ok([]);
      assert [g1] + [] == [g1];
    }
    assert [g0] + [g1] == [g0, g1];
    assert VarsAfter(sts[1..], ["x"]) == ["x"];
  }

  /** The output of a two-statement program, from its two code groups and the
      table it leaves. */
  lemma AssembleTwo(sts: seq<Stmt>, vars: seq<string>, g0: seq<Line>, g1: seq<Line>, after: seq<string>)
    requires GenStmts(sts, vars) == Ok([g0, g1]) && VarsAfter(sts, vars) == after
    ensures CompileLines(sts, vars) == Ok([DeclScratch] + Decls(after) + g0 + g1)
  {
    assert [g1][1..] == [];
    assert Flatten([g1]) == g1 + Flatten([]) == g1;
    assert [g0, g1][1..] == [g1];
    assert Flatten([g0, g1]) == g0 + g1;
    assert [DeclScratch] + Decls(after) + (g0 + g1) == [DeclScratch] + Decls(after) + g0 + g1;
  }

  /** Compiling that program on a fresh table. */
  lemma ProgramCode()
    ensures CompileLines([Define("x", Num(4)), ExprStmt(Builtin1("print", Id("x")))], []) ==
      Ok([DeclScratch, DeclLocal("x"), I32Const(4), LocalSet("x"), LocalGet("x"), Call("print"), SetScratch])
  {
    var g0 := [I32Const(4), LocalSet("x")];
    var g1 := [LocalGet("x"), Call("print"), SetScratch];
    ProgramGroups();
    AssembleTwo([Define("x", Num(4)), ExprStmt(Builtin1("print", Id("x")))], [], g0, g1, ["x"]);
    assert Decls(["x"]) == [DeclLocal("x")];
    assert [DeclScratch] + [DeclLocal("x")] + g0 + g1 ==
      [DeclScratch, DeclLocal("x"), I32Const(4), LocalSet("x"), LocalGet("x"), Call("print"), SetScratch];
  }

  /** In `x=-4`, the right-hand side is a unary minus on the numeral `4`. */
  const NegSource: string := "x=-4\nprint(x)"
  const NegFour: Node := Node(UnaryExpression, 2, 4, [Node(Other("ArithOp"), 2, 3, []), Node(Number, 3, 4, [])])

  /** It lowers to the literal -4. */
  lemma NegFourLowering()
    ensures Shaped(NegFour)
    ensures LowerExpr(NegFour, NegSource) == Ok(Num(-4))
  {
    assert Text(NegFour.children[0], NegSource) == "-";
    assert Text(NegFour.children[1], NegSource) == "4";
    assert DigitsValue("4") == 4;
  }

  /** The table persists across compilations: a program that prints `x` fails
      on a fresh compiler, but compiles once `x = 4` has been compiled, and
      its preamble then declares `x`. */
  lemma PersistenceExample()
    ensures var first := [Define("x", Num(4))];
      var second := [ExprStmt(Builtin1("print", Id("x")))];
      && CompileLines(second, []) == Err(Reference("x"))
      && VarsAfter(first, []) == ["x"]
      && CompileLines(second, VarsAfter(first, [])).Ok?
      && CompileLines(second, VarsAfter(first, [])).value[..2] == [DeclScratch, DeclLocal("x")]
  {
    DefiningX();
    PrintingX();
  }

  lemma DefiningX()
    ensures VarsAfter([Define("x", Num(4))], []) == ["x"]
  {
    var first := [Define("x", Num(4))];
    assert first[1..] == [];
    assert GenStmt(first[0], []).Ok?;
    assert StmtVars(first[0], []) == ["x"];
  }

  lemma PrintingX()
    ensures var second := [ExprStmt(Builtin1("print", Id("x")))];
      && CompileLines(second, []) == Err(Reference("x"))
      && CompileLines(second, ["x"]).Ok?
      && CompileLines(second, ["x"]).value[..2] == [DeclScratch, DeclLocal("x")]
  {
    var second := [ExprStmt(Builtin1("print", Id("x")))];
    assert second[1..] == [];
    assert GenStmt(second[0], []) == Err(Reference("x"));
    assert VarsAfter(second, ["x"]) == ["x"] by {
      assert GenStmt(second[0], ["x"]).Ok?;
      assert StmtVars(second[0], ["x"]) == ["x"];
    }
    assert Decls(["x"]) == [DeclLocal("x")];
  }
}
