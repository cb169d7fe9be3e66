# A verified model of the pa1 Python-subset compiler

The pa1 repository compiles a tiny subset of Python to WebAssembly text. Its
core has three parts.

- **The abstract syntax** (`ast.ts`): statements (`define`, `expr`), five
  expression forms (`num`, `id`, `builtin1`, `builtin2`, `biryExpr`) and the
  closed `BinaryOp` enumeration.
- **Lowering** (`parser.ts`): `traverseArglist`, `traverseExpr`,
  `traverseStmt` and `traverse` walk a lezer-python concrete syntax tree with
  one shared mutable cursor (`firstChild` / `nextSibling` / `parent`) and
  build the abstract syntax from it.
- **Code generation** (`compiler.ts`): `codeGenOp`, `codeGenExpr`, `codeGen`
  and `compile` emit postfix WebAssembly text. A module-level set of defined
  names, `globalVars`, is written by `define`, read by `id`, enumerated into
  the `local` declarations, and never cleared between compilations.

The Dafny model follows that structure.

| file | module | models |
|---|---|---|
| `results.dfy` | `Results` | the thrown errors as one `Result`/`Error` channel |
| `ast.dfy` | `Ast` | the abstract syntax and its well-formedness predicate (arity and intrinsic allow-lists) |
| `decimal.dfy` | `Decimal` | digit strings and the decimal text of integers |
| `tree.dfy` | `Tree` | the concrete tree, JavaScript `substring`, and the cursor as a class |
| `parser.dfy` | `Parser` | lowering: one specification function and one cursor method per source case |
| `wat.dfy` | `Wat` | emitted lines as a datatype, their rendering, and a reader proving the rendering loses nothing |
| `compiler.dfy` | `CodeGen` | code generation, and the `Compiler` class holding `globalVars` |
| `scenarios.dfy` | `Scenarios` | the repository's test programs, lowered and compiled end to end |

**Cursor.** The cursor is a zipper, that is, a position plus the way back up:
the current node and a linked path of `(parent, child index)` steps.
`FirstChild`, `NextSibling` and `Parent` behave like lezer's: each returns
whether it moved, and stays put when it cannot.

Each `Traverse*` method is proved against a pure lowering function
(`LowerExpr`, `LowerArgs`, `LowerStmt`, `LowerScript`, ...). Its contract
states:
- the method returns exactly what that function returns;
- the cursor never climbs above the node where the method started;
- on success, the cursor is back on that node (*cursor balance*).

`Traverse` is the exception. Like the source, it ends on its last statement
and never calls `parent`.

**Compiler.** `Compiler` is a class whose field `globalVars` is the
insertion-ordered set. `CodeGen` and `Compile` are methods that update it.
Each method's contract ties its result and the new table to pure functions:
- `GenStmt` and `StmtVars` for one statement;
- `GenStmts`, `VarsAfter` and `CompileLines` for a program.

The lemmas about those functions state the properties below.
- **Postfix shape:** every syntax node emits exactly one instruction, and the
  root's instruction comes last.
- **Success conditions:** an expression compiles exactly when its literals fit
  in 32 bits and the table holds every name it reads.
- **Scoping rule:** a statement's own definition is not visible to its value.
- **Table growth:** the table only ever grows.
- **Failure:** when a compilation fails, the definitions made before the
  failing statement remain in the table.
- **Output layout:** one declaration per table name, in first-definition
  order, and every local that is used is declared.

## Model

| member | source | states |
|---|---|---|
| Decimal.NatToString | compiler.ts:54 | the decimal text of a natural number is a non-empty digit string with no leading zero |
| Decimal.IntToString | compiler.ts:54 | the text of an integer is non-empty and starts with `-` exactly when the integer is negative |
| Decimal.NatToStringRoundTrip | parser.ts:19 | reading back the decimal text of `n` as a digit string gives `n` |
| Tree.Substring | parser.ts:19 | JavaScript `substring`: never longer than the string; the slice between in-range bounds, either order |
| Tree.Cursor.constructor | parser.ts:143 | a fresh cursor stands on the root with an empty path |
| Tree.Cursor.FirstChild | parser.ts:6 | moves to child 0 exactly when the node has children, else changes nothing; the path stays linked |
| Tree.Cursor.NextSibling | parser.ts:8 | moves to the next child of the parent exactly when there is one, else changes nothing |
| Tree.Cursor.Parent | parser.ts:12 | moves back to the parent exactly when not at the root, restoring the outer path |
| Parser.Dispatch | parser.ts:35-57 | a call succeeds exactly with one argument and name print/abs, or two arguments and name max/min/pow |
| Parser.ParseBinaryOp | parser.ts:80-92 | a lexeme denotes an operator exactly when it is `+`, `-` or `*` |
| Parser.TraverseArglist | parser.ts:5-14 | yields `LowerArgs` of the argument list; on success the cursor is back on the list; it never leaves the subtree |
| Parser.TraverseExpr | parser.ts:16-101 | yields `LowerExpr` of the node; on success the cursor is back on it; it never leaves the subtree |
| Parser.TraverseCall | parser.ts:29-57 | yields `LowerCall`; cursor balanced on success |
| Parser.TraverseUnary | parser.ts:58-74 | yields `LowerUnary`; cursor balanced on success |
| Parser.TraverseBinary | parser.ts:75-96 | yields `LowerBinary`; cursor balanced on success |
| Parser.TraverseStmt | parser.ts:103-125 | yields `LowerStmt`; cursor balanced on success |
| Parser.Traverse | parser.ts:127-140 | yields `LowerScript`; on success the cursor ends on the script's last child, one step below the start |
| Parser.LowerExprWellFormed | parser.ts:35-54 | every lowered expression is well formed: allow-listed intrinsic names, two arguments for a two-argument intrinsic |
| Parser.LowerArgsWellFormed | parser.ts:5-14 | every lowered argument is well formed |
| Parser.LowerScriptWellFormed | parser.ts:127-136 | every lowered script is a well-formed program |
| Parser.LowerStmtsWellFormed | parser.ts:132-134 | every lowered statement sequence is well formed |
| Parser.LeafLowering | parser.ts:18-28 | a `Number` spelling the numeral of `v` lowers to `num v`; a `VariableName` lowers to `id` of exactly its text |
| Parser.ArgumentsAtOddPositions | parser.ts:5-14 | the arguments are the children at positions 1, 3, 5, ...: lowering succeeds iff each lowers, and yields them in order, one per pair |
| Parser.LowerArgsFrom | parser.ts:8-11 | the same, for the walk resumed at argument `m` |
| Parser.CallDispatch | parser.ts:29-57 | builtin1 iff the list has 2 or 3 children, name print/abs and the argument lowers; builtin2 iff 4 or 5 children, max/min/pow and both lower; nothing else; an argument error comes first |
| Parser.EmptyCallFails | parser.ts:8-9 | in `f()` the `)` node is lowered as an expression and lowering fails with its span |
| Parser.UnarySignFolding | parser.ts:58-74 | a unary expression lowers iff the operator is `+` or `-` and the operand a numeral; the result is the negated numeral for both signs; every failure is "not a number" |
| Parser.BinaryOpRoundTrip | parser.ts:80-92 | lexemes and operators correspond one to one |
| Parser.BinaryLowering | parser.ts:75-96 | lowers iff the first and third children lower and the middle lexeme is an operator; the operands keep their order |
| Parser.StatementProvenance | parser.ts:103-125 | a lowered statement is well formed, is a definition exactly when the node is an assignment, and defines a name that is a contiguous slice of the source text; other node kinds never lower |
| Parser.ScriptLowering | parser.ts:127-139 | a script lowers iff it has at least one child and every child lowers; then one statement per child, in order |
| Parser.LowerStmtsPointwise | parser.ts:132-134 | a statement sequence lowers iff each element does, and then pointwise |
| Wat.Render | compiler.ts:18-76 | every emitted line is parenthesised |
| Wat.UnrenderRender | compiler.ts:18-76 | a line whose names are identifiers reads back from its text as itself |
| Wat.UnrenderDeclLocal | compiler.ts:21 | `(local $x i32)` reads back as the declaration of `x`, distinct from the scratch declaration |
| Wat.UnrenderLocalGet | compiler.ts:59 | `(local.get $x)` reads back as the read of `x` |
| Wat.UnrenderLocalSet | compiler.ts:35 | `(local.set $x)` reads back as the store to `x`, distinct from the store to `$$last` |
| Wat.UnrenderCall | compiler.ts:46 | `(call $f)` reads back as the call of `f` |
| Wat.UnrenderConst | compiler.ts:54 | `(i32.const v)` reads back as the literal `v` |
| Wat.ReadIntRoundTrip | compiler.ts:54 | the decimal text of any integer reads back as that integer |
| Wat.RenderOneLine | compiler.ts:26 | a rendered line with identifier names contains no line break |
| Wat.Join | compiler.ts:26 | `join("\n")`: the first line starts the text, and a non-empty list of lines without breaks gives a text with exactly one break fewer than it has lines |
| Wat.SplitJoin | compiler.ts:26 | splitting the `"\n"`-joined lines gives them back when none holds a break |
| Wat.TextRoundTrip | compiler.ts:26 | the emitted text of a non-empty list of lines determines the list |
| CodeGen.CodeGenExpr | compiler.ts:42-67 | postfix code: one instruction per syntax node, the root's last, only reads of names in the table, no declaration or store |
| CodeGen.CodeGenAll | compiler.ts:47-49 | the arguments' code concatenated: as many instructions as their nodes, reads only of table names |
| CodeGen.CodeGenExprSucceeds | compiler.ts:50-59 | an expression compiles exactly when every literal is in [-2147483648, 2147483647] and every read name is in the table |
| CodeGen.CodeGenAllSucceeds | compiler.ts:48 | the same for an argument list |
| CodeGen.CodeGenExprMonotone | compiler.ts:55-59 | code generated against a table is generated unchanged against any larger table |
| CodeGen.CodeGenAllMonotone | compiler.ts:48 | the same for an argument list |
| CodeGen.CodeGenOp | compiler.ts:69-79 | total on the three operators (no default case is needed), and each emits one of the three arithmetic instructions; `CodeGenOpComputes` pins which: `+` is `(i32.add)`, `-` is `(i32.sub)`, `*` is `(i32.mul)` |
| CodeGen.CodeGenOpInjective | compiler.ts:69-79 | the three operators emit three pairwise different instructions |
| CodeGen.CodeGenOpComputes | compiler.ts:69-79 | the instruction emitted for an operator computes that operator on 32-bit operands modulo 2^32, and exactly when the result fits in 32 bits |
| CodeGen.GenStmt | compiler.ts:30-40 | a statement's code is its expression's code plus one store: `local.set` of the name, or of `$$last` |
| CodeGen.Declare | compiler.ts:34 | `Set.add`: the name is in the result, nothing else is added, the old order is a prefix, no duplicates arise |
| CodeGen.GenStmts | compiler.ts:17 | one code group per statement |
| CodeGen.Decls | compiler.ts:20-22 | one `local` declaration per table name, in table order |
| CodeGen.ScopeRule | compiler.ts:30-40 | a program compiles iff each statement's literals fit and it reads only names that were in the table or were defined by earlier statements |
| CodeGen.DefineBeforeUse | compiler.ts:33-34 | `x = e` where `e` reads a fresh `x` fails and leaves the table unchanged (so `x = x` fails) |
| CodeGen.VarsAfterGrows | compiler.ts:12 | the table only grows: the old table is a prefix of the new one, and it stays free of duplicates |
| CodeGen.TableAfterCompile | compiler.ts:17 | after a successful compile the table is exactly the old names plus the program's defined names |
| CodeGen.FailureKeepsEarlierDefinitions | compiler.ts:17 | when statement `k` fails first, the compile fails with its error and the definitions of statements before `k` stay in the table |
| CodeGen.GroupsDeclared | compiler.ts:17 | every line of every code group is an instruction naming only locals of the final table |
| CodeGen.FlattenBody | compiler.ts:23 | flattening the groups keeps that property |
| CodeGen.OutputLayout | compiler.ts:17-23 | the output is `(local $$last i32)`, then one declaration per table name, each once, in first-definition order, then code that declares nothing and uses only declared locals |
| CodeGen.Compiler.constructor | compiler.ts:12 | a new compiler starts with an empty table |
| CodeGen.Compiler.CodeGen | compiler.ts:30-40 | returns `GenStmt` for the current table and updates the table to `StmtVars`; a definition enters the table only after its value was generated |
| CodeGen.Compiler.Compile | compiler.ts:14-28 | returns the rendered `CompileLines` for the table at entry and leaves the table at `VarsAfter`, also when it fails |
| CodeGen.Compiler.LocalDefines | compiler.ts:18-22 | the preamble is the scratch declaration followed by one `local` declaration per name of the table, in the table's order |
| CodeGen.Compiler.CompileTree | compiler.ts:14-17 | lowers a parsed tree with a fresh cursor and compiles it; a lowering error leaves the table as it was |
| Scenarios.AssignLowering | tests/parser.test.ts:143-157 | `x=4` lowers to `define(x, num 4)` |
| Scenarios.ProgramLowering | tests/parser.test.ts:161-181 | `x=4\nprint(x)` lowers to a definition of `x` followed by `print(x)` |
| Scenarios.NegFourLowering | tests/parser.test.ts:191-199 | the `-4` of `x=-4` lowers to `num -4` |
| Scenarios.ProgramCode | compiler.ts:14-28 | that program compiles on a fresh table to the scratch and `x` declarations, `i32.const 4`, the store to `x`, the read of `x`, `call $print` and the store to `$$last` |
| Scenarios.PersistenceExample | compiler.ts:12 | `print(x)` fails on a fresh compiler but compiles after `x = 4` was compiled on the same compiler |

## Left out

- `parse` (parser.ts:141-144) and the lezer-python parser. The concrete tree is an input value. Node kinds that lowering does not distinguish are carried as `Other(name)`.
- Parser.TraverseExpr, Parser.TraverseArglist, Parser.TraverseStmt, Parser.Traverse and the `Lower*` functions require `Shaped`: each call, unary, binary, assignment and expression-statement node has the children its case reads. The lezer-python grammar never produces other shapes. The source treats them case by case, and the model does not follow it there:
  - a call without an argument list, or with an empty one, lets the cursor step out of the call's subtree (parser.ts:29-34, 6-13);
  - a unary node with fewer than two children fails with "not a number" (parser.ts:59-68), unless it has no children and its own span is a lone sign, when the cursor steps out of it;
  - a binary node with one or two children fails with a parse error, unless its only child's text is itself an operator lexeme (parser.ts:76-95);
  - a binary node without children recurses without end (parser.ts:76-77);
  - an assignment with two children `[x, 5]` stops on `5` (the second `nextSibling` fails) and yields `define(x, num 5)` with the cursor balanced; one with a single child `[x]` yields `define(x, id x)`; one without children steps out of the statement (parser.ts:106-111);
  - an expression statement without children fails as an unknown expression (parser.ts:119-120).
- Parser.LowerExpr: a `Number` whose text is not a plain digit string fails with `UnsupportedNumeral`. In the source, `parseInt` silently gives `NaN` or a prefix value for such text. Floats, hexadecimal, exponents and the precision loss of values above 2^53 are not modelled either.
- Parser.LowerUnary: an operand that is not a plain digit string fails with "not a number". The source calls `Number` on `"-"` followed by the operand text (parser.ts:66), which also accepts decimals, exponents and `Infinity`: `-4.5` lowers to a non-integer literal, and `-Infinity` lowers to a literal that fails only at the range check of compiler.ts:51. `-0` is the integer 0 here; the source renders `-0` as `0` too.
- The unary sign: parser.ts:66 folds the sign into the literal and negates for `+` as well, so `+5` lowers to `-5`; the model follows the code.
- Wat.UnrenderRender and Wat.TextRoundTrip assume names without `$` or line breaks. Such names render ambiguously: a variable called `$last` would collide with the scratch local. Python identifiers contain neither character. A defined name, though, is the raw text of the assignment target (parser.ts:107), not necessarily an identifier: `a["$"] = 1` defines `a["$"]` and emits `(local.set $a["$"])`. Targets other than plain names are outside the round trip.
- Error messages: each `throw` is modelled as a tagged `Error`, without its message text.
- The `console.log` calls (parser.ts:135, compiler.ts:24): diagnostic output only.
- The execution semantics of the emitted WebAssembly beyond the three arithmetic instructions: the locals, `call` and the host's `print`/`abs`/`max`/`min`/`pow` are not modelled.
- The unused `LocalEnv` type (compiler.ts:6).
- tests/parser.test.ts: test outcomes are used as evidence, as worked scenarios. Its random expression generator is not modelled.
