/** The single fail-fast error channel shared by lowering and code generation.
    Every `throw` in the source becomes an `Err` carrying one of these tags. */
module Results {

  datatype Error =
      /** `traverseExpr` met a node kind it does not lower (span of that node). */
    | UnknownExpr(from: nat, to: nat)
      /** `traverseStmt` met a node kind that is not a statement. */
    | UnknownStmt(from: nat, to: nat)
      /** `traverse` was not started on a `Script` node. */
    | UnknownProgram(from: nat, to: nat)
      /** A one-argument call to a name outside {print, abs}. */
    | UnknownBuiltin1(name: string)
      /** A two-argument call to a name outside {max, min, pow}. */
    | UnknownBuiltin2(name: string)
      /** A call with neither one nor two arguments. */
    | UnknownCall(name: string, arity: nat)
      /** A unary operator other than `+`/`-`, or an operand that is not a numeral. */
    | NotANumber
      /** A binary operator lexeme other than `+`, `-`, `*`. */
    | UnknownBinaryOp(lexeme: string)
      /** A `Number` node whose text is not a plain digit string (outside this model). */
    | UnsupportedNumeral(text: string)
      /** A literal outside the signed 32-bit range, found during generation. */
    | Overflow(value: int)
      /** A variable read before any `define` of it reached the symbol table. */
    | Reference(name: string)

  datatype Result<+T> = Ok(value: T) | Err(error: Error) {
    predicate IsFailure() { Err? }

    function PropagateFailure<U>(): Result<U>
      requires Err?
    {
      Err(error)
    }

    function Extract(): T
      requires Ok?
    {
      value
    }
  }

  /** Appends `pre` in front of a successful result and keeps a failure. */
  function Prepend<T>(pre: seq<T>, r: Result<seq<T>>): Result<seq<T>>
  {
    if r.Ok? then Ok(pre + r.value) else r
  }

  lemma PrependNothing<T>(r: Result<seq<T>>)
    ensures Prepend([], r) == r
  {
    if r.Ok? {
      assert [] + r.value == r.value;
    }
  }

  lemma PrependOneMore<T>(pre: seq<T>, x: T, r: Result<seq<T>>)
    ensures Prepend(pre, Prepend([x], r)) == Prepend(pre + [x], r)
  {
    if r.Ok? {
      assert pre + ([x] + r.value) == (pre + [x]) + r.value;
    }
  }
}
