/** The lines of WebAssembly text (section 6.5 of the WebAssembly Core
    Specification, "Instructions" in the text format) that the code generator
    emits, and their rendering as the exact strings of the source. */
module Wat {
  import opened Decimal

  datatype Option<T> = None | Some(value: T)

  /** One emitted line: a local declaration or an instruction. */
  datatype Line =
      /** `(local $$last i32)`: the scratch local that expression statements store to. */
    | DeclScratch
      /** `(local $x i32)` */
    | DeclLocal(name: string)
      /** `(i32.const v)` */
    | I32Const(value: int)
      /** `(local.get $x)` */
    | LocalGet(name: string)
      /** `(local.set $x)` */
    | LocalSet(name: string)
      /** `(local.set $$last)` */
    | SetScratch
      /** `(call $f)` */
    | Call(name: string)
    | I32Add
    | I32Sub
    | I32Mul

  /** The string a line is emitted as. The source's template literals write
      `$$last` for the scratch local, which JavaScript leaves as two dollar
      signs, and `$${x}` for a named one, which is one dollar sign and the name. */
  function Render(l: Line): (r: string)
    ensures |r| >= 2 && r[0] == '(' && r[|r| - 1] == ')'
  {
    match l
    case DeclScratch => "(local $$last i32)"
    case DeclLocal(x) => "(local $" + x + " i32)"
    case I32Const(v) => "(i32.const " + IntToString(v) + ")"
    case LocalGet(x) => "(local.get $" + x + ")"
    case LocalSet(x) => "(local.set $" + x + ")"
    case SetScratch => "(local.set $$last)"
    case Call(f) => "(call $" + f + ")"
    case I32Add => "(i32.add)"
    case I32Sub => "(i32.sub)"
    case I32Mul => "(i32.mul)"
  }

  /** The signed 32-bit value congruent to `x` modulo 2^32: how an `i32`
      result is read back as a signed integer. */
  function WrapI32(x: int): (r: int)
    ensures -0x8000_0000 <= r <= 0x7FFF_FFFF
    ensures (x - r) % 0x1_0000_0000 == 0
    ensures -0x8000_0000 <= x <= 0x7FFF_FFFF ==> r == x
  {
    (x + 0x8000_0000) % 0x1_0000_0000 - 0x8000_0000
  }

  /** What the three arithmetic instructions compute on two `i32` operands,
      read as signed: the exact result modulo 2^32 (section 4.3.2 of the
      WebAssembly Core Specification, `iadd`, `isub` and `imul`). Other lines
      are not binary operators. */
  function ApplyBinary(l: Line, a: int, b: int): (r: Option<int>)
    ensures r.Some? <==> l.I32Add? || l.I32Sub? || l.I32Mul?
    ensures r.Some? ==> -0x8000_0000 <= r.value <= 0x7FFF_FFFF
  {
    match l
    case I32Add => Some(WrapI32(a + b))
    case I32Sub => Some(WrapI32(a - b))
    case I32Mul => Some(WrapI32(a * b))
    case _ => None
  }

  /** A name as a Python identifier spells it: no `$` and no line break. Only
      such names render unambiguously. */
  predicate Plain(x: string)
  {
    forall i :: 0 <= i < |x| ==> x[i] != '$' && x[i] != '\n'
  }

  predicate PlainLine(l: Line)
  {
    match l
    case DeclLocal(x) => Plain(x)
    case LocalGet(x) => Plain(x)
    case LocalSet(x) => Plain(x)
    case Call(f) => Plain(f)
    case _ => true
  }

  /** `Array.prototype.join("\n")`: the strings separated by line breaks. */
  function Join(ls: seq<string>): (r: string)
    ensures |ls| > 0 ==> ls[0] <= r
    ensures (forall i :: 0 <= i < |ls| ==> OneLine(ls[i])) ==>
      multiset(r)['\n'] == if |ls| == 0 then 0 else |ls| - 1
  {
    if |ls| == 0 then ""
    else
      BreakFree(ls[0]);
      if |ls| == 1 then ls[0] else ls[0] + "\n" + Join(ls[1..])
  }

  /** A string without line breaks counts none. */
  lemma BreakFree(t: string)
    ensures OneLine(t) ==> multiset(t)['\n'] == 0
  {
    if OneLine(t) {
      assert '\n' !in t;
    }
  }

  function RenderAll(ls: seq<Line>): (r: seq<string>)
    ensures |r| == |ls|
    ensures forall i :: 0 <= i < |ls| ==> r[i] == Render(ls[i])
  {
    if |ls| == 0 then [] else [Render(ls[0])] + RenderAll(ls[1..])
  }

  // A reader for the emitted text: the reference the rendering is checked against.

  /** `String.prototype.split("\n")`: the pieces between line breaks. */
  function Split(t: string): (r: seq<string>)
    ensures |r| > 0
    decreases |t|
  {
    if exists i :: 0 <= i < |t| && t[i] == '\n' then
      var i := FirstBreak(t, 0);
      [t[..i]] + Split(t[i + 1..])
    else
      [t]
  }

  /** The position of the first line break at or after `k`. */
  function FirstBreak(t: string, k: nat): (i: nat)
    requires k <= |t| && exists i :: k <= i < |t| && t[i] == '\n'
    ensures k <= i < |t| && t[i] == '\n'
    ensures forall j :: k <= j < i ==> t[j] != '\n'
    decreases |t| - k
  {
    if t[k] == '\n' then k else FirstBreak(t, k + 1)
  }

  function ReadInt(t: string): Option<int>
  {
    if |t| > 1 && t[0] == '-' && IsDigits(t[1..]) then Some(-(DigitsValue(t[1..]) as int))
    else if IsDigits(t) then Some(DigitsValue(t))
    else None
  }

  /** The middle of `t` when it starts with `pre` and ends with `post`. */
  function Between(t: string, pre: string, post: string): Option<string>
  {
    if |pre| + |post| <= |t| && t[..|pre|] == pre && t[|t| - |post|..] == post then
      Some(t[|pre|..|t| - |post|])
    else
      None
  }

  /** Reads one rendered line back. */
  function Unrender(t: string): Option<Line>
  {
    if t == "(local $$last i32)" then Some(DeclScratch)
    else if t == "(local.set $$last)" then Some(SetScratch)
    else if t == "(i32.add)" then Some(I32Add)
    else if t == "(i32.sub)" then Some(I32Sub)
    else if t == "(i32.mul)" then Some(I32Mul)
    else if Between(t, "(local $", " i32)").Some? then Some(DeclLocal(Between(t, "(local $", " i32)").value))
    else if Between(t, "(local.get $", ")").Some? then Some(LocalGet(Between(t, "(local.get $", ")").value))
    else if Between(t, "(local.set $", ")").Some? then Some(LocalSet(Between(t, "(local.set $", ")").value))
    else if Between(t, "(call $", ")").Some? then Some(Call(Between(t, "(call $", ")").value))
    else if Between(t, "(i32.const ", ")").Some? then
      var v := ReadInt(Between(t, "(i32.const ", ")").value);
      if v.Some? then Some(I32Const(v.value)) else None
    else None
  }

  function UnrenderAll(ts: seq<string>): (r: seq<Option<Line>>)
    ensures |r| == |ts|
  {
    if |ts| == 0 then [] else [Unrender(ts[0])] + UnrenderAll(ts[1..])
  }

  function Somes(ls: seq<Line>): (r: seq<Option<Line>>)
    ensures |r| == |ls|
    ensures forall i :: 0 <= i < |ls| ==> r[i] == Some(ls[i])
  {
    if |ls| == 0 then [] else [Some(ls[0])] + Somes(ls[1..])
  }

  // Reading the rendering back

  lemma ReadIntRoundTrip(v: int)
    ensures ReadInt(IntToString(v)) == Some(v)
  {
    if v < 0 {
      NatToStringRoundTrip(-v);
      assert IntToString(v)[1..] == NatToString(-v);
    } else {
      NatToStringRoundTrip(v);
    }
  }

  lemma BetweenWrap(pre: string, x: string, post: string)
    ensures Between(pre + x + post, pre, post) == Some(x)
  {
    var t := pre + x + post;
    assert t[..|pre|] == pre;
    assert t[|t| - |post|..] == post;
    assert t[|pre|..|t| - |post|] == x;
  }

  /** Text that differs from `pre` at some position before its end does not
      start with `pre`. */
  lemma NotPrefixed(t: string, pre: string, post: string, k: nat)
    requires k < |pre| && (k < |t| ==> t[k] != pre[k])
    ensures Between(t, pre, post).None?
  {
    if |pre| + |post| <= |t| {
      assert t[..|pre|][k] != pre[k];
    }
  }

  /** Every line with plain names is read back as itself, so the text of a
      plain program determines its lines. */
  lemma UnrenderRender(l: Line)
    requires PlainLine(l)
    ensures Unrender(Render(l)) == Some(l)
  {
    match l
    case DeclScratch =>
    case SetScratch =>
    case I32Add =>
    case I32Sub =>
    case I32Mul =>
    case DeclLocal(x) => UnrenderDeclLocal(x);
    case LocalGet(x) => UnrenderLocalGet(x);
    case LocalSet(x) => UnrenderLocalSet(x);
    case Call(f) => UnrenderCall(f);
    case I32Const(v) => UnrenderConst(v);
  }

  lemma UnrenderDeclLocal(x: string)
    requires Plain(x)
    ensures Unrender(Render(DeclLocal(x))) == Some(DeclLocal(x))
  {
    var t := Render(DeclLocal(x));
    assert t[8] != '$' by { if |x| > 0 { assert t[8] == x[0]; } else { assert t[8] == ' '; } }
    assert t[6] == ' ';
    BetweenWrap("(local $", x, " i32)");
  }

  lemma UnrenderLocalGet(x: string)
    ensures Unrender(Render(LocalGet(x))) == Some(LocalGet(x))
  {
    var t := Render(LocalGet(x));
    assert t[1] == 'l' && t[6] == '.' && t[7] == 'g';
    NotPrefixed(t, "(local $", " i32)", 6);
    BetweenWrap("(local.get $", x, ")");
  }

  lemma UnrenderLocalSet(x: string)
    requires Plain(x)
    ensures Unrender(Render(LocalSet(x))) == Some(LocalSet(x))
  {
    var t := Render(LocalSet(x));
    assert t[12] != '$' by { if |x| > 0 { assert t[12] == x[0]; } else { assert t[12] == ')'; } }
    assert t[1] == 'l' && t[6] == '.' && t[7] == 's';
    NotPrefixed(t, "(local $", " i32)", 6);
    NotPrefixed(t, "(local.get $", ")", 7);
    BetweenWrap("(local.set $", x, ")");
  }

  lemma UnrenderCall(f: string)
    ensures Unrender(Render(Call(f))) == Some(Call(f))
  {
    var t := Render(Call(f));
    assert t[1] == 'c';
    NotPrefixed(t, "(local $", " i32)", 1);
    NotPrefixed(t, "(local.get $", ")", 1);
    NotPrefixed(t, "(local.set $", ")", 1);
    BetweenWrap("(call $", f, ")");
  }

  lemma UnrenderConst(v: int)
    ensures Unrender(Render(I32Const(v))) == Some(I32Const(v))
  {
    ConstLine(IntToString(v));
    ReadIntRoundTrip(v);
  }

  /** The text `(i32.const x)` is read back through the numeral `x`. */
  lemma ConstLine(x: string)
    ensures var v := ReadInt(x);
      Unrender("(i32.const " + x + ")") == if v.Some? then Some(I32Const(v.value)) else None
  {
    var t := "(i32.const " + x + ")";
    assert t[1] == 'i' && t[5] == 'c';
    assert t != "(local $$last i32)" && t != "(local.set $$last)" by {
      assert "(local $$last i32)"[1] == 'l' && "(local.set $$last)"[1] == 'l';
    }
    assert t != "(i32.add)" && t != "(i32.sub)" && t != "(i32.mul)" by {
      assert "(i32.add)"[5] == 'a' && "(i32.sub)"[5] == 's' && "(i32.mul)"[5] == 'm';
    }
    NotPrefixed(t, "(local $", " i32)", 1);
    NotPrefixed(t, "(local.get $", ")", 1);
    NotPrefixed(t, "(local.set $", ")", 1);
    NotPrefixed(t, "(call $", ")", 1);
    BetweenWrap("(i32.const ", x, ")");
  }

  /** Text without a line break. */
  predicate OneLine(t: string)
  {
    forall i :: 0 <= i < |t| ==> t[i] != '\n'
  }

  lemma WrapOneLine(pre: string, x: string, post: string)
    requires OneLine(pre) && OneLine(x) && OneLine(post)
    ensures OneLine(pre + x + post)
  {
    var t := pre + x + post;
    forall i | 0 <= i < |t|
      ensures t[i] != '\n'
    {
      if i < |pre| {
        assert t[i] == pre[i];
      } else if i < |pre| + |x| {
        assert t[i] == x[i - |pre|];
      } else {
        assert t[i] == post[i - |pre| - |x|];
      }
    }
  }

  /** A rendered line with plain names is a single line of text. */
  lemma RenderOneLine(l: Line)
    requires PlainLine(l)
    ensures OneLine(Render(l))
  {
    match l
    case DeclLocal(x) => WrapOneLine("(local $", x, " i32)");
    case LocalGet(x) => WrapOneLine("(local.get $", x, ")");
    case LocalSet(x) => WrapOneLine("(local.set $", x, ")");
    case Call(f) => WrapOneLine("(call $", f, ")");
    case I32Const(v) =>
      var d := IntToString(v);
      if v < 0 {
        WrapOneLine("-", NatToString(-v), "");
        assert d == "-" + NatToString(-v) + "";
      }
      WrapOneLine("(i32.const ", d, ")");
    case _ =>
  }

  /** Splitting stops at the first line break. */
  lemma SplitFirstLine(a: string, rest: string)
    requires OneLine(a)
    ensures Split(a + "\n" + rest) == [a] + Split(rest)
  {
    var t := a + "\n" + rest;
    assert t[|a|] == '\n';
    var i := FirstBreak(t, 0);
    assert forall j :: 0 <= j < |a| ==> t[j] == a[j];
    assert i == |a|;
    assert t[..i] == a;
    assert t[i + 1..] == rest;
  }

  /** Splitting the joined lines at line breaks gives the lines back when
      none of them holds a break itself. */
  lemma {:induction false} SplitJoin(ls: seq<string>)
    requires |ls| > 0
    requires forall k :: 0 <= k < |ls| ==> OneLine(ls[k])
    ensures Split(Join(ls)) == ls
  {
    if |ls| > 1 {
      var a, rest := ls[0], ls[1..];
      forall k | 0 <= k < |rest|
        ensures OneLine(rest[k])
      {
        assert rest[k] == ls[k + 1];
      }
      SplitJoin(rest);
      assert Join(ls) == a + "\n" + Join(rest);
      SplitFirstLine(a, Join(rest));
      assert ls == [a] + rest;
    } else {
      assert Join(ls) == ls[0];
    }
  }

  lemma {:induction false} UnrenderAllRender(ls: seq<Line>)
    requires forall i :: 0 <= i < |ls| ==> PlainLine(ls[i])
    ensures UnrenderAll(RenderAll(ls)) == Somes(ls)
  {
    if |ls| > 0 {
      UnrenderRender(ls[0]);
      UnrenderAllRender(ls[1..]);
      assert RenderAll(ls)[1..] == RenderAll(ls[1..]);
    }
  }

  /** The emitted text of a non-empty list of plain lines reads back, line by
      line, as exactly that list: rendering loses nothing. */
  lemma TextRoundTrip(ls: seq<Line>)
    requires |ls| > 0
    requires forall i :: 0 <= i < |ls| ==> PlainLine(ls[i])
    ensures UnrenderAll(Split(Join(RenderAll(ls)))) == Somes(ls)
  {
    var rs := RenderAll(ls);
    forall k | 0 <= k < |rs|
      ensures OneLine(rs[k])
    {
      RenderOneLine(ls[k]);
    }
    SplitJoin(rs);
    UnrenderAllRender(ls);
  }
}
