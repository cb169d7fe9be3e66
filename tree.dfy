/** The concrete syntax tree produced by the external parser, and the cursor
    through which lowering reads it. The tree is an immutable value; the cursor
    is the only mutable state: the node it is on and the way back up. */
module Tree {

  /** The kind name of a node: the eight names lowering tells apart, and
      `Other` for every other name the parser produces. `Other` never spells
      one of the eight names above: the source switches on the name string,
      so a node with such a name is the constructor of that name. */
  datatype Kind =
    | Script | AssignStatement | ExpressionStatement
    | Number | VariableName | CallExpression | UnaryExpression | BinaryExpression
    | Other(name: string)

  /** A node: its kind, its `from`/`to` offsets into the source text and its
      children in source order. */
  datatype Node = Node(kind: Kind, from: nat, to: nat, children: seq<Node>)

  /** JavaScript's `String.prototype.substring`: both ends are clamped to the
      string and swapped when the first exceeds the second. */
  function Substring(s: string, a: nat, b: nat): (r: string)
    ensures |r| <= |s|
    ensures a <= b <= |s| ==> r == s[a..b]
    ensures b <= a <= |s| ==> r == s[b..a]
  {
    var lo := if a < |s| then a else |s|;
    var hi := if b < |s| then b else |s|;
    if lo <= hi then s[lo..hi] else s[hi..lo]
  }

  /** The source text a node spans. */
  function Text(n: Node, s: string): string
  {
    Substring(s, n.from, n.to)
  }

  /** The cursor's position above the current node: the chain of parents it
      descended through, innermost first, each with the index of the child
      taken. */
  datatype Path = Root | Step(outer: Path, parent: Node, index: nat)

  /** `inner` is `outer` with zero or more further steps down. */
  predicate Extends(inner: Path, outer: Path)
  {
    inner == outer || (inner.Step? && Extends(inner.outer, outer))
  }

  /** Each step names an existing child of its parent, and that child is the
      parent of the next step down or, for the innermost step, `node`. */
  ghost predicate Linked(up: Path, node: Node)
  {
    match up
    case Root => true
    case Step(outer, p, i) => i < |p.children| && p.children[i] == node && Linked(outer, p)
  }

  /** A position below a step down from `outer` is below `outer` itself. */
  lemma {:induction false} ExtendsStep(inner: Path, outer: Path, p: Node, i: nat)
    requires Extends(inner, Step(outer, p, i))
    ensures Extends(inner, outer)
    decreases inner
  {
    if inner != Step(outer, p, i) {
      ExtendsStep(inner.outer, outer, p, i);
    }
  }

  /** A stateful cursor over one tree, with the navigation primitives of the
      parser library: each returns whether it moved and stays put otherwise.
      `node` is the node the cursor is on and `up` the way back to the root. */
  class Cursor {
    var node: Node
    var up: Path

    ghost predicate Valid()
      reads this
    {
      Linked(up, node)
    }

    /** A cursor on the root of `root`. */
    constructor (root: Node)
      ensures node == root && up == Root && Valid()
    {
      node := root;
      up := Root;
    }

    /** Moves to the first child, if there is one. */
    method FirstChild() returns (moved: bool)
      requires Valid()
      modifies this
      ensures Valid()
      ensures moved <==> |old(node).children| > 0
      ensures moved ==> node == old(node).children[0] && up == Step(old(up), old(node), 0)
      ensures !moved ==> node == old(node) && up == old(up)
    {
      moved := |node.children| > 0;
      if moved {
        up := Step(up, node, 0);
        node := node.children[0];
      }
    }

    /** Moves to the next sibling, if there is one. */
    method NextSibling() returns (moved: bool)
      requires Valid()
      modifies this
      ensures Valid()
      ensures moved <==> old(up).Step? && old(up).index + 1 < |old(up).parent.children|
      ensures moved ==>
        node == old(up).parent.children[old(up).index + 1] &&
        up == Step(old(up).outer, old(up).parent, old(up).index + 1)
      ensures !moved ==> node == old(node) && up == old(up)
    {
      moved := up.Step? && up.index + 1 < |up.parent.children|;
      if moved {
        up := Step(up.outer, up.parent, up.index + 1);
        node := up.parent.children[up.index];
      }
    }

    /** Moves to the parent, unless the cursor is on the root. */
    method Parent() returns (moved: bool)
      requires Valid()
      modifies this
      ensures Valid()
      ensures moved <==> old(up).Step?
      ensures moved ==> node == old(up).parent && up == old(up).outer
      ensures !moved ==> node == old(node) && up == old(up)
    {
      moved := up.Step?;
      if moved {
        node := up.parent;
        up := up.outer;
      }
    }
  }
}
