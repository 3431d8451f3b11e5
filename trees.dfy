/** `ExpressionNode` and the pure members of `ExpressionTree` that read a tree: the three
    traversals and the hierarchical rendering `printTree`. */
module Trees {
  import opened Text

  /** An `ExpressionNode` reference: `Nil` is Java's `null`. The builder never changes a node
      after linking it, so a node is a value. */
  datatype Tree = Nil | Node(value: string, left: Tree, right: Tree)

  function Size(t: Tree): nat
  {
    match t
    case Nil => 0
    case Node(_, l, r) => 1 + Size(l) + Size(r)
  }

  /** The values stored in `t`, one occurrence per node. */
  function Values(t: Tree): multiset<string>
  {
    match t
    case Nil => multiset{}
    case Node(v, l, r) => multiset{v} + Values(l) + Values(r)
  }

  // ---------------------------------------------------------------------------------------------
  // The traversals as the source writes them: each value followed by one space.

  function PreOrder(t: Tree): string
  {
    match t
    case Nil => ""
    case Node(v, l, r) => v + " " + PreOrder(l) + PreOrder(r)
  }

  function InOrder(t: Tree): string
  {
    match t
    case Nil => ""
    case Node(v, l, r) => InOrder(l) + v + " " + InOrder(r)
  }

  function PostOrder(t: Tree): string
  {
    match t
    case Nil => ""
    case Node(v, l, r) => PostOrder(l) + PostOrder(r) + v + " "
  }

  // ---------------------------------------------------------------------------------------------
  // The orders in which the traversals visit the nodes.

  /** Root, then the left subtree, then the right. */
  function PreSeq(t: Tree): seq<string>
  {
    match t
    case Nil => []
    case Node(v, l, r) => [v] + PreSeq(l) + PreSeq(r)
  }

  /** Left subtree, root, right subtree. */
  function InSeq(t: Tree): seq<string>
  {
    match t
    case Nil => []
    case Node(v, l, r) => InSeq(l) + [v] + InSeq(r)
  }

  /** Left subtree, right subtree, root. */
  function PostSeq(t: Tree): seq<string>
  {
    match t
    case Nil => []
    case Node(v, l, r) => PostSeq(l) + PostSeq(r) + [v]
  }

  lemma EmitOne(v: string)
    ensures Emit([v]) == v + " "
  {
    assert [v] == [] + [v];
    EmitSnoc([], v);
  }

  /** `preOrderTraversal` writes the preorder visit, each value followed by one space. */
  lemma {:induction false} PreOrderEmits(t: Tree)
    ensures PreOrder(t) == Emit(PreSeq(t))
  {
    if t.Node? {
      PreOrderEmits(t.left);
      PreOrderEmits(t.right);
      EmitOne(t.value);
      EmitAppend([t.value], PreSeq(t.left));
      EmitAppend([t.value] + PreSeq(t.left), PreSeq(t.right));
    }
  }

  /** `inOrderTraversal` writes the inorder visit, each value followed by one space. */
  lemma {:induction false} InOrderEmits(t: Tree)
    ensures InOrder(t) == Emit(InSeq(t))
  {
    if t.Node? {
      InOrderEmits(t.left);
      InOrderEmits(t.right);
      EmitOne(t.value);
      EmitAppend(InSeq(t.left), [t.value]);
      EmitAppend(InSeq(t.left) + [t.value], InSeq(t.right));
    }
  }

  /** `postOrderTraversal` writes the postorder visit, each value followed by one space. */
  lemma {:induction false} PostOrderEmits(t: Tree)
    ensures PostOrder(t) == Emit(PostSeq(t))
  {
    if t.Node? {
      PostOrderEmits(t.left);
      PostOrderEmits(t.right);
      EmitOne(t.value);
      EmitAppend(PostSeq(t.left), PostSeq(t.right));
      EmitAppend(PostSeq(t.left) + PostSeq(t.right), [t.value]);
    }
  }

  lemma {:induction false} PreSeqVisits(t: Tree)
    ensures |PreSeq(t)| == Size(t) && multiset(PreSeq(t)) == Values(t)
  {
    if t.Node? {
      PreSeqVisits(t.left);
      PreSeqVisits(t.right);
    }
  }

  lemma {:induction false} InSeqVisits(t: Tree)
    ensures |InSeq(t)| == Size(t) && multiset(InSeq(t)) == Values(t)
  {
    if t.Node? {
      InSeqVisits(t.left);
      InSeqVisits(t.right);
    }
  }

  lemma {:induction false} PostSeqVisits(t: Tree)
    ensures |PostSeq(t)| == Size(t) && multiset(PostSeq(t)) == Values(t)
  {
    if t.Node? {
      PostSeqVisits(t.left);
      PostSeqVisits(t.right);
    }
  }

  /** Each traversal visits every node exactly once: it lists each value as many times as the
      tree holds it. The preorder starts at the root, the inorder reaches it right after the left
      subtree, the postorder ends with it. */
  lemma TraversalsVisitAll(t: Tree)
    ensures |PreSeq(t)| == |InSeq(t)| == |PostSeq(t)| == Size(t)
    ensures multiset(PreSeq(t)) == multiset(InSeq(t)) == multiset(PostSeq(t)) == Values(t)
    ensures t.Node? ==> PreSeq(t)[0] == InSeq(t)[Size(t.left)] == PostSeq(t)[Size(t) - 1] == t.value
  {
    PreSeqVisits(t);
    InSeqVisits(t);
    PostSeqVisits(t);
    if t.Node? {
      InSeqVisits(t.left);
    }
  }

  // ---------------------------------------------------------------------------------------------
  // `printTree`.

  /** The connector before a node's value: `├── ` for a left child (and the root, which the
      window renders as a left child), `└── ` for a right child. */
  function Branch(isLeft: bool): string
  {
    if isLeft then "\U{251C}\U{2500}\U{2500} " else "\U{2514}\U{2500}\U{2500} "
  }

  /** What a node adds to its children's prefix: `│   ` below a left child, four spaces below a
      right child. */
  function Pipe(isLeft: bool): string
  {
    if isLeft then "\U{2502}   " else "    "
  }

  function PrintTree(t: Tree, prefix: string, isLeft: bool): string
  {
    match t
    case Nil => ""
    case Node(v, l, r) =>
      prefix + Branch(isLeft) + v + "\n"
        + PrintTree(l, prefix + Pipe(isLeft), true)
        + PrintTree(r, prefix + Pipe(isLeft), false)
  }

  /** A rendered node: the sides by which its ancestors below the top were reached (`true` for a
      left child), the side by which it was, and its value. */
  datatype Entry = Entry(above: seq<bool>, isLeft: bool, value: string)

  /** The nodes of `t` in preorder, `t` itself reached by side `isLeft` below ancestors `above`. */
  function Entries(t: Tree, above: seq<bool>, isLeft: bool): (r: seq<Entry>)
    ensures |r| == Size(t)
    ensures t.Node? ==> r[0] == Entry(above, isLeft, t.value)
    ensures forall k :: 0 < k < |r| ==> |r[k].above| > |above| && r[k].above[..|above| + 1] == above + [isLeft]
  {
    match t
    case Nil => []
    case Node(v, l, r) => [Entry(above, isLeft, v)] + Entries(l, above + [isLeft], true) + Entries(r, above + [isLeft], false)
  }

  function EntryValues(es: seq<Entry>): (r: seq<string>)
    ensures |r| == |es| && forall k :: 0 <= k < |es| ==> r[k] == es[k].value
  {
    if es == [] then [] else [es[0].value] + EntryValues(es[1..])
  }

  /** The indentation that the sides leading to a node's parent give it. */
  function Indent(sides: seq<bool>): string
  {
    if sides == [] then "" else Indent(sides[..|sides| - 1]) + Pipe(sides[|sides| - 1])
  }

  /** One line of the rendering: the indentation for the node's ancestors, its connector, its
      value, a newline. */
  function Line(prefix: string, e: Entry): string
  {
    prefix + Indent(e.above) + Branch(e.isLeft) + e.value + "\n"
  }

  function Render(prefix: string, es: seq<Entry>): string
  {
    if es == [] then "" else Line(prefix, es[0]) + Render(prefix, es[1..])
  }

  lemma {:induction false} RenderAppend(prefix: string, a: seq<Entry>, b: seq<Entry>)
    ensures Render(prefix, a + b) == Render(prefix, a) + Render(prefix, b)
  {
    if a != [] {
      assert (a + b)[1..] == a[1..] + b;
      RenderAppend(prefix, a[1..], b);
    } else {
      assert a + b == b;
    }
  }

  lemma {:induction false} EntryValuesAppend(a: seq<Entry>, b: seq<Entry>)
    ensures EntryValues(a + b) == EntryValues(a) + EntryValues(b)
  {
    if a != [] {
      assert (a + b)[1..] == a[1..] + b;
      EntryValuesAppend(a[1..], b);
    } else {
      assert a + b == b;
    }
  }

  /** The rendering lists the nodes in preorder. */
  lemma {:induction false} EntriesPreOrder(t: Tree, above: seq<bool>, isLeft: bool)
    ensures EntryValues(Entries(t, above, isLeft)) == PreSeq(t)
  {
    if t.Node? {
      var below := above + [isLeft];
      EntriesPreOrder(t.left, below, true);
      EntriesPreOrder(t.right, below, false);
      var a, b, c := [Entry(above, isLeft, t.value)], Entries(t.left, below, true), Entries(t.right, below, false);
      EntryValuesAppend(a, b);
      EntryValuesAppend(a + b, c);
    }
  }

  /** `printTree` writes one line per node, in preorder: the caller's prefix, a `│   ` or four
      spaces for each ancestor below the top (by whether that ancestor is a left or a right
      child), the node's connector and its value. */
  lemma {:induction false} PrintTreeLines(t: Tree, prefix: string, above: seq<bool>, isLeft: bool)
    ensures PrintTree(t, prefix + Indent(above), isLeft) == Render(prefix, Entries(t, above, isLeft))
  {
    if t.Node? {
      var below := above + [isLeft];
      assert below[..|below| - 1] == above;
      assert prefix + Indent(below) == prefix + Indent(above) + Pipe(isLeft);
      PrintTreeLines(t.left, prefix, below, true);
      PrintTreeLines(t.right, prefix, below, false);
      var a, b, c := [Entry(above, isLeft, t.value)], Entries(t.left, below, true), Entries(t.right, below, false);
      RenderAppend(prefix, a, b);
      RenderAppend(prefix, a + b, c);
      assert Render(prefix, a) == Line(prefix, a[0]);
    }
  }

  /** The window's call `printTree(root, "", true)`: one line per node, in preorder, the root's
      line being `├── ` and its value and every other line indented below it. */
  lemma PrintRoot(t: Tree)
    ensures PrintTree(t, "", true) == Render("", Entries(t, [], true))
    ensures |Entries(t, [], true)| == Size(t) && EntryValues(Entries(t, [], true)) == PreSeq(t)
  {
    PrintTreeLines(t, "", [], true);
    EntriesPreOrder(t, [], true);
  }
}
