/** `ExpressionTree.constructTree`: builds a tree from the postfix string with a stack of nodes.
    The building is specified as a fold of `Push` over the tokens; the method `ConstructTree` is the
    source's loop, proved to compute that fold. */
module Builder {
  import opened Outcomes
  import opened Text
  import opened Operators
  import opened Trees

  /** One token: a non-operator becomes a leaf on top of the stack (top at the end); an operator
      takes the top node as its right child and the node below it as its left child, and fails when
      the stack holds fewer than two nodes. */
  function Push(stack: seq<Tree>, token: string): Result<seq<Tree>>
  {
    if !IsOperator(token) then Ok(stack + [Node(token, Nil, Nil)])
    else if |stack| < 2 then Failure
    else Ok(stack[..|stack| - 2] + [Node(token, stack[|stack| - 2], stack[|stack| - 1])])
  }

  /** The stack after pushing `tokens`, left to right, onto `stack`. */
  function Run(stack: seq<Tree>, tokens: seq<string>): Result<seq<Tree>>
  {
    if tokens == [] then Ok(stack)
    else
      match Run(stack, tokens[..|tokens| - 1])
      case Failure => Failure
      case Ok(s) => Push(s, tokens[|tokens| - 1])
  }

  /** The tree `constructTree` returns for `tokens`: the top of the stack, which `peek` finds
      missing when no token was pushed. Nodes left below the top are ignored. */
  function Build(tokens: seq<string>): Result<Tree>
  {
    match Run([], tokens)
    case Failure => Failure
    case Ok(s) => if s == [] then Failure else Ok(s[|s| - 1])
  }

  lemma {:induction false} RunSnoc(stack: seq<Tree>, tokens: seq<string>, t: string)
    ensures Run(stack, tokens + [t]) == match Run(stack, tokens) case Failure => Failure case Ok(s) => Push(s, t)
  {
    assert (tokens + [t])[..|tokens|] == tokens;
  }

  lemma {:induction false} FailureSticks(tokens: seq<string>, i: nat)
    requires i <= |tokens| && Run([], tokens[..i]) == Failure
    ensures Run([], tokens) == Failure
  {
    if i < |tokens| {
      var init := tokens[..|tokens| - 1];
      assert init[..i] == tokens[..i];
      FailureSticks(init, i);
    } else {
      assert tokens[..i] == tokens;
    }
  }

  /** The source's loop: `stack` is the `Stack<ExpressionNode>` with its top at the end. */
  method ConstructTree(postfix: string) returns (r: Result<Tree>)
    ensures r == Build(Split(postfix))
  {
    var tokens := Split(postfix);
    var stack: seq<Tree> := [];
    for i := 0 to |tokens|
      invariant Run([], tokens[..i]) == Ok(stack)
    {
      var token := tokens[i];
      assert tokens[..i + 1] == tokens[..i] + [token];
      RunSnoc([], tokens[..i], token);
      if !IsOperator(token) {
        stack := stack + [Node(token, Nil, Nil)];
      } else {
        if |stack| < 2 {
          FailureSticks(tokens, i + 1);
          return Failure;
        }
        ghost var before := stack;
        var right := stack[|stack| - 1];
        stack := stack[..|stack| - 1];
        var left := stack[|stack| - 1];
        stack := stack[..|stack| - 1];
        assert stack == before[..|before| - 2] && left == before[|before| - 2];
        stack := stack + [Node(token, left, right)];
      }
    }
    assert tokens[..|tokens|] == tokens;
    if stack == [] {
      return Failure;
    }
    r := Ok(stack[|stack| - 1]);
  }

  // ---------------------------------------------------------------------------------------------
  // When building succeeds.

  /** Operands pushed minus operators applied: the number of nodes building leaves. */
  function Net(tokens: seq<string>): int
  {
    if tokens == [] then 0
    else Net(tokens[..|tokens| - 1]) + (if IsOperator(tokens[|tokens| - 1]) then -1 else 1)
  }

  /** Every operator finds at least two nodes built before it. */
  predicate Fits(tokens: seq<string>)
  {
    tokens == [] ||
      var init := tokens[..|tokens| - 1];
      Fits(init) && (IsOperator(tokens[|tokens| - 1]) ==> Net(init) >= 2)
  }

  /** Building fails exactly when some operator has fewer than two operands before it; otherwise
      it leaves as many nodes as operands outnumber operators. */
  lemma {:induction false} RunFits(tokens: seq<string>)
    ensures Run([], tokens).Ok? <==> Fits(tokens)
    ensures Run([], tokens).Ok? ==> |Run([], tokens).value| == Net(tokens)
  {
    if tokens != [] {
      RunFits(tokens[..|tokens| - 1]);
    }
  }

  /** `constructTree` returns a tree exactly when every operator finds two nodes and at least one
      node is left. */
  lemma BuildFits(tokens: seq<string>)
    ensures Build(tokens).Ok? <==> Fits(tokens) && Net(tokens) > 0
  {
    RunFits(tokens);
  }

  /** The trees building makes: an operator node has two children that are such trees, any other
      node is a leaf. */
  predicate WellFormed(t: Tree)
  {
    match t
    case Nil => false
    case Node(v, l, r) => if IsOperator(v) then WellFormed(l) && WellFormed(r) else l == Nil && r == Nil
  }

  /** The postorder visits of the stacked trees, bottom first. */
  function Flatten(stack: seq<Tree>): seq<string>
  {
    if stack == [] then [] else Flatten(stack[..|stack| - 1]) + PostSeq(stack[|stack| - 1])
  }

  lemma FlattenCombine(pre: seq<Tree>, a: Tree, b: Tree, v: string)
    ensures Flatten(pre + [Node(v, a, b)]) == Flatten(pre + [a, b]) + [v]
  {
    var ab, pa, pn := pre + [a, b], pre + [a], pre + [Node(v, a, b)];
    assert ab[..|ab| - 1] == pa && ab[|ab| - 1] == b;
    assert pa[..|pa| - 1] == pre && pa[|pa| - 1] == a;
    assert pn[..|pn| - 1] == pre && pn[|pn| - 1] == Node(v, a, b);
    assert Flatten(ab) == Flatten(pre) + PostSeq(a) + PostSeq(b);
    assert Flatten(pn) == Flatten(pre) + (PostSeq(a) + PostSeq(b) + [v]);
  }

  lemma PushShape(stack: seq<Tree>, token: string)
    requires forall k :: 0 <= k < |stack| ==> WellFormed(stack[k])
    ensures Push(stack, token).Ok? ==> var s := Push(stack, token).value;
      && Flatten(s) == Flatten(stack) + [token]
      && forall k :: 0 <= k < |s| ==> WellFormed(s[k])
  {
    if !IsOperator(token) {
      var leaf := Node(token, Nil, Nil);
      assert (stack + [leaf])[..|stack|] == stack;
      assert PostSeq(leaf) == PostSeq(Nil) + PostSeq(Nil) + [token] == [token];
    } else if |stack| >= 2 {
      var pre := stack[..|stack| - 2];
      assert stack == pre + [stack[|stack| - 2], stack[|stack| - 1]];
      FlattenCombine(pre, stack[|stack| - 2], stack[|stack| - 1], token);
    }
  }

  /** Every stacked tree is well formed, and their postorder visits, bottom to top, spell out
      the tokens read so far. */
  lemma {:induction false} RunShape(tokens: seq<string>)
    ensures Run([], tokens).Ok? ==> var s := Run([], tokens).value;
      && Flatten(s) == tokens
      && forall k :: 0 <= k < |s| ==> WellFormed(s[k])
  {
    if tokens != [] {
      var init, t := tokens[..|tokens| - 1], tokens[|tokens| - 1];
      assert tokens == init + [t];
      RunShape(init);
      RunSnoc([], init, t);
      if Run([], init).Ok? {
        PushShape(Run([], init).value, t);
      }
    }
  }

  /** When the tokens reduce to a single node, its postorder is the tokens: `postOrderTraversal`
      writes them back, each followed by one space. */
  lemma BuildPostOrder(tokens: seq<string>)
    requires Fits(tokens) && Net(tokens) == 1
    ensures Build(tokens).Ok? && WellFormed(Build(tokens).value)
    ensures PostSeq(Build(tokens).value) == tokens
    ensures PostOrder(Build(tokens).value) == Emit(tokens)
  {
    RunFits(tokens);
    RunShape(tokens);
    var s := Run([], tokens).value;
    assert s == [] + [s[0]];
    PostOrderEmits(s[0]);
  }

  // ---------------------------------------------------------------------------------------------
  // Building inverts the postorder traversal.

  lemma {:induction false} RunAppend(stack: seq<Tree>, a: seq<string>, b: seq<string>)
    ensures Run(stack, a + b) == match Run(stack, a) case Failure => Failure case Ok(s) => Run(s, b)
  {
    if b == [] {
      assert a + b == a;
    } else {
      var init, t := b[..|b| - 1], b[|b| - 1];
      assert a + b == (a + init) + [t];
      assert b == init + [t];
      RunAppend(stack, a, init);
      RunSnoc(stack, a + init, t);
      if Run(stack, a).Ok? {
        RunSnoc(Run(stack, a).value, init, t);
      }
    }
  }

  /** Pushing the postorder of a well-formed tree adds exactly that tree on top of any stack. */
  lemma {:induction false} RunPostSeq(stack: seq<Tree>, t: Tree)
    requires WellFormed(t)
    ensures Run(stack, PostSeq(t)) == Ok(stack + [t])
    decreases t
  {
    var v := t.value;
    if !IsOperator(v) {
      assert PostSeq(t) == [] + [v];
      RunSnoc(stack, [], v);
    } else {
      var l, r := t.left, t.right;
      RunPostSeq(stack, l);
      RunPostSeq(stack + [l], r);
      RunAppend(stack, PostSeq(l), PostSeq(r));
      RunSnoc(stack, PostSeq(l) + PostSeq(r), v);
      assert stack + [l] + [r] == stack + [l, r];
      assert (stack + [l, r])[..|stack|] == stack;
    }
  }

  /** Building from the postorder of any tree it could have built gives that tree back. */
  lemma BuildPostSeq(t: Tree)
    requires WellFormed(t)
    ensures Build(PostSeq(t)) == Ok(t)
  {
    RunPostSeq([], t);
  }
}
