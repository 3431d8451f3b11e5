# Expression trees from infix expressions

A model of the core of an expression-tree generator: class `ExpressionTree` and its node type `ExpressionNode`, in `src/main/java/org/example/ExpressionTreeGUI.java`. The generator takes an infix arithmetic expression through four stages:

1. `infixToPostfix` converts it to space-separated postfix with the shunting-yard algorithm.
2. `constructTree` splits that postfix on spaces and builds a binary tree using a stack of nodes.
3. `preOrderTraversal`, `inOrderTraversal` and `postOrderTraversal` list the tree's values.
4. `printTree` draws the tree as indented lines.

The operators are `+ - * / ^ =`. Their precedences:
- `=` is 0;
- `+` and `-` are 1;
- `*` and `/` are 2;
- `^` is 3;
- everything else is −1, the opening parenthesis included.

The project has these modules:

- `Outcomes`: `Result<T>`, a value or `Failure`. Every place where the source throws, from an `EmptyStackException` on `pop`/`peek` or through an unmatched `)`, becomes a `Failure`.
- `Seqs`: reverse, filter and their lemmas. A stack is a `seq` with its top at the end.
- `Text`:
  - `Emit`, the tokens of a `StringBuilder` each followed by one space;
  - `Join`;
  - Java's `trim()` (`Trim`);
  - Java's `split(" ")` (`Split`), with the round trip `Split(Join(toks)) == toks` for a non-empty sequence of non-empty, space-free tokens.
- `Operators`: `isOperator`, `precedence` and the letter-or-digit test.
- `Conversion`: `infixToPostfix`.
  - It is specified as a left fold, `Steps`, of one-character `Step`s. The fold state is the tokens appended so far, the stack and the pending operand.
  - `InfixToPostfix` is the source's loop, with its inner pop loops as the methods `AppendUntilOpen` and `AppendWhileAtLeast` and its closing loop as `AppendRemaining`. It is proved to return `Postfix(expression)`.
- `PostfixLemmas`: what the conversion guarantees, stated against definitions over the input characters alone:
  - `OperandRuns`, the maximal runs of letters and digits;
  - `OperatorSymbols`;
  - `Depth`, opening minus closing parentheses;
  - `ClosesMatched`, no prefix closing more parentheses than it opened.

  It also holds precedence and associativity on general two-operator expressions.
- `Trees`:
  - the `Tree` datatype (`Nil` is Java's `null`);
  - the traversals, as strings and as visit sequences;
  - `printTree`, described line by line as `Render` of the preorder `Entries`.
- `Builder`: `constructTree`.
  - It is specified as a fold of `Push` over the tokens. `ConstructTree` is the source's loop, proved to return `Build(Split(postfix))`.
  - The pushes succeed exactly when the tokens `Fits` (`RunFits`); `constructTree` returns a tree exactly when they `Fits` and leave at least one node (`BuildFits`), since `peek` fails on an empty stack. The tree built from a single-node postfix has that postfix as its postorder. Building inverts the postorder traversal.
- `Pipeline`: `Generate`, the two stages chained as the window chains them (`infixToPostfix`, then `constructTree`).
- `Examples`: worked expressions through every stage. Each expression is a parameter fixed by a `requires`.

Two behaviours of the code worth knowing:
- Any character that is not a letter or digit ends the pending operand. A space is such a character, so `a b` gives the two operands `a b`, not `ab` (`Examples.Spaced`).
- Nodes left below the top of the builder's stack are not an error. `peek` returns the top node, so `a b` builds the single leaf `b`.

## Model

| member | source | states |
|---|---|---|
| Operators.KindsDisjoint | src/main/java/org/example/ExpressionTreeGUI.java:105-107 | no operator token is an operand token, and neither an operator nor an operand token is `(` |
| Operators.Precedence | src/main/java/org/example/ExpressionTreeGUI.java:182-197 | the precedence is between −1 and 3, and is non-negative exactly for the six operators |
| Operators.PrecedenceLevels | src/main/java/org/example/ExpressionTreeGUI.java:182-197 | `=` < `+` = `-` < `*` = `/` < `^`, and `(` ranks −1 |
| Conversion.PopWhileAtLeastPops | src/main/java/org/example/ExpressionTreeGUI.java:160-162 | an incoming operator pops exactly the top entries of precedence at least its own, top first; what is left plus the popped entries reversed is the old stack; the entry left on top ranks below the operator |
| Conversion.OperatorStopsAtOpen | src/main/java/org/example/ExpressionTreeGUI.java:160-162 | an operator's pops never reach a `(`, since `(` ranks below every operator |
| Conversion.PopUntilOpenPops | src/main/java/org/example/ExpressionTreeGUI.java:153-155 | `)` pops every entry above the topmost `(`, none of which is a `(`, and leaves that `(` on top, or an empty stack when there is none |
| Conversion.FailureSticks | src/main/java/org/example/ExpressionTreeGUI.java:156 | once a prefix of the input fails, the whole conversion fails |
| Conversion.AppendUntilOpen | src/main/java/org/example/ExpressionTreeGUI.java:153-155 | the loop appends each popped entry and a space, and leaves the stack as `PopUntilOpen` does |
| Conversion.AppendWhileAtLeast | src/main/java/org/example/ExpressionTreeGUI.java:160-162 | the loop appends each popped entry and a space, and leaves the stack as `PopWhileAtLeast` does |
| Conversion.AppendRemaining | src/main/java/org/example/ExpressionTreeGUI.java:174-176 | the loop appends every entry left on the stack, top first, each followed by a space |
| Conversion.InfixToPostfix | src/main/java/org/example/ExpressionTreeGUI.java:128-179 | the method returns `Postfix(expression)`: the fold of the scan steps, the last operand, the stack top first, trimmed; `Failure` exactly where a `)` finds no `(` |
| PostfixLemmas.StepsDepth | src/main/java/org/example/ExpressionTreeGUI.java:148-157 | the scan succeeds exactly when no prefix closes a parenthesis it never opened, and then the stack holds one `(` per parenthesis left open |
| PostfixLemmas.StepsShape | src/main/java/org/example/ExpressionTreeGUI.java:135-166 | every appended token is an operand or an operator; every stacked entry is an operator or `(`; the pending operand is letters and digits; between parentheses the stacked operators rise strictly in precedence |
| PostfixLemmas.StepsRuns | src/main/java/org/example/ExpressionTreeGUI.java:139-146 | the pending operand is the longest run of letters and digits ending the prefix, and the operands appended so far, with it, are the prefix's maximal runs |
| PostfixLemmas.StepsOperators | src/main/java/org/example/ExpressionTreeGUI.java:158-164 | the operators appended and those on the stack are, as a multiset, the operator symbols read so far |
| PostfixLemmas.PostfixFails | src/main/java/org/example/ExpressionTreeGUI.java:152-157 | the conversion fails if and only if some prefix of the expression has more `)` than `(` |
| PostfixLemmas.PostfixTokenKinds | src/main/java/org/example/ExpressionTreeGUI.java:144-175 | every postfix token is a non-empty run of letters and digits, an operator, or a left-over `(` |
| PostfixLemmas.PostfixOperands | src/main/java/org/example/ExpressionTreeGUI.java:139-171 | the operand tokens of the postfix are the maximal letter-and-digit runs of the input, in input order |
| PostfixLemmas.PostfixOperators | src/main/java/org/example/ExpressionTreeGUI.java:159-176 | the operator tokens of the postfix are, as a multiset, exactly the operator symbols of the input |
| PostfixLemmas.PostfixOpens | src/main/java/org/example/ExpressionTreeGUI.java:148-176 | the postfix holds one `(` token for each parenthesis the input leaves open |
| PostfixLemmas.PostfixIsJoin | src/main/java/org/example/ExpressionTreeGUI.java:144-178 | the postfix string is its tokens joined by single spaces, with no leading or trailing space |
| PostfixLemmas.PostfixSplits | src/main/java/org/example/ExpressionTreeGUI.java:112-178 | splitting the postfix on `" "` gives back exactly its tokens, or `[""]` when there are none |
| PostfixLemmas.TwoOperators | src/main/java/org/example/ExpressionTreeGUI.java:159-164 | for `x a y b z`: if `a` binds at least as tightly as `b` the tokens are `x y a z b` (equal precedence associates to the left), otherwise `x y z b a` |
| PostfixLemmas.ParenthesesFirst | src/main/java/org/example/ExpressionTreeGUI.java:148-164 | for `(x a y) b z` the tokens are `x y a z b`, whatever the two precedences |
| Text.TrimEmit | src/main/java/org/example/ExpressionTreeGUI.java:178 | trimming tokens that have no blank, each followed by a space, gives them joined by single spaces |
| Text.SplitJoin | src/main/java/org/example/ExpressionTreeGUI.java:112 | `split(" ")` of non-empty, space-free tokens joined by spaces gives back the tokens |
| Text.Fields | src/main/java/org/example/ExpressionTreeGUI.java:112 | the pieces between spaces are space-free, at least one, and joined by spaces give back the string |
| Builder.ConstructTree | src/main/java/org/example/ExpressionTreeGUI.java:110-125 | the method returns `Build(Split(postfix))`: the top of the stack after pushing every token, `Failure` on an operator with fewer than two nodes or on an empty stack |
| Builder.RunFits | src/main/java/org/example/ExpressionTreeGUI.java:114-123 | the pushes succeed exactly when every operator has at least two nodes built before it, and then the stack holds operands minus operators nodes |
| Builder.BuildFits | src/main/java/org/example/ExpressionTreeGUI.java:114-124 | a tree is returned exactly when every operator finds two nodes and at least one node is left |
| Builder.PushShape | src/main/java/org/example/ExpressionTreeGUI.java:115-122 | an operator takes the top node as its right child and the one below as its left child: the stacked trees' postorders, bottom to top, gain exactly that token |
| Builder.RunShape | src/main/java/org/example/ExpressionTreeGUI.java:114-123 | every stacked tree is well-formed, and their postorders, bottom to top, spell out the tokens read |
| Builder.BuildPostOrder | src/main/java/org/example/ExpressionTreeGUI.java:110-125 | tokens that reduce to a single node build a well-formed tree whose postorder is those tokens, each followed by a space |
| Builder.BuildPostSeq | src/main/java/org/example/ExpressionTreeGUI.java:110-125 | building from the postorder of any well-formed tree gives back that tree |
| Trees.PreOrderEmits | src/main/java/org/example/ExpressionTreeGUI.java:217-222 | `preOrderTraversal` lists root, left subtree, right subtree, each value followed by one space |
| Trees.InOrderEmits | src/main/java/org/example/ExpressionTreeGUI.java:225-230 | `inOrderTraversal` lists left subtree, root, right subtree, each value followed by one space |
| Trees.PostOrderEmits | src/main/java/org/example/ExpressionTreeGUI.java:233-238 | `postOrderTraversal` lists left subtree, right subtree, root, each value followed by one space |
| Trees.TraversalsVisitAll | src/main/java/org/example/ExpressionTreeGUI.java:217-238 | the three traversals visit every node exactly once, so they have the same length and the same multiset of values, and they place the root first, after the left subtree, and last |
| Trees.Entries | src/main/java/org/example/ExpressionTreeGUI.java:200-214 | one entry per node in the subtree; the first entry is the node itself, reached by its own side, and every later entry is a descendant, whose ancestor sides start with the node's |
| Trees.PrintTreeLines | src/main/java/org/example/ExpressionTreeGUI.java:200-214 | `printTree` writes one line per node, in preorder. Each line is the prefix, then `│   ` or four spaces for each ancestor's side, then `├── ` for a left child or `└── ` for a right one, then the value and a newline |
| Trees.PrintRoot | src/main/java/org/example/ExpressionTreeGUI.java:200-214 | `printTree(root, "", true)` has as many lines as the tree has nodes, and they list its values in preorder |
| Pipeline.GenerateTokens | src/main/java/org/example/ExpressionTreeGUI.java:110-179 | the pipeline fails exactly on unmatched `)`, or else builds from exactly the tokens the conversion emitted, `[""]` when there are none |
| Pipeline.GeneratePostOrder | src/main/java/org/example/ExpressionTreeGUI.java:110-179 | an expression whose postfix reduces to one node gives a well-formed tree whose postorder traversal is the postfix followed by one space |
| Pipeline.GenerateArity | src/main/java/org/example/ExpressionTreeGUI.java:114-124 | with at least one token, the tree exists exactly when every operator finds two operands and a node is left |
| Pipeline.GenerateEmpty | src/main/java/org/example/ExpressionTreeGUI.java:112-124 | an expression with no tokens gives a single leaf holding the empty string |
| Examples.TimesFirst | src/main/java/org/example/ExpressionTreeGUI.java:159-164 | `3+4*2` converts to `3 4 2 * +` and builds `+(3, *(4, 2))` |
| Examples.TimesFirstTraversals | src/main/java/org/example/ExpressionTreeGUI.java:217-238 | that tree's traversals are `+ 3 * 4 2 `, `3 + 4 * 2 ` and `3 4 2 * + ` |
| Examples.TimesFirstDrawing | src/main/java/org/example/ExpressionTreeGUI.java:200-214 | that tree is drawn as five lines, with the connectors and prefixes written out |
| Examples.PowerLeft | src/main/java/org/example/ExpressionTreeGUI.java:160 | `2^3^2` converts to `2 3 ^ 2 ^` and builds `^(^(2, 3), 2)`, so `^` associates to the left |
| Examples.Grouped | src/main/java/org/example/ExpressionTreeGUI.java:152-157 | `(1+2)*3` converts to `1 2 + 3 *` and builds `*(+(1, 2), 3)` |
| Examples.LongOperands | src/main/java/org/example/ExpressionTreeGUI.java:139-146 | `12+ab` converts to `12 ab +` and builds `+(12, ab)` |
| Examples.Spaced | src/main/java/org/example/ExpressionTreeGUI.java:141-146 | `a b` converts to `a b`, and the tree is the leaf `b` on top of the stack |
| Examples.MissingOperand | src/main/java/org/example/ExpressionTreeGUI.java:119-120 | `+3` converts to `3 +`, and building it fails |
| Examples.UnopenedClose | src/main/java/org/example/ExpressionTreeGUI.java:156 | `)` fails in the conversion, and so the whole pipeline fails |
| Examples.EmptyParentheses | src/main/java/org/example/ExpressionTreeGUI.java:112 | `()` converts to the empty string, which builds one leaf holding `""` |
| Examples.UnclosedOpen | src/main/java/org/example/ExpressionTreeGUI.java:174-176 | `(a` converts to `a (`, and the tree is the leaf `(` |

## Left out

- The Swing window is not modelled: `ExpressionTreeGUI`, its button listener and `main` (lines 20-99). That covers its check for an empty input (lines 63-66), its dialogs, and how it lays out the traversals in the result area. `Pipeline.Generate` chains the two stages as `actionPerformed` does (lines 71-73).
- Exceptions carry no type or message: every `pop` or `peek` on an empty stack is a `Failure`, as the window's catch-all handler treats it (lines 87-89).
- `Character.isDigit` and `Character.isLetter` are modelled on ASCII letters and digits only. Unicode letters and digits are left out because Dafny has no Unicode character classes.
- `String.split` is modelled only for the one pattern the source uses, a single space, with Java's rules for that pattern: no space gives the whole string and trailing empty strings are dropped. General regular expressions are left out.
- `String.trim` is modelled as stripping characters up to `' '` at both ends. `Text.Trim` states only that its result has no blank at either end. The exact result on tokens is stated by `Text.TrimEmit`.
- Nodes are values. `constructTree` links each `ExpressionNode` once and never changes it afterwards, and nothing else holds a reference to a node, so object identity and aliasing are left out.
- Whether the inorder traversal of an arithmetic expression evaluates to the same value as the input is not modelled. The source never evaluates an expression, and numbers are plain operand strings here.
