# Expression simplifier — a Dafny model

This project models the core of a small C++ expression simplifier
(`ExpressionTree.cpp`). That core reads an arithmetic expression in postfix
(reverse Polish) notation over integer constants and variable names, and
builds a binary expression tree with an explicit stack. It simplifies the tree
bottom-up into a single leaf, folding constants and applying a few algebraic
identities keyed on operand text. It can also render a tree as infix text.

Modules, leaves first:

- `Wrappers` (`wrappers.dfy`): `Option` and `Result`.
- `Tokens` (`tokens.dfy`): the ASCII character classes and the token classifiers
  `IsNumber`, `IsVariable`, `IsOperator`.
- `Lexer` (`lexer.dfy`): `Tokenize`, the whitespace splitting done by the
  `ss >> token` loop.
- `Decimal` (`decimal.dfy`): `stoi` on digit runs and `to_string` of an int.
- `Tree` (`tree.dfy`): the `Node` datatype (`Num`, `Var`, `Op`), the payload
  text `Data`, the shape the parser produces (`WellFormed`), the postfix form,
  and the value of a tree under an assignment of integers to variables.
- `Builder` (`builder.dfy`): `BuildExpressionTree` as a fold of `Step` over the
  tokens, with a `seq<Node>` as the stack and a `Result` carrying one of three
  failure kinds.
- `Terms` (`terms.dfy`): a term reading of the text the simplifier and the
  renderer write (atoms, `(-e)`, `(e op e)`). It proves that such text has
  exactly one reading.
- `Render` (`render.dfy`): `ToString`.
- `Simplifier` (`simplifier.dfy`): `Simplify`, with `Combine` for one node.
- `Soundness` (`soundness.dfy`): every result of the simplifier denotes the
  value of the tree it came from, for every assignment of the variables.
- `Scenarios` (`scenarios.dfy`): concrete cases proved as lemmas (`5 2 3 * +` builds to
  `5+(2*3)` and folds to `11`), and the identity rules on arbitrary names.

Behaviour the model reproduces on purpose:

- Folding is chosen by the children's TEXT, and the symbolic rules by their
  TAG. A variable-tagged `"0"` produced by `x x -` is folded numerically with
  a number.
- `Simplify` returns `None` where the C++ has no defined outcome. That covers
  a leaf root, and a leaf child that is not number-tagged and whose text is
  not a variable name (a tree the parser cannot build), because the code
  then reads children that do not exist. It also covers two
  number-tagged children where one holds a negative value such as `"-1"`:
  neither branch fires and an uninitialised pointer is returned. So
  `1 2 - 3 +` has no defined simplification, while `1 2 - x +` gives
  `(-1+x)`. A `None` from a child is passed upward.
- The source's `BuildExpressionTree` returns only `true`/`false`. The model
  names its three failure exits `InsufficientOperands`, `InvalidToken` and
  `MalformedExpression`.
- `TreeNode::IsNumber()`, used to decide whether to descend into a child, is
  declared in `ExpressionTree.h`, which is not part of this model. It is taken
  to test the number tag.

## Model

| member | source | states |
|---|---|---|
| `Tokens.DigitsFrom` | ExpressionTree.cpp:262-266 | the digit scan from index `i` succeeds iff every character from `i` on is an ASCII digit |
| `Tokens.AlnumsFrom` | ExpressionTree.cpp:279-283 | the alphanumeric scan from index `i` succeeds iff every character from `i` on is a letter or digit |
| `Tokens.IsNumber` | ExpressionTree.cpp:258-268 | a token is a number iff it is non-empty and all its characters are ASCII digits |
| `Tokens.IsVariable` | ExpressionTree.cpp:275-285 | a token is a variable iff it is non-empty, starts with a letter, and all its characters are letters or digits |
| `Tokens.IsOperator` | ExpressionTree.cpp:292-294 | a token is an operator iff it is exactly `+`, `-` or `*` |
| `Tokens.ClassesDisjoint` | ExpressionTree.cpp:258-294 | no token is in two of the three classes |
| `Lexer.WordLength` | ExpressionTree.cpp:58 | extraction takes the longest run of non-whitespace characters: it ends at whitespace or at the end of the input |
| `Lexer.Tokenize` | ExpressionTree.cpp:52-58 | every extracted token is non-empty and contains no whitespace |
| `Lexer.TokenizeUnwords` | ExpressionTree.cpp:52-58 | tokens joined by single spaces are extracted back exactly, in order |
| `Lexer.TokenizeKeepsVisible` | ExpressionTree.cpp:52-58 | extraction loses exactly the whitespace: the tokens glued together are the input's non-whitespace characters |
| `Lexer.TokenizeWord` | ExpressionTree.cpp:52-58 | a non-empty run without whitespace is extracted as exactly one token |
| `Lexer.TokenizeSplitsAtSpace` | ExpressionTree.cpp:52-58 | a whitespace character separates tokens: the tokens of `a + [c] + b` are those of `a` followed by those of `b`, so no token spans whitespace and nothing else splits a word |
| `Lexer.BlankHasNoTokens` | ExpressionTree.cpp:52-58 | empty or whitespace-only input yields no tokens |
| `Decimal.NatToString` | ExpressionTree.cpp:149 | `to_string` of a non-negative value is a digit run with no leading zero |
| `Decimal.Stoi` | ExpressionTree.cpp:132-133 | `stoi` of a digit run; `Decimal.StoiNatToString` and `Decimal.NatToStringStoi` state that it inverts `to_string` on canonical digit runs |
| `Decimal.IntToString` | ExpressionTree.cpp:149 | `to_string` of a negative value is a minus sign before a digit run, so it is not a number token |
| `Decimal.StoiNatToString` | ExpressionTree.cpp:132-133 | `stoi` of the text `to_string` writes gives the value back |
| `Decimal.NatToStringStoi` | ExpressionTree.cpp:132-133 | writing the value of a digit run with no leading zero gives the same text back |
| `Decimal.IntToStringValue` | ExpressionTree.cpp:149 | the signed text of any int, negative or not, reads back as that int |
| `Tree.PostfixTokensValid` | ExpressionTree.cpp:60-90 | every token of a parsed tree's postfix form is a number, variable or operator |
| `Tree.Apply` | ExpressionTree.cpp:134-147 | the value of `leftVal op rightVal`, and 0 for a character that is none of `+`, `*`, `-`; `Soundness.FoldSound` states that folded text denotes it |
| `Builder.Step` | ExpressionTree.cpp:60-90 | a number or variable token pushes a leaf of that kind. An operator with two stacked items pops the top as the right child and the item below as the left child, then pushes the operator node. An operator with fewer than two items fails with `InsufficientOperands`. Any other token fails with `InvalidToken` |
| `Builder.Run` | ExpressionTree.cpp:58-100 | a successful run yields a well-formed tree. `InvalidToken` implies some token is invalid. `InsufficientOperands` implies some token is an operator. `MalformedExpression` implies every token was valid |
| `Builder.Build` | ExpressionTree.cpp:56-99 | building from an empty stack gives only well-formed trees; `Builder.BuildCharacterization` states it succeeds with `t` exactly when the tokens are `t`'s postfix form |
| `Builder.BuildExpressionTree` | ExpressionTree.cpp:51-100 | parsing postfix text gives only well-formed trees; `Builder.BuildExpressionTreeRoundTrip` states that any well-formed tree's space-separated postfix text parses back to it |
| `Builder.RunPostfix` | ExpressionTree.cpp:58-91 | reading a well-formed tree's postfix tokens pushes exactly that tree onto any stack |
| `Builder.BuildPostfix` | ExpressionTree.cpp:51-100 | a well-formed tree's postfix form builds that tree |
| `Builder.FlatStep` | ExpressionTree.cpp:60-84 | each successful step appends its token to the postfix spelling of the stack |
| `Builder.RunBuildsPostfix` | ExpressionTree.cpp:58-100 | whatever a run builds, the stacked trees' postfix forms followed by the remaining tokens spell that tree's postfix form |
| `Builder.BuildCharacterization` | ExpressionTree.cpp:51-100 | building succeeds with tree `t` iff `t` is well-formed and the tokens are exactly `t`'s postfix form |
| `Builder.BuildRejectsInvalidToken` | ExpressionTree.cpp:85-90 | any token that is not a number, variable or operator makes building fail |
| `Builder.LeftoverOperandsFail` | ExpressionTree.cpp:93-97 | zero or several operands with no operator, such as `3 4`, fail with `MalformedExpression` |
| `Builder.LeadingOperatorFails` | ExpressionTree.cpp:70-77 | an operator as the first token fails with `InsufficientOperands` |
| `Builder.BlankInputFails` | ExpressionTree.cpp:93-97 | empty or whitespace-only text fails with `MalformedExpression` |
| `Builder.BuildExpressionTreeRoundTrip` | ExpressionTree.cpp:51-100 | any well-formed tree, written as space-separated postfix text, parses back to itself |
| `Render.ToString` | ExpressionTree.cpp:234-251 | infix rendering; `Render.RenderShape`, `Render.RenderWritesTerm` and `Render.RenderInjective` state its shape, its reading as a term of the same value, and that it tells trees apart |
| `Render.RenderShape` | ExpressionTree.cpp:234-251 | a leaf renders as its payload either way. An operator node rendered with the flag is its rendering without the flag, wrapped in one pair of parentheses |
| `Render.RenderWritesTerm` | ExpressionTree.cpp:234-251 | the parenthesised rendering of a parsed tree is the text of a binary term whose value is the tree's value |
| `Render.RenderInjective` | ExpressionTree.cpp:234-251 | two parsed trees that render to the same text, with or without outer parentheses, are the same tree |
| `Render.OpNotLeaf` | ExpressionTree.cpp:237-249 | an operator node's rendering without outer parentheses never equals a leaf's text |
| `Terms.ShowInjective` | ExpressionTree.cpp:194-197 | different terms are written differently, so the textual equality test of the `-` rule compares expressions |
| `Simplifier.Descends` | ExpressionTree.cpp:121-128 | the test for descending into a child; `Simplifier.DescendsIffOperator` states it holds exactly for the operator children of parsed trees |
| `Simplifier.Rewrite` | ExpressionTree.cpp:151-212 | the symbolic rules for `+`, `*` and `-`; `Soundness.PlusRuleSound`, `Soundness.TimesRuleSound` and `Soundness.MinusRuleSound` state that each rule's text denotes the operation on its operands |
| `Simplifier.Combine` | ExpressionTree.cpp:130-214 | the result is a leaf. It is number-tagged iff both children's texts are digit runs, and then it holds the signed text of `left op right`. There is no result iff neither text pair is numeric nor any child is variable-tagged |
| `Simplifier.Simplify` | ExpressionTree.cpp:118-128 | a defined result exists only for an operator root, and it is always a single leaf; `Simplifier.UndefinedIffStuck` and `Simplifier.SubtractionFreeDefined` state when a parsed tree has one |
| `Simplifier.Prepared` | ExpressionTree.cpp:121-128 | a child the walk descends into comes back, when defined, as a single leaf; a child it does not descend into is passed on as it is |
| `Simplifier.UndefinedIffStuck` | ExpressionTree.cpp:121-214 | a parsed operator tree has no defined simplification iff some operator node in it meets two number-tagged children, one of which holds text that is not a digit run |
| `Simplifier.SubtractionFreeDefined` | ExpressionTree.cpp:121-214 | a parsed operator tree without `-` always has a defined simplification, and a number-tagged result holds a digit run |
| `Simplifier.FoldWithoutSubtraction` | ExpressionTree.cpp:130-149 | adding or multiplying two digit runs folds to a number leaf holding a digit run |
| `Simplifier.UnwalkableHasNoResult` | ExpressionTree.cpp:121-127 | a tree where the walk would descend into a leaf has no defined result |
| `Simplifier.DescendsIffOperator` | ExpressionTree.cpp:121-127 | in a parsed tree the simplifier descends exactly into operator children |
| `Simplifier.WellFormedSimplifiable` | ExpressionTree.cpp:118-128 | every operator-rooted parsed tree can be walked without reading a missing child |
| `Simplifier.ConstantFolding` | ExpressionTree.cpp:130-149 | a tree of number leaves has a defined simplification iff no operator subtree below the root has a negative value. That simplification is a number leaf holding `to_string` of the tree's arithmetic value |
| `Simplifier.ValueIsEval` | ExpressionTree.cpp:130-149 | the arithmetic value `ConstantFolding` speaks of is the tree's `Eval` value under every assignment, so a tree has one meaning |
| `Simplifier.FoldedChild` | ExpressionTree.cpp:121-149 | a numeric child reaches the combining step as a number leaf holding its value, whose text is a digit run iff the value is not negative |
| `Soundness.PlusRuleSound` | ExpressionTree.cpp:158-172 | the `+` rules (drop a `0` operand, else `(l+r)`) write text denoting left plus right |
| `Soundness.TimesRuleSound` | ExpressionTree.cpp:173-191 | the `*` rules (a `0` operand gives `0`, drop a `1` operand, else `(l*r)`) write text denoting left times right |
| `Soundness.MinusRuleSound` | ExpressionTree.cpp:192-210 | the `-` rules (equal texts give `0`, left `0` gives `(-r)`, drop a right `0`, else `(l-r)`) write text denoting left minus right |
| `Soundness.FoldSound` | ExpressionTree.cpp:130-149 | folding two digit runs writes text denoting the operation on their values |
| `Soundness.CombineSound` | ExpressionTree.cpp:130-214 | if the children's texts denote the subtrees' values, the combined leaf denotes the operator node's value |
| `Soundness.SimplifySound` | ExpressionTree.cpp:118-214 | where a parsed tree has a defined simplification, the leaf's text denotes the tree's value under every assignment of the variables |
| `Soundness.RenderDenotes` | ExpressionTree.cpp:234-251 | the parenthesised rendering of a parsed tree denotes its value under every assignment |
| `Scenarios.BuildOutcomes` | ExpressionTree.cpp:70-100 | `3 4 +` builds. `3 +` fails with too few operands, `3 4 ?` with an invalid token, and `3 4` and the empty input with a malformed stack |
| `Scenarios.AddOfProductBuilds` | ExpressionTree.cpp:79-83 | in `5 2 3 * +` the product is the right operand of the sum |
| `Scenarios.AddOfProductFromText` | ExpressionTree.cpp:51-100 | the text `5 2 3 * +` builds that tree |
| `Scenarios.AddOfProductRenders` | ExpressionTree.cpp:234-251 | that tree renders as `5+(2*3)`, or `(5+(2*3))` with outer parentheses |
| `Scenarios.AddOfProductFolds` | ExpressionTree.cpp:130-149 | that tree simplifies to the number leaf `11` |
| `Scenarios.SubtractionOrder` | ExpressionTree.cpp:79-83 | in `7 x -` the first token is the left operand, and the result is `(7-x)` |
| `Scenarios.IdentityRules` | ExpressionTree.cpp:151-212 | for variables `x` and `y`: `x+0` and `0+x` give `x`, `0*x` gives `0`, `x*1` and `1*x` give `x`, `x*0` gives `0`, `x*y` gives `(x*y)`, `x-x` gives `0`, `0-x` gives `(-x)`, `x-0` gives `x`, `x-y` gives `(x-y)`, and `x+y` gives `(x+y)`, all variable-tagged |
| `Scenarios.FoldingReadsText` | ExpressionTree.cpp:130 | the variable-tagged `0` from `x x -`, added to `3`, is folded to the number leaf `3` |
| `Scenarios.VariablePlusFoldedSum` | ExpressionTree.cpp:121-172 | in `x 1 2 + +` the right operand folds to `3`, and the root gives the variable-tagged `(x+3)` |
| `Scenarios.NegativeIntermediate` | ExpressionTree.cpp:130-214 | `1 2 -` folds to `-1`. Adding `3` to it has no defined result. Adding `x` gives `(-1+x)` |
| `Scenarios.LeafRoot` | ExpressionTree.cpp:121 | a leaf root has no defined simplification |

## Left out

- Console output (`cout << "Error"`) is I/O only.
- Memory ownership is not modelled. This covers `delete`, the destructor, and the draining of the stack on error paths, which frees no nodes. It also covers the overwriting of an earlier root. A functional model has no heap.
- `Stack.h` and the `TreeNode` class of `ExpressionTree.h` are not part of this model. A Dafny sequence plays the stack, and the `Node` datatype plays `TreeNode`.
- `IsSameTree` always returns `false`, so it has nothing to verify. Structural equality of `Node` values is Dafny's built-in `==`.
- The doc comment of `SimplifyTree` promises rewriting `exp*number` to `number*exp` and merging `(c1*exp)±(c2*exp)`. The code implements neither, so the model has neither.
- The caller of `SimplifyTree` is not in ExpressionTree.cpp, so how it treats a one-leaf tree is unknown; `Simplify` itself has no defined result for a leaf root.
- Simplifier.Simplify: only the returned leaf is modelled. The C++ also replaces the argument's children with their simplified leaves (`SetLeft` and `SetRight`), so the caller's tree changes in place; the model leaves `t` as it was.
- Simplifier.Combine: integers are mathematical, so 32-bit `int` overflow and the `out_of_range` exception of `stoi` on very long digit runs are not modelled.
- Simplifier.ConstantFolding: states the arithmetic value with mathematical integers, so it does not cover 32-bit wrap-around.
- Character classes are ASCII in the "C" locale. Other locales' `isalpha`, `isalnum`, `isdigit` and `isspace` are not modelled.
