/**
 * Infix rendering of a tree (`ExpressionTree::ToString`): every operator
 * subexpression is parenthesised except, when the caller asks, the
 * outermost one.
 */
module Render {
  import opened Tokens
  import opened Decimal
  import opened Tree
  import opened Terms

  function ToString(t: Node, needOuterParen: bool): string
  {
    match t
    case Op(c, l, r) =>
      var inner := ToString(l, true) + [c] + ToString(r, true);
      if needOuterParen then "(" + inner + ")" else inner
    case _ => Data(t)
  }

  /** The term a well-formed tree's rendering writes: its leaves as atoms,
      its operator nodes as binary expressions. */
  function TreeTerm(t: Node): Term
  {
    match t
    case Num(s) => Atom(s)
    case Var(s) => Atom(s)
    case Op(c, l, r) => Bin(c, TreeTerm(l), TreeTerm(r))
  }

  /** A leaf renders as its payload; an operator node renders as its
      unparenthesised form wrapped in one pair of parentheses when asked. */
  lemma RenderShape(t: Node)
    ensures !t.Op? ==> ToString(t, true) == Data(t) && ToString(t, false) == Data(t)
    ensures t.Op? ==> ToString(t, true) == "(" + ToString(t, false) + ")"
  {
  }

  /** The fully parenthesised rendering writes the tree's term, which denotes
      the tree's value. */
  lemma {:induction false} RenderWritesTerm(t: Node, env: string -> int)
    requires WellFormed(t)
    ensures ValidTerm(TreeTerm(t))
    ensures ToString(t, true) == Show(TreeTerm(t))
    ensures TermEval(TreeTerm(t), env) == Eval(t, env)
  {
    match t
    case Num(s) =>
    case Var(s) =>
      VariableNotSigned(s);
    case Op(c, l, r) =>
      RenderWritesTerm(l, env);
      RenderWritesTerm(r, env);
      assert ToString(t, true) == "(" + ToString(l, true) + [c] + ToString(r, true) + ")";
  }

  lemma VariableNotSigned(s: string)
    requires IsVariable(s)
    ensures !IsSignedNumber(s)
  {
    assert IsAlpha(s[0]);
  }

  lemma TreeTermInjective(a: Node, b: Node)
    requires WellFormed(a) && WellFormed(b)
    requires TreeTerm(a) == TreeTerm(b)
    ensures a == b
  {
    match a
    case Num(_) =>
    case Var(_) =>
    case Op(c, l, r) =>
      TreeTermInjective(l, b.l);
      TreeTermInjective(r, b.r);
  }

  /** Rendering is unambiguous: different well-formed trees render
      differently, with or without the outer parentheses. */
  lemma RenderInjective(a: Node, b: Node, needOuterParen: bool)
    requires WellFormed(a) && WellFormed(b)
    requires ToString(a, needOuterParen) == ToString(b, needOuterParen)
    ensures a == b
  {
    var env := AllZero;
    RenderWritesTerm(a, env);
    RenderWritesTerm(b, env);
    if needOuterParen || (a.Op? && b.Op?) {
      RenderShape(a);
      RenderShape(b);
      ShowInjective(TreeTerm(a), TreeTerm(b));
    } else if !a.Op? && !b.Op? {
      ShowInjective(TreeTerm(a), TreeTerm(b));
    } else if a.Op? {
      OpNotLeaf(a, b);
    } else {
      OpNotLeaf(b, a);
    }
    TreeTermInjective(a, b);
  }

  /** An operator node's bare rendering is never a single leaf's text. */
  lemma OpNotLeaf(a: Node, b: Node)
    requires WellFormed(a) && WellFormed(b)
    requires a.Op? && !b.Op?
    ensures ToString(a, false) != ToString(b, false)
  {
    var env := AllZero;
    RenderWritesTerm(a.l, env);
    RenderWritesTerm(a.r, env);
    RenderWritesTerm(b, env);
    var rest := [a.op] + ToString(a.r, true);
    assert ToString(a, false) == Show(TreeTerm(a.l)) + rest;
    assert ToString(b, false) == Show(TreeTerm(b)) + [];
    if ToString(a, false) == ToString(b, false) {
      ShowUnique(TreeTerm(a.l), TreeTerm(b), rest, []);
      assert false;
    }
  }
}
