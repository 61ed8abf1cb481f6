/**
 * Bottom-up simplification of an expression tree
 * (`ExpressionTree::SimplifyTree`). Each call collapses an operator subtree
 * into one leaf: constants are folded, and when a variable is involved a
 * few text-keyed identities are applied and the rest is written out as
 * parenthesised text.
 */
module Simplifier {
  import opened Wrappers
  import opened Tokens
  import opened Decimal
  import opened Tree

  /** Whether the simplifier descends into a child: the child is not tagged
      as a number and its text is not a variable name. */
  predicate Descends(n: Node) {
    !n.Num? && !IsVariable(Data(n))
  }

  /** Trees the simplifier can walk without touching a missing child: the
      root is an operator node, and so is every child it descends into. */
  predicate Simplifiable(t: Node) {
    && t.Op?
    && (Descends(t.l) ==> Simplifiable(t.l))
    && (Descends(t.r) ==> Simplifiable(t.r))
  }

  /** The symbolic rules for operator `c`, keyed on the operands' texts. */
  function Rewrite(c: char, lv: string, rv: string): string
  {
    if c == '+' then
      if lv == "0" then rv
      else if rv == "0" then lv
      else "(" + lv + "+" + rv + ")"
    else if c == '*' then
      if lv == "0" || rv == "0" then "0"
      else if lv == "1" then rv
      else if rv == "1" then lv
      else "(" + lv + "*" + rv + ")"
    else if c == '-' then
      if lv == rv then "0"
      else if lv == "0" then "(-" + rv + ")"
      else if rv == "0" then lv
      else "(" + lv + "-" + rv + ")"
    else
      ""
  }

  /** One operator node over its (already simplified) children. Folding is
      chosen by the children's text, the symbolic rules by their tags; when
      neither applies (two number-tagged children, one of them holding a
      negative value) there is no defined result. */
  function Combine(c: char, l: Node, r: Node): (res: Option<Node>)
    ensures res.Some? ==> IsLeaf(res.value)
    ensures res.None? <==> !(IsNumber(Data(l)) && IsNumber(Data(r))) && !l.Var? && !r.Var?
    ensures res.Some? ==> (res.value.Num? <==> IsNumber(Data(l)) && IsNumber(Data(r)))
    ensures IsNumber(Data(l)) && IsNumber(Data(r)) ==>
              IsSignedNumber(res.value.s)
              && SignedValue(res.value.s) == Apply(c, Stoi(Data(l)), Stoi(Data(r)))
  {
    if IsNumber(Data(l)) && IsNumber(Data(r)) then
      var v := Apply(c, Stoi(Data(l)), Stoi(Data(r)));
      IntToStringValue(v);
      Some(Num(IntToString(v)))
    else if l.Var? || r.Var? then
      Some(Var(Rewrite(c, Data(l), Data(r))))
    else
      None
  }

  /** Simplify a tree into a single leaf, children first. A leaf root, or a
      leaf child the walk would descend into, has no children to read and so
      no defined result. */
  function Simplify(t: Node): (res: Option<Node>)
    ensures res.Some? ==> t.Op? && IsLeaf(res.value)
    decreases t, 0
  {
    if !t.Op? then None
    else
      var l :- Prepared(t.l);
      var r :- Prepared(t.r);
      Combine(t.op, l, r)
  }

  /** The child as the simplifier leaves it before combining: simplified
      when the walk descends into it, untouched otherwise. */
  function Prepared(n: Node): (res: Option<Node>)
    ensures Descends(n) && res.Some? ==> IsLeaf(res.value)
    ensures !Descends(n) ==> res == Some(n)
    decreases n, 1
  {
    if Descends(n) then Simplify(n) else Some(n)
  }

  /** The walk fails before combining anything on a tree it cannot walk. */
  lemma {:induction false} UnwalkableHasNoResult(t: Node)
    requires !Simplifiable(t)
    ensures Simplify(t) == None
  {
    if t.Op? {
      if Descends(t.l) && !Simplifiable(t.l) {
        UnwalkableHasNoResult(t.l);
      } else {
        UnwalkableHasNoResult(t.r);
      }
    }
  }

  /** In a parsed tree the simplifier descends exactly into operator nodes. */
  lemma DescendsIffOperator(n: Node)
    requires WellFormed(n)
    ensures Descends(n) <==> n.Op?
  {
    if n.Op? {
      assert !IsAlpha(n.op);
    }
  }

  /** Every operator-rooted parsed tree can be simplified. */
  lemma {:induction false} WellFormedSimplifiable(t: Node)
    requires WellFormed(t) && t.Op?
    ensures Simplifiable(t)
  {
    DescendsIffOperator(t.l);
    DescendsIffOperator(t.r);
    if t.l.Op? {
      WellFormedSimplifiable(t.l);
    }
    if t.r.Op? {
      WellFormedSimplifiable(t.r);
    }
  }

  /** An operator node where the combining step has no result: both
      children, once prepared, are number-tagged and one of them holds
      text that is not a digit run (a negative value). */
  predicate StuckAt(t: Node)
    requires t.Op?
  {
    var pl, pr := Prepared(t.l), Prepared(t.r);
    && pl.Some? && pr.Some?
    && pl.value.Num? && pr.value.Num?
    && !(IsNumber(pl.value.s) && IsNumber(pr.value.s))
  }

  /** Some operator node of `t` is stuck. */
  predicate HasStuckNode(t: Node) {
    t.Op? && (StuckAt(t) || HasStuckNode(t.l) || HasStuckNode(t.r))
  }

  /** A parsed tree has no defined simplification exactly when some operator
      node in it meets two number-tagged children, one of them negative. */
  lemma {:induction false} UndefinedIffStuck(t: Node)
    requires WellFormed(t) && t.Op?
    ensures Simplify(t).None? <==> HasStuckNode(t)
  {
    DescendsIffOperator(t.l);
    DescendsIffOperator(t.r);
    if t.l.Op? {
      UndefinedIffStuck(t.l);
    }
    if t.r.Op? {
      UndefinedIffStuck(t.r);
    }
  }

  /** No `-` operator anywhere in the tree. */
  predicate NoSubtraction(t: Node) {
    match t
    case Op(c, l, r) => c != '-' && NoSubtraction(l) && NoSubtraction(r)
    case _ => true
  }

  /** Without subtraction every value the simplifier folds is a natural
      number, so a parsed operator tree always simplifies, and a number
      result is a digit run. */
  lemma {:induction false} SubtractionFreeDefined(t: Node)
    requires WellFormed(t) && t.Op? && NoSubtraction(t)
    ensures Simplify(t).Some?
    ensures Simplify(t).value.Num? ==> IsNumber(Simplify(t).value.s)
    decreases t, 0
  {
    PreparedDigits(t.l);
    PreparedDigits(t.r);
    var L, R := Prepared(t.l).value, Prepared(t.r).value;
    assert Simplify(t) == Combine(t.op, L, R);
    if IsNumber(Data(L)) && IsNumber(Data(R)) {
      FoldWithoutSubtraction(t.op, L, R);
    }
  }

  /** Adding or multiplying two digit runs folds to a digit run. */
  lemma FoldWithoutSubtraction(c: char, L: Node, R: Node)
    requires c == '+' || c == '*'
    requires IsNumber(Data(L)) && IsNumber(Data(R))
    ensures Combine(c, L, R).value.Num? && IsNumber(Combine(c, L, R).value.s)
  {
    var a, b := Stoi(Data(L)), Stoi(Data(R));
    assert Apply(c, a, b) >= 0 by {
      if c == '*' {
        assert a * b >= 0;
      }
    }
  }

  /** A child of a subtraction-free parsed tree prepares to a leaf, and a
      number leaf among them holds a digit run. */
  lemma {:induction false} PreparedDigits(n: Node)
    requires WellFormed(n) && NoSubtraction(n)
    ensures Prepared(n).Some? && IsLeaf(Prepared(n).value)
    ensures Prepared(n).value.Num? ==> IsNumber(Prepared(n).value.s)
    decreases n, 1
  {
    DescendsIffOperator(n);
    if n.Op? {
      SubtractionFreeDefined(n);
    }
  }

  /** Trees of number leaves only. */
  predicate Numeric(t: Node) {
    match t
    case Num(s) => IsNumber(s)
    case Var(_) => false
    case Op(c, l, r) => IsOperatorChar(c) && Numeric(l) && Numeric(r)
  }

  /** The value of a tree of number leaves. */
  function Value(t: Node): int
    requires Numeric(t)
  {
    match t
    case Num(s) => Stoi(s)
    case Op(c, l, r) => Apply(c, Value(l), Value(r))
  }

  /** Every operator subtree below the root has a value of at least zero, so
      its folded text is again a digit run. */
  predicate NoNegativeOperand(t: Node)
    requires Numeric(t)
  {
    match t
    case Num(_) => true
    case Op(_, l, r) =>
      && (l.Op? ==> Value(l) >= 0 && NoNegativeOperand(l))
      && (r.Op? ==> Value(r) >= 0 && NoNegativeOperand(r))
  }

  lemma {:induction false} NumericWellFormed(t: Node)
    requires Numeric(t)
    ensures WellFormed(t)
  {
    if t.Op? {
      NumericWellFormed(t.l);
      NumericWellFormed(t.r);
    }
  }

  /** A tree of numbers has one meaning: its value is what `Eval` gives it
      under any assignment of the (absent) variables. */
  lemma {:induction false} ValueIsEval(t: Node, env: string -> int)
    requires Numeric(t)
    ensures WellFormed(t) && Value(t) == Eval(t, env)
  {
    NumericWellFormed(t);
    if t.Op? {
      ValueIsEval(t.l, env);
      ValueIsEval(t.r, env);
    }
  }

  /** Constant folding: a tree of numbers simplifies to the text of its value,
      unless some operator subtree below the root has a negative value; then
      there is no defined result. */
  lemma {:induction false} ConstantFolding(t: Node)
    requires Numeric(t) && t.Op?
    ensures Simplify(t).Some? <==> NoNegativeOperand(t)
    ensures Simplify(t).Some? ==> Simplify(t).value == Num(IntToString(Value(t)))
    decreases t, 0
  {
    var c, l, r := t.op, t.l, t.r;
    FoldedChild(l);
    FoldedChild(r);
    var pl, pr := Prepared(l), Prepared(r);
    assert Simplify(t) == if pl.Some? && pr.Some? then Combine(c, pl.value, pr.value) else None;
    if pl.Some? && pr.Some? {
      var L, R := pl.value, pr.value;
      assert IsNumber(L.s) <==> (l.Op? ==> Value(l) >= 0);
      assert IsNumber(R.s) <==> (r.Op? ==> Value(r) >= 0);
      if IsNumber(L.s) && IsNumber(R.s) {
        assert Stoi(L.s) == Value(l);
        assert Stoi(R.s) == Value(r);
        assert Combine(c, L, R) == Some(Num(IntToString(Value(t))));
      } else {
        assert Combine(c, L, R) == None;
      }
    }
  }

  /** What the simplifier leaves of a numeric child before combining: a
      number leaf holding the child's value, which is a digit run exactly
      when that value is not negative. */
  lemma {:induction false} FoldedChild(n: Node)
    requires Numeric(n)
    ensures Prepared(n).Some? <==> (n.Op? ==> NoNegativeOperand(n))
    ensures Prepared(n).Some? ==>
              && Prepared(n).value.Num?
              && IsSignedNumber(Prepared(n).value.s)
              && SignedValue(Prepared(n).value.s) == Value(n)
              && (IsNumber(Prepared(n).value.s) <==> Value(n) >= 0)
    decreases n, 1
  {
    NumericWellFormed(n);
    DescendsIffOperator(n);
    if n.Op? {
      ConstantFolding(n);
      if Simplify(n).Some? {
        IntToStringValue(Value(n));
      }
    }
  }
}
