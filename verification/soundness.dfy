/**
 * The simplifier never changes what an expression means: the text of the
 * leaf it produces reads (uniquely) as a term whose value, under every
 * assignment of integers to variables, is the value of the original tree.
 * The renderer's fully parenthesised text means the same.
 */
module Soundness {
  import opened Wrappers
  import opened Tokens
  import opened Decimal
  import opened Tree
  import opened Terms
  import opened Render
  import opened Simplifier

  /** `text` reads as a term denoting the value of `t` under every assignment. */
  ghost predicate Denotes(text: string, t: Node)
    requires WellFormed(t)
  {
    exists term :: ValidTerm(term) && Show(term) == text
                   && forall env :: TermEval(term, env) == Eval(t, env)
  }

  /** A term written as a digit run has that run's value. */
  lemma NumberTermValue(term: Term, env: string -> int)
    requires ValidTerm(term) && IsNumber(Show(term))
    ensures term == Atom(Show(term))
    ensures TermEval(term, env) == Stoi(Show(term))
  {
    ShowStart(term);
  }

  lemma SignedAtom(v: int)
    ensures ValidAtom(IntToString(v))
    ensures forall env :: TermEval(Atom(IntToString(v)), env) == v
  {
    IntToStringValue(v);
    var s := IntToString(v);
    if v < 0 {
      assert forall k :: 1 <= k < |s| ==> s[k] == s[1..][k - 1];
    }
  }

  lemma ZeroAtom()
    ensures ValidAtom("0")
    ensures forall env :: TermEval(Atom("0"), env) == 0
  {
    SignedAtom(0);
    assert IntToString(0) == "0";
  }

  lemma ZeroTerm(a: Term)
    requires ValidTerm(a) && Show(a) == "0"
    ensures forall env :: TermEval(a, env) == 0
  {
    forall env ensures TermEval(a, env) == 0 {
      NumberTermValue(a, env);
    }
  }

  lemma OneTerm(a: Term)
    requires ValidTerm(a) && Show(a) == "1"
    ensures forall env :: TermEval(a, env) == 1
  {
    forall env ensures TermEval(a, env) == 1 {
      NumberTermValue(a, env);
    }
  }

  /** The `+` rules (a `0` operand is dropped) write a term for `a + b`. */
  lemma PlusRuleSound(a: Term, b: Term) returns (term: Term)
    requires ValidTerm(a) && ValidTerm(b)
    ensures ValidTerm(term) && Show(term) == Rewrite('+', Show(a), Show(b))
    ensures forall env :: TermEval(term, env) == TermEval(a, env) + TermEval(b, env)
  {
    var lv, rv := Show(a), Show(b);
    if lv == "0" {
      ZeroTerm(a);
      term := b;
    } else if rv == "0" {
      ZeroTerm(b);
      term := a;
    } else {
      term := Bin('+', a, b);
    }
  }

  /** The `*` rules (a `0` operand gives `0`, otherwise a `1` operand is
      dropped) write a term for `a * b`. */
  lemma TimesRuleSound(a: Term, b: Term) returns (term: Term)
    requires ValidTerm(a) && ValidTerm(b)
    ensures ValidTerm(term) && Show(term) == Rewrite('*', Show(a), Show(b))
    ensures forall env :: TermEval(term, env) == TermEval(a, env) * TermEval(b, env)
  {
    var lv, rv := Show(a), Show(b);
    if lv == "0" || rv == "0" {
      term := TimesZero(a, b);
    } else if lv == "1" {
      OneTerm(a);
      term := b;
    } else if rv == "1" {
      OneTerm(b);
      term := a;
    } else {
      term := Bin('*', a, b);
    }
  }

  lemma TimesZero(a: Term, b: Term) returns (term: Term)
    requires ValidTerm(a) && ValidTerm(b) && (Show(a) == "0" || Show(b) == "0")
    ensures ValidTerm(term) && Show(term) == "0"
    ensures forall env :: TermEval(term, env) == TermEval(a, env) * TermEval(b, env)
  {
    if Show(a) == "0" {
      ZeroTerm(a);
    } else {
      ZeroTerm(b);
    }
    ZeroAtom();
    term := Atom("0");
  }

  /** The `-` rules (equal texts give `0`, a left `0` negates, a right `0` is
      dropped) write a term for `a - b`. Equal texts are equal terms, because
      text reads uniquely. */
  lemma MinusRuleSound(a: Term, b: Term) returns (term: Term)
    requires ValidTerm(a) && ValidTerm(b)
    ensures ValidTerm(term) && Show(term) == Rewrite('-', Show(a), Show(b))
    ensures forall env :: TermEval(term, env) == TermEval(a, env) - TermEval(b, env)
  {
    var lv, rv := Show(a), Show(b);
    if lv == rv {
      ShowInjective(a, b);
      ZeroAtom();
      term := Atom("0");
    } else if lv == "0" {
      ZeroTerm(a);
      term := Neg(b);
    } else if rv == "0" {
      ZeroTerm(b);
      term := a;
    } else {
      term := Bin('-', a, b);
    }
  }

  /** Folding two digit runs writes a term for the operation on their values. */
  lemma FoldSound(c: char, a: Term, b: Term) returns (term: Term)
    requires ValidTerm(a) && ValidTerm(b)
    requires IsNumber(Show(a)) && IsNumber(Show(b))
    ensures ValidTerm(term) && Show(term) == IntToString(Apply(c, Stoi(Show(a)), Stoi(Show(b))))
    ensures forall env :: TermEval(term, env) == Apply(c, TermEval(a, env), TermEval(b, env))
  {
    var v := Apply(c, Stoi(Show(a)), Stoi(Show(b)));
    term := Atom(IntToString(v));
    SignedAtom(v);
    forall env ensures TermEval(term, env) == Apply(c, TermEval(a, env), TermEval(b, env)) {
      NumberTermValue(a, env);
      NumberTermValue(b, env);
    }
  }

  /** One combining step writes a term for the operation on its operands. */
  lemma CombineTerm(c: char, l: Node, r: Node, lt: Term, rt: Term) returns (term: Term)
    requires IsOperatorChar(c)
    requires ValidTerm(lt) && Show(lt) == Data(l)
    requires ValidTerm(rt) && Show(rt) == Data(r)
    requires Combine(c, l, r).Some?
    ensures ValidTerm(term) && Show(term) == Data(Combine(c, l, r).value)
    ensures forall env :: TermEval(term, env) == Apply(c, TermEval(lt, env), TermEval(rt, env))
  {
    if IsNumber(Data(l)) && IsNumber(Data(r)) {
      term := FoldSound(c, lt, rt);
    } else if c == '+' {
      term := PlusRuleSound(lt, rt);
    } else if c == '*' {
      term := TimesRuleSound(lt, rt);
    } else {
      term := MinusRuleSound(lt, rt);
    }
  }

  /** One combining step keeps the meaning, given the meaning of its operands. */
  lemma CombineSound(c: char, l: Node, r: Node, tl: Node, tr: Node, lt: Term, rt: Term)
    requires IsOperatorChar(c) && WellFormed(tl) && WellFormed(tr)
    requires ValidTerm(lt) && Show(lt) == Data(l)
    requires ValidTerm(rt) && Show(rt) == Data(r)
    requires forall env :: TermEval(lt, env) == Eval(tl, env)
    requires forall env :: TermEval(rt, env) == Eval(tr, env)
    requires Combine(c, l, r).Some?
    ensures Denotes(Data(Combine(c, l, r).value), Op(c, tl, tr))
  {
    var term := CombineTerm(c, l, r, lt, rt);
    assert forall env :: TermEval(term, env) == Eval(Op(c, tl, tr), env);
  }

  /** The meaning of a child as the simplifier hands it to the combining step. */
  lemma {:induction false} PreparedSound(n: Node) returns (term: Term)
    requires WellFormed(n)
    requires Prepared(n).Some?
    ensures ValidTerm(term) && Show(term) == Data(Prepared(n).value)
    ensures forall env :: TermEval(term, env) == Eval(n, env)
    decreases n, 1
  {
    DescendsIffOperator(n);
    if n.Op? {
      SimplifySound(n);
      term :| ValidTerm(term) && Show(term) == Data(Simplify(n).value)
              && forall env :: TermEval(term, env) == Eval(n, env);
    } else {
      term := TreeTerm(n);
      forall env ensures TermEval(term, env) == Eval(n, env) {
        RenderWritesTerm(n, env);
      }
      RenderWritesTerm(n, AllZero);
    }
  }

  /** Simplification preserves meaning: where it has a result, the result's
      text denotes the value of the tree it came from. */
  lemma {:induction false} SimplifySound(t: Node)
    requires WellFormed(t)
    ensures Simplify(t).Some? ==> Denotes(Data(Simplify(t).value), t)
    decreases t, 0
  {
    if Simplify(t).Some? {
      var c, l, r := t.op, t.l, t.r;
      assert Prepared(l).Some? && Prepared(r).Some?;
      var lt := PreparedSound(l);
      var rt := PreparedSound(r);
      assert Simplify(t) == Combine(c, Prepared(l).value, Prepared(r).value);
      CombineSound(c, Prepared(l).value, Prepared(r).value, l, r, lt, rt);
    }
  }

  /** The fully parenthesised rendering of a tree denotes its value. */
  lemma RenderDenotes(t: Node)
    requires WellFormed(t)
    ensures Denotes(ToString(t, true), t)
  {
    var term := TreeTerm(t);
    forall env ensures TermEval(term, env) == Eval(t, env) {
      RenderWritesTerm(t, env);
    }
    RenderWritesTerm(t, AllZero);
  }
}
