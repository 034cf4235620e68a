/**
 Which expressions folding turns into a constant, said of the expression itself; and, with it, exactly when
 folding leaves a result where it was.
 */
module ConstantExpressions {
  import opened Options
  import opened Values
  import opened Trees
  import opened Evaluator
  import opened Optimizer

  // ----- constant expressions -----

  /** The operators whose constant operands are folded. */
  predicate Folds(k: Kind) {
    k in {KArith, KOrder, KEqual, KMinus, KNot, KAnd, KOr}
  }

  /** Evaluation succeeds, whatever the variables hold. */
  ghost predicate Succeeds(t: Tree, consts: Constants, host: Host) {
    forall st :: Agrees(st, consts) ==> Eval(t, st, host).0.Ok?
  }

  /** A condition that always has this value. */
  ghost predicate Always(c: Tree, b: bool, consts: Constants, host: Host) {
    forall st :: Agrees(st, consts) ==> EvalBool(c, st, host).0 == Ok(b)
  }

  /** A constant, a name of one, an operator on such operands that does not fail, or a conditional that
      always takes a branch of this kind. A missing operand counts as known, but is no constant itself. */
  ghost predicate Constant(t: Tree, consts: Constants, host: Host)
    decreases t, 0
  {
    if t.Nil? then false
    else if t.data.Id? then t.data.id in consts
    else if !t.data.Sig? then t.data.Val?
    else
      var k := KindOf(t.data.op.signal);
      if k == KChoice then
        && Constant(t.left, consts, host) && t.right.Node?
        && ((Always(t.left, true, consts, host) && Constant(t.right.left, consts, host))
            || (Always(t.left, false, consts, host) && Constant(t.right.right, consts, host)))
      else Folds(k) && Known(t.left, consts, host) && Known(t.right, consts, host) && Succeeds(t, consts, host)
  }

  ghost predicate Known(t: Tree, consts: Constants, host: Host)
    decreases t, 1
  {
    Constant(t, consts, host) || Missing(t, consts, host)
  }

  /** No operand at all, or a conditional that always takes a branch without one. */
  ghost predicate Missing(t: Tree, consts: Constants, host: Host)
    decreases t, 0
  {
    if t.Nil? then false
    else if !t.data.Sig? then t.data.Null?
    else
      && KindOf(t.data.op.signal) == KChoice && Constant(t.left, consts, host) && t.right.Node?
      && ((Always(t.left, true, consts, host) && Missing(t.right.left, consts, host))
          || (Always(t.left, false, consts, host) && Missing(t.right.right, consts, host)))
  }

  /** The constants of the program can be bound to protected cells of their values. */
  lemma {:induction false} AgreeingStore(consts: Constants) returns (st: Store)
    ensures Agrees(st, consts) && |st.domains| == 1 && st.domains[0].Keys == consts.Keys
    decreases |consts|
  {
    if consts == map[] {
      st := Store([map[]], []);
    } else {
      var x :| x in consts;
      var rest := consts - {x};
      assert |rest| < |consts| by { assert rest.Keys < consts.Keys; }
      var before := AgreeingStore(rest);
      var l := |before.cells|;
      st := Store([before.domains[0][x := l]], before.cells + [Cell(Plain(consts[x]), true)]);
      forall y | y in consts
        ensures Lookup(st.domains, y).Some? && Lookup(st.domains, y).value < |st.cells|
        ensures st.cells[Lookup(st.domains, y).value] == Cell(Plain(consts[y]), true)
      {
        if y != x {
          assert y in rest && Lookup(before.domains, y) == Some(before.domains[0][y]);
        }
      }
    }
  }

  lemma OperatorGivesPlain(t: Tree, st: Store, host: Host)
    requires t.Node? && t.data.Sig? && Folds(KindOf(t.data.op.signal))
    ensures Eval(t, st, host).0.Ok? ==> Eval(t, st, host).0.value.Temp? && Eval(t, st, host).0.value.value.Plain?
  {
  }

  /** An operator on known operands becomes a constant exactly when it does not fail. */
  lemma FoldedExactly(t: Tree, consts: Constants, host: Host)
    requires t.Node? && t.data.Sig? && Folds(KindOf(t.data.op.signal)) && Opt(t, consts, host).Some?
    requires Optimizable(Opt(t.left, consts, host).value) && Optimizable(Opt(t.right, consts, host).value)
    ensures IsValue(Opt(t, consts, host).value) <==> Succeeds(t, consts, host)
    ensures !IsNull(Opt(t, consts, host).value)
  {
    var u := t.(left := Opt(t.left, consts, host).value, right := Opt(t.right, consts, host).value);
    var st0 := AgreeingStore(consts);
    OperatorGivesPlain(u, EMPTY_STORE, host);
    forall st | Agrees(st, consts)
      ensures Eval(t, st, host).0.Ok? <==> IsValue(Opt(t, consts, host).value)
    {
      OptPreserves(t, consts, st, host);
      ConstantOperands(u, st, host);
    }
    assert Agrees(st0, consts);
  }

  lemma ConditionExactly(t: Tree, consts: Constants, host: Host)
    requires Opt(t, consts, host).Some? && IsValue(Opt(t, consts, host).value)
    requires Opt(t, consts, host).value.data.value.Bool?
    ensures forall b :: Always(t, b, consts, host) <==> Opt(t, consts, host).value.data.value.b == b
  {
    var c := Opt(t, consts, host).value;
    var st0 := AgreeingStore(consts);
    forall st | Agrees(st, consts)
      ensures EvalBool(t, st, host).0 == Ok(c.data.value.b)
    {
      BoolPreserved(t, consts, st, host);
    }
    assert Agrees(st0, consts);
  }

  /** Folding turns an expression into a constant exactly when it is a constant expression, and into a
      missing operand exactly when there is none. */
  lemma {:induction false} ConstantExactly(t: Tree, consts: Constants, host: Host)
    requires Opt(t, consts, host).Some?
    ensures IsValue(Opt(t, consts, host).value) <==> Constant(t, consts, host)
    ensures IsNull(Opt(t, consts, host).value) <==> Missing(t, consts, host)
  {
    if t.Node? && t.data.Sig? {
      var k := KindOf(t.data.op.signal);
      if k == KChoice {
        ConstantExactly(t.left, consts, host);
        ConstantExactly(t.right.left, consts, host);
        ConstantExactly(t.right.right, consts, host);
        if IsValue(Opt(t.left, consts, host).value) {
          ConditionExactly(t.left, consts, host);
        }
      } else if Folds(k) {
        ConstantExactly(t.left, consts, host);
        ConstantExactly(t.right, consts, host);
        if Known(t.left, consts, host) && Known(t.right, consts, host) {
          FoldedExactly(t, consts, host);
        }
      }
    }
  }

  // ----- where a result lives -----

  /** Folding leaves the result where it was: a constant that is written out already is one, and anything
      else must not become one. Of a conditional it is the branch taken in `st` that counts. */
  ghost predicate SamePlace(t: Tree, consts: Constants, st: Store, host: Host)
  {
    if t.Node? && t.data.Sig? && KindOf(t.data.op.signal) == KChoice && t.right.Node? then
      var (x, st1) := Eval(t.left, st, host);
      x.Ok? && BoolOf(x.value, st1).Ok? ==>
        SamePlace(if BoolOf(x.value, st1).value then t.right.left else t.right.right, consts, st1, host)
    else IsValue(t) || !Constant(t, consts, host)
  }

  /** Operators give temporaries, and assignments variables or copies; neither gives a constant token. */
  lemma NoConstant(t: Tree, st: Store, host: Host)
    requires t.Node? && t.data.Sig? && KindOf(t.data.op.signal) !in {KChoice, KPair, KOther}
    ensures Eval(t, st, host).0.Ok? ==> !Eval(t, st, host).0.value.Lit?
    ensures Eval(t, st, host).0.Ok? && KindOf(t.data.op.signal) !in {KAssign, KCompound} ==>
      Eval(t, st, host).0.value.Temp?
  {
  }

  /** Exactly then the folded expression has the same result, place included. */
  lemma {:induction false} SameResultExactly(t: Tree, consts: Constants, st: Store, host: Host)
    requires Opt(t, consts, host).Some? && Agrees(st, consts)
    ensures Eval(t, st, host).0.Ok? ==>
      (Eval(Opt(t, consts, host).value, st, host) == Eval(t, st, host) <==> SamePlace(t, consts, st, host))
    decreases t, 1
  {
    OptPreserves(t, consts, st, host);
    ConstantExactly(t, consts, host);
    if t.Node? && t.data.Sig? && KindOf(t.data.op.signal) !in {KPair, KOther} {
      var k, u := KindOf(t.data.op.signal), Opt(t, consts, host).value;
      if k == KChoice {
        ChoiceSameExactly(t, consts, st, host);
      } else {
        NoConstant(t, st, host);
        if !IsValue(u) { NoConstant(u, st, host); }
      }
    }
  }

  lemma {:induction false} ChoiceSameExactly(t: Tree, consts: Constants, st: Store, host: Host)
    requires t.Node? && t.data.Sig? && KindOf(t.data.op.signal) == KChoice
    requires Opt(t, consts, host).Some? && Agrees(st, consts)
    ensures Eval(t, st, host).0.Ok? ==>
      (Eval(Opt(t, consts, host).value, st, host) == Eval(t, st, host) <==> SamePlace(t, consts, st, host))
    decreases t, 0
  {
    var u, c := Opt(t, consts, host).value, Opt(t.left, consts, host).value;
    BoolPreserved(t.left, consts, st, host);
    OptPreserves(t.left, consts, st, host);
    ChoiceStep(t, st, host);
    var (x, st1) := Eval(t.left, st, host);
    if x.Ok? && BoolOf(x.value, st1).Ok? {
      var x' := Eval(c, st, host).0;
      DerefStandsFor(x'.value, x.value, st1);
      SameResultExactly(if BoolOf(x.value, st1).value then t.right.left else t.right.right, consts, st1, host);
      if !IsValue(c) { ChoiceStep(u, st, host); }
    }
  }

  /** The same for every store: both branches of a conditional count, unless it always takes one. */
  ghost predicate StaysInPlace(t: Tree, consts: Constants, host: Host)
  {
    if t.Node? && t.data.Sig? && KindOf(t.data.op.signal) == KChoice && t.right.Node? then
      && (Always(t.left, false, consts, host) || StaysInPlace(t.right.left, consts, host))
      && (Always(t.left, true, consts, host) || StaysInPlace(t.right.right, consts, host))
    else IsValue(t) || !Constant(t, consts, host)
  }

  lemma {:induction false} StaysInEveryStore(t: Tree, consts: Constants, st: Store, host: Host)
    requires Opt(t, consts, host).Some? && Agrees(st, consts) && StaysInPlace(t, consts, host)
    ensures SamePlace(t, consts, st, host)
    ensures Eval(Opt(t, consts, host).value, st, host) == Eval(t, st, host)
  {
    OptPreserves(t, consts, st, host);
    SameResultExactly(t, consts, st, host);
    if t.Node? && t.data.Sig? && KindOf(t.data.op.signal) == KChoice {
      BoolPreserved(t.left, consts, st, host);
      var (x, st1) := Eval(t.left, st, host);
      if x.Ok? && BoolOf(x.value, st1).Ok? {
        StaysInEveryStore(if BoolOf(x.value, st1).value then t.right.left else t.right.right, consts, st1, host);
      }
    }
  }
}
