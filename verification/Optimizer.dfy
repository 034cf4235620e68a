/**
 `opt_expr` as a function on trees, and the proof that folding preserves the meaning of an expression.
 */
module Optimizer {
  import opened Options
  import opened Signals
  import opened Values
  import opened Trees
  import opened Evaluator

  /** The identifiers known to be protected constants at compile time. */
  type Constants = map<string, Scalar>

  predicate IsNull(t: Tree) { t.Node? && t.data.Null? }

  predicate IsValue(t: Tree) { t.Node? && t.data.Val? }

  /** `optimizable`: null tokens and constants. */
  predicate Optimizable(t: Tree) { IsNull(t) || IsValue(t) }

  const EMPTY_STORE := Store([], [])

  /** The folded node, or the node itself when evaluating it fails. */
  function Fold(t: Tree, host: Host): Tree
    requires t.Node?
  {
    match Eval(t, EMPTY_STORE, host).0
    case Ok(Temp(Plain(v))) => Leaf(Val(v))
    case _ => t
  }

  /** The operand checks of `opt_expr`; without them the expression is rejected. */
  predicate OperandsPresent(t: Tree)
    requires t.Node? && t.data.Sig?
  {
    && t.left.Node? && t.right.Node?
    && match KindOf(t.data.op.signal)
       case KArith | KOrder | KEqual | KAnd | KOr | KAssign | KCompound | KPair => !IsNull(t.left) && !IsNull(t.right)
       case KMinus => !IsNull(t.right)
       case KChoice =>
         !IsNull(t.left) && t.right.data.Sig? && t.right.data.op.signal.Pair?
         && t.right.left.Node? && t.right.right.Node?
       case _ => true
  }

  /** The rewritten tree; none when the expression is rejected. Operators outside the scalar
      fragment are left alone here. */
  function Opt(t: Tree, consts: Constants, host: Host): Option<Tree> {
    if t.Nil? then Some(t)
    else if t.data.Id? then
      if t.data.id in consts then Some(t.(data := Val(consts[t.data.id]))) else Some(t)
    else if !t.data.Sig? then Some(t)
    else if !OperandsPresent(t) then None
    else
      var k := KindOf(t.data.op.signal);
      if k == KCompound || k == KPair || k == KOther then Some(t)
      else if k == KChoice then
        match (Opt(t.left, consts, host), Opt(t.right.left, consts, host), Opt(t.right.right, consts, host))
        case (Some(c), Some(a), Some(b)) =>
          if !IsValue(c) then Some(t.(left := c, right := t.right.(left := a, right := b)))
          else if c.data.value.Bool? then Some(if c.data.value.b then a else b)
          else None
        case _ => None
      else
        match (Opt(t.left, consts, host), Opt(t.right, consts, host))
        case (Some(l), Some(r)) =>
          var u := t.(left := l, right := r);
          if k != KAssign && Optimizable(l) && Optimizable(r) then Some(Fold(u, host)) else Some(u)
        case _ => None
  }

  /** The rewritten tree is again a complete expression. */
  lemma {:induction false} OptKeepsExpr(t: Tree, consts: Constants, host: Host)
    requires IsExpr(t) && Opt(t, consts, host).Some?
    ensures IsExpr(Opt(t, consts, host).value)
  {
    if t.data.Sig? && KindOf(t.data.op.signal) !in {KCompound, KPair, KOther} {
      OptKeepsExpr(t.left, consts, host);
      if KindOf(t.data.op.signal) == KChoice {
        OptKeepsExpr(t.right.left, consts, host);
        OptKeepsExpr(t.right.right, consts, host);
      } else {
        OptKeepsExpr(t.right, consts, host);
      }
    }
  }

  /** A node stays one. */
  lemma {:induction false} OptIsNode(t: Tree, consts: Constants, host: Host)
    requires t.Node? && Opt(t, consts, host).Some?
    ensures Opt(t, consts, host).value.Node?
  {
    if t.data.Sig? && KindOf(t.data.op.signal) == KChoice {
      OptIsNode(t.right.left, consts, host);
      OptIsNode(t.right.right, consts, host);
    }
  }

  // ----- meaning -----

  /** The trees of the modelled fragment. */
  predicate Modelled(t: Tree) {
    t.Node? &&
    if !t.data.Sig? then
      (t.data.Null? || t.data.Id? || t.data.Val? || (t.data.Expr? && Modelled(t.data.tree)))
      && t.left.Nil? && t.right.Nil?
    else
      match KindOf(t.data.op.signal)
      case KOther | KPair => false
      case KChoice =>
        Modelled(t.left) && t.right.Node? && t.right.data.Sig? && t.right.data.op.signal.Pair?
        && Modelled(t.right.left) && Modelled(t.right.right)
      case _ => Modelled(t.left) && Modelled(t.right)
  }

  /** Every compile-time constant is bound, innermost, to a protected cell of its value. */
  predicate Agrees(st: Store, consts: Constants) {
    forall x :: x in consts ==>
      Lookup(st.domains, x).Some? && Lookup(st.domains, x).value < |st.cells|
      && st.cells[Lookup(st.domains, x).value] == Cell(Plain(consts[x]), true)
  }

  /** `r'` may stand for `r`: the same reference, or the constant that an unassignable `r` denotes. */
  predicate StandsFor(r': Res, r: Res, st: Store) {
    r' == r || (r'.Lit? && Deref(r, st) == Some(Plain(r'.v)) && !Assignable(r, st))
  }

  predicate SameResult(x': (Result<Res>, Store), x: (Result<Res>, Store)) {
    x'.1 == x.1 && (if x.0.Fail? then x'.0 == x.0 else x'.0.Ok? && StandsFor(x'.0.value, x.0.value, x.1))
  }

  // ----- constants stand for what they replace -----

  lemma StandsForFrame(r': Res, r: Res, st: Store, st': Store)
    requires StandsFor(r', r, st) && Frame(st, st')
    ensures StandsFor(r', r, st')
  {
  }

  lemma AgreesFrame(st: Store, st': Store, consts: Constants)
    requires Agrees(st, consts) && Frame(st, st')
    ensures Agrees(st', consts)
  {
  }

  lemma DerefStandsFor(r': Res, r: Res, st: Store)
    requires StandsFor(r', r, st)
    ensures Deref(r', st) == Deref(r, st) && BoolOf(r', st) == BoolOf(r, st) && (r'.Void? <==> r.Void?)
  {
  }

  lemma SameStandsFor(ra': Res, rb': Res, ra: Res, rb: Res, a: Value, b: Value, st: Store)
    requires StandsFor(ra', ra, st) && StandsFor(rb', rb, st)
    requires Deref(ra, st) == Some(a) && Deref(rb, st) == Some(b)
    ensures Same(ra', rb', a, b) == Same(ra, rb, a, b)
  {
  }

  lemma BinaryStandsFor(s: Signal, ra': Res, rb': Res, ra: Res, rb: Res, st: Store, host: Host)
    requires StandsFor(ra', ra, st) && StandsFor(rb', rb, st)
    ensures Binary(s, ra', rb', st, host) == Binary(s, ra, rb, st, host)
  {
    DerefStandsFor(ra', ra, st);
    DerefStandsFor(rb', rb, st);
    var a, b := Deref(ra, st), Deref(rb, st);
    if a.Some? && b.Some? {
      SameStandsFor(ra', rb', ra, rb, a.value, b.value, st);
    }
  }

  lemma AssignStandsFor(ra': Res, rb': Res, ra: Res, rb: Res, v: Option<Value>, st: Store)
    requires StandsFor(ra', ra, st) && StandsFor(rb', rb, st)
    requires v.None? ==> rb' == rb
    ensures Assign(ra', v, rb', st) == Assign(ra, v, rb, st)
  {
  }

  // ----- a tree that stands for another one -----

  /** In every store that agrees with the constants `a` has the same error, value and store as `b`. */
  ghost predicate Stands(a: Tree, b: Tree, consts: Constants, host: Host) {
    forall st :: Agrees(st, consts) ==> SameResult(Eval(a, st, host), Eval(b, st, host))
  }

  lemma SameResultTrans(a: (Result<Res>, Store), b: (Result<Res>, Store), c: (Result<Res>, Store))
    requires SameResult(a, b) && SameResult(b, c)
    ensures SameResult(a, c)
  {
  }

  lemma StandsTrans(a: Tree, b: Tree, c: Tree, consts: Constants, host: Host)
    requires Stands(a, b, consts, host) && Stands(b, c, consts, host)
    ensures Stands(a, c, consts, host)
  {
    forall st | Agrees(st, consts)
      ensures SameResult(Eval(a, st, host), Eval(c, st, host))
    {
      SameResultTrans(Eval(a, st, host), Eval(b, st, host), Eval(c, st, host));
    }
  }

  /** The two in one store. */
  lemma StandsHere(a: Tree, b: Tree, consts: Constants, st: Store, host: Host)
    requires Stands(a, b, consts, host) && Agrees(st, consts)
    ensures SameResult(Eval(a, st, host), Eval(b, st, host))
    ensures Frame(st, Eval(b, st, host).1) && Agrees(Eval(b, st, host).1, consts)
    ensures EvalBool(a, st, host) == EvalBool(b, st, host)
  {
    var (x', _) := Eval(a, st, host);
    var (x, st1) := Eval(b, st, host);
    EvalFrame(b, st, host);
    AgreesFrame(st, st1, consts);
    if x.Ok? {
      DerefStandsFor(x'.value, x.value, st1);
    }
  }

  predicate SamePair(x': (Result<(Res, Res)>, Store), x: (Result<(Res, Res)>, Store)) {
    x'.1 == x.1
    && if x.0.Fail? then x'.0 == x.0
       else x'.0.Ok? && StandsFor(x'.0.value.0, x.0.value.0, x.1) && StandsFor(x'.0.value.1, x.0.value.1, x.1)
  }

  lemma BothStand(a: Tree, b: Tree, consts: Constants, st: Store, host: Host)
    requires a.Node? && b.Node? && Agrees(st, consts)
    requires Stands(a.left, b.left, consts, host) && Stands(a.right, b.right, consts, host)
    ensures SamePair(EvalBoth(a, st, host), EvalBoth(b, st, host))
  {
    var first, second := if host.leftFirst then b.left else b.right, if host.leftFirst then b.right else b.left;
    var first', second' := if host.leftFirst then a.left else a.right, if host.leftFirst then a.right else a.left;
    StandsHere(first', first, consts, st, host);
    var (x, st1) := Eval(first, st, host);
    StandsHere(second', second, consts, st1, host);
    if x.Ok? {
      StandsForFrame(Eval(first', st, host).0.value, x.value, st1, Eval(second, st1, host).1);
    }
  }

  lemma CompoundStandsFor(s: Signal, ra': Res, rb': Res, ra: Res, rb: Res, st: Store, host: Host)
    requires StandsFor(ra', ra, st) && StandsFor(rb', rb, st)
    ensures Compound(s, ra', rb', st, host) == Compound(s, ra, rb, st, host)
  {
    DerefStandsFor(ra', ra, st);
    DerefStandsFor(rb', rb, st);
    forall v: Value ensures Assign(ra', Some(v), rb', st) == Assign(ra, Some(v), rb, st) {
      AssignStandsFor(ra', rb', ra, rb, Some(v), st);
    }
  }

  lemma BinaryStands(a: Tree, b: Tree, consts: Constants, st: Store, host: Host)
    requires a.Node? && b.Node? && a.data == b.data && b.data.Sig? && Agrees(st, consts)
    requires KindOf(b.data.op.signal) in {KArith, KOrder, KEqual, KAssign, KCompound}
    requires Stands(a.left, b.left, consts, host) && Stands(a.right, b.right, consts, host)
    ensures SameResult(Eval(a, st, host), Eval(b, st, host))
  {
    var s := b.data.op.signal;
    BothStand(a, b, consts, st, host);
    var (p', _) := EvalBoth(a, st, host);
    var (p, st1) := EvalBoth(b, st, host);
    if p.Ok? {
      if KindOf(s) == KAssign {
        DerefStandsFor(p'.value.1, p.value.1, st1);
        AssignStandsFor(p'.value.0, p'.value.1, p.value.0, p.value.1, Deref(p.value.1, st1), st1);
      } else if KindOf(s) == KCompound {
        CompoundStandsFor(s, p'.value.0, p'.value.1, p.value.0, p.value.1, st1, host);
      } else {
        BinaryStandsFor(s, p'.value.0, p'.value.1, p.value.0, p.value.1, st1, host);
      }
    }
  }

  lemma UnaryStands(a: Tree, b: Tree, consts: Constants, st: Store, host: Host)
    requires a.Node? && b.Node? && a.data == b.data && b.data.Sig? && Agrees(st, consts)
    requires KindOf(b.data.op.signal) in {KMinus, KNot} && Stands(a.right, b.right, consts, host)
    ensures SameResult(Eval(a, st, host), Eval(b, st, host))
  {
    StandsHere(a.right, b.right, consts, st, host);
    var (x', _) := Eval(a.right, st, host);
    var (x, st1) := Eval(b.right, st, host);
    if x.Ok? {
      DerefStandsFor(x'.value, x.value, st1);
    }
  }

  lemma LogicStands(a: Tree, b: Tree, consts: Constants, st: Store, host: Host)
    requires a.Node? && b.Node? && a.data == b.data && b.data.Sig? && Agrees(st, consts)
    requires KindOf(b.data.op.signal) in {KAnd, KOr}
    requires Stands(a.left, b.left, consts, host) && Stands(a.right, b.right, consts, host)
    ensures SameResult(Eval(a, st, host), Eval(b, st, host))
  {
    StandsHere(a.left, b.left, consts, st, host);
    var (x, st1) := EvalBool(b.left, st, host);
    StandsHere(a.right, b.right, consts, st1, host);
    LogicFollows(a, st, host);
    LogicFollows(b, st, host);
  }

  /** Evaluating `&&` and `||`, one step unfolded. */
  lemma LogicFollows(t: Tree, st: Store, host: Host)
    requires t.Node? && t.data.Sig? && KindOf(t.data.op.signal) in {KAnd, KOr}
    ensures var k, (x, st1) := KindOf(t.data.op.signal), EvalBool(t.left, st, host);
            var (y, st2) := EvalBool(t.right, st1, host);
            Eval(t, st, host) ==
            if x.Fail? then (Fail(x.error), st1)
            else if x.value == (k == KOr) then (Ok(Temp(Plain(Bool(x.value)))), st1)
            else (if y.Fail? then Fail(y.error) else Ok(Temp(Plain(Bool(y.value)))), st2)
  {
  }

  /** An operator whose operands stand for those of another one stands for it. */
  lemma OperatorStands(a: Tree, b: Tree, consts: Constants, host: Host)
    requires a.Node? && b.Node? && a.data == b.data && b.data.Sig?
    requires KindOf(b.data.op.signal) !in {KChoice, KPair, KOther}
    requires Stands(a.left, b.left, consts, host) && Stands(a.right, b.right, consts, host)
    ensures Stands(a, b, consts, host)
  {
    forall st | Agrees(st, consts)
      ensures SameResult(Eval(a, st, host), Eval(b, st, host))
    {
      var k := KindOf(b.data.op.signal);
      if k in {KMinus, KNot} {
        UnaryStands(a, b, consts, st, host);
      } else if k in {KAnd, KOr} {
        LogicStands(a, b, consts, st, host);
      } else {
        BinaryStands(a, b, consts, st, host);
      }
    }
  }

  /** Evaluating a conditional, one step unfolded. */
  lemma ChoiceStep(t: Tree, st: Store, host: Host)
    requires t.Node? && t.data.Sig? && KindOf(t.data.op.signal) == KChoice && t.right.Node?
    ensures var (x, st1) := Eval(t.left, st, host);
            Eval(t, st, host) ==
            if x.Fail? then (x, st1)
            else if BoolOf(x.value, st1).Fail? then (Fail(RequiresBool), st1)
            else Eval(if BoolOf(x.value, st1).value then t.right.left else t.right.right, st1, host)
  {
  }

  /** The same for a conditional, its condition and its branches. */
  lemma ChoiceStands(a: Tree, b: Tree, consts: Constants, host: Host)
    requires a.Node? && b.Node? && a.data == b.data && b.data.Sig? && KindOf(b.data.op.signal) == KChoice
    requires a.right.Node? && b.right.Node? && Stands(a.left, b.left, consts, host)
    requires Stands(a.right.left, b.right.left, consts, host) && Stands(a.right.right, b.right.right, consts, host)
    ensures Stands(a, b, consts, host)
  {
    forall st | Agrees(st, consts)
      ensures SameResult(Eval(a, st, host), Eval(b, st, host))
    {
      StandsHere(a.left, b.left, consts, st, host);
      var st1 := Eval(b.left, st, host).1;
      ChoiceStep(a, st, host);
      ChoiceStep(b, st, host);
      StandsHere(a.right.left, b.right.left, consts, st1, host);
      StandsHere(a.right.right, b.right.right, consts, st1, host);
    }
  }

  // ----- folding preserves meaning -----

  lemma ConstantOperand(t: Tree, st: Store, host: Host)
    requires Optimizable(t)
    ensures var x := Eval(t, EMPTY_STORE, host).0;
            Eval(t, st, host) == (x, st) && Eval(t, EMPTY_STORE, host) == (x, EMPTY_STORE)
            && x.Ok? && !x.value.Ref? && Deref(x.value, st) == Deref(x.value, EMPTY_STORE)
  {
  }

  /** An operator applied to constants evaluates alike in every store, and writes nothing. */
  lemma ConstantOperands(u: Tree, st: Store, host: Host)
    requires u.Node? && u.data.Sig? && Optimizable(u.left) && Optimizable(u.right)
    requires KindOf(u.data.op.signal) in {KArith, KOrder, KEqual, KMinus, KNot, KAnd, KOr}
    ensures Eval(u, st, host) == (Eval(u, EMPTY_STORE, host).0, st)
  {
    ConstantOperand(u.left, st, host);
    ConstantOperand(u.right, st, host);
    if KindOf(u.data.op.signal) in {KArith, KOrder, KEqual} {
      var x, y := Eval(u.left, st, host).0, Eval(u.right, st, host).0;
      assert EvalBoth(u, st, host) == (Ok((x.value, y.value)), st);
      assert EvalBoth(u, EMPTY_STORE, host) == (Ok((x.value, y.value)), EMPTY_STORE);
      assert Binary(u.data.op.signal, x.value, y.value, st, host)
          == Binary(u.data.op.signal, x.value, y.value, EMPTY_STORE, host);
    } else {
      assert EvalBool(u.left, st, host) == (EvalBool(u.left, EMPTY_STORE, host).0, st);
      assert EvalBool(u.right, st, host) == (EvalBool(u.right, EMPTY_STORE, host).0, st);
    }
  }

  lemma FoldSame(u: Tree, st: Store, host: Host)
    requires u.Node? && u.data.Sig? && Optimizable(u.left) && Optimizable(u.right)
    requires KindOf(u.data.op.signal) in {KArith, KOrder, KEqual, KMinus, KNot, KAnd, KOr}
    ensures SameResult(Eval(Fold(u, host), st, host), Eval(u, st, host))
  {
    ConstantOperands(u, st, host);
  }

  /** A conditional with a constant condition is the branch it takes. */
  lemma ChosenStands(c: Tree, t: Tree, consts: Constants, host: Host)
    requires t.Node? && t.data.Sig? && KindOf(t.data.op.signal) == KChoice && t.right.Node?
    requires IsValue(c) && c.data.value.Bool? && Stands(c, t.left, consts, host)
    ensures Stands(if c.data.value.b then t.right.left else t.right.right, t, consts, host)
  {
    var branch := if c.data.value.b then t.right.left else t.right.right;
    forall st | Agrees(st, consts)
      ensures SameResult(Eval(branch, st, host), Eval(t, st, host))
    {
      StandsHere(c, t.left, consts, st, host);
      ChoiceStep(t, st, host);
      assert EvalBool(c, st, host) == (Ok(c.data.value.b), st);
    }
  }

  lemma {:induction false} OptChoiceStands(t: Tree, consts: Constants, host: Host)
    requires t.Node? && t.data.Sig? && KindOf(t.data.op.signal) == KChoice && Opt(t, consts, host).Some?
    ensures Stands(Opt(t, consts, host).value, t, consts, host)
    decreases t, 0
  {
    var c := Opt(t.left, consts, host).value;
    var a, b := Opt(t.right.left, consts, host).value, Opt(t.right.right, consts, host).value;
    OptStands(t.left, consts, host);
    OptStands(t.right.left, consts, host);
    OptStands(t.right.right, consts, host);
    if IsValue(c) {
      ChosenStands(c, t, consts, host);
      StandsTrans(if c.data.value.b then a else b,
                  if c.data.value.b then t.right.left else t.right.right, t, consts, host);
    } else {
      ChoiceStands(t.(left := c, right := t.right.(left := a, right := b)), t, consts, host);
    }
  }

  lemma {:induction false} OptStands(t: Tree, consts: Constants, host: Host)
    requires Opt(t, consts, host).Some?
    ensures Stands(Opt(t, consts, host).value, t, consts, host)
    decreases t, 1
  {
    if t.Node? && t.data.Sig? && KindOf(t.data.op.signal) !in {KPair, KOther} {
      var k := KindOf(t.data.op.signal);
      if k == KChoice {
        OptChoiceStands(t, consts, host);
      } else if k != KCompound {
        var l, r := Opt(t.left, consts, host).value, Opt(t.right, consts, host).value;
        var u := t.(left := l, right := r);
        OptStands(t.left, consts, host);
        OptStands(t.right, consts, host);
        OperatorStands(u, t, consts, host);
        if k != KAssign && Optimizable(l) && Optimizable(r) {
          forall st ensures SameResult(Eval(Fold(u, host), st, host), Eval(u, st, host)) {
            FoldSame(u, st, host);
          }
          StandsTrans(Fold(u, host), u, t, consts, host);
        }
      }
    }
  }

  /** Folding preserves meaning: in every store that agrees with the compile-time constants, the
      rewritten tree has the same value or error and leaves the same store. */
  lemma OptPreserves(t: Tree, consts: Constants, st: Store, host: Host)
    requires Opt(t, consts, host).Some? && Agrees(st, consts)
    ensures SameResult(Eval(Opt(t, consts, host).value, st, host), Eval(t, st, host))
  {
    OptStands(t, consts, host);
  }

  lemma BoolPreserved(t: Tree, consts: Constants, st: Store, host: Host)
    requires Opt(t, consts, host).Some? && Agrees(st, consts)
    ensures EvalBool(Opt(t, consts, host).value, st, host) == EvalBool(t, st, host)
    ensures Agrees(EvalBool(t, st, host).1, consts)
  {
    OptStands(t, consts, host);
    StandsHere(Opt(t, consts, host).value, t, consts, st, host);
  }
}
