/**
 What folding leaves behind: nothing more to fold. No name of a constant, no operator on constants that has a
 value, no conditional with a constant condition, wherever folding looks; and a program is folded everywhere.
 */
module NormalForms {
  import opened Options
  import opened Trees
  import opened Evaluator
  import opened Optimizer
  import opened Statements
  import opened ProgramOptimizer

  /** Below compound assignments, `:` and operators outside the fragment folding does not look. */
  predicate Reduced(t: Tree, consts: Constants, host: Host) {
    if t.Nil? then true
    else if t.data.Id? then t.data.id !in consts
    else if !t.data.Sig? then true
    else
      match KindOf(t.data.op.signal)
      case KCompound | KPair | KOther => true
      case KChoice =>
        && Reduced(t.left, consts, host) && !IsValue(t.left)
        && (t.right.Node? ==> Reduced(t.right.left, consts, host) && Reduced(t.right.right, consts, host))
      case KAssign => Reduced(t.left, consts, host) && Reduced(t.right, consts, host)
      case _ =>
        && Reduced(t.left, consts, host) && Reduced(t.right, consts, host)
        && (Optimizable(t.left) && Optimizable(t.right) ==> !HasValue(t, host))
  }

  /** The operator on these constants evaluates to a boolean or a number. */
  predicate HasValue(t: Tree, host: Host)
    requires t.Node?
  {
    var x := Eval(t, EMPTY_STORE, host).0;
    x.Ok? && x.value.Temp? && x.value.value.Plain?
  }

  lemma {:induction false} OptReduces(t: Tree, consts: Constants, host: Host)
    requires Opt(t, consts, host).Some?
    ensures Reduced(Opt(t, consts, host).value, consts, host)
  {
    if t.Node? && t.data.Sig? && KindOf(t.data.op.signal) !in {KCompound, KPair, KOther} {
      OptReduces(t.left, consts, host);
      if KindOf(t.data.op.signal) == KChoice {
        OptReduces(t.right.left, consts, host);
        OptReduces(t.right.right, consts, host);
      } else {
        OptReduces(t.right, consts, host);
      }
    }
  }

  /** Folding again changes nothing, unless an operand has been folded away and the tree is rejected. */
  lemma {:induction false} ReducedStays(t: Tree, consts: Constants, host: Host)
    requires Reduced(t, consts, host) && Opt(t, consts, host).Some?
    ensures Opt(t, consts, host) == Some(t)
  {
    if t.Node? && t.data.Sig? && KindOf(t.data.op.signal) !in {KCompound, KPair, KOther} {
      ReducedStays(t.left, consts, host);
      if KindOf(t.data.op.signal) == KChoice {
        ReducedStays(t.right.left, consts, host);
        ReducedStays(t.right.right, consts, host);
      } else {
        ReducedStays(t.right, consts, host);
      }
    }
  }

  // ----- programs -----

  predicate ReducedIfAny(e: Option<Tree>, f: Folding) {
    e.Some? ==> Reduced(e.value, f.consts, f.host)
  }

  /** Every expression of the statement, at any depth. */
  predicate AllReduced(s: Stmt, f: Folding)
    decreases s, 0
  {
    match s
    case ExprS(e) => Reduced(e, f.consts, f.host)
    case VarS(_, e) => Reduced(e, f.consts, f.host)
    case CallS(_, _, args) => forall i :: 0 <= i < |args| ==> Reduced(args[i], f.consts, f.host)
    case BreakS | ContinueS => true
    case ReturnS(e) => ReducedIfAny(e, f)
    case ThrowS(e) => Reduced(e, f.consts, f.host)
    case BlockS(body) => SeqReduced(body, f)
    case IfS(c, thn) => Reduced(c, f.consts, f.host) && SeqReduced(thn, f)
    case IfElseS(c, thn, els) => Reduced(c, f.consts, f.host) && SeqReduced(thn, f) && SeqReduced(els, f)
    case LoopS(init, cond, body, step, until) =>
      && (init.Some? ==> Reduced(init.value.1, f.consts, f.host))
      && ReducedIfAny(cond, f) && ReducedIfAny(step, f) && ReducedIfAny(until, f) && SeqReduced(body, f)
    case TryS(body, _, handler) => SeqReduced(body, f) && SeqReduced(handler, f)
  }

  predicate SeqReduced(body: seq<Stmt>, f: Folding)
    decreases body, 1
  {
    body == [] || (AllReduced(body[0], f) && SeqReduced(body[1..], f))
  }

  lemma FoldedIsReduced(e: Tree, f: Folding)
    requires Foldable(e, f)
    ensures Reduced(Folded(e, f), f.consts, f.host)
  {
    OptReduces(e, f.consts, f.host);
  }

  lemma FoldedIfAnyIsReduced(e: Option<Tree>, f: Folding)
    requires e.Some? ==> Foldable(e.value, f)
    ensures ReducedIfAny(FoldedIfAny(e, f), f)
  {
    if e.Some? { FoldedIsReduced(e.value, f); }
  }

  /** The optimizer leaves no expression of a program unfolded. */
  lemma {:induction false} OptimizeReduces(s: Stmt, f: Folding)
    requires Fit(s, f)
    ensures AllReduced(Optimize(s, f), f)
    decreases s, 0
  {
    match s
    case ExprS(e) => FoldedIsReduced(e, f);
    case VarS(_, e) => FoldedIsReduced(e, f);
    case CallS(_, _, args) =>
      FoldedAllAt(args, f);
      forall i | 0 <= i < |args| ensures Reduced(FoldedAll(args, f)[i], f.consts, f.host) {
        FoldedIsReduced(args[i], f);
      }
    case ReturnS(e) => FoldedIfAnyIsReduced(e, f);
    case ThrowS(e) => FoldedIsReduced(e, f);
    case BlockS(body) => OptimizeAllReduces(body, f);
    case IfS(c, thn) => FoldedIsReduced(c, f); OptimizeAllReduces(thn, f);
    case IfElseS(c, thn, els) => FoldedIsReduced(c, f); OptimizeAllReduces(thn, f); OptimizeAllReduces(els, f);
    case LoopS(init, cond, body, step, until) =>
      if init.Some? { FoldedIsReduced(init.value.1, f); }
      FoldedIfAnyIsReduced(cond, f);
      FoldedIfAnyIsReduced(step, f);
      FoldedIfAnyIsReduced(until, f);
      OptimizeAllReduces(body, f);
    case TryS(body, _, handler) => OptimizeAllReduces(body, f); OptimizeAllReduces(handler, f);
    case _ =>
  }

  lemma {:induction false} OptimizeAllReduces(body: seq<Stmt>, f: Folding)
    requires AllFit(body, f)
    ensures SeqReduced(OptimizeAll(body, f), f)
    decreases body, 1
  {
    if body != [] {
      OptimizeReduces(body[0], f);
      OptimizeAllReduces(body[1..], f);
      assert OptimizeAll(body, f)[1..] == OptimizeAll(body[1..], f);
    }
  }

  lemma {:induction false} FoldedAllAt(es: seq<Tree>, f: Folding)
    ensures |FoldedAll(es, f)| == |es| && forall i :: 0 <= i < |es| ==> FoldedAll(es, f)[i] == Folded(es[i], f)
  {
    if es != [] {
      FoldedAllAt(es[1..], f);
    }
  }
}
