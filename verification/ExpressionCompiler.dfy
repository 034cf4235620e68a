/**
 From the tokens of an expression to the tree that is evaluated. `gen_tree` finishes the tree of every
 group with `optimize_expression` before the tree around it is grown, and finishes that one as well. The
 result stands for the expression as written, groups inside groups, finished nowhere.
 */
module ExpressionCompiler {
  import opened Options
  import opened Signals
  import opened Trees
  import opened Parser
  import opened TreeHeap
  import opened Evaluator
  import opened Optimizer
  import opened Trimmer
  import opened OptimizerHeap
  import opened TreeBuilder
  import opened ParserTheorems

  // ----- expressions whose signs stay what they are -----

  /** The trees of the fragment in which no `-` or `*` can lose its left operand while groups are finished and
      merged; nothing is asked of other operands. `empty` tells whether the tree itself may come down to the null
      operand, through an empty branch of a conditional. A trimmed tree has no groups left, and its signs are
      marked. */
  predicate Stable(t: Tree, trimmed: bool, empty: bool) {
    t.Node? &&
    if !t.data.Sig? then
      (t.data.Id? || t.data.Val? || (empty && t.data.Null?)
       || (!trimmed && t.data.Expr? && Stable(t.data.tree, false, empty)))
      && t.left.Nil? && t.right.Nil?
    else
      match KindOf(t.data.op.signal)
      case KOther | KPair => false
      case KChoice =>
        Stable(t.left, trimmed, true) && t.right.Node? && t.right.data.Sig? && t.right.data.op.signal.Pair?
        && Stable(t.right.left, trimmed, empty) && Stable(t.right.right, trimmed, empty)
      case _ =>
        (Stable(t.left, trimmed, MayLackLeft(t.data.op)) || (!trimmed && IsSign(t))) && Stable(t.right, trimmed, true)
  }

  /** Without a left operand these are no other operators. */
  predicate MayLackLeft(op: Operator) { !op.signal.Sub? && !op.signal.Mul? }

  /** A minus sign without a left operand. */
  predicate IsSign(t: Tree) {
    t.Node? && t.data.Sig? && t.data.op.signal.Sub? && t.left == Leaf(Null)
  }

  lemma {:induction false} StableIsStable(t: Tree, trimmed: bool)
    requires Stable(t, trimmed, false)
    ensures Stable(t, trimmed, true)
  {
    if t.data.Expr? {
      StableIsStable(t.data.tree, false);
    } else if t.data.Sig? && KindOf(t.data.op.signal) == KChoice {
      StableIsStable(t.right.left, trimmed);
      StableIsStable(t.right.right, trimmed);
    }
  }

  lemma {:induction false} StableIsWritten(t: Tree, empty: bool)
    requires Stable(t, false, empty)
    ensures Written(t)
  {
    if t.data.Expr? {
      StableIsWritten(t.data.tree, empty);
    } else if t.data.Sig? && KindOf(t.data.op.signal) == KChoice {
      StableIsWritten(t.left, true);
      StableIsWritten(t.right.left, empty);
      StableIsWritten(t.right.right, empty);
    } else if t.data.Sig? {
      if Stable(t.left, false, MayLackLeft(t.data.op)) {
        StableIsWritten(t.left, MayLackLeft(t.data.op));
      }
      StableIsWritten(t.right, true);
    }
  }

  /** A trimmed tree reads as it stands. */
  lemma {:induction false} TrimmedReads(t: Tree, empty: bool)
    requires Stable(t, true, empty)
    ensures Stable(t, false, empty) && Read(t) == t
  {
    if t.data.Sig? && KindOf(t.data.op.signal) == KChoice {
      TrimmedReads(t.left, true);
      TrimmedReads(t.right.left, empty);
      TrimmedReads(t.right.right, empty);
    } else if t.data.Sig? {
      TrimmedReads(t.left, MayLackLeft(t.data.op));
      TrimmedReads(t.right, true);
    }
  }

  lemma {:induction false} TrimIsStable(t: Tree, empty: bool)
    requires Stable(t, false, empty) && Trim(t).Some?
    ensures Stable(Trim(t).value, true, empty)
  {
    if t.data.Expr? {
      TrimIsStable(t.data.tree, empty);
    } else if t.data.Sig? && KindOf(t.data.op.signal) == KChoice {
      TrimIsStable(t.left, true);
      TrimIsStable(t.right.left, empty);
      TrimIsStable(t.right.right, empty);
    } else if t.data.Sig? {
      if Stable(t.left, false, MayLackLeft(t.data.op)) {
        TrimIsStable(t.left, MayLackLeft(t.data.op));
      }
      TrimIsStable(t.right, true);
    }
  }

  lemma {:induction false} OptIsStable(t: Tree, empty: bool, consts: Constants, host: Host)
    requires Stable(t, true, empty) && Opt(t, consts, host).Some?
    ensures Stable(Opt(t, consts, host).value, true, empty)
  {
    if t.data.Sig? && KindOf(t.data.op.signal) == KChoice {
      OptIsStable(t.left, true, consts, host);
      OptIsStable(t.right.left, empty, consts, host);
      OptIsStable(t.right.right, empty, consts, host);
    } else if t.data.Sig? && KindOf(t.data.op.signal) != KCompound {
      OptIsStable(t.left, MayLackLeft(t.data.op), consts, host);
      OptIsStable(t.right, true, consts, host);
    }
  }

  // ----- a tree with finished groups next to the tree as written -----

  /** `u`, a finished tree, is what the tree `w` as written has been compiled to. */
  ghost predicate Compiled(u: Tree, w: Tree, f: Finish)
    requires f.Passes?
  {
    && (Stable(w, false, true) ==> Stable(u, true, true) && Stands(u, Read(w), f.consts, f.host))
    && (Stable(w, false, false) ==> Stable(u, true, false))
  }

  /** The same token, or a finished group for the group as written. */
  ghost predicate TokenRefines(p: Token, q: Token, f: Finish)
    requires f.Passes?
  {
    p == q || (p.Expr? && q.Expr? && Compiled(p.tree, q.tree, f))
  }

  ghost predicate Refines(a: Tree, b: Tree, f: Finish)
    requires f.Passes?
  {
    if a.Nil? || b.Nil? then a == b
    else TokenRefines(a.data, b.data, f) && Refines(a.left, b.left, f) && Refines(a.right, b.right, f)
  }

  lemma {:induction false} AttachRefines(a: Tree, b: Tree, p: Token, q: Token, f: Finish)
    requires f.Passes? && a.Node? && b.Node? && Refines(a, b, f) && TokenRefines(p, q, f)
    ensures Refines(Attach(a, p), Attach(b, q), f)
  {
    if b.right.Node? {
      AttachRefines(a.right, b.right, p, q, f);
    }
  }

  lemma {:induction false} ClimbRefines(a: Tree, b: Tree, s: Operator, f: Finish)
    requires f.Passes? && IsExpr(a) && IsExpr(b) && Refines(a, b, f)
    ensures Refines(Climb(a, s), Climb(b, s), f)
  {
    if b.right.Node? {
      assert a.data == b.data;
      if b.data.op.level < s.level {
        ClimbRefines(a.right, b.right, s, f);
      }
    }
  }

  ghost predicate AllRefine(p: seq<Token>, q: seq<Token>, f: Finish)
    requires f.Passes?
  {
    |p| == |q| && forall i :: 0 <= i < |p| ==> TokenRefines(p[i], q[i], f)
  }

  lemma {:induction false} BuildOpenRefines(signals: seq<Operator>, p: seq<Token>, q: seq<Token>, n: nat, f: Finish)
    requires f.Passes? && Buildable(signals, p) && Buildable(signals, q) && AllRefine(p, q, f) && 1 <= n <= |signals|
    ensures Refines(BuildOpen(signals, p, n), BuildOpen(signals, q, n), f)
  {
    if n > 1 {
      var a, b := BuildOpen(signals, p, n - 1), BuildOpen(signals, q, n - 1);
      BuildOpenRefines(signals, p, q, n - 1, f);
      AttachRefines(a, b, p[n - 1], q[n - 1], f);
      AttachClosed(a, p[n - 1]);
      AttachClosed(b, q[n - 1]);
      ClimbRefines(Attach(a, p[n - 1]), Attach(b, q[n - 1]), signals[n - 1], f);
    }
  }

  /** Finished groups give finished operands of the same tree. */
  lemma BuildRefines(signals: seq<Operator>, p: seq<Token>, q: seq<Token>, f: Finish)
    requires f.Passes? && Buildable(signals, p) && Buildable(signals, q) && AllRefine(p, q, f)
    ensures Refines(Build(signals, p), Build(signals, q), f)
  {
    var n := |signals|;
    BuildOpenRefines(signals, p, q, n, f);
    AttachRefines(BuildOpen(signals, p, n), BuildOpen(signals, q, n), p[n], q[n], f);
  }

  // ----- what stands for a group may take its place -----

  lemma LeafStands(a: Tree, b: Tree, f: Finish)
    requires f.Passes? && Refines(a, b, f) && Stable(b, false, true) && !b.data.Sig?
    ensures Stands(Read(a), Read(b), f.consts, f.host)
  {
    if a.data != b.data {
      var u, v := a.data.tree, Read(b.data.tree);
      TrimmedReads(u, true);
      forall st | Agrees(st, f.consts)
        ensures SameResult(Eval(Read(a), st, f.host), Eval(Read(b), st, f.host))
      {
        StandsHere(u, v, f.consts, st, f.host);
        assert Eval(Read(a), st, f.host) == Eval(u, st, f.host) && Eval(Read(b), st, f.host) == Eval(v, st, f.host);
      }
    }
  }

  lemma NullRefined(a: Tree, b: Tree, f: Finish)
    requires f.Passes? && Refines(a, b, f) && b == Leaf(Null)
    ensures a == b
  {
    assert Refines(a.left, Nil, f) && Refines(a.right, Nil, f);
  }

  lemma {:induction false} RefinedIsStable(a: Tree, b: Tree, empty: bool, f: Finish)
    requires f.Passes? && Refines(a, b, f) && Stable(b, false, empty)
    ensures Stable(a, false, empty)
  {
    if !b.data.Sig? {
      if a.data != b.data {
        TrimmedReads(a.data.tree, empty);
      }
    } else if KindOf(b.data.op.signal) == KChoice {
      RefinedIsStable(a.left, b.left, true, f);
      RefinedIsStable(a.right.left, b.right.left, empty, f);
      RefinedIsStable(a.right.right, b.right.right, empty, f);
    } else {
      if Stable(b.left, false, MayLackLeft(b.data.op)) {
        RefinedIsStable(a.left, b.left, MayLackLeft(b.data.op), f);
      } else {
        NullRefined(a.left, b.left, f);
      }
      RefinedIsStable(a.right, b.right, true, f);
    }
  }

  /** A sign is read alike in both trees. */
  lemma ReadOperator(a: Tree, b: Tree, f: Finish)
    requires f.Passes? && Refines(a, b, f) && b.Node? && b.data.Sig? && b.left.Node?
    ensures a.Node? && Read(a).data == Read(b).data && Read(b).data.Sig?
    ensures Read(b).data == if b.data.op.signal.Sub? && IsNull(b.left) then Sig(MINUS) else b.data
  {
    assert IsNull(a.left) <==> IsNull(b.left);
  }

  lemma RefinedOperator(a: Tree, b: Tree, f: Finish)
    requires f.Passes? && Refines(a, b, f) && b.Node? && b.data.Sig? && b.left.Node?
    requires KindOf(b.data.op.signal) !in {KChoice, KPair, KOther}
    requires Stands(Read(a.left), Read(b.left), f.consts, f.host)
    requires Stands(Read(a.right), Read(b.right), f.consts, f.host)
    ensures Stands(Read(a), Read(b), f.consts, f.host)
  {
    ReadOperator(a, b, f);
    OperatorStands(Read(a), Read(b), f.consts, f.host);
  }

  lemma RefinedChoice(a: Tree, b: Tree, f: Finish)
    requires f.Passes? && Refines(a, b, f) && b.Node? && b.data.Sig? && KindOf(b.data.op.signal) == KChoice
    requires b.left.Node? && b.right.Node? && b.right.data.Sig? && b.right.left.Node?
    requires Refines(a.left, b.left, f) && Refines(a.right, b.right, f)
    requires Stands(Read(a.left), Read(b.left), f.consts, f.host)
    requires Stands(Read(a.right.left), Read(b.right.left), f.consts, f.host)
    requires Stands(Read(a.right.right), Read(b.right.right), f.consts, f.host)
    ensures Stands(Read(a), Read(b), f.consts, f.host)
  {
    ReadParts(a);
    ReadParts(b);
    ReadParts(a.right);
    ReadParts(b.right);
    ChoiceStands(Read(a), Read(b), f.consts, f.host);
  }

  lemma {:induction false} RefinedStands(a: Tree, b: Tree, f: Finish)
    requires f.Passes? && Refines(a, b, f) && Stable(b, false, true)
    ensures Stands(Read(a), Read(b), f.consts, f.host)
  {
    if !b.data.Sig? {
      LeafStands(a, b, f);
    } else if KindOf(b.data.op.signal) == KChoice {
      RefinedStands(a.left, b.left, f);
      RefinedStands(a.right.left, b.right.left, f);
      RefinedStands(a.right.right, b.right.right, f);
      RefinedChoice(a, b, f);
    } else {
      if Stable(b.left, false, MayLackLeft(b.data.op)) {
        if !MayLackLeft(b.data.op) {
          StableIsStable(b.left, false);
        }
        RefinedStands(a.left, b.left, f);
      } else {
        NullRefined(a.left, b.left, f);
      }
      RefinedStands(a.right, b.right, f);
      RefinedOperator(a, b, f);
    }
  }

  lemma FinishedIsStable(a: Tree, empty: bool, f: Finish)
    requires f.Passes? && Stable(a, false, empty) && Finished(a, f).Some?
    ensures Stable(Finished(a, f).value, true, empty)
  {
    TrimIsStable(a, empty);
    if f.enabled {
      OptIsStable(Trim(a).value, empty, f.consts, f.host);
    }
  }

  /** Finishing a tree whose groups are finished. */
  lemma FinishedStands(a: Tree, b: Tree, f: Finish)
    requires f.Passes? && Refines(a, b, f) && Finished(a, f).Some?
    ensures Compiled(Finished(a, f).value, b, f)
  {
    if Stable(b, false, false) {
      RefinedIsStable(a, b, false, f);
      FinishedIsStable(a, false, f);
    }
    if Stable(b, false, true) {
      RefinedIsStable(a, b, true, f);
      RefinedStands(a, b, f);
      FinishedIsStable(a, true, f);
      StableIsWritten(a, true);
      forall st | Agrees(st, f.consts)
        ensures SameResult(Eval(Finished(a, f).value, st, f.host), Eval(Read(a), st, f.host))
      {
        OptimizedMeans(a, f.enabled, f.consts, st, f.host);
      }
      StandsTrans(Finished(a, f).value, Read(a), Read(b), f.consts, f.host);
    }
  }

  // ----- the whole expression -----

  lemma {:induction false} ConvertRefines(o: Token, f: Finish)
    requires f.Passes? && Convert(o, f).Some?
    ensures Convert(o, AsBuilt).Some? && TokenRefines(Convert(o, f).value, Convert(o, AsBuilt).value, f)
    decreases TokenSize(o), 1
  {
    if o.Group? {
      JoinedSize(o.segments);
      CompiledMeans(Joined(o.segments), f);
    }
  }

  lemma {:induction false} ConvertAllRefines(objects: seq<Token>, f: Finish, bound: nat)
    requires forall i :: 0 <= i < |objects| ==> TokenSize(objects[i]) <= bound
    requires f.Passes? && ConvertAll(objects, f, bound).Some?
    ensures ConvertAll(objects, AsBuilt, bound).Some?
    ensures AllRefine(ConvertAll(objects, f, bound).value, ConvertAll(objects, AsBuilt, bound).value, f)
    decreases bound, 2, |objects|
  {
    if objects != [] {
      ConvertAllRefines(objects[..|objects| - 1], f, bound);
      ConvertRefines(objects[|objects| - 1], f);
    }
  }

  lemma {:induction false} GrownRefines(raw: seq<Token>, f: Finish)
    requires f.Passes? && Grown(raw, f).Some?
    ensures Parse(raw, AsBuilt).Some? && Refines(Grown(raw, f).value, Parse(raw, AsBuilt).value, f)
    decreases ListSize(raw), 3
  {
    if |raw| == 1 {
      MemberSize(raw, 0);
      ConvertRefines(raw[0], f);
    } else if raw != [] {
      GrownStep(raw, f);
      GrownStep(raw, AsBuilt);
      var signals, objects := ScanTokens(raw).signals, Closed(ScanTokens(raw));
      ConvertAllRefines(objects, f, ListSize(raw));
      BuildRefines(signals, ConvertAll(objects, f, ListSize(raw)).value,
                   ConvertAll(objects, AsBuilt, ListSize(raw)).value, f);
    }
  }

  /** What is compiled group by group is also accepted as written, and if no `-` or `*` can lose its left operand
      it means what the writer meant: in every store that agrees with the constants it has the same value or error
      and leaves the same store. */
  lemma {:induction false} CompiledMeans(raw: seq<Token>, f: Finish)
    requires f.Passes? && Parse(raw, f).Some?
    ensures Parse(raw, AsBuilt).Some? && Compiled(Parse(raw, f).value, Parse(raw, AsBuilt).value, f)
    decreases ListSize(raw), 4
  {
    GrownRefines(raw, f);
    FinishedStands(Grown(raw, f).value, Parse(raw, AsBuilt).value, f);
  }

  /** The tree that is built, trimmed and folded group by group means what the precedence-ordered,
      parenthesised expression over the tokens means. */
  method CompileExpression(tree: TreeType, raw: seq<Token>, enabled: bool, consts: Constants, host: Host)
      returns (ok: bool)
    requires tree.Valid()
    modifies tree, tree.repr
    ensures tree.Valid() && fresh(tree.repr - old(tree.repr))
    ensures ok <==> Accepted(raw, Passes(enabled, consts, host))
    ensures ok ==> Parse(raw, AsBuilt).Some? && Some(tree.Tree()) == Parse(raw, Passes(enabled, consts, host))
    ensures ok && Stable(Parse(raw, AsBuilt).value, false, true) ==>
              forall st :: Agrees(st, consts) ==>
                SameResult(Eval(tree.Tree(), st, host), Eval(Read(Parse(raw, AsBuilt).value), st, host))
  {
    ok := GenTree(tree, raw, Passes(enabled, consts, host));
    ParseAccepts(raw, Passes(enabled, consts, host));
    if ok {
      CompiledMeans(raw, Passes(enabled, consts, host));
    }
  }
}
