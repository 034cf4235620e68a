/**
 Constant folding over whole programs: optimizing every expression of a program and of its functions
 changes neither outcome nor store, except through call arguments. A folded argument is bound to a
 protected cell where the unfolded one was bound to a cell of its own, and assigning to it then fails.
 */
module ProgramOptimizer {
  import opened Options
  import Signals
  import opened Numeric
  import opened Values
  import opened Trees
  import opened Evaluator
  import opened Optimizer
  import opened ConstantExpressions
  import opened Statements

  // ----- optimizing a program -----

  datatype Folding = Folding(consts: Constants, host: Host)

  predicate Foldable(e: Tree, f: Folding) {
    Opt(e, f.consts, f.host).Some?
  }

  /** An expression the optimizer rejects is left as it is. */
  function Folded(e: Tree, f: Folding): Tree {
    match Opt(e, f.consts, f.host)
    case Some(t) => t
    case None => e
  }

  function FoldedAll(es: seq<Tree>, f: Folding): seq<Tree> {
    if es == [] then [] else [Folded(es[0], f)] + FoldedAll(es[1..], f)
  }

  function FoldedIfAny(e: Option<Tree>, f: Folding): Option<Tree> {
    match e
    case None => None
    case Some(t) => Some(Folded(t, f))
  }

  function Optimize(s: Stmt, f: Folding): Stmt
    decreases s, 0
  {
    match s
    case ExprS(e) => ExprS(Folded(e, f))
    case VarS(name, e) => VarS(name, Folded(e, f))
    case CallS(name, func, args) => CallS(name, func, FoldedAll(args, f))
    case BreakS => BreakS
    case ContinueS => ContinueS
    case ReturnS(e) => ReturnS(FoldedIfAny(e, f))
    case ThrowS(e) => ThrowS(Folded(e, f))
    case BlockS(body) => BlockS(OptimizeAll(body, f))
    case IfS(c, thn) => IfS(Folded(c, f), OptimizeAll(thn, f))
    case IfElseS(c, thn, els) => IfElseS(Folded(c, f), OptimizeAll(thn, f), OptimizeAll(els, f))
    case LoopS(init, cond, body, step, until) =>
      LoopS(if init.None? then None else Some((init.value.0, Folded(init.value.1, f))), FoldedIfAny(cond, f),
            OptimizeAll(body, f), FoldedIfAny(step, f), FoldedIfAny(until, f))
    case TryS(body, name, handler) => TryS(OptimizeAll(body, f), name, OptimizeAll(handler, f))
  }

  function OptimizeAll(body: seq<Stmt>, f: Folding): seq<Stmt>
    decreases body, 1
  {
    if body == [] then [] else [Optimize(body[0], f)] + OptimizeAll(body[1..], f)
  }

  function OptimizeEnv(env: Env, f: Folding): Env {
    env.(funcs := map g | g in env.funcs :: Func(env.funcs[g].params, OptimizeAll(env.funcs[g].body, f)))
  }

  /** The expressions are accepted, no compile-time constant is bound anew, and every argument of a call
      stays in place. */
  ghost predicate Fit(s: Stmt, f: Folding)
    decreases s, 0
  {
    match s
    case ExprS(e) => Foldable(e, f)
    case VarS(name, e) => name !in f.consts && Foldable(e, f)
    case CallS(name, _, args) =>
      name !in f.consts
      && forall i :: 0 <= i < |args| ==> Foldable(args[i], f) && StaysInPlace(args[i], f.consts, f.host)
    case ReturnS(e) => e.Some? ==> Foldable(e.value, f)
    case ThrowS(e) => Foldable(e, f)
    case BlockS(body) => AllFit(body, f)
    case IfS(c, thn) => Foldable(c, f) && AllFit(thn, f)
    case IfElseS(c, thn, els) => Foldable(c, f) && AllFit(thn, f) && AllFit(els, f)
    case LoopS(init, cond, body, step, until) =>
      && (init.Some? ==> init.value.0 !in f.consts && Foldable(init.value.1, f))
      && (cond.Some? ==> Foldable(cond.value, f)) && (step.Some? ==> Foldable(step.value, f))
      && (until.Some? ==> Foldable(until.value, f)) && AllFit(body, f)
    case TryS(body, name, handler) => name !in f.consts && AllFit(body, f) && AllFit(handler, f)
    case _ => true
  }

  ghost predicate AllFit(body: seq<Stmt>, f: Folding)
    decreases body, 1
  {
    body == [] || (Fit(body[0], f) && AllFit(body[1..], f))
  }

  ghost predicate FitEnv(env: Env, f: Folding) {
    && env.host == f.host
    && forall g :: g in env.funcs ==>
      AllFit(env.funcs[g].body, f) && forall i :: 0 <= i < |env.funcs[g].params| ==> env.funcs[g].params[i] !in f.consts
  }

  // ----- stores that keep the constants -----

  /** Protected cells are as before, and the innermost domain binds the constants as before. */
  predicate Keeps(st: Store, st': Store, consts: Constants) {
    && SameBelow(st, st') && |st.cells| <= |st'.cells|
    && (forall l :: 0 <= l < |st.cells| && st.cells[l].prot ==> st'.cells[l] == st.cells[l])
    && (st.domains != [] ==> forall x :: x in consts ==>
          && (x in st'.domains[0] <==> x in st.domains[0])
          && (x in st.domains[0] ==> st'.domains[0][x] == st.domains[0][x]))
  }

  lemma KeepsTrans(a: Store, b: Store, c: Store, consts: Constants)
    requires Keeps(a, b, consts) && Keeps(b, c, consts)
    ensures Keeps(a, c, consts)
  {
  }

  lemma FrameKeeps(st: Store, st': Store, consts: Constants)
    requires Frame(st, st')
    ensures Keeps(st, st', consts)
  {
  }

  lemma KeepsAgrees(st: Store, st': Store, consts: Constants)
    requires Keeps(st, st', consts) && Agrees(st, consts)
    ensures Agrees(st', consts)
  {
    forall x | x in consts ensures Lookup(st'.domains, x) == Lookup(st.domains, x) {
    }
  }

  lemma DefineKeeps(st: Store, name: string, cell: Cell, consts: Constants)
    requires st.domains != [] && name !in consts
    ensures Keeps(st, Define(st, name, cell), consts)
  {
  }

  lemma PushAgrees(st: Store, consts: Constants)
    ensures Agrees(st, consts) <==> Agrees(Push(st), consts)
  {
    assert Push(st).domains[1..] == st.domains;
    forall x | x in consts ensures Lookup(Push(st).domains, x) == Lookup(st.domains, x) {
    }
  }

  /** Leaving a scope. */
  lemma PopKeeps(st: Store, st': Store, consts: Constants)
    requires Keeps(Push(st), st', consts)
    ensures st'.domains != [] && Pop(st').domains == st.domains && Keeps(st, Pop(st'), consts)
  {
    assert Push(st).domains[1..] == st.domains;
  }

  lemma {:induction false} BindAllKeeps(st: Store, params: seq<string>, args: seq<Res>, consts: Constants)
    requires st.domains != [] && |params| == |args| && forall i :: 0 <= i < |params| ==> params[i] !in consts
    ensures Keeps(st, BindAll(st, params, args), consts)
    decreases |params|
  {
    if params != [] {
      var st1 := Bind(st, params[0], args[0]);
      assert Keeps(st, st1, consts);
      BindAllKeeps(st1, params[1..], args[1..], consts);
      KeepsTrans(st, st1, BindAll(st, params, args), consts);
    }
  }

  // ----- statements without bodies -----

  lemma EffectSame(e: Tree, st: Store, f: Folding)
    requires Foldable(e, f) && Agrees(st, f.consts)
    ensures Effect(Folded(e, f), st, f.host) == Effect(e, st, f.host)
    ensures Keeps(st, Effect(e, st, f.host).1, f.consts)
  {
    OptPreserves(e, f.consts, st, f.host);
    EvalFrame(e, st, f.host);
    FrameKeeps(st, Eval(e, st, f.host).1, f.consts);
  }

  lemma ValueSame(e: Tree, st: Store, f: Folding)
    requires Foldable(e, f) && Agrees(st, f.consts)
    ensures var (x', x) := (Eval(Folded(e, f), st, f.host), Eval(e, st, f.host));
      x'.1 == x.1
      && if x.0.Fail? then x'.0 == x.0 else x'.0.Ok? && ValueOf(x'.0.value, x.1) == ValueOf(x.0.value, x.1)
    ensures Keeps(st, Eval(e, st, f.host).1, f.consts)
  {
    OptPreserves(e, f.consts, st, f.host);
    EvalFrame(e, st, f.host);
    FrameKeeps(st, Eval(e, st, f.host).1, f.consts);
    var (x', _) := Eval(Folded(e, f), st, f.host);
    var (x, st1) := Eval(e, st, f.host);
    if x.Ok? { DerefStandsFor(x'.value, x.value, st1); }
  }

  lemma DefineSame(name: string, e: Tree, st: Store, f: Folding)
    requires st.domains != [] && name !in f.consts && Foldable(e, f) && Agrees(st, f.consts)
    ensures DefineVar(name, Folded(e, f), st, f.host) == DefineVar(name, e, st, f.host)
    ensures Keeps(st, DefineVar(name, e, st, f.host).1, f.consts)
  {
    ValueSame(e, st, f);
    EvalFrame(e, st, f.host);
    var (x, st1) := Eval(e, st, f.host);
    if x.Ok? {
      DefineKeeps(st1, name, Cell(ValueOf(x.value, st1), false), f.consts);
      KeepsTrans(st, st1, DefineVar(name, e, st, f.host).1, f.consts);
    }
  }

  lemma TestSame(c: Tree, st: Store, f: Folding)
    requires Foldable(c, f) && Agrees(st, f.consts)
    ensures Test(Folded(c, f), st, f.host) == Test(c, st, f.host)
    ensures Keeps(st, Test(c, st, f.host).1, f.consts) && Agrees(Test(c, st, f.host).1, f.consts)
  {
    BoolPreserved(c, f.consts, st, f.host);
    EvalFrame(c, st, f.host);
    FrameKeeps(st, Eval(c, st, f.host).1, f.consts);
  }

  lemma TestIfAnySame(c: Option<Tree>, default: bool, st: Store, f: Folding)
    requires (c.Some? ==> Foldable(c.value, f)) && Agrees(st, f.consts)
    ensures TestIfAny(FoldedIfAny(c, f), default, st, f.host) == TestIfAny(c, default, st, f.host)
    ensures Keeps(st, TestIfAny(c, default, st, f.host).1, f.consts)
    ensures Agrees(TestIfAny(c, default, st, f.host).1, f.consts)
  {
    if c.Some? { TestSame(c.value, st, f); }
  }

  lemma ReturnSame(e: Option<Tree>, st: Store, inFunc: bool, f: Folding)
    requires (e.Some? ==> Foldable(e.value, f)) && Agrees(st, f.consts)
    ensures ExecReturn(FoldedIfAny(e, f), st, inFunc, f.host) == ExecReturn(e, st, inFunc, f.host)
    ensures Keeps(st, ExecReturn(e, st, inFunc, f.host).1, f.consts)
  {
    if e.Some? { ValueSame(e.value, st, f); }
  }

  lemma ThrowSame(e: Tree, st: Store, f: Folding)
    requires Foldable(e, f) && Agrees(st, f.consts)
    ensures ExecThrow(Folded(e, f), st, f.host) == ExecThrow(e, st, f.host)
    ensures Keeps(st, ExecThrow(e, st, f.host).1, f.consts)
  {
    ValueSame(e, st, f);
  }

  lemma {:induction false} ArgsSame(args: seq<Tree>, st: Store, f: Folding)
    requires forall i :: 0 <= i < |args| ==> Foldable(args[i], f) && StaysInPlace(args[i], f.consts, f.host)
    requires Agrees(st, f.consts)
    ensures EvalArgs(FoldedAll(args, f), st, f.host) == EvalArgs(args, st, f.host)
    ensures Keeps(st, EvalArgs(args, st, f.host).1, f.consts) && |FoldedAll(args, f)| == |args|
  {
    if args != [] {
      StaysInEveryStore(args[0], f.consts, st, f.host);
      EvalFrame(args[0], st, f.host);
      var (x, st1) := Eval(args[0], st, f.host);
      AgreesFrame(st, st1, f.consts);
      ArgsSame(args[1..], st1, f);
      FrameKeeps(st, st1, f.consts);
      KeepsTrans(st, st1, EvalArgs(args[1..], st1, f.host).1, f.consts);
    }
  }

  // ----- whole programs -----

  lemma {:induction false} SameSeq(body: seq<Stmt>, st: Store, fuel: nat, inFunc: bool, env: Env, f: Folding)
    requires st.domains != [] && AllFit(body, f) && FitEnv(env, f) && Agrees(st, f.consts)
    ensures ExecSeq(OptimizeAll(body, f), st, fuel, inFunc, OptimizeEnv(env, f)) == ExecSeq(body, st, fuel, inFunc, env)
    ensures Keeps(st, ExecSeq(body, st, fuel, inFunc, env).1, f.consts)
    decreases fuel, body, 0
  {
    if body != [] {
      Same(body[0], st, fuel, inFunc, env, f);
      var (o, st1) := Exec(body[0], st, fuel, inFunc, env);
      if o.Normal? {
        KeepsAgrees(st, st1, f.consts);
        SameSeq(body[1..], st1, fuel, inFunc, env, f);
        KeepsTrans(st, st1, ExecSeq(body[1..], st1, fuel, inFunc, env).1, f.consts);
      }
    }
  }

  lemma {:induction false} SameScoped(body: seq<Stmt>, st: Store, fuel: nat, inFunc: bool, env: Env, f: Folding)
    requires st.domains != [] && AllFit(body, f) && FitEnv(env, f) && Agrees(st, f.consts)
    ensures ExecScoped(OptimizeAll(body, f), st, fuel, inFunc, OptimizeEnv(env, f))
         == ExecScoped(body, st, fuel, inFunc, env)
    ensures Keeps(st, ExecScoped(body, st, fuel, inFunc, env).1, f.consts)
    decreases fuel, body, 1
  {
    PushAgrees(st, f.consts);
    SameSeq(body, Push(st), fuel, inFunc, env, f);
    PopKeeps(st, ExecSeq(body, Push(st), fuel, inFunc, env).1, f.consts);
  }

  lemma SameSimple(s: Stmt, st: Store, fuel: nat, inFunc: bool, env: Env, f: Folding)
    requires s.ExprS? || s.VarS? || s.ReturnS? || s.ThrowS? || s.BreakS? || s.ContinueS?
    requires st.domains != [] && Fit(s, f) && FitEnv(env, f) && Agrees(st, f.consts)
    ensures Exec(Optimize(s, f), st, fuel, inFunc, OptimizeEnv(env, f)) == Exec(s, st, fuel, inFunc, env)
    ensures Keeps(st, Exec(s, st, fuel, inFunc, env).1, f.consts)
  {
    match s
    case ExprS(e) => EffectSame(e, st, f);
    case VarS(name, e) => DefineSame(name, e, st, f);
    case ReturnS(e) => ReturnSame(e, st, inFunc, f);
    case ThrowS(e) => ThrowSame(e, st, f);
    case _ =>
  }

  /** Optimizing every expression of a program and of its functions changes neither its outcome nor its
      store, for any cut-off, if the arguments of its calls stay in place. */
  lemma {:induction false} Same(s: Stmt, st: Store, fuel: nat, inFunc: bool, env: Env, f: Folding)
    requires st.domains != [] && Fit(s, f) && FitEnv(env, f) && Agrees(st, f.consts)
    ensures Exec(Optimize(s, f), st, fuel, inFunc, OptimizeEnv(env, f)) == Exec(s, st, fuel, inFunc, env)
    ensures Keeps(st, Exec(s, st, fuel, inFunc, env).1, f.consts)
    decreases fuel, s, 2
  {
    if s.BlockS? {
      SameScoped(s.body, st, fuel, inFunc, env, f);
    } else if s.IfS? || s.IfElseS? {
      SameIf(s, st, fuel, inFunc, env, f);
    } else if s.LoopS? {
      SameLoop(s, st, fuel, inFunc, env, f);
    } else if s.TryS? {
      SameTry(s, st, fuel, inFunc, env, f);
    } else if s.CallS? {
      SameCall(s, st, fuel, inFunc, env, f);
    } else {
      SameSimple(s, st, fuel, inFunc, env, f);
    }
  }

  lemma {:induction false} SameIf(s: Stmt, st: Store, fuel: nat, inFunc: bool, env: Env, f: Folding)
    requires (s.IfS? || s.IfElseS?) && st.domains != [] && Fit(s, f) && FitEnv(env, f) && Agrees(st, f.consts)
    ensures Exec(Optimize(s, f), st, fuel, inFunc, OptimizeEnv(env, f)) == Exec(s, st, fuel, inFunc, env)
    ensures Keeps(st, Exec(s, st, fuel, inFunc, env).1, f.consts)
    decreases fuel, s, 1
  {
    TestSame(s.c, st, f);
    var (b, st1) := Test(s.c, st, f.host);
    if b.Ok? && (b.value || s.IfElseS?) {
      var branch := if b.value then s.thn else s.els;
      SameScoped(branch, st1, fuel, inFunc, env, f);
      KeepsTrans(st, st1, ExecScoped(branch, st1, fuel, inFunc, env).1, f.consts);
    }
  }

  lemma {:induction false} SameTry(s: Stmt, st: Store, fuel: nat, inFunc: bool, env: Env, f: Folding)
    requires s.TryS? && st.domains != [] && Fit(s, f) && FitEnv(env, f) && Agrees(st, f.consts)
    ensures ExecTry(Optimize(s, f), st, fuel, inFunc, OptimizeEnv(env, f)) == ExecTry(s, st, fuel, inFunc, env)
    ensures Keeps(st, ExecTry(s, st, fuel, inFunc, env).1, f.consts)
    decreases fuel, s, 1
  {
    PushAgrees(st, f.consts);
    SameSeq(s.body, Push(st), fuel, inFunc, env, f);
    var (o, st1) := ExecSeq(s.body, Push(st), fuel, inFunc, env);
    PopKeeps(st, st1, f.consts);
    if o.Threw? && o.error.Lang? {
      var st2 := Caught(st1, s.name, o.error.text);
      CaughtKeeps(st, st1, s.name, o.error.text, f.consts);
      KeepsAgrees(Push(st), st2, f.consts);
      SameSeq(s.handler, st2, fuel, inFunc, env, f);
      var st3 := ExecSeq(s.handler, st2, fuel, inFunc, env).1;
      KeepsTrans(Push(st), st2, st3, f.consts);
      PopKeeps(st, st3, f.consts);
    }
  }

  lemma CaughtKeeps(st: Store, st1: Store, name: string, text: string, consts: Constants)
    requires Keeps(Push(st), st1, consts) && name !in consts
    ensures st1.domains != [] && Keeps(Push(st), Caught(st1, name, text), consts)
  {
  }

  lemma {:induction false} SameLoop(s: Stmt, st: Store, fuel: nat, inFunc: bool, env: Env, f: Folding)
    requires s.LoopS? && st.domains != [] && Fit(s, f) && FitEnv(env, f) && Agrees(st, f.consts)
    ensures ExecLoop(Optimize(s, f), st, fuel, inFunc, OptimizeEnv(env, f)) == ExecLoop(s, st, fuel, inFunc, env)
    ensures Keeps(st, ExecLoop(s, st, fuel, inFunc, env).1, f.consts)
    decreases fuel, s, 1
  {
    PushAgrees(st, f.consts);
    if s.init.None? {
      SameRounds(s, Push(st), fuel, inFunc, env, f);
      PopKeeps(st, ExecRounds(s, Push(st), fuel, inFunc, env).1, f.consts);
    } else {
      DefineSame(s.init.value.0, s.init.value.1, Push(st), f);
      var (o, st1) := DefineVar(s.init.value.0, s.init.value.1, Push(st), f.host);
      PopKeeps(st, st1, f.consts);
      if o.Normal? {
        KeepsAgrees(Push(st), st1, f.consts);
        PushAgrees(st1, f.consts);
        SameRounds(s, Push(st1), fuel, inFunc, env, f);
        var st2 := ExecRounds(s, Push(st1), fuel, inFunc, env).1;
        PopKeeps(st1, st2, f.consts);
        KeepsTrans(Push(st), st1, Pop(st2), f.consts);
        PopKeeps(st, Pop(st2), f.consts);
      }
    }
  }

  lemma {:induction false} SameRounds(s: Stmt, st: Store, fuel: nat, inFunc: bool, env: Env, f: Folding)
    requires s.LoopS? && st.domains != [] && Fit(s, f) && FitEnv(env, f) && Agrees(st, f.consts)
    ensures ExecRounds(Optimize(s, f), st, fuel, inFunc, OptimizeEnv(env, f)) == ExecRounds(s, st, fuel, inFunc, env)
    ensures Keeps(st, ExecRounds(s, st, fuel, inFunc, env).1, f.consts)
    decreases fuel, s, 0
  {
    if fuel > 0 {
      SameRound(s, st, fuel - 1, inFunc, env, f);
      var (end, st1) := ExecRound(s, st, fuel - 1, inFunc, env);
      if end.None? {
        KeepsAgrees(st, st1, f.consts);
        SameRounds(s, st1, fuel - 1, inFunc, env, f);
        KeepsTrans(st, st1, ExecRounds(s, st1, fuel - 1, inFunc, env).1, f.consts);
      }
    }
  }

  lemma SameFinish(s: Stmt, st: Store, f: Folding)
    requires s.LoopS? && st.domains != [] && Fit(s, f) && Agrees(st, f.consts)
    ensures FinishRound(Optimize(s, f), st, f.host) == FinishRound(s, st, f.host)
    ensures Keeps(st, FinishRound(s, st, f.host).1, f.consts)
  {
    if s.step.Some? { EffectSame(s.step.value, st, f); }
    var (o, st1) := if s.step.Some? then Effect(s.step.value, st, f.host) else (Normal, st);
    if o.Normal? {
      KeepsAgrees(st, st1, f.consts);
      TestIfAnySame(s.until, false, st1, f);
      KeepsTrans(st, st1, TestIfAny(s.until, false, st1, f.host).1, f.consts);
    }
  }

  /** The part of a round after its condition. */
  function AfterTest(s: Stmt, st: Store, fuel: nat, inFunc: bool, env: Env): (Option<Outcome>, Store)
    requires s.LoopS? && st.domains != []
  {
    var (o, st1) := ExecSeq(s.body, st, fuel, inFunc, env);
    if o.Broke? then (Some(Normal), st1)
    else if o.Normal? || o.Continued? then FinishRound(s, st1, env.host)
    else (Some(o), st1)
  }

  lemma RoundUnfolds(s: Stmt, st: Store, fuel: nat, inFunc: bool, env: Env)
    requires s.LoopS? && st.domains != []
    ensures var (b, st1) := TestIfAny(s.cond, true, st, env.host);
            && st1.domains != []
            && ExecRound(s, st, fuel, inFunc, env) ==
               if b.Fail? then (Some(Threw(b.error)), st1)
               else if !b.value then (Some(Normal), st1)
               else AfterTest(s, st1, fuel, inFunc, env)
  {
  }

  lemma {:induction false} SameAfterTest(s: Stmt, st: Store, fuel: nat, inFunc: bool, env: Env, f: Folding)
    requires s.LoopS? && st.domains != [] && Fit(s, f) && FitEnv(env, f) && Agrees(st, f.consts)
    ensures AfterTest(Optimize(s, f), st, fuel, inFunc, OptimizeEnv(env, f)) == AfterTest(s, st, fuel, inFunc, env)
    ensures Keeps(st, AfterTest(s, st, fuel, inFunc, env).1, f.consts)
    decreases fuel, s, 0
  {
    SameSeq(s.body, st, fuel, inFunc, env, f);
    var (o, st1) := ExecSeq(s.body, st, fuel, inFunc, env);
    if o.Normal? || o.Continued? {
      KeepsAgrees(st, st1, f.consts);
      SameFinish(s, st1, f);
      KeepsTrans(st, st1, FinishRound(s, st1, f.host).1, f.consts);
    }
  }

  lemma {:induction false} SameRound(s: Stmt, st: Store, fuel: nat, inFunc: bool, env: Env, f: Folding)
    requires s.LoopS? && st.domains != [] && Fit(s, f) && FitEnv(env, f) && Agrees(st, f.consts)
    ensures ExecRound(Optimize(s, f), st, fuel, inFunc, OptimizeEnv(env, f)) == ExecRound(s, st, fuel, inFunc, env)
    ensures Keeps(st, ExecRound(s, st, fuel, inFunc, env).1, f.consts)
    decreases fuel, s, 1
  {
    RoundUnfolds(s, st, fuel, inFunc, env);
    RoundUnfolds(Optimize(s, f), st, fuel, inFunc, OptimizeEnv(env, f));
    TestIfAnySame(s.cond, true, st, f);
    var (b, st1) := TestIfAny(s.cond, true, st, f.host);
    if b.Ok? && b.value {
      SameAfterTest(s, st1, fuel, inFunc, env, f);
      KeepsTrans(st, st1, AfterTest(s, st1, fuel, inFunc, env).1, f.consts);
    }
  }

  lemma CallInvokes(s: Stmt, st: Store, fuel: nat, env: Env)
    requires s.CallS? && st.domains != [] && s.func in env.funcs && fuel > 0
    ensures var (args, st1) := EvalArgs(s.args, st, env.host);
      st1.domains != [] && (args.Ok? && |args.value| == |env.funcs[s.func].params| ==>
        ExecCall(s, st, fuel, env) == Invoke(s.name, env.funcs[s.func], args.value, st1, fuel - 1, env))
  {
    EvalArgsFrame(s.args, st, env.host);
  }

  lemma {:induction false} SameCall(s: Stmt, st: Store, fuel: nat, inFunc: bool, env: Env, f: Folding)
    requires s.CallS? && st.domains != [] && Fit(s, f) && FitEnv(env, f) && Agrees(st, f.consts)
    ensures ExecCall(Optimize(s, f), st, fuel, OptimizeEnv(env, f)) == ExecCall(s, st, fuel, env)
    ensures Keeps(st, ExecCall(s, st, fuel, env).1, f.consts)
    decreases fuel, s, 1
  {
    if s.func in env.funcs {
      var g := env.funcs[s.func];
      ArgsSame(s.args, st, f);
      EvalArgsFrame(s.args, st, f.host);
      var (args, st1) := EvalArgs(s.args, st, f.host);
      if args.Ok? && |args.value| == |g.params| && fuel > 0 {
        KeepsAgrees(st, st1, f.consts);
        CallInvokes(s, st, fuel, env);
        CallInvokes(Optimize(s, f), st, fuel, OptimizeEnv(env, f));
        SameInvoke(s.name, s.func, args.value, st1, fuel - 1, env, f);
        KeepsTrans(st, st1, ExecCall(s, st, fuel, env).1, f.consts);
      }
    }
  }

  lemma {:induction false} SameInvoke(name: string, func: string, args: seq<Res>, st: Store, fuel: nat, env: Env,
                                       f: Folding)
    requires st.domains != [] && name !in f.consts && FitEnv(env, f) && Agrees(st, f.consts)
    requires func in env.funcs && |args| == |env.funcs[func].params|
    ensures Invoke(name, OptimizeEnv(env, f).funcs[func], args, st, fuel, OptimizeEnv(env, f))
         == Invoke(name, env.funcs[func], args, st, fuel, env)
    ensures Keeps(st, Invoke(name, env.funcs[func], args, st, fuel, env).1, f.consts)
    decreases fuel, env.funcs[func].body, 1
  {
    var g := env.funcs[func];
    PushAgrees(st, f.consts);
    var bound := BindAll(Push(st), g.params, args);
    BindAllKeeps(Push(st), g.params, args, f.consts);
    KeepsAgrees(Push(st), bound, f.consts);
    SameSeq(g.body, bound, fuel, true, env, f);
    var (o, st2) := ExecSeq(g.body, bound, fuel, true, env);
    KeepsTrans(Push(st), bound, st2, f.consts);
    PopKeeps(st, st2, f.consts);
    var cell := Cell(if o.Returned? then o.v else NullPointer, false);
    DefineKeeps(Pop(st2), name, cell, f.consts);
    KeepsTrans(st, Pop(st2), Define(Pop(st2), name, cell), f.consts);
  }

  // ----- the exception -----

  /** A call tells a folded argument from an unfolded one exactly when the result has moved: what the
      parameter is bound to differs, and with it the store. */
  lemma FoldedArgument(e: Tree, name: string, st: Store, f: Folding)
    requires st.domains != [] && Foldable(e, f) && Agrees(st, f.consts) && Eval(e, st, f.host).0.Ok?
    ensures var (x, st1) := Eval(e, st, f.host);
      Eval(Folded(e, f), st, f.host).0.Ok? && st1.domains != []
      && (Bind(Push(st1), name, Eval(Folded(e, f), st, f.host).0.value) == Bind(Push(st1), name, x.value)
          <==> SamePlace(e, f.consts, st, f.host))
  {
    OptPreserves(e, f.consts, st, f.host);
    SameResultExactly(e, f.consts, st, f.host);
    EvalFrame(e, st, f.host);
    var (x, st1) := Eval(e, st, f.host);
    var x' := Eval(Folded(e, f), st, f.host).0;
    if x' != x {
      assert x'.value.Lit? && !x.value.Lit?;
      assert Bind(Push(st1), name, x'.value).cells == st1.cells + [Cell(Plain(x'.value.v), true)];
      assert Bind(Push(st1), name, x'.value).cells[|st1.cells|].prot;
      if x.value.Temp? {
        assert !Bind(Push(st1), name, x.value).cells[|st1.cells|].prot;
      }
    }
  }

  /** A function that assigns to its parameter. */
  function AssignTo(name: string): Tree {
    Node(Sig(Signals.OperatorOf(Signals.Asi)), Leaf(Id(name)), Leaf(Val(Num(Int(5)))))
  }

  function AssignsItsParameter(): Func { Func(["p"], [ExprS(AssignTo("p"))]) }

  lemma AssignmentFolds(name: string, f: Folding)
    requires name !in f.consts
    ensures Folded(AssignTo(name), f) == AssignTo(name)
  {
    var t := AssignTo(name);
    assert KindOf(t.data.op.signal) == KAssign && OperandsPresent(t);
    assert Opt(t.left, f.consts, f.host) == Some(t.left) && Opt(t.right, f.consts, f.host) == Some(t.right);
  }

  /** Assigning works on an argument that was bound to a cell of its own, and fails on a constant. */
  lemma AssignmentRuns(name: string, arg: Res, st: Store, host: Host)
    requires st.domains != [] && (arg.Lit? || (arg.Temp? && !arg.value.Unset?))
    ensures Effect(AssignTo(name), Bind(st, name, arg), host).0 == if arg.Lit? then Threw(Protected) else Normal
  {
    var t, bound := AssignTo(name), Bind(st, name, arg);
    var value := Plain(Num(Int(5)));
    assert Eval(t.left, bound, host) == (Ok(Ref(|st.cells|)), bound);
    assert Eval(t.right, bound, host) == (Ok(Lit(value.s)), bound);
    assert EvalBoth(t, bound, host) == (Ok((Ref(|st.cells|), Lit(value.s))), bound);
    assert KindOf(t.data.op.signal) == KAssign;
    assert Eval(t, bound, host) == Assign(Ref(|st.cells|), Some(value), Lit(value.s), bound);
  }

  lemma CallAssigns(name: string, arg: Res, st: Store, fuel: nat, env: Env)
    requires st.domains != [] && (arg.Lit? || (arg.Temp? && !arg.value.Unset?))
    ensures Invoke(name, AssignsItsParameter(), [arg], st, fuel, env).0 == if arg.Lit? then Threw(Protected) else Normal
  {
    var g := AssignsItsParameter();
    var bound := Bind(Push(st), "p", arg);
    assert g.params[1..] == [] && [arg][1..] == [] && g.body[1..] == [];
    assert BindAll(bound, [], []) == bound;
    assert BindAll(Push(st), g.params, [arg]) == bound;
    AssignmentRuns("p", arg, Push(st), env.host);
    var (o, st1) := Effect(AssignTo("p"), bound, env.host);
    assert Exec(g.body[0], bound, fuel, true, env) == (o, st1);
    assert ExecSeq([], st1, fuel, true, env).0 == Normal;
  }

  /** A call with one argument, seen from the argument. */
  lemma CallWithOne(name: string, func: string, e: Tree, st: Store, fuel: nat, env: Env)
    requires st.domains != [] && func in env.funcs && |env.funcs[func].params| == 1 && fuel > 0
    ensures var (x, st1) := Eval(e, st, env.host);
      st1.domains != [] && (x.Ok? ==> Exec(CallS(name, func, [e]), st, fuel, false, env)
                                      == Invoke(name, env.funcs[func], [x.value], st1, fuel - 1, env))
  {
    EvalFrame(e, st, env.host);
    var (x, st1) := Eval(e, st, env.host);
    var rest: seq<Tree> := [e][1..];
    assert rest == [] && EvalArgs(rest, st1, env.host) == (Ok([]), st1);
    if x.Ok? {
      assert [x.value] + [] == [x.value];
      assert EvalArgs([e], st, env.host) == (Ok([x.value]), st1);
    }
    CallInvokes(CallS(name, func, [e]), st, fuel, env);
  }

  lemma CallOfAssignment(e: Tree, x: Res, st: Store, fuel: nat, env: Env)
    requires st.domains != [] && "f" in env.funcs && env.funcs["f"] == AssignsItsParameter() && fuel > 0
    requires Eval(e, st, env.host).0 == Ok(x) && (x.Lit? || (x.Temp? && !x.value.Unset?))
    ensures Exec(CallS("r", "f", [e]), st, fuel, false, env).0 == if x.Lit? then Threw(Protected) else Normal
  {
    CallWithOne("r", "f", e, st, fuel, env);
    CallAssigns("r", x, Eval(e, st, env.host).1, fuel - 1, env);
  }

  lemma FoldedToConstant(e: Tree, st: Store, f: Folding)
    requires Foldable(e, f) && Agrees(st, f.consts) && Constant(e, f.consts, f.host)
    requires e.data.Sig? && KindOf(e.data.op.signal) != KChoice
    ensures var (x, st1) := Eval(e, st, f.host);
      x.Ok? && x.value.Temp? && !x.value.value.Unset? && IsValue(Folded(e, f))
      && Eval(Folded(e, f), st, f.host) == (Ok(Lit(Folded(e, f).data.value)), st1)
  {
    OptPreserves(e, f.consts, st, f.host);
    ConstantExactly(e, f.consts, f.host);
    OperatorGivesPlain(e, st, f.host);
  }

  lemma OptimizedParts(e: Tree, env: Env, f: Folding)
    requires "p" !in f.consts && "f" in env.funcs && env.funcs["f"] == AssignsItsParameter()
    ensures "f" in OptimizeEnv(env, f).funcs && OptimizeEnv(env, f).funcs["f"] == AssignsItsParameter()
    ensures Optimize(CallS("r", "f", [e]), f) == CallS("r", "f", [Folded(e, f)])
  {
    var body := AssignsItsParameter().body;
    AssignmentFolds("p", f);
    assert body[1..] == [] && OptimizeAll([], f) == [];
    assert OptimizeAll(body, f) == body;
    assert [e][1..] == [] && FoldedAll([], f) == [];
    assert FoldedAll([e], f) == [Folded(e, f)];
  }

  /** The exception is visible to a script: with an operator on constants as argument the call ends
      normally, with its folded form it ends by an error. */
  lemma FoldingChangesACall(e: Tree, st: Store, fuel: nat, env: Env, f: Folding)
    requires st.domains != [] && Foldable(e, f) && Agrees(st, f.consts) && "p" !in f.consts && fuel > 0
    requires e.Node? && e.data.Sig? && KindOf(e.data.op.signal) != KChoice && Constant(e, f.consts, f.host)
    requires env.host == f.host && "f" in env.funcs && env.funcs["f"] == AssignsItsParameter()
    ensures Exec(CallS("r", "f", [e]), st, fuel, false, env).0 == Normal
    ensures Exec(Optimize(CallS("r", "f", [e]), f), st, fuel, false, OptimizeEnv(env, f)).0 == Threw(Protected)
  {
    OptimizedParts(e, env, f);
    FoldedToConstant(e, st, f);
    CallOfAssignment(e, Eval(e, st, f.host).0.value, st, fuel, env);
    CallOfAssignment(Folded(e, f), Lit(Folded(e, f).data.value), st, fuel, OptimizeEnv(env, f));
  }

  /** `1 + 2` is such an argument. */
  function OnePlusTwo(): Tree {
    Node(Sig(Signals.OperatorOf(Signals.Add)), Leaf(Val(Num(Int(1)))), Leaf(Val(Num(Int(2)))))
  }

  lemma OnePlusTwoIsConstant(f: Folding)
    ensures Foldable(OnePlusTwo(), f) && Constant(OnePlusTwo(), f.consts, f.host)
    ensures Folded(OnePlusTwo(), f) == Leaf(Val(Num(Int(3))))
  {
    var t := OnePlusTwo();
    assert KindOf(t.data.op.signal) == KArith;
    forall st
      ensures Eval(t, st, f.host) == (Ok(Temp(Plain(Num(Int(3))))), st)
    {
      assert Eval(t.left, st, f.host) == (Ok(Lit(Num(Int(1)))), st);
      assert Eval(t.right, st, f.host) == (Ok(Lit(Num(Int(2)))), st);
      assert EvalBoth(t, st, f.host) == (Ok((Lit(Num(Int(1))), Lit(Num(Int(2))))), st);
    }
    assert Opt(t.left, f.consts, f.host) == Some(t.left) && Opt(t.right, f.consts, f.host) == Some(t.right);
    assert t.(left := t.left, right := t.right) == t;
  }

  lemma FoldingOnePlusTwoChangesACall(st: Store, fuel: nat, env: Env, f: Folding)
    requires st.domains != [] && Agrees(st, f.consts) && "p" !in f.consts && fuel > 0
    requires env.host == f.host && "f" in env.funcs && env.funcs["f"] == AssignsItsParameter()
    ensures Exec(CallS("r", "f", [OnePlusTwo()]), st, fuel, false, env).0 == Normal
    ensures Optimize(CallS("r", "f", [OnePlusTwo()]), f) == CallS("r", "f", [Leaf(Val(Num(Int(3))))])
    ensures Exec(CallS("r", "f", [Leaf(Val(Num(Int(3))))]), st, fuel, false, OptimizeEnv(env, f)).0 == Threw(Protected)
  {
    OnePlusTwoIsConstant(f);
    OptimizedParts(OnePlusTwo(), env, f);
    FoldingChangesACall(OnePlusTwo(), st, fuel, env, f);
  }
}
