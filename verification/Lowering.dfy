/**
 What the code generator does with constant conditions, and that it changes no program's meaning, with
 one exception: `loop ... until true` becomes a plain block, which does not stop a break or continue.
 */
module Lowering {
  import opened Options
  import opened Values
  import opened Trees
  import opened Evaluator
  import opened Statements

  predicate IsConstant(c: Tree) { c.Node? && c.data.Val? && c.data.value.Bool? }

  predicate IsTrue(c: Tree) { IsConstant(c) && c.data.value.b }

  predicate IsFalse(c: Tree) { IsConstant(c) && !c.data.value.b }

  /** `method_if`. The dead branch is dropped; a false `if` without `else` leaves nothing. */
  function LowerIf(c: Tree, thn: seq<Stmt>): seq<Stmt> {
    if IsTrue(c) then [BlockS(thn)] else if IsFalse(c) then [] else [IfS(c, thn)]
  }

  function LowerIfElse(c: Tree, thn: seq<Stmt>, els: seq<Stmt>): seq<Stmt> {
    if IsTrue(c) then [BlockS(thn)] else if IsFalse(c) then [BlockS(els)] else [IfElseS(c, thn, els)]
  }

  function WithBody(s: Stmt, body: seq<Stmt>): (t: Stmt)
    requires s.LoopS?
    ensures t.LoopS? && t.body == body
  {
    LoopS(s.init, s.cond, body, s.step, s.until)
  }

  /** `method_while` and `method_loop`: the statement for a loop with the given conditions. */
  function LowerLoop(s: Stmt, body: seq<Stmt>): seq<Stmt>
    requires s.LoopS?
  {
    if s.init.Some? || s.step.Some? then [WithBody(s, body)]
    else if s.cond.Some? && s.until.None? && IsTrue(s.cond.value) then [ForeverS(body)]
    else if s.cond.Some? && s.until.None? && IsFalse(s.cond.value) then []
    else if s.until.Some? && s.cond.None? && IsTrue(s.until.value) then [BlockS(body)]
    else if s.until.Some? && s.cond.None? && IsFalse(s.until.value) then [ForeverS(body)]
    else [WithBody(s, body)]
  }

  /** The statements generated for a statement: none or one, bodies first. */
  function Lower(s: Stmt): seq<Stmt>
    decreases s, 0
  {
    match s
    case BlockS(body) => [BlockS(LowerSeq(body))]
    case IfS(c, thn) => LowerIf(c, LowerSeq(thn))
    case IfElseS(c, thn, els) => LowerIfElse(c, LowerSeq(thn), LowerSeq(els))
    case LoopS(_, _, body, _, _) => LowerLoop(s, LowerSeq(body))
    case TryS(body, name, handler) => [TryS(LowerSeq(body), name, LowerSeq(handler))]
    case _ => [s]
  }

  function LowerSeq(body: seq<Stmt>): seq<Stmt>
    decreases body, 1
  {
    if body == [] then [] else Lower(body[0]) + LowerSeq(body[1..])
  }

  function LowerEnv(env: Env): Env {
    env.(funcs := map f | f in env.funcs :: Func(env.funcs[f].params, LowerSeq(env.funcs[f].body)))
  }

  // ----- one statement at a time -----

  /** A constant condition evaluates to itself and touches nothing. */
  lemma ConstantTest(c: Tree, st: Store, host: Host)
    requires IsConstant(c)
    ensures Test(c, st, host) == (Ok(c.data.value.b), st)
  {
    assert Eval(c, st, host) == (Ok(Lit(c.data.value)), st);
    assert Deref(Lit(c.data.value), st) == Some(Plain(Bool(c.data.value.b)));
  }

  /** The exact relation between `loop ... until true` and the block it becomes: they agree on a run
      unless the body breaks or continues, which the loop stops and the block passes on. */
  lemma UntilTrueIsABlock(body: seq<Stmt>, c: Tree, st: Store, fuel: nat, inFunc: bool, env: Env)
    requires st.domains != [] && IsTrue(c)
    ensures Exec(LoopUntilS(body, c), st, fuel + 1, inFunc, env) ==
            var block := Exec(BlockS(body), st, fuel, inFunc, env);
            if Escapes(block.0) then (Normal, block.1) else block
    ensures Exec(LoopUntilS(body, c), st, fuel + 1, inFunc, env) == Exec(BlockS(body), st, fuel, inFunc, env)
            <==> !Escapes(ExecSeq(body, Push(st), fuel, inFunc, env).0)
  {
    var s := LoopUntilS(body, c);
    var (o, st1) := ExecSeq(body, Push(st), fuel, inFunc, env);
    ConstantTest(c, st1, env.host);
    assert ExecRound(s, Push(st), fuel, inFunc, env)
        == (if Escapes(o) || o.Normal? then (Some(Normal), st1) else (Some(o), st1));
    assert ExecRounds(s, Push(st), fuel + 1, inFunc, env) == (if Escapes(o) then (Normal, st1) else (o, st1));
    assert ExecLoop(s, st, fuel + 1, inFunc, env) == (if Escapes(o) then Normal else o, Pop(st1));
    assert ExecScoped(body, st, fuel, inFunc, env) == (o, Pop(st1));
  }

  /** The failing family is real: a body that starts with `break`. */
  lemma UntilTrueLosesBreak(rest: seq<Stmt>, c: Tree, st: Store, fuel: nat, inFunc: bool, env: Env)
    requires st.domains != [] && IsTrue(c)
    ensures Exec(LoopUntilS([BreakS] + rest, c), st, fuel + 1, inFunc, env) == (Normal, st)
    ensures Exec(BlockS([BreakS] + rest), st, fuel, inFunc, env) == (Broke, st)
  {
    var body := [BreakS] + rest;
    UntilTrueIsABlock(body, c, st, fuel, inFunc, env);
    assert Exec(BreakS, Push(st), fuel, inFunc, env) == (Broke, Push(st));
    assert body[0] == BreakS && ExecSeq(body, Push(st), fuel, inFunc, env) == (Broke, Push(st));
    assert Exec(BlockS(body), st, fuel, inFunc, env) == ExecScoped(body, st, fuel, inFunc, env);
  }

  /** `while true` and `loop ... until false` are endless loops, round by round. */
  lemma {:induction false} EndlessRounds(s: Stmt, st: Store, fuel: nat, inFunc: bool, env: Env)
    requires s.LoopS? && s.init.None? && s.step.None? && st.domains != []
    requires (s.cond.None? || IsTrue(s.cond.value)) && (s.until.None? || IsFalse(s.until.value))
    ensures ExecRounds(s, st, fuel, inFunc, env) == ExecRounds(ForeverS(s.body), st, fuel, inFunc, env)
    decreases fuel
  {
    if fuel > 0 {
      var (o, st1) := ExecSeq(s.body, st, fuel - 1, inFunc, env);
      if s.cond.Some? { ConstantTest(s.cond.value, st, env.host); }
      if s.until.Some? { ConstantTest(s.until.value, st1, env.host); }
      assert ExecRound(s, st, fuel - 1, inFunc, env) == ExecRound(ForeverS(s.body), st, fuel - 1, inFunc, env);
      if o.Normal? || o.Continued? {
        EndlessRounds(s, st1, fuel - 1, inFunc, env);
      }
    }
  }

  /** A program whose breaks all lie inside loops can lose that property: its lowered form has a break
      outside any loop, which no statement will consume. */
  lemma LoweringCanStrandABreak(c: Tree)
    requires IsTrue(c)
    ensures AllLoopSafe([LoopUntilS([BreakS], c)], false)
    ensures LowerSeq([LoopUntilS([BreakS], c)]) == [BlockS([BreakS])]
    ensures !AllLoopSafe(LowerSeq([LoopUntilS([BreakS], c)]), false)
  {
    var s := LoopUntilS([BreakS], c);
    OneStatement(BreakS);
    OneStatement(s);
    OneStatement(BlockS([BreakS]));
    SafeOne(s, false);
    SafeOne(BlockS([BreakS]), false);
    SafeOne(BreakS, true);
    assert Lower(BreakS) == [BreakS];
    assert Lower(s) == [BlockS(LowerSeq([BreakS]))];
    assert LoopSafe(s, false) && !LoopSafe(BlockS([BreakS]), false);
  }

  lemma OneStatement(s: Stmt)
    ensures LowerSeq([s]) == Lower(s)
  {
    assert [s][1..] == [] && Lower(s) + [] == Lower(s);
  }

  // ----- whole programs -----

  lemma {:induction false} SafeConcat(a: seq<Stmt>, b: seq<Stmt>, inLoop: bool)
    ensures AllLoopSafe(a + b, inLoop) <==> AllLoopSafe(a, inLoop) && AllLoopSafe(b, inLoop)
  {
    if a == [] {
      assert a + b == b;
    } else {
      assert (a + b)[1..] == a[1..] + b;
      SafeConcat(a[1..], b, inLoop);
    }
  }

  lemma SafeOne(s: Stmt, inLoop: bool)
    ensures AllLoopSafe([s], inLoop) <==> LoopSafe(s, inLoop)
  {
    assert [s][1..] == [];
  }

  /** A loop statement that lowering drops, and one whose body it leaves as a plain block. */
  predicate IsDropped(s: Stmt)
    requires s.LoopS?
  {
    s.init.None? && s.step.None? && s.until.None? && s.cond.Some? && IsFalse(s.cond.value)
  }

  predicate BecomesBlock(s: Stmt)
    requires s.LoopS?
  {
    s.init.None? && s.step.None? && s.cond.None? && s.until.Some? && IsTrue(s.until.value)
  }

  /** Every break and continue that is not in dropped code lies inside a loop that stays a loop, counting
      an enclosing one if `inLoop`. */
  predicate StaysInLoop(s: Stmt, inLoop: bool)
    decreases s, 0
  {
    match s
    case BreakS | ContinueS => inLoop
    case BlockS(body) => AllStayInLoop(body, inLoop)
    case IfS(c, thn) => IsFalse(c) || AllStayInLoop(thn, inLoop)
    case IfElseS(c, thn, els) =>
      (IsFalse(c) || AllStayInLoop(thn, inLoop)) && (IsTrue(c) || AllStayInLoop(els, inLoop))
    case LoopS(_, _, body, _, _) => IsDropped(s) || AllStayInLoop(body, inLoop || !BecomesBlock(s))
    case TryS(body, _, handler) => AllStayInLoop(body, inLoop) && AllStayInLoop(handler, inLoop)
    case _ => true
  }

  predicate AllStayInLoop(body: seq<Stmt>, inLoop: bool)
    decreases body, 1
  {
    body == [] || (StaysInLoop(body[0], inLoop) && AllStayInLoop(body[1..], inLoop))
  }

  /** The lowered program has every break and continue inside a loop exactly when the program keeps them
      inside loops that stay loops. */
  lemma {:induction false} LoweredIsSafe(body: seq<Stmt>, inLoop: bool)
    ensures AllLoopSafe(LowerSeq(body), inLoop) <==> AllStayInLoop(body, inLoop)
    decreases body, 1
  {
    if body != [] {
      LoweredIsSafeOne(body[0], inLoop);
      LoweredIsSafe(body[1..], inLoop);
      SafeConcat(Lower(body[0]), LowerSeq(body[1..]), inLoop);
    }
  }

  lemma {:induction false} LoweredIsSafeOne(s: Stmt, inLoop: bool)
    ensures AllLoopSafe(Lower(s), inLoop) <==> StaysInLoop(s, inLoop)
    decreases s, 0
  {
    if Lower(s) != [] {
      SafeOne(Lower(s)[0], inLoop);
      assert Lower(s) == [Lower(s)[0]];
    }
    match s
    case BlockS(body) => LoweredIsSafe(body, inLoop);
    case IfS(_, thn) => LoweredIsSafe(thn, inLoop);
    case IfElseS(_, thn, els) => LoweredIsSafe(thn, inLoop); LoweredIsSafe(els, inLoop);
    case LoopS(_, _, body, _, _) => LoweredIsSafe(body, inLoop || !BecomesBlock(s));
    case TryS(body, _, handler) => LoweredIsSafe(body, inLoop); LoweredIsSafe(handler, inLoop);
    case _ =>
  }

  /** No loop that becomes a plain block outside every loop that stays one has a break or continue left. */
  predicate StrandsNone(s: Stmt, inLoop: bool)
    decreases s, 0
  {
    match s
    case BlockS(body) => AllStrandNone(body, inLoop)
    case IfS(c, thn) => IsFalse(c) || AllStrandNone(thn, inLoop)
    case IfElseS(c, thn, els) =>
      (IsFalse(c) || AllStrandNone(thn, inLoop)) && (IsTrue(c) || AllStrandNone(els, inLoop))
    case LoopS(_, _, body, _, _) => inLoop || !BecomesBlock(s) || AllStayInLoop(body, false)
    case TryS(body, _, handler) => AllStrandNone(body, inLoop) && AllStrandNone(handler, inLoop)
    case _ => true
  }

  predicate AllStrandNone(body: seq<Stmt>, inLoop: bool)
    decreases body, 1
  {
    body == [] || (StrandsNone(body[0], inLoop) && AllStrandNone(body[1..], inLoop))
  }

  lemma {:induction false} InsideALoop(body: seq<Stmt>)
    ensures AllStayInLoop(body, true)
    decreases body, 1
  {
    if body != [] {
      InsideALoopOne(body[0]);
      InsideALoop(body[1..]);
    }
  }

  lemma {:induction false} InsideALoopOne(s: Stmt)
    ensures StaysInLoop(s, true)
    decreases s, 0
  {
    match s
    case BlockS(body) => InsideALoop(body);
    case IfS(_, thn) => InsideALoop(thn);
    case IfElseS(_, thn, els) => InsideALoop(thn); InsideALoop(els);
    case LoopS(_, _, body, _, _) => InsideALoop(body);
    case TryS(body, _, handler) => InsideALoop(body); InsideALoop(handler);
    case _ =>
  }

  /** For a program that passes the loop check, that is all there is to look for. */
  lemma {:induction false} SafeStrandsNone(body: seq<Stmt>, inLoop: bool)
    requires AllLoopSafe(body, inLoop)
    ensures AllStayInLoop(body, inLoop) <==> AllStrandNone(body, inLoop)
    decreases body, 1
  {
    if body != [] {
      SafeStrandsNoneOne(body[0], inLoop);
      SafeStrandsNone(body[1..], inLoop);
    }
  }

  lemma {:induction false} SafeStrandsNoneOne(s: Stmt, inLoop: bool)
    requires LoopSafe(s, inLoop)
    ensures StaysInLoop(s, inLoop) <==> StrandsNone(s, inLoop)
    decreases s, 0
  {
    match s
    case BlockS(body) => SafeStrandsNone(body, inLoop);
    case IfS(_, thn) => SafeStrandsNone(thn, inLoop);
    case IfElseS(_, thn, els) => SafeStrandsNone(thn, inLoop); SafeStrandsNone(els, inLoop);
    case LoopS(_, _, body, _, _) => InsideALoop(body);
    case TryS(body, _, handler) => SafeStrandsNone(body, inLoop); SafeStrandsNone(handler, inLoop);
    case _ =>
  }

  /** So lowering a program that passed the loop check keeps breaks and continues inside loops exactly when
      none is stranded. */
  lemma LowerKeepsSafe(body: seq<Stmt>, inLoop: bool)
    requires AllLoopSafe(body, inLoop)
    ensures AllLoopSafe(LowerSeq(body), inLoop) <==> AllStrandNone(body, inLoop)
  {
    LoweredIsSafe(body, inLoop);
    SafeStrandsNone(body, inLoop);
  }

  /** Outside dropped code no loop that becomes a block has a break or continue of its own, at any depth. */
  predicate UntilSafe(s: Stmt)
    decreases s, 0
  {
    match s
    case BlockS(body) => UntilSafeSeq(body)
    case IfS(c, thn) => IsFalse(c) || UntilSafeSeq(thn)
    case IfElseS(c, thn, els) => (IsFalse(c) || UntilSafeSeq(thn)) && (IsTrue(c) || UntilSafeSeq(els))
    case LoopS(_, _, body, _, _) =>
      IsDropped(s) || (UntilSafeSeq(body) && (BecomesBlock(s) ==> AllStayInLoop(body, false)))
    case TryS(body, _, handler) => UntilSafeSeq(body) && UntilSafeSeq(handler)
    case _ => true
  }

  predicate UntilSafeSeq(body: seq<Stmt>)
    decreases body, 1
  {
    body == [] || (UntilSafe(body[0]) && UntilSafeSeq(body[1..]))
  }

  predicate UntilSafeEnv(env: Env) {
    forall f :: f in env.funcs ==> UntilSafeSeq(env.funcs[f].body)
  }

  lemma {:induction false} StaysSeqNeverEscapes(body: seq<Stmt>, st: Store, fuel: nat, inFunc: bool, env: Env)
    requires st.domains != [] && AllStayInLoop(body, false)
    ensures !Escapes(ExecSeq(body, st, fuel, inFunc, env).0)
    decreases body, 1
  {
    if body != [] {
      StaysNeverEscapes(body[0], st, fuel, inFunc, env);
      var (o, st1) := Exec(body[0], st, fuel, inFunc, env);
      StaysSeqNeverEscapes(body[1..], st1, fuel, inFunc, env);
    }
  }

  lemma {:induction false} StaysIfNeverEscapes(s: Stmt, st: Store, fuel: nat, inFunc: bool, env: Env)
    requires (s.IfS? || s.IfElseS?) && st.domains != [] && StaysInLoop(s, false)
    ensures !Escapes(Exec(s, st, fuel, inFunc, env).0)
    decreases s, 1
  {
    var (b, st1) := Test(s.c, st, env.host);
    if IsConstant(s.c) {
      ConstantTest(s.c, st, env.host);
    }
    IfRuns(s, st, fuel, inFunc, env);
    if b.Ok? && b.value {
      StaysSeqNeverEscapes(s.thn, Push(st1), fuel, inFunc, env);
    } else if b.Ok? && s.IfElseS? {
      StaysSeqNeverEscapes(s.els, Push(st1), fuel, inFunc, env);
    }
  }

  /** Dropped code is not run, so a break in it does not escape. */
  lemma {:induction false} StaysNeverEscapes(s: Stmt, st: Store, fuel: nat, inFunc: bool, env: Env)
    requires st.domains != [] && StaysInLoop(s, false)
    ensures !Escapes(Exec(s, st, fuel, inFunc, env).0)
    decreases s, 2
  {
    match s
    case BlockS(body) => StaysSeqNeverEscapes(body, Push(st), fuel, inFunc, env);
    case IfS(_, _) => StaysIfNeverEscapes(s, st, fuel, inFunc, env);
    case IfElseS(_, _, _) => StaysIfNeverEscapes(s, st, fuel, inFunc, env);
    case LoopS(_, _, _, _, _) => LoopNeverEscapes(s, st, fuel, inFunc, env);
    case TryS(body, name, handler) =>
      StaysSeqNeverEscapes(body, Push(st), fuel, inFunc, env);
      var (o, st1) := ExecSeq(body, Push(st), fuel, inFunc, env);
      if o.Threw? && o.error.Lang? {
        StaysSeqNeverEscapes(handler, Caught(st1, name, o.error.text), fuel, inFunc, env);
      }
    case _ =>
  }

  lemma {:induction false} ExecConcat(a: seq<Stmt>, b: seq<Stmt>, st: Store, fuel: nat, inFunc: bool, env: Env)
    requires st.domains != []
    ensures ExecSeq(a + b, st, fuel, inFunc, env) ==
            var x := ExecSeq(a, st, fuel, inFunc, env);
            if x.0.Normal? then ExecSeq(b, x.1, fuel, inFunc, env) else x
  {
    if a == [] {
      assert a + b == b;
    } else {
      assert (a + b)[0] == a[0] && (a + b)[1..] == a[1..] + b;
      var (o, st1) := Exec(a[0], st, fuel, inFunc, env);
      if o.Normal? {
        ExecConcat(a[1..], b, st1, fuel, inFunc, env);
      }
    }
  }

  lemma ExecOne(s: Stmt, st: Store, fuel: nat, inFunc: bool, env: Env)
    requires st.domains != []
    ensures ExecSeq([s], st, fuel, inFunc, env) == Exec(s, st, fuel, inFunc, env)
  {
    var (o, st1) := Exec(s, st, fuel, inFunc, env);
    assert [s][1..] == [] && ExecSeq([], st1, fuel, inFunc, env) == (Normal, st1);
  }

  lemma WhileFalseRuns(t: Stmt, st: Store, fuel: nat, inFunc: bool, env: Env)
    requires t.LoopS? && t.init.None? && t.cond.Some? && IsFalse(t.cond.value) && st.domains != []
    ensures Exec(t, st, fuel, inFunc, env) == (if fuel == 0 then OutOfFuel else Normal, st)
  {
    ConstantTest(t.cond.value, Push(st), env.host);
    assert Pop(Push(st)) == st;
    if fuel > 0 {
      assert ExecRound(t, Push(st), fuel - 1, inFunc, env) == (Some(Normal), Push(st));
    }
    assert ExecRounds(t, Push(st), fuel, inFunc, env) == (if fuel == 0 then OutOfFuel else Normal, Push(st));
  }

  /** `loop ... until true` is its body run once, one unit of fuel later, if that run does not escape. */
  lemma UntilTrueRuns(t: Stmt, st: Store, fuel: nat, inFunc: bool, env: Env)
    requires t.LoopS? && BecomesBlock(t) && st.domains != []
    requires fuel > 0 ==> !Escapes(ExecSeq(t.body, Push(st), fuel - 1, inFunc, env).0)
    ensures if fuel == 0 then Exec(t, st, fuel, inFunc, env).0 == OutOfFuel
            else Exec(t, st, fuel, inFunc, env) == Exec(BlockS(t.body), st, fuel - 1, inFunc, env)
  {
    assert t == LoopUntilS(t.body, t.until.value);
    if fuel > 0 {
      UntilTrueIsABlock(t.body, t.until.value, st, fuel - 1, inFunc, env);
    } else {
      assert ExecRounds(t, Push(st), fuel, inFunc, env) == (OutOfFuel, Push(st));
    }
  }

  /** A loop without conditions left is the endless loop. */
  lemma EndlessRuns(t: Stmt, st: Store, fuel: nat, inFunc: bool, env: Env)
    requires t.LoopS? && t.init.None? && t.step.None? && st.domains != []
    requires (t.cond.None? || IsTrue(t.cond.value)) && (t.until.None? || IsFalse(t.until.value))
    ensures Exec(ForeverS(t.body), st, fuel, inFunc, env) == Exec(t, st, fuel, inFunc, env)
  {
    EndlessRounds(t, Push(st), fuel, inFunc, env);
    assert ExecLoop(t, st, fuel, inFunc, env) == ExecLoop(ForeverS(t.body), st, fuel, inFunc, env);
  }

  /** Which of its forms a loop is lowered to. */
  datatype LoopForm = Kept | Gone | Once | Endless

  function FormOf(s: Stmt): LoopForm
    requires s.LoopS?
  {
    if s.init.Some? || s.step.Some? || (s.cond.Some? && s.until.Some?) then Kept
    else if s.cond.Some? && IsFalse(s.cond.value) then Gone
    else if s.until.Some? && IsTrue(s.until.value) then Once
    else if (s.cond.Some? && IsTrue(s.cond.value)) || (s.until.Some? && IsFalse(s.until.value)) then Endless
    else Kept
  }

  lemma LowerLoopForms(s: Stmt, body: seq<Stmt>)
    requires s.LoopS?
    ensures LowerLoop(s, body) ==
            match FormOf(s)
            case Kept => [WithBody(s, body)]
            case Gone => []
            case Once => [BlockS(body)]
            case Endless => [ForeverS(body)]
  {
  }

  // ----- what a program does, its lowered form does with the same fuel -----

  lemma {:induction false} ForwardSeq(body: seq<Stmt>, st: Store, fuel: nat, inFunc: bool, env: Env)
    requires st.domains != [] && UntilSafeSeq(body) && UntilSafeEnv(env)
    ensures Settled(ExecSeq(body, st, fuel, inFunc, env), ExecSeq(LowerSeq(body), st, fuel, inFunc, LowerEnv(env)))
    decreases fuel, body, 0
  {
    if body != [] {
      Forward(body[0], st, fuel, inFunc, env);
      var (o, st1) := Exec(body[0], st, fuel, inFunc, env);
      ExecConcat(Lower(body[0]), LowerSeq(body[1..]), st, fuel, inFunc, LowerEnv(env));
      if o.Normal? {
        ForwardSeq(body[1..], st1, fuel, inFunc, env);
      }
    }
  }

  lemma {:induction false} ForwardRounds(s: Stmt, st: Store, fuel: nat, inFunc: bool, env: Env)
    requires s.LoopS? && st.domains != [] && UntilSafeSeq(s.body) && UntilSafeEnv(env)
    ensures Settled(ExecRounds(s, st, fuel, inFunc, env),
                    ExecRounds(WithBody(s, LowerSeq(s.body)), st, fuel, inFunc, LowerEnv(env)))
    decreases fuel, s, 0
  {
    if fuel > 0 {
      ForwardSeq(s.body, TestIfAny(s.cond, true, st, env.host).1, fuel - 1, inFunc, env);
      RoundFollows(s, WithBody(s, LowerSeq(s.body)), st, fuel - 1, fuel - 1, inFunc, env, LowerEnv(env));
      var (end, st1) := ExecRound(s, st, fuel - 1, inFunc, env);
      if end.None? {
        ForwardRounds(s, st1, fuel - 1, inFunc, env);
      }
      RoundsFollow(s, WithBody(s, LowerSeq(s.body)), st, fuel, fuel, inFunc, env, LowerEnv(env));
    }
  }

  lemma {:induction false} ForwardKept(s: Stmt, st: Store, fuel: nat, inFunc: bool, env: Env)
    requires s.LoopS? && st.domains != [] && UntilSafeSeq(s.body) && UntilSafeEnv(env)
    ensures Settled(Exec(s, st, fuel, inFunc, env),
                    Exec(WithBody(s, LowerSeq(s.body)), st, fuel, inFunc, LowerEnv(env)))
    decreases fuel, s, 1
  {
    ForwardRounds(s, Push(st), fuel, inFunc, env);
    if s.init.Some? {
      var st1 := DefineVar(s.init.value.0, s.init.value.1, Push(st), env.host).1;
      ForwardRounds(s, Push(st1), fuel, inFunc, env);
    }
  }

  lemma {:induction false} ForwardLoop(s: Stmt, st: Store, fuel: nat, inFunc: bool, env: Env)
    requires s.LoopS? && st.domains != [] && UntilSafe(s) && UntilSafeEnv(env)
    ensures Settled(Exec(s, st, fuel, inFunc, env), ExecSeq(Lower(s), st, fuel, inFunc, LowerEnv(env)))
    decreases fuel, s, 2
  {
    var t := WithBody(s, LowerSeq(s.body));
    LowerLoopForms(s, t.body);
    if Lower(s) != [] {
      ExecOne(Lower(s)[0], st, fuel, inFunc, LowerEnv(env));
    }
    match FormOf(s)
    case Kept => ForwardKept(s, st, fuel, inFunc, env);
    case Gone => WhileFalseRuns(s, st, fuel, inFunc, env);
    case Once =>
      ForwardKept(s, st, fuel, inFunc, env);
      OnceIsItsBlock(t, s.body, st, fuel, inFunc, LowerEnv(env));
    case Endless =>
      ForwardKept(s, st, fuel, inFunc, env);
      EndlessRuns(t, st, fuel, inFunc, LowerEnv(env));
  }

  lemma OnceIsItsBlock(t: Stmt, body: seq<Stmt>, st: Store, fuel: nat, inFunc: bool, env: Env)
    requires t.LoopS? && BecomesBlock(t) && t.body == LowerSeq(body) && AllStayInLoop(body, false) && st.domains != []
    ensures Settled(Exec(t, st, fuel, inFunc, env), Exec(BlockS(t.body), st, fuel, inFunc, env))
  {
    LoweredIsSafe(body, false);
    if fuel > 0 {
      SafeSeqNeverEscapes(t.body, Push(st), fuel - 1, inFunc, env);
    }
    UntilTrueRuns(t, st, fuel, inFunc, env);
    if fuel > 0 {
      FuelIrrelevant(BlockS(t.body), st, fuel - 1, fuel, inFunc, env);
    }
  }

  lemma {:induction false} ForwardCall(s: Stmt, st: Store, fuel: nat, env: Env)
    requires s.CallS? && st.domains != [] && UntilSafeEnv(env)
    ensures Settled(ExecCall(s, st, fuel, env), ExecCall(s, st, fuel, LowerEnv(env)))
    decreases fuel, s, 1
  {
    if s.func in env.funcs && fuel > 0 {
      var f := env.funcs[s.func];
      EvalArgsFrame(s.args, st, env.host);
      var (args, st1) := EvalArgs(s.args, st, env.host);
      if args.Ok? && |args.value| == |f.params| {
        ForwardSeq(f.body, BindAll(Push(st1), f.params, args.value), fuel - 1, true, env);
      }
    }
  }

  lemma {:induction false} Forward(s: Stmt, st: Store, fuel: nat, inFunc: bool, env: Env)
    requires st.domains != [] && UntilSafe(s) && UntilSafeEnv(env)
    ensures Settled(Exec(s, st, fuel, inFunc, env), ExecSeq(Lower(s), st, fuel, inFunc, LowerEnv(env)))
    decreases fuel, s, 3
  {
    if s.LoopS? {
      ForwardLoop(s, st, fuel, inFunc, env);
    } else if s.IfS? || s.IfElseS? {
      ForwardIf(s, st, fuel, inFunc, env);
    } else {
      ExecOne(Lower(s)[0], st, fuel, inFunc, LowerEnv(env));
      match s
      case BlockS(body) => ForwardSeq(body, Push(st), fuel, inFunc, env);
      case TryS(body, name, handler) =>
        ForwardSeq(body, Push(st), fuel, inFunc, env);
        var (o, st1) := ExecSeq(body, Push(st), fuel, inFunc, env);
        if o.Threw? && o.error.Lang? {
          ForwardSeq(handler, Caught(st1, name, o.error.text), fuel, inFunc, env);
        }
      case CallS(_, _, _) => ForwardCall(s, st, fuel, env);
      case _ =>
    }
  }

  /** A conditional, lowered or not, runs the branch its condition selects. */
  lemma IfRuns(s: Stmt, st: Store, fuel: nat, inFunc: bool, env: Env)
    requires (s.IfS? || s.IfElseS?) && st.domains != []
    ensures var (b, st1) := Test(s.c, st, env.host);
            Exec(s, st, fuel, inFunc, env) ==
              (if b.Fail? then (Threw(b.error), st1)
               else if b.value then ExecScoped(s.thn, st1, fuel, inFunc, env)
               else if s.IfElseS? then ExecScoped(s.els, st1, fuel, inFunc, env) else (Normal, st1))
  {
  }

  lemma LoweredIfRuns(s: Stmt, st: Store, fuel: nat, inFunc: bool, env: Env)
    requires (s.IfS? || s.IfElseS?) && st.domains != []
    ensures var (b, st1) := Test(s.c, st, env.host);
            ExecSeq(Lower(s), st, fuel, inFunc, env) ==
              (if b.Fail? then (Threw(b.error), st1)
               else if b.value then ExecScoped(LowerSeq(s.thn), st1, fuel, inFunc, env)
               else if s.IfElseS? then ExecScoped(LowerSeq(s.els), st1, fuel, inFunc, env) else (Normal, st1))
  {
    if Lower(s) != [] {
      ExecOne(Lower(s)[0], st, fuel, inFunc, env);
    }
    if IsConstant(s.c) {
      ConstantTest(s.c, st, env.host);
    } else {
      IfRuns(Lower(s)[0], st, fuel, inFunc, env);
    }
  }

  lemma {:induction false} ForwardIf(s: Stmt, st: Store, fuel: nat, inFunc: bool, env: Env)
    requires (s.IfS? || s.IfElseS?) && st.domains != [] && UntilSafe(s) && UntilSafeEnv(env)
    ensures Settled(Exec(s, st, fuel, inFunc, env), ExecSeq(Lower(s), st, fuel, inFunc, LowerEnv(env)))
    decreases fuel, s, 1
  {
    var st1 := Test(s.c, st, env.host).1;
    LoweredIfRuns(s, st, fuel, inFunc, LowerEnv(env));
    IfRuns(s, st, fuel, inFunc, env);
    if IsConstant(s.c) {
      ConstantTest(s.c, st, env.host);
    }
    if !IsFalse(s.c) {
      ForwardSeq(s.thn, Push(st1), fuel, inFunc, env);
    }
    if s.IfElseS? && !IsTrue(s.c) {
      ForwardSeq(s.els, Push(st1), fuel, inFunc, env);
    }
  }

  // ----- and nothing else: what the lowered form does, the program does with more fuel -----

  /** How many extra rounds of fuel a statement may take compared to its lowered form. */
  function Extra(s: Stmt): nat
    decreases s, 0
  {
    match s
    case BlockS(body) => ExtraSeq(body)
    case IfS(_, thn) => ExtraSeq(thn)
    case IfElseS(_, thn, els) => ExtraSeq(thn) + ExtraSeq(els)
    case LoopS(_, _, body, _, _) => 1 + ExtraSeq(body)
    case TryS(body, _, handler) => ExtraSeq(body) + ExtraSeq(handler)
    case _ => 0
  }

  function ExtraSeq(body: seq<Stmt>): nat
    decreases body, 1
  {
    if body == [] then 0 else Extra(body[0]) + ExtraSeq(body[1..])
  }

  predicate ExtraBound(env: Env, k: nat) {
    forall f :: f in env.funcs ==> ExtraSeq(env.funcs[f].body) <= k
  }

  /** Enough fuel for the program when its lowered form has `fuel`; k bounds the functions. */
  function Enough(fuel: nat, k: nat): nat {
    if fuel == 0 then 0 else Enough(fuel - 1, k) + k + 1
  }

  lemma {:induction false} BackwardSeq(body: seq<Stmt>, st: Store, fuel: nat, big: nat, k: nat, inFunc: bool, env: Env)
    requires st.domains != [] && UntilSafeSeq(body) && UntilSafeEnv(env) && ExtraBound(env, k)
    requires big >= Enough(fuel, k) + ExtraSeq(body)
    ensures Settled(ExecSeq(LowerSeq(body), st, fuel, inFunc, LowerEnv(env)), ExecSeq(body, st, big, inFunc, env))
    decreases fuel, body, 0
  {
    if body != [] {
      Backward(body[0], st, fuel, big, k, inFunc, env);
      var (o, st1) := ExecSeq(Lower(body[0]), st, fuel, inFunc, LowerEnv(env));
      ExecConcat(Lower(body[0]), LowerSeq(body[1..]), st, fuel, inFunc, LowerEnv(env));
      if o.Normal? {
        BackwardSeq(body[1..], st1, fuel, big, k, inFunc, env);
      }
    }
  }

  lemma {:induction false} BackwardRounds(s: Stmt, st: Store, fuel: nat, big: nat, k: nat, inFunc: bool, env: Env)
    requires s.LoopS? && st.domains != [] && UntilSafeSeq(s.body) && UntilSafeEnv(env) && ExtraBound(env, k)
    requires big >= Enough(fuel, k) + ExtraSeq(s.body)
    ensures Settled(ExecRounds(WithBody(s, LowerSeq(s.body)), st, fuel, inFunc, LowerEnv(env)),
                    ExecRounds(s, st, big, inFunc, env))
    decreases fuel, s, 0
  {
    if fuel > 0 {
      BackwardSeq(s.body, TestIfAny(s.cond, true, st, env.host).1, fuel - 1, big - 1, k, inFunc, env);
      RoundFollows(WithBody(s, LowerSeq(s.body)), s, st, fuel - 1, big - 1, inFunc, LowerEnv(env), env);
      var (end, st1) := ExecRound(WithBody(s, LowerSeq(s.body)), st, fuel - 1, inFunc, LowerEnv(env));
      if end.None? {
        BackwardRounds(s, st1, fuel - 1, big - 1, k, inFunc, env);
      }
      RoundsFollow(WithBody(s, LowerSeq(s.body)), s, st, fuel, big, inFunc, LowerEnv(env), env);
    }
  }

  lemma {:induction false} BackwardLoop(s: Stmt, st: Store, fuel: nat, big: nat, k: nat, inFunc: bool, env: Env)
    requires s.LoopS? && st.domains != [] && UntilSafeSeq(s.body) && UntilSafeEnv(env) && ExtraBound(env, k)
    requires big >= Enough(fuel, k) + ExtraSeq(s.body)
    ensures var t := WithBody(s, LowerSeq(s.body));
            Settled(Exec(t, st, fuel, inFunc, LowerEnv(env)), Exec(s, st, big, inFunc, env))
    decreases fuel, s, 1
  {
    BackwardRounds(s, Push(st), fuel, big, k, inFunc, env);
    if s.init.Some? {
      var st1 := DefineVar(s.init.value.0, s.init.value.1, Push(st), env.host).1;
      BackwardRounds(s, Push(st1), fuel, big, k, inFunc, env);
    }
  }

  lemma {:induction false} BackwardCall(s: Stmt, st: Store, fuel: nat, big: nat, k: nat, env: Env)
    requires s.CallS? && st.domains != [] && UntilSafeEnv(env) && ExtraBound(env, k) && big >= Enough(fuel, k)
    ensures Settled(ExecCall(s, st, fuel, LowerEnv(env)), ExecCall(s, st, big, env))
    decreases fuel, s, 1
  {
    if s.func in env.funcs && fuel > 0 {
      var f := env.funcs[s.func];
      EvalArgsFrame(s.args, st, env.host);
      var (args, st1) := EvalArgs(s.args, st, env.host);
      if args.Ok? && |args.value| == |f.params| {
        BackwardSeq(f.body, BindAll(Push(st1), f.params, args.value), fuel - 1, big - 1, k, true, env);
      }
    }
  }

  lemma {:induction false} BackwardLowered(s: Stmt, st: Store, fuel: nat, big: nat, k: nat, inFunc: bool, env: Env)
    requires s.LoopS? && st.domains != [] && UntilSafe(s) && UntilSafeEnv(env) && ExtraBound(env, k)
    requires big >= Enough(fuel, k) + Extra(s)
    ensures Settled(ExecSeq(Lower(s), st, fuel, inFunc, LowerEnv(env)), Exec(s, st, big, inFunc, env))
    decreases fuel, s, 2
  {
    var t := WithBody(s, LowerSeq(s.body));
    LowerLoopForms(s, t.body);
    if Lower(s) != [] {
      ExecOne(Lower(s)[0], st, fuel, inFunc, LowerEnv(env));
    }
    match FormOf(s)
    case Kept => BackwardLoop(s, st, fuel, big, k, inFunc, env);
    case Gone => WhileFalseRuns(s, st, big, inFunc, env);
    case Once =>
      StaysSeqNeverEscapes(s.body, Push(st), big - 1, inFunc, env);
      UntilTrueRuns(s, st, big, inFunc, env);
      BackwardSeq(s.body, Push(st), fuel, big - 1, k, inFunc, env);
    case Endless =>
      EndlessRuns(t, st, fuel, inFunc, LowerEnv(env));
      BackwardLoop(s, st, fuel, big, k, inFunc, env);
  }

  lemma {:induction false} BackwardIf(s: Stmt, st: Store, fuel: nat, big: nat, k: nat, inFunc: bool, env: Env)
    requires (s.IfS? || s.IfElseS?) && st.domains != [] && UntilSafe(s) && UntilSafeEnv(env) && ExtraBound(env, k)
    requires big >= Enough(fuel, k) + Extra(s)
    ensures Settled(ExecSeq(Lower(s), st, fuel, inFunc, LowerEnv(env)), Exec(s, st, big, inFunc, env))
    decreases fuel, s, 1
  {
    var st1 := Test(s.c, st, env.host).1;
    LoweredIfRuns(s, st, fuel, inFunc, LowerEnv(env));
    IfRuns(s, st, big, inFunc, env);
    if IsConstant(s.c) {
      ConstantTest(s.c, st, env.host);
    }
    if !IsFalse(s.c) {
      BackwardSeq(s.thn, Push(st1), fuel, big, k, inFunc, env);
    }
    if s.IfElseS? && !IsTrue(s.c) {
      BackwardSeq(s.els, Push(st1), fuel, big, k, inFunc, env);
    }
  }

  lemma {:induction false} Backward(s: Stmt, st: Store, fuel: nat, big: nat, k: nat, inFunc: bool, env: Env)
    requires st.domains != [] && UntilSafe(s) && UntilSafeEnv(env) && ExtraBound(env, k)
    requires big >= Enough(fuel, k) + Extra(s)
    ensures Settled(ExecSeq(Lower(s), st, fuel, inFunc, LowerEnv(env)), Exec(s, st, big, inFunc, env))
    decreases fuel, s, 3
  {
    if s.LoopS? {
      BackwardLowered(s, st, fuel, big, k, inFunc, env);
    } else if s.IfS? || s.IfElseS? {
      BackwardIf(s, st, fuel, big, k, inFunc, env);
    } else {
      ExecOne(Lower(s)[0], st, fuel, inFunc, LowerEnv(env));
      match s
      case BlockS(body) => BackwardSeq(body, Push(st), fuel, big, k, inFunc, env);
      case TryS(body, name, handler) =>
        BackwardSeq(body, Push(st), fuel, big, k, inFunc, env);
        var (o, st1) := ExecSeq(LowerSeq(body), Push(st), fuel, inFunc, LowerEnv(env));
        if o.Threw? && o.error.Lang? {
          BackwardSeq(handler, Caught(st1, name, o.error.text), fuel, big, k, inFunc, env);
        }
      case CallS(_, _, _) => BackwardCall(s, st, fuel, big, k, env);
      case _ =>
    }
  }

  // ----- the theorem -----

  lemma {:induction false} ExtraBoundExists(funcs: map<string, Func>) returns (k: nat)
    ensures forall f :: f in funcs ==> ExtraSeq(funcs[f].body) <= k
    decreases |funcs|
  {
    if funcs == map[] {
      k := 0;
    } else {
      var f :| f in funcs;
      var rest := funcs - {f};
      assert rest.Keys == funcs.Keys - {f};
      assert |rest| < |funcs| by { assert |rest.Keys| == |funcs.Keys| - 1; }
      k := ExtraBoundExists(rest);
      k := k + ExtraSeq(funcs[f].body);
      forall g | g in funcs
        ensures ExtraSeq(funcs[g].body) <= k
      {
        if g != f {
          assert g in rest && rest[g] == funcs[g];
        }
      }
    }
  }

  /** Given this much fuel the program ends, with this outcome and store. */
  predicate Does(body: seq<Stmt>, st: Store, r: (Outcome, Store), fuel: nat, inFunc: bool, env: Env)
    requires st.domains != []
  {
    !r.0.OutOfFuel? && ExecSeq(body, st, fuel, inFunc, env) == r
  }

  /** The program ends with this outcome and store. */
  ghost predicate Ends(body: seq<Stmt>, st: Store, r: (Outcome, Store), inFunc: bool, env: Env)
    requires st.domains != []
  {
    exists fuel: nat :: Does(body, st, r, fuel, inFunc, env)
  }

  lemma LoweredEnds(body: seq<Stmt>, st: Store, r: (Outcome, Store), inFunc: bool, env: Env)
    requires st.domains != [] && UntilSafeSeq(body) && UntilSafeEnv(env) && Ends(body, st, r, inFunc, env)
    ensures Ends(LowerSeq(body), st, r, inFunc, LowerEnv(env))
  {
    var fuel: nat :| Does(body, st, r, fuel, inFunc, env);
    ForwardSeq(body, st, fuel, inFunc, env);
    assert Does(LowerSeq(body), st, r, fuel, inFunc, LowerEnv(env));
  }

  lemma OriginalEnds(body: seq<Stmt>, st: Store, r: (Outcome, Store), inFunc: bool, env: Env)
    requires st.domains != [] && UntilSafeSeq(body) && UntilSafeEnv(env)
    requires Ends(LowerSeq(body), st, r, inFunc, LowerEnv(env))
    ensures Ends(body, st, r, inFunc, env)
  {
    var fuel: nat :| Does(LowerSeq(body), st, r, fuel, inFunc, LowerEnv(env));
    var k := ExtraBoundExists(env.funcs);
    var big := Enough(fuel, k) + ExtraSeq(body);
    BackwardSeq(body, st, fuel, big, k, inFunc, env);
    assert Does(body, st, r, big, inFunc, env);
  }

  /** Lowering preserves the meaning of whole programs: a program and its functions end with an outcome
      and a store exactly when their lowered forms do, as long as no loop that becomes a block is the target of
      a break or continue outside dropped code. */
  lemma LoweringPreservesMeaning(body: seq<Stmt>, st: Store, r: (Outcome, Store), inFunc: bool, env: Env)
    requires st.domains != [] && UntilSafeSeq(body) && UntilSafeEnv(env)
    ensures Ends(body, st, r, inFunc, env) <==> Ends(LowerSeq(body), st, r, inFunc, LowerEnv(env))
  {
    if Ends(body, st, r, inFunc, env) {
      LoweredEnds(body, st, r, inFunc, env);
    }
    if Ends(LowerSeq(body), st, r, inFunc, LowerEnv(env)) {
      OriginalEnds(body, st, r, inFunc, env);
    }
  }
}
