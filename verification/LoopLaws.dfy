/**
 What loops with a step do, said of `Exec` and of whole rounds: the step runs after every round that is not left,
 a `for` is the block of its definition and the `while` over body and step, and a counting loop counts.
 */
module LoopLaws {
  import opened Options
  import opened Signals
  import opened Numeric
  import opened Values
  import opened Trees
  import opened Evaluator
  import opened OperatorLaws
  import opened Statements

  function ForS(name: string, e: Tree, c: Tree, step: Tree, body: seq<Stmt>): Stmt {
    LoopS(Some((name, e)), Some(c), body, Some(step), None)
  }

  function WhileS(c: Tree, body: seq<Stmt>): Stmt { LoopS(None, Some(c), body, None, None) }

  // ----- one round -----

  /** The condition holds in `st`, and the body started after it ends normally or by continue, in `st2`. */
  ghost predicate RoundReaches(s: Stmt, st: Store, fuel: nat, inFunc: bool, env: Env, st2: Store)
    requires s.LoopS? && s.cond.Some? && st.domains != []
  {
    var (b, st1) := Test(s.cond.value, st, env.host);
    b == Ok(true) && ExecSeq(s.body, st1, fuel, inFunc, env).1 == st2
    && (ExecSeq(s.body, st1, fuel, inFunc, env).0.Normal? || ExecSeq(s.body, st1, fuel, inFunc, env).0.Continued?)
  }

  /** The next condition sees the store the step leaves; a step that fails ends the loop by its error. */
  lemma StepRuns(s: Stmt, step: Tree, st: Store, st2: Store, fuel: nat, inFunc: bool, env: Env)
    requires s.LoopS? && s.cond.Some? && s.step == Some(step) && s.until.None? && st.domains != []
    requires RoundReaches(s, st, fuel, inFunc, env, st2)
    ensures var (x, st3) := Eval(step, st2, env.host);
            && st3.domains != []
            && (x.Ok? ==> ExecRounds(s, st, fuel + 1, inFunc, env) == ExecRounds(s, st3, fuel, inFunc, env))
            && (x.Fail? ==> ExecRounds(s, st, fuel + 1, inFunc, env) == (Threw(x.error), st3))
  {
    EvalFrame(step, st2, env.host);
  }

  // ----- for is while -----

  ghost predicate NeverContinues(body: seq<Stmt>, fuel: nat, inFunc: bool, env: Env) {
    forall st: Store, k: nat :: st.domains != [] && k <= fuel ==> !ExecSeq(body, st, k, inFunc, env).0.Continued?
  }

  lemma {:induction false} SeqThen(body: seq<Stmt>, e: Tree, st: Store, fuel: nat, inFunc: bool, env: Env)
    requires st.domains != []
    ensures ExecSeq(body + [ExprS(e)], st, fuel, inFunc, env) ==
            var (o, st1) := ExecSeq(body, st, fuel, inFunc, env);
            if o.Normal? then Effect(e, st1, env.host) else (o, st1)
  {
    if body == [] {
      assert [] + [ExprS(e)] == [ExprS(e)] && [ExprS(e)][1..] == [];
    } else {
      assert (body + [ExprS(e)])[0] == body[0] && (body + [ExprS(e)])[1..] == body[1..] + [ExprS(e)];
      var (o, st1) := Exec(body[0], st, fuel, inFunc, env);
      if o.Normal? {
        SeqThen(body[1..], e, st1, fuel, inFunc, env);
      }
    }
  }

  lemma RoundsAgree(s: Stmt, w: Stmt, st: Store, fuel: nat, inFunc: bool, env: Env)
    requires s.LoopS? && s.cond.Some? && s.step.Some? && s.until.None? && st.domains != []
    requires w == WhileS(s.cond.value, s.body + [ExprS(s.step.value)]) && NeverContinues(s.body, fuel, inFunc, env)
    ensures ExecRound(w, st, fuel, inFunc, env) == ExecRound(s, st, fuel, inFunc, env)
  {
    var (b, st1) := Test(s.cond.value, st, env.host);
    if b == Ok(true) {
      SeqThen(s.body, s.step.value, st1, fuel, inFunc, env);
    }
  }

  lemma {:induction false} AllRoundsAgree(s: Stmt, w: Stmt, st: Store, fuel: nat, inFunc: bool, env: Env)
    requires s.LoopS? && s.cond.Some? && s.step.Some? && s.until.None? && st.domains != []
    requires w == WhileS(s.cond.value, s.body + [ExprS(s.step.value)]) && NeverContinues(s.body, fuel, inFunc, env)
    ensures ExecRounds(w, st, fuel, inFunc, env) == ExecRounds(s, st, fuel, inFunc, env)
    decreases fuel
  {
    if fuel > 0 {
      RoundsAgree(s, w, st, fuel - 1, inFunc, env);
      var (end, st1) := ExecRound(s, st, fuel - 1, inFunc, env);
      if end.None? {
        AllRoundsAgree(s, w, st1, fuel - 1, inFunc, env);
      }
    }
  }

  lemma WhileUnfolds(w: Stmt, st: Store, fuel: nat, inFunc: bool, env: Env)
    requires w.LoopS? && w.init.None? && st.domains != []
    ensures Exec(w, st, fuel, inFunc, env) ==
            var (o, st1) := ExecRounds(w, Push(st), fuel, inFunc, env);
            (o, Pop(st1))
  {
  }

  lemma ForUnfolds(s: Stmt, name: string, e: Tree, st: Store, fuel: nat, inFunc: bool, env: Env)
    requires s.LoopS? && s.init == Some((name, e)) && st.domains != []
    ensures var (o, st1) := DefineVar(name, e, Push(st), env.host);
            && st1.domains != []
            && Exec(s, st, fuel, inFunc, env) ==
               if !o.Normal? then (o, Pop(st1))
               else
                 var (o2, st2) := ExecRounds(s, Push(st1), fuel, inFunc, env);
                 (o2, Pop(Pop(st2)))
  {
  }

  lemma BlockOfTwo(s: Stmt, w: Stmt, st: Store, fuel: nat, inFunc: bool, env: Env)
    requires st.domains != []
    ensures Exec(BlockS([s, w]), st, fuel, inFunc, env) ==
            var (o, st1) := Exec(s, Push(st), fuel, inFunc, env);
            if !o.Normal? then (o, Pop(st1))
            else
              var (o2, st2) := Exec(w, st1, fuel, inFunc, env);
              (o2, Pop(st2))
  {
    var body := [s, w];
    var (o, st1) := Exec(s, Push(st), fuel, inFunc, env);
    assert body[0] == s && body[1..] == [w] && [w][1..] == [];
    assert ExecSeq(body, Push(st), fuel, inFunc, env) ==
           if o.Normal? then ExecSeq([w], st1, fuel, inFunc, env) else (o, st1);
    if o.Normal? {
      assert ExecSeq([w], st1, fuel, inFunc, env) == Exec(w, st1, fuel, inFunc, env);
    }
    assert Exec(BlockS(body), st, fuel, inFunc, env) == ExecScoped(body, st, fuel, inFunc, env);
  }

  /** A `for` whose body does not continue ends as the block of its definition and the `while` over body and step.
      (A continue goes on to the step in the first and past it in the second.) */
  lemma ForIsWhile(name: string, e: Tree, c: Tree, step: Tree, body: seq<Stmt>, st: Store, fuel: nat, inFunc: bool,
                   env: Env)
    requires st.domains != [] && NeverContinues(body, fuel, inFunc, env)
    ensures Exec(ForS(name, e, c, step, body), st, fuel, inFunc, env)
         == Exec(BlockS([VarS(name, e), WhileS(c, body + [ExprS(step)])]), st, fuel, inFunc, env)
  {
    var s, w := ForS(name, e, c, step, body), WhileS(c, body + [ExprS(step)]);
    var (o, st1) := DefineVar(name, e, Push(st), env.host);
    ForUnfolds(s, name, e, st, fuel, inFunc, env);
    BlockOfTwo(VarS(name, e), w, st, fuel, inFunc, env);
    if o.Normal? {
      WhileUnfolds(w, st1, fuel, inFunc, env);
      AllRoundsAgree(s, w, Push(st1), fuel, inFunc, env);
    }
  }

  /** In particular one that keeps its breaks and continues inside loops of its own. */
  lemma SafeForIsWhile(name: string, e: Tree, c: Tree, step: Tree, body: seq<Stmt>, st: Store, fuel: nat, inFunc: bool,
                       env: Env)
    requires st.domains != [] && AllLoopSafe(body, false)
    ensures Exec(ForS(name, e, c, step, body), st, fuel, inFunc, env)
         == Exec(BlockS([VarS(name, e), WhileS(c, body + [ExprS(step)])]), st, fuel, inFunc, env)
  {
    forall st': Store, k: nat | st'.domains != [] && k <= fuel
      ensures !ExecSeq(body, st', k, inFunc, env).0.Continued?
    {
      SafeSeqNeverEscapes(body, st', k, inFunc, env);
    }
    ForIsWhile(name, e, c, step, body, st, fuel, inFunc, env);
  }

  // ----- counting -----

  /** The variable is bound to cell `l`, which anyone may write and which holds `i`. */
  predicate Counts(st: Store, x: string, l: nat, i: int) {
    st.domains != [] && Lookup(st.domains, x) == Some(l) && l < |st.cells| && Fits(i)
    && st.cells[l] == Cell(Plain(Num(Int(i))), false)
  }

  /** Wherever `x` counts, the body runs to its end or continues, and `x` counts as before. */
  ghost predicate LeavesAlone(body: seq<Stmt>, x: string, fuel: nat, inFunc: bool, env: Env) {
    forall st: Store, l: nat, i: int, k: nat :: Counts(st, x, l, i) && k <= fuel ==>
      var (o, st1) := ExecSeq(body, st, k, inFunc, env);
      (o.Normal? || o.Continued?) && Counts(st1, x, l, i)
  }

  /** `x < n` and `x += 1` */
  function Below(x: string, n: Int64): Tree { Node(Sig(OperatorOf(Und)), Leaf(Id(x)), Leaf(Val(Num(Int(n))))) }

  function Increase(x: string): Tree { Node(Sig(OperatorOf(AddAsi)), Leaf(Id(x)), Leaf(Val(Num(Int(1))))) }

  lemma BelowTests(st: Store, x: string, l: nat, i: int, n: Int64, host: Host)
    requires Counts(st, x, l, i)
    ensures Test(Below(x, n), st, host) == (Ok(i < n), st)
  {
    var t := Below(x, n);
    assert Eval(t.left, st, host) == (Ok(Ref(l)), st) && Eval(t.right, st, host) == (Ok(Lit(Num(Int(n)))), st);
    ComparisonIsExact(t, Int(i), Int(n), Ref(l), Lit(Num(Int(n))), st, st, st, host);
  }

  lemma IncreaseCounts(st: Store, x: string, l: nat, i: int, host: Host)
    requires Counts(st, x, l, i) && Fits(i + 1)
    ensures var (r, st1) := Eval(Increase(x), st, host);
            r == Ok(Ref(l)) && Counts(st1, x, l, i + 1) && Writes(st, l, Plain(Num(Int(i + 1))), st1)
  {
    var t, u := Increase(x), Node(Sig(OperatorOf(Add)), Leaf(Id(x)), Leaf(Val(Num(Int(1)))));
    assert Eval(t.left, st, host) == (Ok(Ref(l)), st) && Eval(t.right, st, host) == (Ok(Lit(Num(Int(1)))), st);
    ArithmeticIsExact(u, i, 1, i + 1, Ref(l), Lit(Num(Int(1))), st, st, st, host);
    CompoundWrites(t, u, l, Lit(Num(Int(1))), st, st, st, host);
  }

  /** The store after one round: the body, then the step. */
  function Next(body: seq<Stmt>, x: string, st: Store, fuel: nat, inFunc: bool, env: Env): (st': Store)
    requires st.domains != []
    ensures st'.domains != []
  {
    var st1 := ExecSeq(body, st, fuel, inFunc, env).1;
    EvalFrame(Increase(x), st1, env.host);
    Eval(Increase(x), st1, env.host).1
  }

  /** The store after this many rounds. */
  function After(rounds: nat, body: seq<Stmt>, x: string, st: Store, fuel: nat, inFunc: bool, env: Env): Store
    requires st.domains != [] && rounds <= fuel
    decreases rounds
  {
    if rounds == 0 then st
    else After(rounds - 1, body, x, Next(body, x, st, fuel - 1, inFunc, env), fuel - 1, inFunc, env)
  }

  /** With `x` at n the rounds are over; below it there is one more, which adds one to `x`. */
  ghost predicate Counted(s: Stmt, x: string, n: Int64, l: nat, i: int, st: Store, fuel: nat, inFunc: bool, env: Env)
    requires s.LoopS? && Counts(st, x, l, i)
  {
    if i == n then ExecRounds(s, st, fuel + 1, inFunc, env) == (Normal, st)
    else
      var st3 := Next(s.body, x, st, fuel, inFunc, env);
      Counts(st3, x, l, i + 1) && ExecRounds(s, st, fuel + 1, inFunc, env) == ExecRounds(s, st3, fuel, inFunc, env)
  }

  lemma RoundCounts(s: Stmt, x: string, n: Int64, l: nat, i: int, st: Store, fuel: nat, inFunc: bool, env: Env)
    requires s.LoopS? && s.cond == Some(Below(x, n)) && s.step == Some(Increase(x)) && s.until.None?
    requires Counts(st, x, l, i) && i <= n && LeavesAlone(s.body, x, fuel, inFunc, env)
    ensures Counted(s, x, n, l, i, st, fuel, inFunc, env)
  {
    BelowTests(st, x, l, i, n, env.host);
    if i < n {
      var (o, st2) := ExecSeq(s.body, st, fuel, inFunc, env);
      assert (o.Normal? || o.Continued?) && Counts(st2, x, l, i);
      IncreaseCounts(st2, x, l, i, env.host);
      StepRuns(s, Increase(x), st, st2, fuel, inFunc, env);
    }
  }

  /** The same for every store that counts. */
  ghost predicate AllCounted(s: Stmt, x: string, n: Int64, fuel: nat, inFunc: bool, env: Env)
    requires s.LoopS?
  {
    forall st: Store, l: nat, i: int, k: nat :: Counts(st, x, l, i) && i <= n && k < fuel ==>
      Counted(s, x, n, l, i, st, k, inFunc, env)
  }

  /** The rounds from `i` on: cut off, or at an end with `x` at n. */
  ghost predicate CountsUp(s: Stmt, x: string, n: Int64, l: nat, i: int, st: Store, fuel: nat, inFunc: bool, env: Env)
    requires s.LoopS? && Counts(st, x, l, i) && i <= n
  {
    if fuel <= n - i then ExecRounds(s, st, fuel, inFunc, env).0.OutOfFuel?
    else
      var end := After(n - i, s.body, x, st, fuel, inFunc, env);
      Counts(end, x, l, n) && ExecRounds(s, st, fuel, inFunc, env) == (Normal, end)
  }

  /** From `i` the rounds end after n - i of them, with `x` at n; with less fuel they are cut off. */
  lemma {:induction false} CountingRounds(s: Stmt, x: string, n: Int64, l: nat, i: int, st: Store, fuel: nat,
                                          inFunc: bool, env: Env)
    requires s.LoopS? && Counts(st, x, l, i) && i <= n && AllCounted(s, x, n, fuel, inFunc, env)
    ensures CountsUp(s, x, n, l, i, st, fuel, inFunc, env)
    decreases fuel
  {
    if fuel > 0 {
      assert Counted(s, x, n, l, i, st, fuel - 1, inFunc, env);
      if i < n {
        CountingRounds(s, x, n, l, i + 1, Next(s.body, x, st, fuel - 1, inFunc, env), fuel - 1, inFunc, env);
      }
    }
  }

  /** `for x = 0, x < n, x += 1`: the loop ends normally exactly when more than n rounds may be run, and then the
      body and the step have run n times. */
  lemma CountingLoop(x: string, n: Int64, body: seq<Stmt>, st: Store, fuel: nat, inFunc: bool, env: Env)
    requires st.domains != [] && n >= 0 && LeavesAlone(body, x, fuel, inFunc, env)
    ensures var s := ForS(x, Leaf(Val(Num(Int(0)))), Below(x, n), Increase(x), body);
            var start := Push(Define(Push(st), x, Cell(Plain(Num(Int(0))), false)));
            && (Exec(s, st, fuel, inFunc, env).0 == Normal <==> fuel > n)
            && (fuel > n ==>
                  var end := After(n, body, x, start, fuel, inFunc, env);
                  Counts(end, x, |st.cells|, n) && |end.domains| >= 2
                  && Exec(s, st, fuel, inFunc, env) == (Normal, Pop(Pop(end))))
  {
    var s := ForS(x, Leaf(Val(Num(Int(0)))), Below(x, n), Increase(x), body);
    var defined := Define(Push(st), x, Cell(Plain(Num(Int(0))), false));
    var start := Push(defined);
    StartCounts(st, x, env.host);
    ForUnfolds(s, x, Leaf(Val(Num(Int(0)))), st, fuel, inFunc, env);
    forall st': Store, l: nat, i: int, k: nat | Counts(st', x, l, i) && i <= n && k < fuel
      ensures Counted(s, x, n, l, i, st', k, inFunc, env)
    {
      RoundCounts(s, x, n, l, i, st', k, inFunc, env);
    }
    CountingRounds(s, x, n, |st.cells|, 0, start, fuel, inFunc, env);
  }

  lemma StartCounts(st: Store, x: string, host: Host)
    requires st.domains != []
    ensures var defined := Define(Push(st), x, Cell(Plain(Num(Int(0))), false));
            && DefineVar(x, Leaf(Val(Num(Int(0)))), Push(st), host) == (Normal, defined)
            && Counts(Push(defined), x, |st.cells|, 0)
  {
    var defined := Define(Push(st), x, Cell(Plain(Num(Int(0))), false));
    var start := Push(defined);
    assert start.domains[1..] == defined.domains && Lookup(start.domains, x) == Lookup(defined.domains, x);
  }

  lemma EmptyLeavesAlone(x: string, fuel: nat, inFunc: bool, env: Env)
    ensures LeavesAlone([], x, fuel, inFunc, env)
  {
  }
}
