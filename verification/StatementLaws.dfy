/**
 What single statements do, said of `Exec` and of the results of the expressions in them: which branch runs, what
 ends a loop, where a thrown error and a returned value arrive.
 */
module StatementLaws {
  import opened Options
  import opened Values
  import opened Trees
  import opened Evaluator
  import opened OperatorLaws
  import opened Statements

  /** The expression has this value, and its evaluation leaves this store. */
  ghost predicate Yields(e: Tree, v: Value, st: Store, st': Store, host: Host) {
    var (x, st1) := Eval(e, st, host);
    x.Ok? && st1 == st' && Denotes(x.value, v, st')
  }

  /** The condition has this truth value. */
  ghost predicate Finds(c: Tree, b: bool, st: Store, st': Store, host: Host) {
    Yields(c, Plain(Bool(b)), st, st', host)
  }

  lemma FindsTests(c: Tree, b: bool, st: Store, st': Store, host: Host)
    requires Finds(c, b, st, st', host)
    ensures Test(c, st, host) == (Ok(b), st') && st'.domains == st.domains
  {
    EvalFrame(c, st, host);
    DenotesDeref(Eval(c, st, host).0.value, Plain(Bool(b)), st');
  }

  // ----- single statements -----

  /** An expression runs for what it writes; a break or a continue changes nothing; a block adds a scope. */
  lemma SimpleStatements(e: Tree, body: seq<Stmt>, st: Store, fuel: nat, inFunc: bool, env: Env)
    requires st.domains != []
    ensures var (x, st1) := Eval(e, st, env.host);
            Exec(ExprS(e), st, fuel, inFunc, env) == (if x.Ok? then Normal else Threw(x.error), st1)
    ensures Exec(BreakS, st, fuel, inFunc, env) == (Broke, st)
    ensures Exec(ContinueS, st, fuel, inFunc, env) == (Continued, st)
    ensures var (o, st1) := ExecSeq(body, Store([map[]] + st.domains, st.cells), fuel, inFunc, env);
            Exec(BlockS(body), st, fuel, inFunc, env) == (o, Store(st.domains, st1.cells))
  {
    EvalFrame(e, st, env.host);
    var pushed := Push(st);
    assert pushed == Store([map[]] + st.domains, st.cells) && pushed.domains[1..] == st.domains;
  }

  // ----- branches and sequences -----

  lemma IfTakesBranch(c: Tree, thn: seq<Stmt>, els: seq<Stmt>, b: bool, st: Store, st': Store, fuel: nat,
                      inFunc: bool, env: Env)
    requires st.domains != [] && Finds(c, b, st, st', env.host)
    ensures st'.domains != []
    ensures Exec(IfElseS(c, thn, els), st, fuel, inFunc, env)
         == Exec(BlockS(if b then thn else els), st', fuel, inFunc, env)
    ensures Exec(IfS(c, thn), st, fuel, inFunc, env)
         == if b then Exec(BlockS(thn), st', fuel, inFunc, env) else (Normal, st')
  {
    FindsTests(c, b, st, st', env.host);
  }

  /** A condition that fails, or is no boolean, is an error before any branch. */
  lemma IfFails(c: Tree, thn: seq<Stmt>, els: seq<Stmt>, st: Store, fuel: nat, inFunc: bool, env: Env)
    requires st.domains != []
    ensures var (x, st1) := Eval(c, st, env.host);
            x.Fail? ==> Exec(IfElseS(c, thn, els), st, fuel, inFunc, env) == (Threw(x.error), st1)
                        && Exec(IfS(c, thn), st, fuel, inFunc, env) == (Threw(x.error), st1)
  {
  }

  /** One list after the other, unless the first one ends in another way. */
  lemma {:induction false} SeqConcat(a: seq<Stmt>, b: seq<Stmt>, st: Store, fuel: nat, inFunc: bool, env: Env)
    requires st.domains != []
    ensures ExecSeq(a + b, st, fuel, inFunc, env) ==
            var (o, st1) := ExecSeq(a, st, fuel, inFunc, env);
            if o.Normal? then ExecSeq(b, st1, fuel, inFunc, env) else (o, st1)
  {
    if a == [] {
      assert a + b == b;
    } else {
      assert (a + b)[0] == a[0] && (a + b)[1..] == a[1..] + b;
      var (o, st1) := Exec(a[0], st, fuel, inFunc, env);
      if o.Normal? {
        SeqConcat(a[1..], b, st1, fuel, inFunc, env);
      }
    }
  }

  // ----- the ends of a loop -----

  /** What one more round of a `while` does. */
  lemma WhileRound(w: Stmt, c: Tree, b: bool, st: Store, st': Store, fuel: nat, inFunc: bool, env: Env)
    requires w.LoopS? && w.cond == Some(c) && w.step.None? && w.until.None? && st.domains != []
    requires Finds(c, b, st, st', env.host)
    ensures st'.domains != []
    ensures !b ==> ExecRounds(w, st, fuel + 1, inFunc, env) == (Normal, st')
    ensures b ==>
              var (o, st2) := ExecSeq(w.body, st', fuel, inFunc, env);
              ExecRounds(w, st, fuel + 1, inFunc, env) ==
              match o
              case Normal | Continued => ExecRounds(w, st2, fuel, inFunc, env)
              case Broke => (Normal, st2)
              case _ => (o, st2)
  {
    FindsTests(c, b, st, st', env.host);
  }

  /** `loop .. until c`: the closing condition is looked at after every round that is not left, by a continue
      included. */
  lemma UntilRound(w: Stmt, c: Tree, b: bool, st: Store, st2: Store, st': Store, fuel: nat, inFunc: bool, env: Env)
    requires w.LoopS? && w.cond.None? && w.step.None? && w.until == Some(c) && st.domains != []
    requires ExecSeq(w.body, st, fuel, inFunc, env) == (Normal, st2)
          || ExecSeq(w.body, st, fuel, inFunc, env) == (Continued, st2)
    requires Finds(c, b, st2, st', env.host)
    ensures st'.domains != []
    ensures ExecRounds(w, st, fuel + 1, inFunc, env)
         == if b then (Normal, st') else ExecRounds(w, st', fuel, inFunc, env)
  {
    FindsTests(c, b, st2, st', env.host);
  }

  // ----- errors and values -----

  /** A new variable has the value of its expression, in a cell of its own. */
  lemma DefinitionBinds(name: string, e: Tree, v: Value, st: Store, st': Store, fuel: nat, inFunc: bool, env: Env)
    requires st.domains != []
    requires Yields(e, v, st, st', env.host)
    ensures var (o, st1) := Exec(VarS(name, e), st, fuel, inFunc, env);
            && o == Normal && Lookup(st1.domains, name) == Some(|st'.cells|)
            && st1.cells == st'.cells + [Cell(v, false)]
            && st1.domains == [st.domains[0][name := |st'.cells|]] + st.domains[1..]
  {
    EvalFrame(e, st, env.host);
    DenotesDeref(Eval(e, st, env.host).0.value, v, st');
  }

  /** A thrown error reaches the handler of the `try` around it, in a scope of its own that binds the error; other
      errors and other ends of the body pass it by. */
  lemma ErrorsAreCaught(body: seq<Stmt>, name: string, handler: seq<Stmt>, st: Store, fuel: nat, inFunc: bool, env: Env)
    requires st.domains != []
    ensures var (o, st1) := ExecSeq(body, Push(st), fuel, inFunc, env);
            var r := Exec(TryS(body, name, handler), st, fuel, inFunc, env);
            && (o.Threw? && o.error.Lang? ==>
                  var cells := st1.cells + [Cell(Err(o.error.text), false)];
                  var caught := Store([map[name := |st1.cells|]] + st.domains, cells);
                  var (o2, st2) := ExecSeq(handler, caught, fuel, inFunc, env);
                  r.0 == o2 && r.1.cells == st2.cells && r.1.domains == st.domains)
            && (!(o.Threw? && o.error.Lang?) ==> r.0 == o && r.1.cells == st1.cells && r.1.domains == st.domains)
  {
    var st1 := ExecSeq(body, Push(st), fuel, inFunc, env).1;
    assert Push(st).domains[1..] == st.domains;
    assert (map[])[name := |st1.cells|] == map[name := |st1.cells|];
    assert [map[]] + st1.domains[1..] == [map[]] + st.domains;
    assert ([map[]] + st.domains)[1..] == st.domains;
  }

  lemma ThrowsErrors(e: Tree, v: Value, st: Store, st': Store, fuel: nat, inFunc: bool, env: Env)
    requires st.domains != []
    requires Yields(e, v, st, st', env.host)
    ensures Exec(ThrowS(e), st, fuel, inFunc, env) == (Threw(if v.Err? then Lang(v.text) else NotThrowable), st')
  {
    DenotesDeref(Eval(e, st, env.host).0.value, v, st');
  }

  /** `return e` in a function, and what a call makes of it. */
  lemma ReturnsValue(e: Tree, v: Value, st: Store, st': Store, fuel: nat, env: Env)
    requires st.domains != []
    requires Yields(e, v, st, st', env.host)
    ensures Exec(ReturnS(Some(e)), st, fuel, true, env) == (Returned(v), st')
    ensures Exec(ReturnS(None), st, fuel, true, env) == (Returned(NullPointer), st)
    ensures Exec(ReturnS(Some(e)), st, fuel, false, env) == (Threw(ReturnOutsideFunction), st)
  {
    DenotesDeref(Eval(e, st, env.host).0.value, v, st');
  }

  /** The arguments succeed, from left to right. */
  ghost predicate ArgumentsGive(args: seq<Tree>, rs: seq<Res>, st: Store, st': Store, host: Host) {
    if args == [] then rs == [] && st' == st
    else
      var (x, st1) := Eval(args[0], st, host);
      rs != [] && x == Ok(rs[0]) && ArgumentsGive(args[1..], rs[1..], st1, st', host)
  }

  lemma {:induction false} ArgumentsEvaluate(args: seq<Tree>, rs: seq<Res>, st: Store, st': Store, host: Host)
    requires ArgumentsGive(args, rs, st, st', host)
    ensures EvalArgs(args, st, host) == (Ok(rs), st') && |rs| == |args|
  {
    if args != [] {
      var st1 := Eval(args[0], st, host).1;
      ArgumentsEvaluate(args[1..], rs[1..], st1, st', host);
      assert rs == [rs[0]] + rs[1..];
    }
  }

  /** The first argument that fails ends the call. */
  lemma {:induction false} ArgumentFails(args: seq<Tree>, k: nat, rs: seq<Res>, st: Store, mid: Store, host: Host)
    requires k < |args| && ArgumentsGive(args[..k], rs, st, mid, host) && Eval(args[k], mid, host).0.Fail?
    ensures EvalArgs(args, st, host) == (Fail(Eval(args[k], mid, host).0.error), Eval(args[k], mid, host).1)
  {
    if k > 0 {
      var st1 := Eval(args[0], st, host).1;
      assert args[..k][0] == args[0] && args[..k][1..] == args[1..][..k - 1];
      ArgumentFails(args[1..], k - 1, rs[1..], st1, mid, host);
    }
  }

  lemma CallFails(name: string, func: string, args: seq<Tree>, k: nat, rs: seq<Res>, st: Store, mid: Store, fuel: nat,
                  inFunc: bool, env: Env)
    requires st.domains != [] && k <= |args| && ArgumentsGive(args[..k], rs, st, mid, env.host)
    ensures func !in env.funcs ==> Exec(CallS(name, func, args), st, fuel, inFunc, env) == (Threw(Undefined(func)), st)
    ensures func in env.funcs && k < |args| && Eval(args[k], mid, env.host).0.Fail? ==>
              (var (x, st1) := Eval(args[k], mid, env.host);
               Exec(CallS(name, func, args), st, fuel, inFunc, env) == (Threw(x.error), st1))
    ensures func in env.funcs && k == |args| && k != |env.funcs[func].params| ==>
              Exec(CallS(name, func, args), st, fuel, inFunc, env) == (Threw(ArgumentCount), mid)
  {
    if k < |args| {
      if Eval(args[k], mid, env.host).0.Fail? {
        ArgumentFails(args, k, rs, st, mid, env.host);
      }
    } else {
      assert args[..k] == args;
      ArgumentsEvaluate(args, rs, st, mid, env.host);
    }
  }

  /** The parameter stands for the variable passed to it, or for a new cell with the value passed: a protected one
      for a constant. */
  predicate BoundTo(st: Store, name: string, r: Res) {
    st.domains != [] && name in st.domains[0] &&
    var l := st.domains[0][name];
    match r
    case Ref(k) => l == k
    case Temp(v) => l < |st.cells| && st.cells[l] == Cell(v, false)
    case Lit(v) => l < |st.cells| && st.cells[l] == Cell(Plain(v), true)
    case Void => l < |st.cells| && st.cells[l] == Cell(Unset, false)
  }

  lemma {:induction false} BindingStays(st: Store, params: seq<string>, rs: seq<Res>, name: string, r: Res)
    requires st.domains != [] && |params| == |rs| && name !in params && BoundTo(st, name, r)
    ensures BoundTo(BindAll(st, params, rs), name, r)
    decreases |params|
  {
    if params != [] {
      assert params[0] in params;
      BindingStays(Bind(st, params[0], rs[0]), params[1..], rs[1..], name, r);
    }
  }

  /** Every parameter, when no two have the same name. */
  lemma {:induction false} ParametersBound(st: Store, params: seq<string>, rs: seq<Res>, i: nat)
    requires st.domains != [] && |params| == |rs| && i < |params|
    requires forall j, k :: 0 <= j < k < |params| ==> params[j] != params[k]
    ensures BoundTo(BindAll(st, params, rs), params[i], rs[i])
    decreases |params|
  {
    var bound := Bind(st, params[0], rs[0]);
    if i == 0 {
      forall j | 0 <= j < |params[1..]| ensures params[1..][j] != params[0] {
        assert params[1..][j] == params[j + 1];
      }
      BindingStays(bound, params[1..], rs[1..], params[0], rs[0]);
    } else {
      forall j, k | 0 <= j < k < |params[1..]| ensures params[1..][j] != params[1..][k] {
        assert params[1..][j] == params[j + 1] && params[1..][k] == params[k + 1];
      }
      ParametersBound(bound, params[1..], rs[1..], i - 1);
    }
  }

  /** A function called with one variable: the parameter is that variable, the body runs in the scope of its
      parameters above those of the caller, and the name on the left gets what it returns, in a cell of its own. */
  lemma CallBinds(name: string, func: string, x: string, l: nat, st: Store, fuel: nat, inFunc: bool, env: Env)
    requires st.domains != [] && fuel > 0 && func in env.funcs && |env.funcs[func].params| == 1
    requires Lookup(st.domains, x) == Some(l)
    ensures var g := env.funcs[func];
            var (o, st1) := ExecSeq(g.body, Store([map[g.params[0] := l]] + st.domains, st.cells), fuel - 1, true, env);
            var r := Exec(CallS(name, func, [Leaf(Id(x))]), st, fuel, inFunc, env);
            && (o.Threw? || o.OutOfFuel? ==> r.0 == o && r.1.domains == st.domains && r.1.cells == st1.cells)
            && (!o.Threw? && !o.OutOfFuel? ==>
                  r.0 == Normal && r.1.domains == [st.domains[0][name := |st1.cells|]] + st.domains[1..]
                  && r.1.cells == st1.cells + [Cell(if o.Returned? then o.v else NullPointer, false)])
  {
    var g, args := env.funcs[func], [Leaf(Id(x))];
    EvalOne(x, l, st, env.host);
    BindOne(g.params, l, st);
    assert Exec(CallS(name, func, args), st, fuel, inFunc, env)
        == Invoke(name, g, [Ref(l)], st, fuel - 1, env);
    var bound := Store([map[g.params[0] := l]] + st.domains, st.cells);
    var st1 := ExecSeq(g.body, bound, fuel - 1, true, env).1;
    assert bound.domains[1..] == st.domains && st1.domains[1..] == st.domains;
  }

  lemma EvalOne(x: string, l: nat, st: Store, host: Host)
    requires Lookup(st.domains, x) == Some(l)
    ensures EvalArgs([Leaf(Id(x))], st, host) == (Ok([Ref(l)]), st)
  {
    var args := [Leaf(Id(x))];
    assert args[0] == Leaf(Id(x)) && args[1..] == [];
    assert Eval(args[0], st, host) == (Ok(Ref(l)), st);
    assert EvalArgs(args[1..], st, host) == (Ok([]), st);
    assert [Ref(l)] + [] == [Ref(l)];
  }

  lemma BindOne(params: seq<string>, l: nat, st: Store)
    requires |params| == 1
    ensures BindAll(Push(st), params, [Ref(l)]) == Store([map[params[0] := l]] + st.domains, st.cells)
  {
    var pushed, args := Push(st), [Ref(l)];
    assert pushed.domains[0] == map[] && pushed.domains[1..] == st.domains;
    assert (map[])[params[0] := l] == map[params[0] := l];
    var bound := Bind(pushed, params[0], args[0]);
    assert bound == Store([map[params[0] := l]] + st.domains, st.cells);
    assert params[1..] == [] && args[1..] == [];
    assert BindAll(bound, params[1..], args[1..]) == bound;
  }
}
