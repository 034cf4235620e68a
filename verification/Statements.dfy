/**
 The statement language and its structured meaning: every statement ends normally, breaks, continues,
 returns a value or raises an error. The interpreter itself has no such outcomes, only flags; that it
 behaves as described here is proved in StatementMachine.

 A loop or a recursion may not end, so runs are cut off by `fuel`; a run that ends does so alike with
 any more fuel (FuelIrrelevant).
 */
module Statements {
  import opened Options
  import opened Values
  import opened Trees
  import opened Evaluator

  datatype Stmt =
    | ExprS(e: Tree)
    | VarS(name: string, e: Tree)
    | CallS(name: string, func: string, args: seq<Tree>)  // var name = func(args)
    | BreakS
    | ContinueS
    | ReturnS(result: Option<Tree>)
    | ThrowS(e: Tree)
    | BlockS(body: seq<Stmt>)
    | IfS(c: Tree, thn: seq<Stmt>)
    | IfElseS(c: Tree, thn: seq<Stmt>, els: seq<Stmt>)
    | LoopS(init: Option<(string, Tree)>, cond: Option<Tree>, body: seq<Stmt>, step: Option<Tree>, until: Option<Tree>)
    | TryS(body: seq<Stmt>, name: string, handler: seq<Stmt>)

  /** `loop` without a closing condition, and with one. */
  function ForeverS(body: seq<Stmt>): Stmt { LoopS(None, None, body, None, None) }

  function LoopUntilS(body: seq<Stmt>, c: Tree): Stmt { LoopS(None, None, body, None, Some(c)) }

  datatype Func = Func(params: seq<string>, body: seq<Stmt>)

  /** The fixed surroundings of a run: the functions and the host. */
  datatype Env = Env(funcs: map<string, Func>, host: Host)

  datatype Outcome = Normal | Broke | Continued | Returned(v: Value) | Threw(error: Error) | OutOfFuel

  // ----- scopes and variables -----

  function Push(st: Store): Store { st.(domains := [map[]] + st.domains) }

  function Pop(st: Store): Store
    requires st.domains != []
  {
    st.(domains := st.domains[1..])
  }

  /** Binds a name in the innermost domain to a new cell. */
  function Define(st: Store, name: string, cell: Cell): Store
    requires st.domains != []
  {
    Store([st.domains[0][name := |st.cells|]] + st.domains[1..], st.cells + [cell])
  }

  function ValueOf(r: Res, st: Store): Value {
    match Deref(r, st)
    case Some(v) => v
    case None => Unset
  }

  /** A parameter shares the cell of a variable argument; other arguments get a cell of their own. */
  function Bind(st: Store, name: string, arg: Res): Store
    requires st.domains != []
  {
    match arg
    case Ref(l) => st.(domains := [st.domains[0][name := l]] + st.domains[1..])
    case Temp(v) => Define(st, name, Cell(v, false))
    case Lit(v) => Define(st, name, Cell(Plain(v), true))
    case Void => Define(st, name, Cell(Unset, false))
  }

  function BindAll(st: Store, params: seq<string>, args: seq<Res>): (st': Store)
    requires st.domains != [] && |params| == |args|
    ensures |st'.domains| == |st.domains| && st'.domains[1..] == st.domains[1..]
    decreases |params|
  {
    if params == [] then st else BindAll(Bind(st, params[0], args[0]), params[1..], args[1..])
  }

  function EvalArgs(args: seq<Tree>, st: Store, host: Host): (Result<seq<Res>>, Store) {
    if args == [] then (Ok([]), st)
    else
      var (x, st1) := Eval(args[0], st, host);
      if x.Fail? then (Fail(x.error), st1)
      else
        var (rest, st2) := EvalArgs(args[1..], st1, host);
        if rest.Fail? then (rest, st2) else (Ok([x.value] + rest.value), st2)
  }

  lemma {:induction false} EvalArgsFrame(args: seq<Tree>, st: Store, host: Host)
    ensures Frame(st, EvalArgs(args, st, host).1)
    ensures EvalArgs(args, st, host).0.Ok? ==> |EvalArgs(args, st, host).0.value| == |args|
  {
    if args != [] {
      EvalFrame(args[0], st, host);
      var st1 := Eval(args[0], st, host).1;
      EvalArgsFrame(args[1..], st1, host);
      FrameTrans(st, st1, EvalArgs(args[1..], st1, host).1);
    }
  }

  /** Only the innermost domain may have gained or rebound names. */
  predicate SameBelow(st: Store, st': Store) {
    |st'.domains| == |st.domains| && (st.domains != [] ==> st'.domains[1..] == st.domains[1..])
  }

  /** An expression run for its effect. */
  function Effect(e: Tree, st: Store, host: Host): (r: (Outcome, Store))
    ensures SameBelow(st, r.1)
    ensures r.0.Normal? || r.0.Threw?
  {
    EvalFrame(e, st, host);
    var (x, st1) := Eval(e, st, host);
    (if x.Fail? then Threw(x.error) else Normal, st1)
  }

  /** `parse_define_var`: the value is copied into a new cell. */
  function DefineVar(name: string, e: Tree, st: Store, host: Host): (r: (Outcome, Store))
    requires st.domains != []
    ensures SameBelow(st, r.1)
  {
    EvalFrame(e, st, host);
    var (x, st1) := Eval(e, st, host);
    if x.Fail? then (Threw(x.error), st1)
    else (Normal, Define(st1, name, Cell(ValueOf(x.value, st1), false)))
  }

  function Test(c: Tree, st: Store, host: Host): (r: (Result<bool>, Store))
    ensures SameBelow(st, r.1)
  {
    EvalFrame(c, st, host);
    EvalBool(c, st, host)
  }

  // ----- the meaning of statements -----

  /** A body in a domain of its own. */
  function ExecScoped(body: seq<Stmt>, st: Store, fuel: nat, inFunc: bool, env: Env): (r: (Outcome, Store))
    requires st.domains != []
    ensures r.1.domains == st.domains
    decreases fuel, body, 1
  {
    var (o, st1) := ExecSeq(body, Push(st), fuel, inFunc, env);
    (o, Pop(st1))
  }

  function ExecSeq(body: seq<Stmt>, st: Store, fuel: nat, inFunc: bool, env: Env): (r: (Outcome, Store))
    requires st.domains != []
    ensures SameBelow(st, r.1)
    decreases fuel, body, 0
  {
    if body == [] then (Normal, st)
    else
      var (o, st1) := Exec(body[0], st, fuel, inFunc, env);
      if o.Normal? then ExecSeq(body[1..], st1, fuel, inFunc, env) else (o, st1)
  }

  function Exec(s: Stmt, st: Store, fuel: nat, inFunc: bool, env: Env): (r: (Outcome, Store))
    requires st.domains != []
    ensures SameBelow(st, r.1)
    decreases fuel, s, 2
  {
    match s
    case ExprS(e) => Effect(e, st, env.host)
    case VarS(name, e) => DefineVar(name, e, st, env.host)
    case BreakS => (Broke, st)
    case ContinueS => (Continued, st)
    case ReturnS(e) => ExecReturn(e, st, inFunc, env.host)
    case ThrowS(e) => ExecThrow(e, st, env.host)
    case BlockS(body) => ExecScoped(body, st, fuel, inFunc, env)
    case IfS(c, thn) =>
      var (b, st1) := Test(c, st, env.host);
      if b.Fail? then (Threw(b.error), st1)
      else if b.value then ExecScoped(thn, st1, fuel, inFunc, env)
      else (Normal, st1)
    case IfElseS(c, thn, els) =>
      var (b, st1) := Test(c, st, env.host);
      if b.Fail? then (Threw(b.error), st1)
      else ExecScoped(if b.value then thn else els, st1, fuel, inFunc, env)
    case LoopS(init, cond, body, step, until) => ExecLoop(s, st, fuel, inFunc, env)
    case TryS(body, name, handler) => ExecTry(s, st, fuel, inFunc, env)
    case CallS(name, f, args) => ExecCall(s, st, fuel, env)
  }

  function ExecReturn(e: Option<Tree>, st: Store, inFunc: bool, host: Host): (r: (Outcome, Store))
    ensures SameBelow(st, r.1)
  {
    if !inFunc then (Threw(ReturnOutsideFunction), st)
    else if e.None? then (Returned(NullPointer), st)
    else
      EvalFrame(e.value, st, host);
      var (x, st1) := Eval(e.value, st, host);
      (if x.Fail? then Threw(x.error) else Returned(ValueOf(x.value, st1)), st1)
  }

  /** Only error objects can be thrown. */
  function ExecThrow(e: Tree, st: Store, host: Host): (r: (Outcome, Store))
    ensures SameBelow(st, r.1)
  {
    EvalFrame(e, st, host);
    var (x, st1) := Eval(e, st, host);
    if x.Fail? then (Threw(x.error), st1)
    else if ValueOf(x.value, st1).Err? then (Threw(Lang(ValueOf(x.value, st1).text)), st1)
    else (Threw(NotThrowable), st1)
  }

  /** The first script error of the body clears the domain and starts the handler in it. */
  function ExecTry(s: Stmt, st: Store, fuel: nat, inFunc: bool, env: Env): (r: (Outcome, Store))
    requires s.TryS? && st.domains != []
    ensures r.1.domains == st.domains
    decreases fuel, s, 1
  {
    var (o, st1) := ExecSeq(s.body, Push(st), fuel, inFunc, env);
    if o.Threw? && o.error.Lang? then
      var (o2, st2) := ExecSeq(s.handler, Caught(st1, s.name, o.error.text), fuel, inFunc, env);
      (o2, Pop(st2))
    else (o, Pop(st1))
  }

  function Caught(st: Store, name: string, text: string): (st': Store)
    requires st.domains != []
    ensures SameBelow(st, st')
  {
    Define(st.(domains := [map[]] + st.domains[1..]), name, Cell(Err(text), false))
  }

  /** A loop owns one domain for all its rounds, inside the domain of its loop variable if it has one. */
  function ExecLoop(s: Stmt, st: Store, fuel: nat, inFunc: bool, env: Env): (r: (Outcome, Store))
    requires s.LoopS? && st.domains != []
    ensures r.1.domains == st.domains
    decreases fuel, s, 1
  {
    if s.init.None? then
      var (o, st1) := ExecRounds(s, Push(st), fuel, inFunc, env);
      (o, Pop(st1))
    else
      var (o, st1) := DefineVar(s.init.value.0, s.init.value.1, Push(st), env.host);
      if !o.Normal? then (o, Pop(st1))
      else
        var (o2, st2) := ExecRounds(s, Push(st1), fuel, inFunc, env);
        (o2, Pop(Pop(st2)))
  }

  /** Rounds until one of them ends the loop. */
  function ExecRounds(s: Stmt, st: Store, fuel: nat, inFunc: bool, env: Env): (r: (Outcome, Store))
    requires s.LoopS? && st.domains != []
    ensures SameBelow(st, r.1)
    decreases fuel, s, 0
  {
    if fuel == 0 then (OutOfFuel, st)
    else
      var (end, st1) := ExecRound(s, st, fuel - 1, inFunc, env);
      if end.Some? then (end.value, st1) else ExecRounds(s, st1, fuel - 1, inFunc, env)
  }

  /** One round: condition, body, step, closing condition. Yields the loop's outcome if it ends here. */
  function ExecRound(s: Stmt, st: Store, fuel: nat, inFunc: bool, env: Env): (r: (Option<Outcome>, Store))
    requires s.LoopS? && st.domains != []
    ensures SameBelow(st, r.1)
    decreases fuel, s, 0
  {
    var (b, st1) := TestIfAny(s.cond, true, st, env.host);
    if b.Fail? then (Some(Threw(b.error)), st1)
    else if !b.value then (Some(Normal), st1)
    else
      var (o, st2) := ExecSeq(s.body, st1, fuel, inFunc, env);
      if o.Broke? then (Some(Normal), st2)
      else if o.Normal? || o.Continued? then FinishRound(s, st2, env.host)
      else (Some(o), st2)
  }

  function FinishRound(s: Stmt, st: Store, host: Host): (r: (Option<Outcome>, Store))
    requires s.LoopS? && st.domains != []
    ensures SameBelow(st, r.1)
    ensures r.0.Some? ==> r.0.value.Normal? || r.0.value.Threw?
  {
    var (o, st1) := if s.step.Some? then Effect(s.step.value, st, host) else (Normal, st);
    if !o.Normal? then (Some(o), st1)
    else
      var (u, st2) := TestIfAny(s.until, false, st1, host);
      if u.Fail? then (Some(Threw(u.error)), st2) else (if u.value then Some(Normal) else None, st2)
  }

  function TestIfAny(c: Option<Tree>, default: bool, st: Store, host: Host): (r: (Result<bool>, Store))
    ensures SameBelow(st, r.1)
  {
    if c.Some? then Test(c.value, st, host) else (Ok(default), st)
  }

  /** A call runs the body in a domain holding the parameters. A body that ends without `return`
      yields the null pointer. A stray break or continue has no meaning here (see LoopSafe). */
  function ExecCall(s: Stmt, st: Store, fuel: nat, env: Env): (r: (Outcome, Store))
    requires s.CallS? && st.domains != []
    ensures SameBelow(st, r.1) && !Escapes(r.0)
    decreases fuel, s, 1
  {
    if s.func !in env.funcs then (Threw(Undefined(s.func)), st)
    else
      var f := env.funcs[s.func];
      EvalArgsFrame(s.args, st, env.host);
      var (args, st1) := EvalArgs(s.args, st, env.host);
      if args.Fail? then (Threw(args.error), st1)
      else if |args.value| != |f.params| then (Threw(ArgumentCount), st1)
      else if fuel == 0 then (OutOfFuel, st1)
      else Invoke(s.name, f, args.value, st1, fuel - 1, env)
  }

  /** What is left of a call once the arguments are evaluated. */
  function Invoke(name: string, f: Func, args: seq<Res>, st: Store, fuel: nat, env: Env): (r: (Outcome, Store))
    requires st.domains != [] && |args| == |f.params|
    ensures SameBelow(st, r.1) && !Escapes(r.0)
    decreases fuel, f.body, 1
  {
    var (o, st1) := ExecSeq(f.body, BindAll(Push(st), f.params, args), fuel, true, env);
    var st2 := Pop(st1);
    match o
    case Returned(v) => (Normal, Define(st2, name, Cell(v, false)))
    case Normal | Broke | Continued => (Normal, Define(st2, name, Cell(NullPointer, false)))
    case _ => (o, st2)
  }

  // ----- break and continue stay inside loops -----

  /** Every break and continue lies inside a loop, counting an enclosing loop if `inLoop`. */
  predicate LoopSafe(s: Stmt, inLoop: bool)
    decreases s, 0
  {
    match s
    case BreakS | ContinueS => inLoop
    case BlockS(body) => AllLoopSafe(body, inLoop)
    case IfS(_, thn) => AllLoopSafe(thn, inLoop)
    case IfElseS(_, thn, els) => AllLoopSafe(thn, inLoop) && AllLoopSafe(els, inLoop)
    case LoopS(_, _, body, _, _) => AllLoopSafe(body, true)
    case TryS(body, _, handler) => AllLoopSafe(body, inLoop) && AllLoopSafe(handler, inLoop)
    case _ => true
  }

  predicate AllLoopSafe(body: seq<Stmt>, inLoop: bool)
    decreases body, 1
  {
    body == [] || (LoopSafe(body[0], inLoop) && AllLoopSafe(body[1..], inLoop))
  }

  predicate Escapes(o: Outcome) { o.Broke? || o.Continued? }

  lemma {:induction false} SafeSeqNeverEscapes(body: seq<Stmt>, st: Store, fuel: nat, inFunc: bool, env: Env)
    requires st.domains != [] && AllLoopSafe(body, false)
    ensures !Escapes(ExecSeq(body, st, fuel, inFunc, env).0)
    decreases body, 1
  {
    if body != [] {
      SafeNeverEscapes(body[0], st, fuel, inFunc, env);
      var (o, st1) := Exec(body[0], st, fuel, inFunc, env);
      SafeSeqNeverEscapes(body[1..], st1, fuel, inFunc, env);
    }
  }

  lemma {:induction false} RoundsNeverEscape(s: Stmt, st: Store, fuel: nat, inFunc: bool, env: Env)
    requires s.LoopS? && st.domains != []
    ensures !Escapes(ExecRounds(s, st, fuel, inFunc, env).0)
    decreases fuel
  {
    if fuel > 0 {
      var (end, st1) := ExecRound(s, st, fuel - 1, inFunc, env);
      if end.None? {
        RoundsNeverEscape(s, st1, fuel - 1, inFunc, env);
      }
    }
  }

  lemma LoopNeverEscapes(s: Stmt, st: Store, fuel: nat, inFunc: bool, env: Env)
    requires s.LoopS? && st.domains != []
    ensures !Escapes(Exec(s, st, fuel, inFunc, env).0)
  {
    RoundsNeverEscape(s, Push(st), fuel, inFunc, env);
    if s.init.Some? {
      var st1 := DefineVar(s.init.value.0, s.init.value.1, Push(st), env.host).1;
      RoundsNeverEscape(s, Push(st1), fuel, inFunc, env);
    }
  }

  /** A statement whose breaks and continues lie inside its own loops never breaks or continues. */
  lemma {:induction false} SafeNeverEscapes(s: Stmt, st: Store, fuel: nat, inFunc: bool, env: Env)
    requires st.domains != [] && LoopSafe(s, false)
    ensures !Escapes(Exec(s, st, fuel, inFunc, env).0)
    decreases s, 0
  {
    match s
    case BlockS(body) => SafeSeqNeverEscapes(body, Push(st), fuel, inFunc, env);
    case IfS(c, thn) => SafeSeqNeverEscapes(thn, Push(Test(c, st, env.host).1), fuel, inFunc, env);
    case IfElseS(c, thn, els) =>
      SafeSeqNeverEscapes(thn, Push(Test(c, st, env.host).1), fuel, inFunc, env);
      SafeSeqNeverEscapes(els, Push(Test(c, st, env.host).1), fuel, inFunc, env);
    case LoopS(_, _, _, _, _) => LoopNeverEscapes(s, st, fuel, inFunc, env);
    case TryS(body, name, handler) =>
      SafeSeqNeverEscapes(body, Push(st), fuel, inFunc, env);
      var (o, st1) := ExecSeq(body, Push(st), fuel, inFunc, env);
      if o.Threw? && o.error.Lang? {
        SafeSeqNeverEscapes(handler, Caught(st1, name, o.error.text), fuel, inFunc, env);
      }
    case _ =>
  }

  // ----- fuel -----

  /** A run that ends, ends alike with more fuel. */
  predicate Settled(r: (Outcome, Store), r': (Outcome, Store)) {
    !r.0.OutOfFuel? ==> r' == r
  }

  lemma {:induction false} FuelSeq(body: seq<Stmt>, st: Store, fuel: nat, more: nat, inFunc: bool, env: Env)
    requires st.domains != [] && fuel <= more
    ensures Settled(ExecSeq(body, st, fuel, inFunc, env), ExecSeq(body, st, more, inFunc, env))
    decreases fuel, body, 0
  {
    if body != [] {
      FuelIrrelevant(body[0], st, fuel, more, inFunc, env);
      var (o, st1) := Exec(body[0], st, fuel, inFunc, env);
      if o.Normal? {
        FuelSeq(body[1..], st1, fuel, more, inFunc, env);
      }
    }
  }

  /** Two loops that differ in their bodies go through a round alike if their bodies do. */
  lemma RoundFollows(s: Stmt, t: Stmt, st: Store, fuel: nat, fuel': nat, inFunc: bool, env: Env, env': Env)
    requires s.LoopS? && t.LoopS? && s.cond == t.cond && s.step == t.step && s.until == t.until
    requires st.domains != [] && env'.host == env.host
    requires var st1 := TestIfAny(s.cond, true, st, env.host).1;
             Settled(ExecSeq(s.body, st1, fuel, inFunc, env), ExecSeq(t.body, st1, fuel', inFunc, env'))
    ensures var r := ExecRound(s, st, fuel, inFunc, env);
            r.0 == Some(OutOfFuel) || ExecRound(t, st, fuel', inFunc, env') == r
  {
  }

  /** And so do all rounds, if the rounds after the first do. */
  lemma RoundsFollow(s: Stmt, t: Stmt, st: Store, fuel: nat, fuel': nat, inFunc: bool, env: Env, env': Env)
    requires s.LoopS? && t.LoopS? && st.domains != [] && fuel > 0 && fuel' > 0
    requires var r := ExecRound(s, st, fuel - 1, inFunc, env);
             && (r.0 == Some(OutOfFuel) || ExecRound(t, st, fuel' - 1, inFunc, env') == r)
             && (r.0.None? ==> Settled(ExecRounds(s, r.1, fuel - 1, inFunc, env),
                                       ExecRounds(t, r.1, fuel' - 1, inFunc, env')))
    ensures Settled(ExecRounds(s, st, fuel, inFunc, env), ExecRounds(t, st, fuel', inFunc, env'))
  {
  }

  lemma {:induction false} FuelRounds(s: Stmt, st: Store, fuel: nat, more: nat, inFunc: bool, env: Env)
    requires s.LoopS? && st.domains != [] && fuel <= more
    ensures Settled(ExecRounds(s, st, fuel, inFunc, env), ExecRounds(s, st, more, inFunc, env))
    decreases fuel, s, 0
  {
    if fuel > 0 {
      FuelSeq(s.body, TestIfAny(s.cond, true, st, env.host).1, fuel - 1, more - 1, inFunc, env);
      RoundFollows(s, s, st, fuel - 1, more - 1, inFunc, env, env);
      var (end, st1) := ExecRound(s, st, fuel - 1, inFunc, env);
      if end.None? {
        FuelRounds(s, st1, fuel - 1, more - 1, inFunc, env);
      }
      RoundsFollow(s, s, st, fuel, more, inFunc, env, env);
    }
  }

  lemma {:induction false} FuelCall(s: Stmt, st: Store, fuel: nat, more: nat, env: Env)
    requires s.CallS? && st.domains != [] && fuel <= more
    ensures Settled(ExecCall(s, st, fuel, env), ExecCall(s, st, more, env))
    decreases fuel, s, 1
  {
    if s.func in env.funcs && fuel > 0 {
      var f := env.funcs[s.func];
      EvalArgsFrame(s.args, st, env.host);
      var (args, st1) := EvalArgs(s.args, st, env.host);
      if args.Ok? && |args.value| == |f.params| {
        FuelSeq(f.body, BindAll(Push(st1), f.params, args.value), fuel - 1, more - 1, true, env);
      }
    }
  }

  lemma {:induction false} FuelLoop(s: Stmt, st: Store, fuel: nat, more: nat, inFunc: bool, env: Env)
    requires s.LoopS? && st.domains != [] && fuel <= more
    ensures Settled(ExecLoop(s, st, fuel, inFunc, env), ExecLoop(s, st, more, inFunc, env))
    decreases fuel, s, 1
  {
    if s.init.None? {
      FuelRounds(s, Push(st), fuel, more, inFunc, env);
    } else {
      var st1 := DefineVar(s.init.value.0, s.init.value.1, Push(st), env.host).1;
      FuelRounds(s, Push(st1), fuel, more, inFunc, env);
    }
  }

  lemma {:induction false} FuelTry(s: Stmt, st: Store, fuel: nat, more: nat, inFunc: bool, env: Env)
    requires s.TryS? && st.domains != [] && fuel <= more
    ensures Settled(ExecTry(s, st, fuel, inFunc, env), ExecTry(s, st, more, inFunc, env))
    decreases fuel, s, 1
  {
    FuelSeq(s.body, Push(st), fuel, more, inFunc, env);
    var (o, st1) := ExecSeq(s.body, Push(st), fuel, inFunc, env);
    if o.Threw? && o.error.Lang? {
      FuelSeq(s.handler, Caught(st1, s.name, o.error.text), fuel, more, inFunc, env);
    }
  }

  /** Once a run ends, more fuel changes nothing. */
  lemma {:induction false} FuelIrrelevant(s: Stmt, st: Store, fuel: nat, more: nat, inFunc: bool, env: Env)
    requires st.domains != [] && fuel <= more
    ensures Settled(Exec(s, st, fuel, inFunc, env), Exec(s, st, more, inFunc, env))
    decreases fuel, s, 2
  {
    match s
    case BlockS(body) => FuelSeq(body, Push(st), fuel, more, inFunc, env);
    case IfS(c, thn) => FuelSeq(thn, Push(Test(c, st, env.host).1), fuel, more, inFunc, env);
    case IfElseS(c, thn, els) =>
      FuelSeq(thn, Push(Test(c, st, env.host).1), fuel, more, inFunc, env);
      FuelSeq(els, Push(Test(c, st, env.host).1), fuel, more, inFunc, env);
    case LoopS(_, _, _, _, _) => FuelLoop(s, st, fuel, more, inFunc, env);
    case TryS(_, _, _) => FuelTry(s, st, fuel, more, inFunc, env);
    case CallS(_, _, _) => FuelCall(s, st, fuel, more, env);
    case _ =>
  }
}
