/**
 The interpreter of statements as it runs: break, continue and return are three flags that every
 statement sequence polls, function results pass through a value stack, and scopes are pushed and
 popped around bodies. It is proved to behave as the structured meaning in Statements says.
 */
module StatementMachine {
  import opened Options
  import opened Values
  import opened Trees
  import opened Evaluator
  import opened Statements

  /** How a statement's `run` ends: normally, with an exception, or cut off. */
  datatype Status = Done | Raised(error: Error) | NoFuel

  /** The functions keep break and continue inside their own loops. */
  predicate SafeEnv(env: Env) {
    forall f :: f in env.funcs ==> AllLoopSafe(env.funcs[f].body, false)
  }

  class Instance {
    var store: Store
    var stack: seq<Value>  // the value stack of the process, top last
    var returnFcall: bool
    var breakBlock: bool
    var continueBlock: bool

    constructor (store: Store)
      ensures this.store == store && stack == [] && Clear()
    {
      this.store, stack := store, [];
      returnFcall, breakBlock, continueBlock := false, false, false;
    }

    predicate Clear()
      reads this
    {
      !returnFcall && !breakBlock && !continueBlock
    }

    /** The flags, stacks and exception that show the outcome o, given the value stack before. */
    predicate Shows(r: Status, o: Outcome, st: Store, before: seq<Value>)
      reads this
    {
      match o
      case OutOfFuel => r == NoFuel
      case Threw(e) => r == Raised(e) && Clear() && store == st && stack == before
      case Normal => r == Done && Clear() && store == st && stack == before
      case Broke => r == Done && breakBlock && !returnFcall && !continueBlock && store == st && stack == before
      case Continued => r == Done && continueBlock && !returnFcall && !breakBlock && store == st && stack == before
      case Returned(v) =>
        r == Done && returnFcall && !breakBlock && !continueBlock && store == st
        && before != [] && stack == before[..|before| - 1] + [v]
    }

    method AddDomain()
      modifies this`store
      ensures store == Push(old(store))
    {
      store := Store([map[]] + store.domains, store.cells);
    }

    method RemoveDomain()
      requires store.domains != []
      modifies this`store
      ensures store == Pop(old(store))
    {
      store := Store(store.domains[1..], store.cells);
    }

    /** The statements of a block, one after the other, until one of them raises or sets a flag. */
    method RunBody(body: seq<Stmt>, fuel: nat, env: Env) returns (r: Status)
      requires Clear() && store.domains != [] && SafeEnv(env)
      modifies this
      ensures var x := ExecSeq(body, old(store), fuel, old(stack) != [], env);
              Shows(r, x.0, x.1, old(stack))
      decreases fuel, body, 0
    {
      var i := 0;
      while i < |body|
        invariant 0 <= i <= |body| && Clear() && store.domains != [] && stack == old(stack)
        invariant ExecSeq(body, old(store), fuel, old(stack) != [], env)
               == ExecSeq(body[i..], store, fuel, old(stack) != [], env)
      {
        assert body[i..][1..] == body[i + 1..];
        r := Run(body[i], fuel, env);
        if r != Done {
          return;
        }
        if returnFcall || breakBlock || continueBlock {
          return;
        }
        i := i + 1;
      }
      r := Done;
    }

    method RunScoped(body: seq<Stmt>, fuel: nat, env: Env) returns (r: Status)
      requires Clear() && store.domains != [] && SafeEnv(env)
      modifies this
      ensures var x := ExecScoped(body, old(store), fuel, old(stack) != [], env);
              Shows(r, x.0, x.1, old(stack))
      decreases fuel, body, 1
    {
      AddDomain();
      r := RunBody(body, fuel, env);
      if r != NoFuel {
        RemoveDomain();
      }
    }

    method EvalHere(e: Tree, host: Host) returns (x: Result<Res>)
      requires store.domains != []
      modifies this`store
      ensures (x, store) == Eval(e, old(store), host) && store.domains == old(store.domains)
    {
      EvalFrame(e, store, host);
      var y := Eval(e, store, host);
      x, store := y.0, y.1;
    }

    method TestHere(c: Tree, host: Host) returns (b: Result<bool>)
      requires store.domains != []
      modifies this`store
      ensures (b, store) == Test(c, old(store), host) && store.domains == old(store.domains)
    {
      var x := EvalHere(c, host);
      b := if x.Fail? then Fail(x.error) else BoolOf(x.value, store);
    }

    method DefineHere(name: string, e: Tree, host: Host) returns (r: Status)
      requires Clear() && store.domains != []
      modifies this`store
      ensures var x := DefineVar(name, e, old(store), host);
              Shows(r, x.0, x.1, old(stack))
    {
      var x := EvalHere(e, host);
      if x.Fail? {
        return Raised(x.error);
      }
      store := Define(store, name, Cell(ValueOf(x.value, store), false));
      r := Done;
    }

    method Run(s: Stmt, fuel: nat, env: Env) returns (r: Status)
      requires Clear() && store.domains != [] && SafeEnv(env)
      modifies this
      ensures var x := Exec(s, old(store), fuel, old(stack) != [], env);
              Shows(r, x.0, x.1, old(stack))
      decreases fuel, s, 3
    {
      match s
      case ExprS(e) => r := RunExpression(e, env.host);
      case VarS(name, e) => r := DefineHere(name, e, env.host);
      case BreakS =>
        breakBlock := true;
        r := Done;
      case ContinueS =>
        continueBlock := true;
        r := Done;
      case ReturnS(e) => r := RunReturn(e, env.host);
      case ThrowS(e) => r := RunThrow(e, env.host);
      case BlockS(body) => r := RunScoped(body, fuel, env);
      case IfS(_, _) => r := RunIf(s, fuel, env);
      case IfElseS(_, _, _) => r := RunIf(s, fuel, env);
      case LoopS(_, _, _, _, _) => r := RunLoop(s, fuel, env);
      case TryS(_, _, _) => r := RunTry(s, fuel, env);
      case CallS(_, _, _) => r := RunCall(s, fuel, env);
    }

    method RunExpression(e: Tree, host: Host) returns (r: Status)
      requires Clear() && store.domains != []
      modifies this`store
      ensures var x := Effect(e, old(store), host);
              Shows(r, x.0, x.1, old(stack))
    {
      var x := EvalHere(e, host);
      r := if x.Fail? then Raised(x.error) else Done;
    }

    /** The value goes to the top of the value stack, then the flag is set. */
    method RunReturn(e: Option<Tree>, host: Host) returns (r: Status)
      requires Clear() && store.domains != []
      modifies this
      ensures var x := ExecReturn(e, old(store), old(stack) != [], host);
              Shows(r, x.0, x.1, old(stack))
    {
      if stack == [] {
        return Raised(ReturnOutsideFunction);
      }
      var ret := NullPointer;
      if e.Some? {
        var x := EvalHere(e.value, host);
        if x.Fail? {
          return Raised(x.error);
        }
        ret := ValueOf(x.value, store);
      }
      stack := stack[..|stack| - 1] + [ret];
      returnFcall := true;
      r := Done;
    }

    method RunThrow(e: Tree, host: Host) returns (r: Status)
      requires Clear() && store.domains != []
      modifies this`store
      ensures var x := ExecThrow(e, old(store), host);
              Shows(r, x.0, x.1, old(stack))
    {
      var x := EvalHere(e, host);
      if x.Fail? {
        return Raised(x.error);
      }
      var v := ValueOf(x.value, store);
      r := Raised(if v.Err? then Lang(v.text) else NotThrowable);
    }

    method RunIf(s: Stmt, fuel: nat, env: Env) returns (r: Status)
      requires s.IfS? || s.IfElseS?
      requires Clear() && store.domains != [] && SafeEnv(env)
      modifies this
      ensures var x := Exec(s, old(store), fuel, old(stack) != [], env);
              Shows(r, x.0, x.1, old(stack))
      decreases fuel, s, 1
    {
      var b := TestHere(s.c, env.host);
      if b.Fail? {
        return Raised(b.error);
      }
      if b.value {
        r := RunScoped(s.thn, fuel, env);
      } else if s.IfElseS? {
        r := RunScoped(s.els, fuel, env);
      } else {
        r := Done;
      }
    }

    /** A stale break or continue flag is dropped before the first round. */
    method RunLoop(s: Stmt, fuel: nat, env: Env) returns (r: Status)
      requires s.LoopS?
      requires !returnFcall && store.domains != [] && SafeEnv(env)
      modifies this
      ensures var x := Exec(s, old(store), fuel, old(stack) != [], env);
              Shows(r, x.0, x.1, old(stack))
      decreases fuel, s, 2
    {
      if breakBlock {
        breakBlock := false;
      }
      if continueBlock {
        continueBlock := false;
      }
      if s.init.Some? {
        r := RunWithVariable(s, fuel, env);
      } else {
        AddDomain();
        r := RunRounds(s, fuel, env);
        if r != NoFuel {
          RemoveDomain();
        }
      }
    }

    /** The loop variable lives in a domain of its own, around the one of the rounds. */
    method RunWithVariable(s: Stmt, fuel: nat, env: Env) returns (r: Status)
      requires s.LoopS? && s.init.Some?
      requires Clear() && store.domains != [] && SafeEnv(env)
      modifies this
      ensures var x := ExecLoop(s, old(store), fuel, old(stack) != [], env);
              Shows(r, x.0, x.1, old(stack))
      decreases fuel, s, 1
    {
      AddDomain();
      r := DefineHere(s.init.value.0, s.init.value.1, env.host);
      if r != Done {
        RemoveDomain();
        return;
      }
      AddDomain();
      r := RunRounds(s, fuel, env);
      if r != NoFuel {
        RemoveDomain();
        RemoveDomain();
      }
    }

    method RunRounds(s: Stmt, fuel: nat, env: Env) returns (r: Status)
      requires s.LoopS?
      requires Clear() && store.domains != [] && SafeEnv(env)
      modifies this
      ensures var x := ExecRounds(s, old(store), fuel, old(stack) != [], env);
              Shows(r, x.0, x.1, old(stack))
      decreases fuel, s, 0
    {
      var left: nat := fuel;
      while left > 0
        invariant left <= fuel && Clear() && store.domains != [] && stack == old(stack)
        invariant ExecRounds(s, old(store), fuel, old(stack) != [], env)
               == ExecRounds(s, store, left, old(stack) != [], env)
      {
        left := left - 1;
        var ended;
        r, ended := RunRound(s, left, env);
        if r != Done || ended {
          return;
        }
      }
      r := NoFuel;
    }

    /** One round. A break is consumed and ends the loop, a continue is consumed and ends the round. */
    method RunRound(s: Stmt, fuel: nat, env: Env) returns (r: Status, ended: bool)
      requires s.LoopS?
      requires Clear() && store.domains != [] && SafeEnv(env)
      modifies this
      ensures var x := ExecRound(s, old(store), fuel, old(stack) != [], env);
              if x.0.Some? then Shows(r, x.0.value, x.1, old(stack)) && (r == Done ==> ended)
              else Shows(r, Normal, x.1, old(stack)) && !ended
      decreases fuel, s, 0
    {
      r, ended := Done, true;
      if s.cond.Some? {
        var b := TestHere(s.cond.value, env.host);
        if b.Fail? {
          r := Raised(b.error);
          return;
        }
        if !b.value {
          return;
        }
      }
      r := RunBody(s.body, fuel, env);
      if r != Done || returnFcall {
        return;
      }
      if breakBlock {
        breakBlock := false;
        return;
      }
      if continueBlock {
        continueBlock := false;
      }
      r, ended := CloseRound(s, env.host);
    }

    method CloseRound(s: Stmt, host: Host) returns (r: Status, ended: bool)
      requires s.LoopS? && Clear() && store.domains != []
      modifies this`store
      ensures var x := FinishRound(s, old(store), host);
              if x.0.Some? then Shows(r, x.0.value, x.1, old(stack)) && (r == Done ==> ended)
              else Shows(r, Normal, x.1, old(stack)) && !ended
    {
      r, ended := Done, false;
      if s.step.Some? {
        r := RunExpression(s.step.value, host);
        if r != Done {
          return;
        }
      }
      if s.until.Some? {
        var u := TestHere(s.until.value, host);
        if u.Fail? {
          r := Raised(u.error);
          return;
        }
        ended := u.value;
      }
    }

    method RunTry(s: Stmt, fuel: nat, env: Env) returns (r: Status)
      requires s.TryS?
      requires Clear() && store.domains != [] && SafeEnv(env)
      modifies this
      ensures var x := Exec(s, old(store), fuel, old(stack) != [], env);
              Shows(r, x.0, x.1, old(stack))
      decreases fuel, s, 1
    {
      AddDomain();
      r := RunBody(s.body, fuel, env);
      if r.Raised? && r.error.Lang? {
        store := Caught(store, s.name, r.error.text);
        r := RunBody(s.handler, fuel, env);
      }
      if r != NoFuel {
        RemoveDomain();
      }
    }

    /** A script function call: a scope, a slot on the value stack, the body until it returns. */
    method RunCall(s: Stmt, fuel: nat, env: Env) returns (r: Status)
      requires s.CallS?
      requires Clear() && store.domains != [] && SafeEnv(env)
      modifies this
      ensures var x := Exec(s, old(store), fuel, old(stack) != [], env);
              Shows(r, x.0, x.1, old(stack))
      decreases fuel, s, 1
    {
      if s.func !in env.funcs {
        return Raised(Undefined(s.func));
      }
      var f := env.funcs[s.func];
      EvalArgsFrame(s.args, store, env.host);
      var args := EvalArgs(s.args, store, env.host);
      store := args.1;
      if args.0.Fail? {
        return Raised(args.0.error);
      }
      if |args.0.value| != |f.params| {
        return Raised(ArgumentCount);
      }
      if fuel == 0 {
        return NoFuel;
      }
      r := InvokeHere(s.name, f, args.0.value, fuel - 1, env);
    }

    /** A scope and a slot on the value stack for the time of the call. */
    method InvokeHere(name: string, f: Func, args: seq<Res>, fuel: nat, env: Env) returns (r: Status)
      requires |args| == |f.params| && AllLoopSafe(f.body, false)
      requires Clear() && store.domains != [] && SafeEnv(env)
      modifies this
      ensures var x := Invoke(name, f, args, old(store), fuel, env);
              Shows(r, x.0, x.1, old(stack))
      decreases fuel, f.body, 1
    {
      AddDomain();
      stack := stack + [NullPointer];
      store := BindAll(store, f.params, args);
      r := RunFunction(f.body, fuel, env);
      if r == NoFuel {
        return;
      }
      RemoveDomain();
      var ret := stack[|stack| - 1];
      stack := stack[..|stack| - 1];
      if r == Done {
        store := Define(store, name, Cell(ret, false));
      }
    }

    /** `run_body`: only the return flag is polled, so a stray break would go unnoticed. */
    method RunFunction(body: seq<Stmt>, fuel: nat, env: Env) returns (r: Status)
      requires Clear() && store.domains != [] && stack != [] && SafeEnv(env) && AllLoopSafe(body, false)
      modifies this
      ensures var x := ExecSeq(body, old(store), fuel, true, env);
              match x.0
              case OutOfFuel => r == NoFuel
              case Threw(e) => r == Raised(e) && Clear() && store == x.1 && stack == old(stack)
              case Returned(v) =>
                r == Done && Clear() && store == x.1 && stack == old(stack)[..|old(stack)| - 1] + [v]
              case _ => r == Done && Clear() && store == x.1 && stack == old(stack)
      decreases fuel, body, 0
    {
      var i := 0;
      while i < |body|
        invariant 0 <= i <= |body| && Clear() && store.domains != [] && stack == old(stack)
        invariant AllLoopSafe(body[i..], false)
        invariant ExecSeq(body, old(store), fuel, true, env) == ExecSeq(body[i..], store, fuel, true, env)
      {
        assert body[i..][1..] == body[i + 1..];
        SafeNeverEscapes(body[i], store, fuel, true, env);
        r := Run(body[i], fuel, env);
        if r != Done {
          return;
        }
        if returnFcall {
          returnFcall := false;
          return;
        }
        i := i + 1;
      }
      r := Done;
    }
  }
}
