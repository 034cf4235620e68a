/**
 What the `loop_depth` check of the translator buys at run time: the statements made from accepted lines
 keep every break and continue inside a loop, so no run of them ends by one, before lowering; and after
 it, when no loop that lowering turns into a block had a break of its own, the flags are never left set.
 */
module LoopCheck {
  import opened Evaluator
  import opened Statements
  import opened StatementMachine
  import opened Lowering
  import opened Translator

  /** A loop with exactly these parts besides its body. */
  predicate HasParts(s: Stmt, init: bool, cond: bool, step: bool, until: bool) {
    s.LoopS? && s.init.Some? == init && s.cond.Some? == cond && s.step.Some? == step && s.until.Some? == until
  }

  /** The statement was made from the node. The condition, name or operand in it does not matter here. */
  ghost predicate MadeFrom(s: Stmt, n: Node)
    decreases n, 0
  {
    match n
    case Leaf(l) =>
      if l.Break? then s.BreakS?
      else if l.Continue? then s.ContinueS?
      else s.ExprS? || s.VarS? || s.CallS? || s.ReturnS? || s.ThrowS?
    case Block(k, _, body, close) =>
      if k.While? then HasParts(s, false, true, false, false) && AllMadeFrom(s.body, body)
      else if k.Loop? then HasParts(s, false, false, false, close.Until?) && AllMadeFrom(s.body, body)
      else if k.For? then HasParts(s, true, true, true, false) && AllMadeFrom(s.body, body)
      else if k.Foreach? then s.LoopS? && AllMadeFrom(s.body, body)
      else if k.If? then
        (s.IfS? && AllMadeFrom(s.thn, body)) || (s.IfElseS? && exists i :: HalvesMadeFrom(s.thn, s.els, body, i))
      else
        (s.BlockS? && AllMadeFrom(s.body, body)) || (s.TryS? && exists i :: HalvesMadeFrom(s.body, s.handler, body, i))
  }

  /** Functions are taken out of the statements; their bodies are made separately. */
  ghost predicate AllMadeFrom(stmts: seq<Stmt>, forest: seq<Node>)
    decreases forest, 1
  {
    if forest == [] then stmts == []
    else if IsFunction(forest[0]) then AllMadeFrom(stmts, forest[1..])
    else stmts != [] && MadeFrom(stmts[0], forest[0]) && AllMadeFrom(stmts[1..], forest[1..])
  }

  /** The body is cut at an `else` or `catch` line. */
  ghost predicate HalvesMadeFrom(first: seq<Stmt>, second: seq<Stmt>, body: seq<Node>, i: int)
    decreases body, 2
  {
    && 0 <= i < |body| && body[i].Leaf? && body[i].line.Single?
    && AllMadeFrom(first, body[..i]) && AllMadeFrom(second, body[i + 1..])
  }

  predicate IsFunction(n: Node) {
    n.Block? && n.kind.Function?
  }

  lemma {:induction false} LegalCut(body: seq<Node>, i: nat, inLoop: bool)
    requires i < |body| && body[i].Leaf? && body[i].line.Single?
    ensures Legal(body, inLoop) <==> Legal(body[..i], inLoop) && Legal(body[i + 1..], inLoop)
  {
    if i > 0 {
      LegalCut(body[1..], i - 1, inLoop);
      assert body[..i][1..] == body[1..][..i - 1] && body[1..][i..] == body[i + 1..];
    }
  }

  /** On lines whose blocks close properly the check accepts exactly the programs in which every break and
      continue lies inside a loop. */
  lemma {:induction false} CheckIsLoopSafe(stmts: seq<Stmt>, forest: seq<Node>, inLoop: bool)
    requires AllMadeFrom(stmts, forest) && Legal(forest, true)
    ensures Legal(forest, inLoop) <==> AllLoopSafe(stmts, inLoop)
    decreases forest, 1
  {
    if forest != [] {
      if IsFunction(forest[0]) {
        CheckIsLoopSafe(stmts, forest[1..], inLoop);
      } else {
        CheckIsLoopSafe(stmts[1..], forest[1..], inLoop);
        CheckIsLoopSafeOne(stmts[0], forest[0], inLoop);
      }
    }
  }

  lemma {:induction false} CheckIsLoopSafeOne(s: Stmt, n: Node, inLoop: bool)
    requires MadeFrom(s, n) && LegalNode(n, true) && !IsFunction(n)
    ensures LegalNode(n, inLoop) <==> LoopSafe(s, inLoop)
    decreases n, 0
  {
    if n.Block? {
      if s.LoopS? {
        CheckIsLoopSafe(s.body, n.body, true);
      } else if s.IfS? {
        CheckIsLoopSafe(s.thn, n.body, inLoop);
      } else if s.BlockS? {
        CheckIsLoopSafe(s.body, n.body, inLoop);
      } else if s.IfElseS? {
        var i :| HalvesMadeFrom(s.thn, s.els, n.body, i);
        CheckHalves(s.thn, s.els, n.body, i, inLoop);
      } else {
        var i :| HalvesMadeFrom(s.body, s.handler, n.body, i);
        CheckHalves(s.body, s.handler, n.body, i, inLoop);
      }
    }
  }

  lemma {:induction false} CheckHalves(first: seq<Stmt>, second: seq<Stmt>, body: seq<Node>, i: int, inLoop: bool)
    requires HalvesMadeFrom(first, second, body, i) && Legal(body, true)
    ensures Legal(body, inLoop) <==> AllLoopSafe(first, inLoop) && AllLoopSafe(second, inLoop)
    decreases body, 2
  {
    LegalCut(body, i, true);
    LegalCut(body, i, inLoop);
    CheckIsLoopSafe(first, body[..i], inLoop);
    CheckIsLoopSafe(second, body[i + 1..], inLoop);
  }

  lemma {:induction false} LegalInLoop(forest: seq<Node>)
    requires Legal(forest, false)
    ensures Legal(forest, true)
    decreases forest, 1
  {
    if forest != [] {
      var n := forest[0];
      if n.Block? && !n.kind.Function? && !IsLoop(n.kind) {
        LegalInLoop(n.body);
      }
      LegalInLoop(forest[1..]);
    }
  }

  /** No run of an accepted program ends by a break or a continue. */
  lemma AcceptedNeverEscapes(lines: seq<Line>, stmts: seq<Stmt>, st: Store, fuel: nat, inFunc: bool, env: Env)
    requires st.domains != [] && Nest(lines, false).Some? && AllMadeFrom(stmts, Nest(lines, false).value)
    ensures !Escapes(ExecSeq(stmts, st, fuel, inFunc, env).0)
  {
    var forest := Nest(lines, false).value;
    NestSound(lines, false);
    LegalInLoop(forest);
    CheckIsLoopSafe(stmts, forest, false);
    SafeSeqNeverEscapes(stmts, st, fuel, inFunc, env);
  }

  /** Neither does a call of an accepted function, wherever the function stands. */
  lemma AcceptedFunctionIsSafe(n: Node, body: seq<Stmt>, inLoop: bool)
    requires IsFunction(n) && LegalNode(n, inLoop) && AllMadeFrom(body, n.body)
    ensures AllLoopSafe(body, false)
  {
    LegalInLoop(n.body);
    CheckIsLoopSafe(body, n.body, false);
  }

  // ----- from accepted lines to the machine -----

  /** The node stands somewhere in the forest. */
  predicate Holds(forest: seq<Node>, n: Node)
    decreases forest
  {
    forest != [] &&
    (forest[0] == n || (forest[0].Block? && Holds(forest[0].body, n)) || Holds(forest[1..], n))
  }

  lemma {:induction false} HeldFunctionIsLegal(forest: seq<Node>, n: Node, inLoop: bool)
    requires Legal(forest, inLoop) && Holds(forest, n) && IsFunction(n)
    ensures LegalNode(n, false)
    decreases forest
  {
    if forest[0] == n {
    } else if forest[0].Block? && Holds(forest[0].body, n) {
      HeldFunctionIsLegal(forest[0].body, n, Inside(forest[0].kind, inLoop));
    } else {
      HeldFunctionIsLegal(forest[1..], n, inLoop);
    }
  }

  /** The body of the function was made from a function in the forest. */
  ghost predicate FunctionFrom(g: Func, forest: seq<Node>) {
    exists n: Node :: Holds(forest, n) && IsFunction(n) && AllMadeFrom(g.body, n.body)
  }

  /** A program and its functions, all made from the same accepted lines. */
  ghost predicate ProgramFrom(stmts: seq<Stmt>, env: Env, lines: seq<Line>) {
    && Nest(lines, false).Some? && AllMadeFrom(stmts, Nest(lines, false).value)
    && forall f :: f in env.funcs ==> FunctionFrom(env.funcs[f], Nest(lines, false).value)
  }

  /** Nothing is stranded by lowering, in the program or in a function. */
  predicate KeepsBreaks(stmts: seq<Stmt>, env: Env) {
    AllStrandNone(stmts, false) && forall f :: f in env.funcs ==> AllStrandNone(env.funcs[f].body, false)
  }

  lemma ProgramIsSafe(stmts: seq<Stmt>, env: Env, lines: seq<Line>)
    requires ProgramFrom(stmts, env, lines)
    ensures AllLoopSafe(stmts, false) && SafeEnv(env)
  {
    var forest := Nest(lines, false).value;
    NestSound(lines, false);
    LegalInLoop(forest);
    CheckIsLoopSafe(stmts, forest, false);
    forall f | f in env.funcs
      ensures AllLoopSafe(env.funcs[f].body, false)
    {
      var n :| Holds(forest, n) && IsFunction(n) && AllMadeFrom(env.funcs[f].body, n.body);
      HeldFunctionIsLegal(forest, n, false);
      AcceptedFunctionIsSafe(n, env.funcs[f].body, false);
    }
  }

  /** The program generated for accepted lines keeps every break and continue inside a loop exactly when
      lowering strands none. */
  lemma GeneratedIsSafe(stmts: seq<Stmt>, env: Env, lines: seq<Line>)
    requires ProgramFrom(stmts, env, lines)
    ensures AllLoopSafe(LowerSeq(stmts), false) && SafeEnv(LowerEnv(env)) <==> KeepsBreaks(stmts, env)
  {
    ProgramIsSafe(stmts, env, lines);
    LoweredIsSafe(stmts, false);
    SafeStrandsNone(stmts, false);
    var lowered := LowerEnv(env);
    forall f | f in env.funcs
      ensures AllLoopSafe(lowered.funcs[f].body, false) <==> AllStrandNone(env.funcs[f].body, false)
    {
      LoweredIsSafe(env.funcs[f].body, false);
      SafeStrandsNone(env.funcs[f].body, false);
    }
    assert lowered.funcs.Keys == env.funcs.Keys;
  }

  /** From accepted lines to the end of the run: the generated program, run statement by statement, never
      leaves break or continue set, and ends as its generated form says; where no `loop ... until true`
      is the target of a break or continue, as the written program says. */
  method RunProgram(process: Instance, stmts: seq<Stmt>, env: Env, ghost lines: seq<Line>, fuel: nat)
      returns (r: Status)
    requires ProgramFrom(stmts, env, lines) && KeepsBreaks(stmts, env)
    requires process.Clear() && process.store.domains != []
    modifies process
    ensures r != NoFuel ==> !process.breakBlock && !process.continueBlock
    ensures var x := ExecSeq(LowerSeq(stmts), old(process.store), fuel, old(process.stack) != [], LowerEnv(env));
            process.Shows(r, x.0, x.1, old(process.stack)) && !Escapes(x.0)
            && (r != NoFuel && UntilSafeSeq(stmts) && UntilSafeEnv(env) ==>
                  Ends(stmts, old(process.store), x, old(process.stack) != [], env))
  {
    GeneratedIsSafe(stmts, env, lines);
    ghost var st, inFunc := process.store, process.stack != [];
    r := process.RunBody(LowerSeq(stmts), fuel, LowerEnv(env));
    SafeSeqNeverEscapes(LowerSeq(stmts), st, fuel, inFunc, LowerEnv(env));
    ghost var x := ExecSeq(LowerSeq(stmts), st, fuel, inFunc, LowerEnv(env));
    if r != NoFuel && UntilSafeSeq(stmts) && UntilSafeEnv(env) {
      assert Does(LowerSeq(stmts), st, x, fuel, inFunc, LowerEnv(env));
      OriginalEnds(stmts, st, x, inFunc, env);
    }
  }
}
