/**
 The fiber protocol as a machine over its steps: which fibers are on the chain, whose code runs, which
 process and which domain stack are current, and what a resumer sees when control comes back to it.
 A context is a fiber's number; `None` is the context outside all fibers.
 */
module Fibers {
  import opened Options

  datatype State = Ready | Running | Suspended | Sleeping | Finished

  /** `prev` is the context control goes back to, `target` the fiber whose resume call this context waits
      in, `resumer` the process that was current at that call and `eptr` an undelivered exception. */
  datatype Fiber = Fiber(state: State, process: nat, prev: Option<nat>, target: Option<nat>,
                         resumer: Option<nat>, wakeUp: nat, eptr: Option<nat>)

  /** `chain` has the innermost fiber last; `stack` is the fiber whose domain stack is in use. */
  datatype World = World(fibers: seq<Fiber>, chain: seq<nat>, control: Option<nat>, target: Option<nat>,
                         process: Option<nat>, stack: Option<nat>, clock: nat)
  {
    /** The context at a height of the chain; height 0 is outside all fibers. */
    function Context(height: nat): Option<nat>
      requires height <= |chain|
    {
      if height == 0 then None else Some(chain[height - 1])
    }

    /** The fiber resumed by the context at a height. */
    function Above(height: nat): Option<nat> {
      if height < |chain| then Some(chain[height]) else None
    }

    function Target(context: Option<nat>): Option<nat>
      requires context.Some? ==> context.value < |fibers|
    {
      if context.None? then target else fibers[context.value].target
    }

    predicate Numbered() {
      && (forall k :: 0 <= k < |chain| ==> chain[k] < |fibers|)
      && (forall i, j :: 0 <= i < j < |chain| ==> chain[i] != chain[j])
    }

    /** A fiber of the chain is running; the context below resumed it and will get control back. */
    predicate Linked(k: nat)
      requires Numbered() && k < |chain|
    {
      var f := fibers[chain[k]];
      && f.state == Running && f.eptr == None && f.prev == Context(k) && f.target == Above(k + 1)
      && (k > 0 ==> f.resumer == Some(fibers[chain[k - 1]].process))
    }

    /** Any other fiber is not running and waits in no resume call. */
    predicate Idle(f: nat)
      requires f < |fibers|
    {
      fibers[f].state != Running && fibers[f].target == None && fibers[f].eptr == None
    }

    ghost predicate Valid() {
      && Numbered()
      && (forall k :: 0 <= k < |chain| ==> Linked(k))
      && (forall f :: 0 <= f < |fibers| && f !in chain ==> Idle(f))
      && target == Above(0) && control == Context(|chain|) && stack == control
      && (chain != [] ==> process == Some(fibers[chain[|chain| - 1]].process))
    }
  }

  datatype Op =
    | Create(process: nat)
    | Resume(f: nat, nap: Option<nat>)
    | Yield
    | Sleep(ms: nat)
    | Finish(thrown: Option<nat>)
    | Wait(ms: nat)
    | Enter(outer: Option<nat>)

  /** What the running code sees: `Back` is the return of a resume call of `f`, perhaps by an exception. */
  datatype Event = Quiet | Refused | Started(f: nat) | Back(f: nat, thrown: Option<nat>)

  // ----- steps -----

  function SetTarget(w: World, context: Option<nat>, target: Option<nat>): World
    requires context.Some? ==> context.value < |w.fibers|
  {
    if context.None? then w.(target := target)
    else w.(fibers := w.fibers[context.value := w.fibers[context.value].(target := target)])
  }

  /** `resume` up to its switch: the fiber goes on the chain, its process and its domain stack come in. */
  function SwitchTo(w: World, f: nat): World
    requires f < |w.fibers| && (w.control.Some? ==> w.control.value < |w.fibers|)
  {
    var pushed := Pushed(w, f).(process := Some(w.fibers[f].process), stack := Some(f));
    SetTarget(pushed, w.control, Some(f)).(control := Some(f))
  }

  function Pushed(w: World, f: nat): World
    requires f < |w.fibers|
  {
    var fi := w.fibers[f].(prev := w.Context(|w.chain|), resumer := w.process, state := Running);
    w.(fibers := w.fibers[f := fi], chain := w.chain + [f])
  }

  /** The rest of the resume call of `fi`, after its switch: chain, process and domain stack of the caller
      come back and the exception is taken from the fiber. */
  function Returned(w: World, fi: nat): World
    requires fi < |w.fibers| && w.chain != [] && (forall k :: 0 <= k < |w.chain| ==> w.chain[k] < |w.fibers|)
  {
    var chain := w.chain[..|w.chain| - 1];
    w.(fibers := w.fibers[fi := w.fibers[fi].(eptr := None)], chain := chain,
       process := if chain == [] then w.fibers[fi].resumer else Some(w.fibers[chain[|chain| - 1]].process),
       stack := if chain == [] then None else Some(chain[|chain| - 1]))
  }

  /** The switch of a stopped fiber back to `prev`, and the return of the resume call that waits there. */
  function SwitchBack(w: World, f: nat): (World, Event)
    requires f < |w.fibers| && w.chain != [] && (forall k :: 0 <= k < |w.chain| ==> w.chain[k] < |w.fibers|)
    requires var c := w.fibers[f].prev;
      (c.Some? ==> c.value < |w.fibers|) && w.Target(c).Some? && w.Target(c).value < |w.fibers|
  {
    var c := w.fibers[f].prev;
    var fi := w.Target(c).value;
    (SetTarget(Returned(w, fi), c, None).(control := c), Back(fi, w.fibers[fi].eptr))
  }

  lemma BelowWaits(w: World)
    requires w.Valid() && w.chain != []
    ensures w.Linked(|w.chain| - 1) && w.Target(w.Context(|w.chain| - 1)) == Some(w.chain[|w.chain| - 1])
  {
    if |w.chain| > 1 {
      assert w.Linked(|w.chain| - 2);
    }
  }

  /** The innermost fiber stops. */
  function Leave(w: World, stopped: Fiber): (World, Event)
    requires w.Valid() && w.chain != [] && Stops(w, stopped)
  {
    var f := w.chain[|w.chain| - 1];
    assert w.Linked(|w.chain| - 1) && w.Target(w.Context(|w.chain| - 1)) == Some(f) by { BelowWaits(w); }
    SwitchBack(w.(fibers := w.fibers[f := stopped]), f)
  }

  /** A new record for the innermost fiber that differs in state, wake-up time and exception only. */
  predicate Stops(w: World, stopped: Fiber)
    requires w.chain != [] && w.chain[|w.chain| - 1] < |w.fibers|
  {
    stopped == w.fibers[w.chain[|w.chain| - 1]].(state := stopped.state, wakeUp := stopped.wakeUp, eptr := stopped.eptr)
  }

  /** The record of the running fiber. */
  function Innermost(w: World): Fiber
    requires w.Valid() && w.chain != []
  {
    w.fibers[w.chain[|w.chain| - 1]]
  }

  function FallAsleep(w: World, ms: nat): (World, Event)
    requires w.Valid() && w.chain != []
  {
    Leave(w, Innermost(w).(state := Sleeping, wakeUp := w.clock + ms))
  }

  /** Only a running fiber can finish, and only code outside all fibers can enter another process. */
  predicate Possible(w: World, op: Op) {
    (op.Finish? ==> w.chain != []) && (op.Enter? ==> w.chain == [])
  }

  function Step(w: World, op: Op): (World, Event)
    requires w.Valid() && Possible(w, op)
  {
    match op
    case Create(p) => (w.(fibers := w.fibers + [Fiber(Ready, p, None, None, None, 0, None)]), Quiet)
    case Resume(f, nap) =>
      if f >= |w.fibers| then (w, Refused)
      else if w.fibers[f].state == Running || w.fibers[f].state == Finished then (w, Refused)
      else if w.fibers[f].state == Sleeping && w.clock < w.fibers[f].wakeUp then
        if nap.None? then (w, Quiet)
        else if w.chain == [] then (w.(clock := w.clock + nap.value), Quiet)
        else FallAsleep(w, nap.value)
      else (SwitchTo(w, f), Started(f))
    case Yield =>
      if w.chain == [] then (w, Refused) else Leave(w, Innermost(w).(state := Suspended))
    case Sleep(ms) =>
      if w.chain == [] then (w, Refused) else FallAsleep(w, ms)
    case Finish(e) => Leave(w, Innermost(w).(state := Finished, eptr := e))
    case Wait(ms) => (w.(clock := w.clock + ms), Quiet)
    case Enter(p) => (w.(process := p), Quiet)
  }

  /** The steps that stop the innermost fiber. */
  lemma StoppingSteps(w: World, ms: nat, thrown: Option<nat>)
    requires w.Valid() && w.chain != []
    ensures Step(w, Yield) == Leave(w, Innermost(w).(state := Suspended))
    ensures Step(w, Sleep(ms)) == Leave(w, Innermost(w).(state := Sleeping, wakeUp := w.clock + ms))
    ensures Step(w, Finish(thrown)) == Leave(w, Innermost(w).(state := Finished, eptr := thrown))
  {
  }

  /** `resume` of a fiber that is there, case by case. */
  lemma ResumeSteps(w: World, f: nat, nap: Option<nat>)
    requires w.Valid() && f < |w.fibers|
    ensures var fi, s := w.fibers[f], Step(w, Resume(f, nap));
      if fi.state == Running || fi.state == Finished then s == (w, Refused)
      else if fi.state == Sleeping && w.clock < fi.wakeUp then
        s == if nap.None? then (w, Quiet)
             else if w.chain == [] then (w.(clock := w.clock + nap.value), Quiet)
             else Step(w, Sleep(nap.value))
      else s == (SwitchTo(w, f), Started(f))
  {
  }

  // ----- the invariant -----

  /** The record of a fiber after a switch. */
  lemma SwitchToFibers(w: World, f: nat, g: nat)
    requires w.Valid() && f < |w.fibers| && f !in w.chain && g < |w.fibers|
    ensures |SwitchTo(w, f).fibers| == |w.fibers|
    ensures var was, now := w.fibers[g], SwitchTo(w, f).fibers[g];
      now == if g == f then was.(prev := w.control, resumer := w.process, state := Running)
             else if w.control == Some(g) then was.(target := Some(f))
             else was
  {
    if |w.chain| > 0 { assert w.Linked(|w.chain| - 1); }
  }

  lemma SwitchToKeepsValid(w: World, f: nat)
    requires w.Valid() && f < |w.fibers| && w.fibers[f].state != Running
    ensures SwitchTo(w, f).Valid()
  {
    var n, r := |w.chain|, SwitchTo(w, f);
    forall k | 0 <= k < n ensures w.chain[k] != f {
      assert w.Linked(k);
    }
    assert w.Idle(f);
    SwitchToFibers(w, f, f);
    forall k | 0 <= k <= n ensures r.Linked(k) {
      SwitchToFibers(w, f, r.chain[k]);
      if k < n { assert w.Linked(k); }
      if k > 0 { SwitchToFibers(w, f, w.chain[k - 1]); }
    }
    assert forall h :: h in w.chain ==> h in r.chain;
    forall g | 0 <= g < |r.fibers| && g !in r.chain ensures r.Idle(g) {
      SwitchToFibers(w, f, g);
      assert w.Idle(g);
    }
  }

  lemma LeaveFibers(w: World, stopped: Fiber, g: nat)
    requires w.Valid() && w.chain != [] && Stops(w, stopped) && g < |w.fibers|
    ensures |Leave(w, stopped).0.fibers| == |w.fibers|
    ensures var was, now := w.fibers[g], Leave(w, stopped).0.fibers[g];
      now == if g == w.chain[|w.chain| - 1] then stopped.(eptr := None)
             else if w.Context(|w.chain| - 1) == Some(g) then was.(target := None)
             else was
  {
    BelowWaits(w);
  }

  /** Control comes back to the context below, the resume call that returns there is the one made for this
      fiber, and the exception goes with it. */
  lemma LeaveReturnsBelow(w: World, stopped: Fiber)
    requires w.Valid() && w.chain != [] && Stops(w, stopped)
    ensures var n, f, r := |w.chain| - 1, w.chain[|w.chain| - 1], Leave(w, stopped).0;
      && r.chain == w.chain[..n] && r.control == w.Context(n) && r.stack == r.control && r.clock == w.clock
      && r.process == (if n == 0 then w.fibers[f].resumer else Some(w.fibers[w.chain[n - 1]].process))
      && r.target == (if n == 0 then None else w.target)
    ensures Leave(w, stopped).1 == Back(w.chain[|w.chain| - 1], stopped.eptr)
  {
    BelowWaits(w);
  }

  /** A new fiber is ready, belongs to the process it was given, and changes nothing else. */
  lemma CreateAdds(w: World, p: nat)
    requires w.Valid()
    ensures var (r, e) := Step(w, Create(p));
            && e == Quiet && |r.fibers| == |w.fibers| + 1 && r.fibers[..|w.fibers|] == w.fibers
            && r.fibers[|w.fibers|].process == p && r.fibers[|w.fibers|].state == Ready
            && r.fibers[|w.fibers|].eptr == None && r.chain == w.chain && r.process == w.process
            && r.stack == w.stack && r.control == w.control && r.clock == w.clock
  {
  }

  /** A fiber that may run does: it is innermost, and its process and its stack are in use. */
  lemma ResumeStarts(w: World, f: nat, nap: Option<nat>)
    requires w.Valid() && f < |w.fibers| && w.fibers[f].state != Running && w.fibers[f].state != Finished
    requires w.fibers[f].state == Sleeping ==> w.clock >= w.fibers[f].wakeUp
    ensures var (r, e) := Step(w, Resume(f, nap));
            && e == Started(f) && r.chain == w.chain + [f] && |r.fibers| == |w.fibers|
            && r.fibers[f].state == Running && r.process == Some(w.fibers[f].process)
            && r.stack == Some(f) && r.control == Some(f) && r.clock == w.clock
  {
    ResumeSteps(w, f, nap);
    SwitchToKeepsValid(w, f);
    forall k | 0 <= k < |w.chain| ensures w.chain[k] != f {
      assert w.Linked(k);
    }
    SwitchToFibers(w, f, f);
  }

  /** How a fiber stops: suspended, asleep until that many milliseconds have passed, or finished; what it threw is
      what the resume call below sees. */
  lemma StopsAs(w: World, ms: nat, thrown: Option<nat>)
    requires w.Valid() && w.chain != []
    ensures var f, (r, e) := w.chain[|w.chain| - 1], Step(w, Yield);
            f < |r.fibers| && r.fibers[f].state == Suspended && e == Back(f, w.fibers[f].eptr)
    ensures var f, (r, e) := w.chain[|w.chain| - 1], Step(w, Sleep(ms));
            && f < |r.fibers| && r.fibers[f].state == Sleeping && r.fibers[f].wakeUp == w.clock + ms
            && e == Back(f, w.fibers[f].eptr)
    ensures var f, (r, e) := w.chain[|w.chain| - 1], Step(w, Finish(thrown));
            f < |r.fibers| && r.fibers[f].state == Finished && e == Back(f, thrown)
  {
    var f, fi := w.chain[|w.chain| - 1], Innermost(w);
    StoppingSteps(w, ms, thrown);
    StoppedIs(w, fi.(state := Suspended));
    StoppedIs(w, fi.(state := Sleeping, wakeUp := w.clock + ms));
    StoppedIs(w, fi.(state := Finished, eptr := thrown));
  }

  lemma StoppedIs(w: World, stopped: Fiber)
    requires w.Valid() && w.chain != [] && Stops(w, stopped)
    ensures var f, (r, e) := w.chain[|w.chain| - 1], Leave(w, stopped);
            f < |r.fibers| && r.fibers[f] == stopped.(eptr := None) && e == Back(f, stopped.eptr)
  {
    LeaveFibers(w, stopped, w.chain[|w.chain| - 1]);
    LeaveReturnsBelow(w, stopped);
  }

  lemma LeaveLinked(w: World, stopped: Fiber, k: nat)
    requires w.Valid() && w.chain != [] && Stops(w, stopped) && k < |w.chain| - 1
    ensures var r := Leave(w, stopped).0; r.Numbered() && k < |r.chain| && r.Linked(k)
  {
    LeaveReturnsBelow(w, stopped);
    LeaveFibers(w, stopped, w.chain[k]);
    assert w.Linked(k);
    if k > 0 { LeaveFibers(w, stopped, w.chain[k - 1]); }
  }

  lemma LeaveIdle(w: World, stopped: Fiber, g: nat)
    requires w.Valid() && w.chain != [] && Stops(w, stopped) && stopped.state != Running
    requires g < |w.fibers| && g !in w.chain[..|w.chain| - 1]
    ensures |Leave(w, stopped).0.fibers| == |w.fibers| && Leave(w, stopped).0.Idle(g)
  {
    var n := |w.chain| - 1;
    LeaveFibers(w, stopped, g);
    assert w.chain == w.chain[..n] + [w.chain[n]];
    if g == w.chain[n] {
      assert w.Linked(n);
    } else {
      assert w.Idle(g);
    }
  }

  /** What is current after the switch is what belongs to the context below. */
  lemma LeaveIsCurrent(w: World, stopped: Fiber)
    requires w.Valid() && w.chain != [] && Stops(w, stopped)
    ensures var r := Leave(w, stopped).0;
      && r.Numbered() && r.target == r.Above(0) && r.control == r.Context(|r.chain|) && r.stack == r.control
      && (r.chain != [] ==> r.process == Some(r.fibers[r.chain[|r.chain| - 1]].process))
  {
    var n := |w.chain| - 1;
    LeaveReturnsBelow(w, stopped);
    LeaveFibers(w, stopped, w.chain[n]);
    if n > 0 { LeaveFibers(w, stopped, w.chain[n - 1]); }
  }

  lemma LeaveKeepsValid(w: World, stopped: Fiber)
    requires w.Valid() && w.chain != [] && Stops(w, stopped) && stopped.state != Running
    ensures Leave(w, stopped).0.Valid()
  {
    var r := Leave(w, stopped).0;
    LeaveIsCurrent(w, stopped);
    assert r.chain == w.chain[..|w.chain| - 1] by { LeaveReturnsBelow(w, stopped); }
    forall k | 0 <= k < |r.chain| ensures r.Linked(k) {
      LeaveLinked(w, stopped, k);
    }
    forall g | 0 <= g < |r.fibers| && g !in r.chain ensures r.Idle(g) {
      LeaveFibers(w, stopped, w.chain[0]);
      LeaveIdle(w, stopped, g);
    }
  }

  lemma CreateKeepsValid(w: World, created: Fiber)
    requires w.Valid() && created.state == Ready && created.target == None && created.eptr == None
    ensures w.(fibers := w.fibers + [created]).Valid()
  {
    var r := w.(fibers := w.fibers + [created]);
    forall k | 0 <= k < |r.chain| ensures r.Linked(k) {
      assert w.Linked(k);
    }
    forall f | 0 <= f < |r.fibers| && f !in r.chain ensures r.Idle(f) {
      if f < |w.fibers| { assert w.Idle(f); }
    }
  }

  lemma StepKeepsValid(w: World, op: Op)
    requires w.Valid() && Possible(w, op)
    ensures Step(w, op).0.Valid()
  {
    var r := Step(w, op).0;
    if op.Create? {
      CreateKeepsValid(w, r.fibers[|w.fibers|]);
    } else if Step(w, op).1.Started? {
      SwitchToKeepsValid(w, op.f);
    } else if Step(w, op).1.Back? {
      StepLeaves(w, op);
    } else {
      SameFibers(w, r);
    }
  }

  /** The record with which a step stops the innermost fiber. */
  function Stopped(w: World, op: Op): Fiber
    requires w.Valid() && w.chain != []
  {
    var f := Innermost(w);
    match op
    case Finish(e) => f.(state := Finished, eptr := e)
    case Sleep(ms) => f.(state := Sleeping, wakeUp := w.clock + ms)
    case Resume(_, nap) => f.(state := Sleeping, wakeUp := w.clock + if nap.Some? then nap.value else 0)
    case _ => f.(state := Suspended)
  }

  lemma StepIsLeave(w: World, op: Op)
    requires w.Valid() && Possible(w, op) && Step(w, op).1.Back?
    ensures w.chain != [] && Stops(w, Stopped(w, op)) && Stopped(w, op).state != Running
    ensures Step(w, op) == Leave(w, Stopped(w, op))
  {
  }

  lemma StepLeaves(w: World, op: Op)
    requires w.Valid() && Possible(w, op) && Step(w, op).1.Back?
    ensures w.chain != [] && Stops(w, Stopped(w, op)) && Stopped(w, op).state != Running
    ensures Step(w, op) == Leave(w, Stopped(w, op)) && Step(w, op).0.Valid()
    ensures Step(w, op).1 == Back(w.chain[|w.chain| - 1], if op.Finish? then op.thrown else None)
  {
    StepIsLeave(w, op);
    assert w.Linked(|w.chain| - 1);
    LeaveKeepsValid(w, Stopped(w, op));
    LeaveReturnsBelow(w, Stopped(w, op));
  }

  lemma SameFibers(w: World, r: World)
    requires w.Valid() && r.fibers == w.fibers && r.chain == w.chain && r.target == w.target
    requires r.control == w.control && r.stack == w.stack && (w.chain != [] ==> r.process == w.process)
    ensures r.Valid()
  {
    forall k | 0 <= k < |r.chain| ensures r.Linked(k) {
      assert w.Linked(k);
    }
    forall f | 0 <= f < |r.fibers| && f !in r.chain ensures r.Idle(f) {
      assert w.Idle(f);
    }
  }

  // ----- runs -----

  ghost predicate AllPossible(w: World, ops: seq<Op>)
    requires w.Valid()
    decreases |ops|
  {
    ops == [] ||
    (Possible(w, ops[0]) && (StepKeepsValid(w, ops[0]); AllPossible(Step(w, ops[0]).0, ops[1..])))
  }

  /** Where a run ends. */
  ghost function After(w: World, ops: seq<Op>): (r: World)
    requires w.Valid() && AllPossible(w, ops)
    ensures r.Valid()
    decreases |ops|
  {
    if ops == [] then w
    else
      StepKeepsValid(w, ops[0]);
      After(Step(w, ops[0]).0, ops[1..])
  }

  const START := World([], [], None, None, None, None, 0)

  /** In every reachable state the fibers of the chain are distinct and are exactly the running ones, and
      the code that runs, its process and its domain stack are those of the innermost one. */
  lemma ReachableStates(ops: seq<Op>)
    requires AllPossible(START, ops)
    ensures var w := After(START, ops);
      && (forall i, j :: 0 <= i < j < |w.chain| ==> w.chain[i] != w.chain[j])
      && (forall f :: 0 <= f < |w.fibers| ==> (f in w.chain <==> w.fibers[f].state == Running))
      && (if w.chain == [] then w.control == None && w.stack == None
          else var f := w.chain[|w.chain| - 1];
            f < |w.fibers| && w.control == w.stack == Some(f) && w.process == Some(w.fibers[f].process))
  {
    var w := After(START, ops);
    forall f | 0 <= f < |w.fibers| ensures f in w.chain <==> w.fibers[f].state == Running {
      if f in w.chain {
        var k :| 0 <= k < |w.chain| && w.chain[k] == f;
        assert w.Linked(k);
      } else {
        assert w.Idle(f);
      }
    }
  }

  // ----- finished fibers and sleepers -----

  /** A fiber that is not running is touched by one step only: the one that resumes it. */
  lemma StepLeavesIdle(w: World, op: Op, f: nat)
    requires w.Valid() && Possible(w, op) && f < |w.fibers| && f !in w.chain
    ensures f < |Step(w, op).0.fibers|
    ensures Step(w, op).1 != Started(f) ==> Step(w, op).0.fibers[f] == w.fibers[f]
    ensures Step(w, op).1 == Started(f) ==>
      w.fibers[f].state != Finished && (w.fibers[f].state == Sleeping ==> w.fibers[f].wakeUp <= w.clock)
  {
    if Step(w, op).1.Started? {
      if f == op.f {
        SwitchToFibers(w, op.f, f);
      } else {
        IdleResumed(w, op);
        SwitchToFibers(w, op.f, f);
      }
    } else if Step(w, op).1.Back? {
      StepLeaves(w, op);
      LeaveFibers(w, Stopped(w, op), f);
    }
  }

  lemma IdleResumed(w: World, op: Op)
    requires w.Valid() && Possible(w, op) && Step(w, op).1.Started?
    ensures op.Resume? && op.f < |w.fibers| && op.f !in w.chain
    ensures Step(w, op) == (SwitchTo(w, op.f), Started(op.f))
  {
    NotRunning(w, op.f);
  }

  lemma {:induction false} FinishedIsFinal(w: World, ops: seq<Op>, f: nat)
    requires w.Valid() && AllPossible(w, ops) && f < |w.fibers| && w.fibers[f].state == Finished
    ensures f < |After(w, ops).fibers| && After(w, ops).fibers[f] == w.fibers[f]
    decreases |ops|
  {
    if ops != [] {
      NotRunning(w, f);
      StepLeavesIdle(w, ops[0], f);
      StepKeepsValid(w, ops[0]);
      FinishedIsFinal(Step(w, ops[0]).0, ops[1..], f);
    }
  }

  lemma NotRunning(w: World, f: nat)
    requires w.Valid() && f < |w.fibers| && w.fibers[f].state != Running
    ensures f !in w.chain
  {
    forall k | 0 <= k < |w.chain| ensures w.chain[k] != f {
      assert w.Linked(k);
    }
  }

  lemma ClockGoesOn(w: World, op: Op)
    requires w.Valid() && Possible(w, op)
    ensures w.clock <= Step(w, op).0.clock
  {
    if Step(w, op).1.Back? {
      StepLeaves(w, op);
      LeaveReturnsBelow(w, Stopped(w, op));
    }
  }

  lemma {:induction false} ClockGoesOnForAll(w: World, ops: seq<Op>)
    requires w.Valid() && AllPossible(w, ops)
    ensures w.clock <= After(w, ops).clock
    decreases |ops|
  {
    if ops != [] {
      ClockGoesOn(w, ops[0]);
      StepKeepsValid(w, ops[0]);
      ClockGoesOnForAll(Step(w, ops[0]).0, ops[1..]);
    }
  }

  /** Until its wake-up time nothing at all happens to a sleeper. */
  lemma {:induction false} SleeperSleepsOn(w: World, ops: seq<Op>, f: nat)
    requires w.Valid() && AllPossible(w, ops) && f < |w.fibers| && w.fibers[f].state == Sleeping
    requires After(w, ops).clock < w.fibers[f].wakeUp
    ensures f < |After(w, ops).fibers| && After(w, ops).fibers[f] == w.fibers[f]
    decreases |ops|
  {
    if ops != [] {
      NotRunning(w, f);
      StepLeavesIdle(w, ops[0], f);
      StepKeepsValid(w, ops[0]);
      ClockGoesOnForAll(w, ops);
      SleeperSleepsOn(Step(w, ops[0]).0, ops[1..], f);
    }
  }

  // ----- a resume call -----

  /** The chain stays higher than `n` all through the run. */
  ghost predicate StaysAbove(w: World, ops: seq<Op>, n: nat)
    requires w.Valid() && AllPossible(w, ops)
    decreases |ops|
  {
    |w.chain| > n &&
    (ops == [] || (StepKeepsValid(w, ops[0]); StaysAbove(Step(w, ops[0]).0, ops[1..], n)))
  }

  /** `f` was resumed in `w` and that call has not returned. */
  ghost predicate Within(w: World, f: nat, now: World)
    requires w.Valid()
  {
    var n := |w.chain|;
    && f < |w.fibers| <= |now.fibers|
    && |now.chain| > n && now.chain[..n] == w.chain && now.chain[n] == f
    && now.fibers[f].resumer == w.process
    && (forall g :: 0 <= g < |w.fibers| ==> now.fibers[g].process == w.fibers[g].process)
  }

  lemma SwitchToIsWithin(w: World, f: nat)
    requires w.Valid() && f < |w.fibers| && f !in w.chain
    ensures Within(w, f, SwitchTo(w, f))
  {
    var r := SwitchTo(w, f);
    assert r.chain[..|w.chain|] == w.chain;
    SwitchToFibers(w, f, f);
    forall g | 0 <= g < |w.fibers| ensures r.fibers[g].process == w.fibers[g].process {
      SwitchToFibers(w, f, g);
    }
  }

  lemma SwitchToStaysWithin(w: World, f: nat, now: World, g: nat)
    requires w.Valid() && now.Valid() && Within(w, f, now) && g < |now.fibers| && g !in now.chain
    ensures Within(w, f, SwitchTo(now, g))
  {
    var n, r := |w.chain|, SwitchTo(now, g);
    assert g != f by { assert now.chain[n] == f; }
    SwitchToFibers(now, g, f);
    forall h | 0 <= h < |w.fibers| ensures r.fibers[h].process == w.fibers[h].process {
      SwitchToFibers(now, g, h);
    }
    assert r.chain[..n] == now.chain[..n];
  }

  lemma LeaveStaysWithin(w: World, f: nat, now: World, stopped: Fiber)
    requires w.Valid() && now.Valid() && Within(w, f, now) && Stops(now, stopped) && |now.chain| > |w.chain| + 1
    ensures Within(w, f, Leave(now, stopped).0)
  {
    var n, r := |w.chain|, Leave(now, stopped).0;
    LeaveReturnsBelow(now, stopped);
    LeaveFibers(now, stopped, f);
    forall h | 0 <= h < |w.fibers| ensures r.fibers[h].process == w.fibers[h].process {
      LeaveFibers(now, stopped, h);
    }
    assert r.chain[..n] == now.chain[..n];
  }

  lemma StepStaysWithin(w: World, f: nat, now: World, op: Op)
    requires w.Valid() && now.Valid() && Within(w, f, now) && Possible(now, op)
    requires |Step(now, op).0.chain| > |w.chain|
    ensures Within(w, f, Step(now, op).0)
  {
    if Step(now, op).1.Started? {
      IdleResumed(now, op);
      SwitchToStaysWithin(w, f, now, op.f);
    } else if Step(now, op).1.Back? {
      StepLeaves(now, op);
      LeaveReturnsBelow(now, Stopped(now, op));
      LeaveStaysWithin(w, f, now, Stopped(now, op));
    }
  }

  lemma {:induction false} RunStaysWithin(w: World, f: nat, now: World, ops: seq<Op>)
    requires w.Valid() && now.Valid() && Within(w, f, now)
    requires AllPossible(now, ops) && StaysAbove(now, ops, |w.chain|)
    ensures Within(w, f, After(now, ops))
    decreases |ops|
  {
    if ops != [] {
      StepKeepsValid(now, ops[0]);
      StepStaysWithin(w, f, now, ops[0]);
      RunStaysWithin(w, f, Step(now, ops[0]).0, ops[1..]);
    }
  }

  /** The step with which the call returns. */
  lemma CallReturns(w: World, f: nat, now: World, last: Op)
    requires w.Valid() && now.Valid() && Within(w, f, now) && Possible(now, last)
    requires |Step(now, last).0.chain| == |w.chain|
    ensures var r := Step(now, last).0;
      r.chain == w.chain && r.control == w.control && r.process == w.process && r.stack == w.stack
    ensures Step(now, last).1.Back? && Step(now, last).1.f == f
  {
    var n := |w.chain|;
    if Step(now, last).1.Started? {
      IdleResumed(now, last);
    }
    StepLeaves(now, last);
    LeaveReturnsBelow(now, Stopped(now, last));
    if n > 0 { assert now.chain[n - 1] == w.chain[n - 1]; }
  }

  /** When a resume call returns, after whatever run, it is to the code that made it, and chain, process and
      domain stack are what they were at the call. */
  lemma ResumeReturns(w: World, call: Op, ops: seq<Op>, last: Op)
    requires w.Valid() && Possible(w, call) && Step(w, call).1.Started?
    requires var begun := Step(w, call).0; begun.Valid() && AllPossible(begun, ops) && StaysAbove(begun, ops, |w.chain|)
    requires Possible(After(Step(w, call).0, ops), last)
    requires |Step(After(Step(w, call).0, ops), last).0.chain| == |w.chain|
    ensures var (r, event) := Step(After(Step(w, call).0, ops), last);
      && event.Back? && event.f == call.f
      && r.chain == w.chain && r.control == w.control && r.process == w.process && r.stack == w.stack
  {
    var begun := Step(w, call).0;
    IdleResumed(w, call);
    SwitchToIsWithin(w, call.f);
    RunStaysWithin(w, call.f, begun, ops);
    CallReturns(w, call.f, After(begun, ops), last);
  }

  // ----- exceptions -----

  /** The exceptions that end the function of `f` in a run. */
  ghost function Raised(w: World, ops: seq<Op>, f: nat): seq<nat>
    requires w.Valid() && AllPossible(w, ops)
    decreases |ops|
  {
    if ops == [] then []
    else
      StepKeepsValid(w, ops[0]);
      (if ops[0].Finish? && ops[0].thrown.Some? && w.control == Some(f) then [ops[0].thrown.value] else [])
        + Raised(Step(w, ops[0]).0, ops[1..], f)
  }

  /** The exceptions that resume calls of `f` end with in a run. */
  ghost function Delivered(w: World, ops: seq<Op>, f: nat): seq<nat>
    requires w.Valid() && AllPossible(w, ops)
    decreases |ops|
  {
    if ops == [] then []
    else
      StepKeepsValid(w, ops[0]);
      var (next, event) := Step(w, ops[0]);
      (if event.Back? && event.f == f && event.thrown.Some? then [event.thrown.value] else [])
        + Delivered(next, ops[1..], f)
  }

  lemma OneEnd(w: World, op: Op)
    requires w.Valid() && Possible(w, op)
    ensures Step(w, op).1.Back? && Step(w, op).1.thrown.Some? ==>
      op.Finish? && w.control == Some(Step(w, op).1.f) && op.thrown == Step(w, op).1.thrown
    ensures op.Finish? ==> w.control.Some? && Step(w, op).1 == Back(w.control.value, op.thrown)
    ensures op.Finish? ==> w.control.value < |Step(w, op).0.fibers|
    ensures op.Finish? ==> Step(w, op).0.fibers[w.control.value].state == Finished
  {
    if Step(w, op).1.Back? {
      StepLeaves(w, op);
      LeaveFibers(w, Stopped(w, op), w.chain[|w.chain| - 1]);
    }
  }

  lemma {:induction false} FinishedRaisesNothing(w: World, ops: seq<Op>, f: nat)
    requires w.Valid() && AllPossible(w, ops) && f < |w.fibers| && w.fibers[f].state == Finished
    ensures Raised(w, ops, f) == []
    decreases |ops|
  {
    if ops != [] {
      NotRunning(w, f);
      FinishedIsFinal(w, [ops[0]], f);
      StepKeepsValid(w, ops[0]);
      FinishedRaisesNothing(Step(w, ops[0]).0, ops[1..], f);
    }
  }

  /** An exception that ends a fiber reaches exactly one resume call, and a fiber raises at most one. */
  lemma {:induction false} EachExceptionReachesOneResume(w: World, ops: seq<Op>, f: nat)
    requires w.Valid() && AllPossible(w, ops)
    ensures Delivered(w, ops, f) == Raised(w, ops, f) && |Raised(w, ops, f)| <= 1
    decreases |ops|
  {
    if ops != [] {
      OneEnd(w, ops[0]);
      StepKeepsValid(w, ops[0]);
      EachExceptionReachesOneResume(Step(w, ops[0]).0, ops[1..], f);
      if ops[0].Finish? && w.control == Some(f) {
        FinishedRaisesNothing(Step(w, ops[0]).0, ops[1..], f);
      }
    }
  }
}
