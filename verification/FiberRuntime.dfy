/**
 Fibers as objects: each operation works on the chain, the current process and the records of the fibers
 in place, and does what the step of the machine says.
 */
module FiberRuntime {
  import opened Options
  import opened Fibers

  class UnixFiber {
    ghost const id: nat
    const process: nat
    var state: State
    var prev: UnixFiber?
    var target: UnixFiber?
    var resumer: Option<nat>
    var wakeUp: nat
    var eptr: Option<nat>

    constructor (ghost id: nat, process: nat)
      ensures this.id == id && Record() == Fiber(Ready, process, None, None, None, 0, None)
      ensures prev == null && target == null
    {
      this.id := id;
      this.process := process;
      state, prev, target, resumer, wakeUp, eptr := Ready, null, null, None, 0, None;
    }

    ghost function Record(): Fiber
      reads this
    {
      Fiber(state, process, Number(prev), Number(target), resumer, wakeUp, eptr)
    }
  }

  ghost function Number(f: UnixFiber?): Option<nat> {
    if f == null then None else Some(f.id)
  }

  ghost predicate Known(fibers: seq<UnixFiber>, f: UnixFiber?) {
    f == null || (f.id < |fibers| && fibers[f.id] == f)
  }

  ghost function Records(fibers: seq<UnixFiber>): (r: seq<Fiber>)
    reads fibers
    ensures |r| == |fibers|
    ensures forall i {:trigger r[i]} :: 0 <= i < |fibers| ==> r[i] == fibers[i].Record()
  {
    seq(|fibers|, i requires 0 <= i < |fibers| reads fibers => fibers[i].Record())
  }

  ghost function Numbers(chain: seq<UnixFiber>): (r: seq<nat>)
    ensures |r| == |chain|
    ensures forall k :: 0 <= k < |chain| ==> r[k] == chain[k].id
  {
    seq(|chain|, k requires 0 <= k < |chain| => chain[k].id)
  }

  class FiberContext {
    /** Every fiber created, by number. */
    ghost var fibers: seq<UnixFiber>
    var chain: seq<UnixFiber>
    /** The context whose code runs, and the resume call the code outside all fibers waits in. */
    var control: UnixFiber?
    var target: UnixFiber?
    var process: Option<nat>
    var stack: UnixFiber?
    var clock: nat

    ghost predicate Shaped()
      reads this, fibers
    {
      && (forall i :: 0 <= i < |fibers| ==> fibers[i].id == i)
      && (forall i {:trigger fibers[i].prev} :: 0 <= i < |fibers| ==> Known(fibers, fibers[i].prev))
      && (forall i {:trigger fibers[i].target} :: 0 <= i < |fibers| ==> Known(fibers, fibers[i].target))
      && (forall k :: 0 <= k < |chain| ==> Known(fibers, chain[k]))
      && Known(fibers, control) && Known(fibers, target) && Known(fibers, stack)
    }

    ghost function View(): World
      reads this, fibers
    {
      World(Records(fibers), Numbers(chain), Number(control), Number(target), process, Number(stack), clock)
    }

    ghost predicate Valid()
      reads this, fibers
    {
      Shaped() && View().Valid()
    }

    constructor ()
      ensures Valid() && View() == START && fibers == []
    {
      fibers, chain, control, target, process, stack, clock := [], [], null, null, None, null, 0;
    }

    /** A new fiber takes the next number. */
    ghost method Register(fi: UnixFiber)
      requires Shaped() && fi !in fibers && fi.id == |fibers| && fi.prev == null && fi.target == null
      modifies this`fibers
      ensures fibers == old(fibers) + [fi] && Shaped()
      ensures View() == old(View()).(fibers := old(View()).fibers + [fi.Record()])
    {
      fibers := fibers + [fi];
    }

    method Create(process: nat) returns (fi: UnixFiber)
      requires Valid()
      modifies this`fibers
      ensures Valid() && View() == Step(old(View()), Op.Create(process)).0
      ensures fresh(fi) && fibers == old(fibers) + [fi]
    {
      StepKeepsValid(View(), Op.Create(process));
      fi := new UnixFiber(|fibers|, process);
      Register(fi);
    }

    /** One record changed. */
    lemma Updated(was: seq<Fiber>, f: UnixFiber)
      requires Shaped() && Known(fibers, f) && |was| == |fibers|
      requires forall i :: 0 <= i < |fibers| && i != f.id ==> fibers[i].Record() == was[i]
      ensures Records(fibers) == was[f.id := f.Record()]
    {
    }

    method SwapIn(fi: UnixFiber)
      modifies this`process, this`stack
      ensures process == Some(fi.process) && stack == fi
    {
      process := Some(fi.process);
      stack := fi;
    }

    method SwapOut(fi: UnixFiber)
      modifies this`process, this`stack
      ensures process == fi.resumer && stack == null
    {
      process := fi.resumer;
      stack := null;
    }

    /** The context that runs now waits for `fi`, or stops waiting. */
    method SetWaiting(context: UnixFiber?, fi: UnixFiber?)
      requires Shaped() && Known(fibers, context) && Known(fibers, fi)
      modifies this`target, if context == null then {} else {context}
      ensures Shaped() && View() == SetTarget(old(View()), Number(context), Number(fi))
    {
      ghost var was := Records(fibers);
      if context == null {
        target := fi;
        assert Records(fibers) == was;
      } else {
        context.target := fi;
        Updated(was, context);
      }
    }

    /** The fiber goes on the chain; control will go back to the fiber that was on top. */
    method Push(fi: UnixFiber)
      requires Shaped() && Known(fibers, fi)
      modifies this`chain, fi
      ensures Shaped() && chain == old(chain) + [fi] && View() == Pushed(old(View()), fi.id)
    {
      ghost var records, numbers := Records(fibers), Numbers(chain);
      if chain != [] {
        fi.prev := chain[|chain| - 1];
      } else {
        fi.prev := null;
      }
      fi.resumer := process;
      fi.state := Running;
      chain := chain + [fi];
      Updated(records, fi);
      assert Numbers(chain) == numbers + [fi.id];
    }

    method PushIn(fi: UnixFiber)
      requires Shaped() && Known(fibers, fi)
      modifies this`chain, this`process, this`stack, fi
      ensures Shaped() && View() == Pushed(old(View()), fi.id).(process := Some(fi.process), stack := Some(fi.id))
    {
      Push(fi);
      SwapIn(fi);
    }

    /** Control passes to another context; the first one starts or stops waiting. */
    method PassControl(waiter: UnixFiber?, target: UnixFiber?, next: UnixFiber?)
      requires Shaped() && Known(fibers, waiter) && Known(fibers, target) && Known(fibers, next)
      modifies this`target, this`control, if waiter == null then {} else {waiter}
      ensures Shaped()
      ensures View() == SetTarget(old(View()), Number(waiter), Number(target)).(control := Number(next))
    {
      SetWaiting(waiter, target);
      control := next;
    }

    /** `resume` once nothing stands in its way: the code that called it waits from here on. */
    method Switch(fi: UnixFiber)
      requires Shaped() && Known(fibers, fi)
      modifies this, fi, if control == null then {} else {control}
      ensures fibers == old(fibers) && Shaped() && View() == SwitchTo(old(View()), fi.id)
    {
      PushIn(fi);
      PassControl(control, fi, fi);
    }

    /** The fiber leaves the chain; the process and the domain stack of the caller come back. */
    method Pop(fi: UnixFiber)
      requires Shaped() && Known(fibers, fi) && chain != []
      modifies this`chain, this`process, this`stack
      ensures Shaped()
      ensures var w := old(View());
        View() == Returned(w, fi.id).(fibers := w.fibers)
    {
      ghost var numbers := Numbers(chain);
      chain := chain[..|chain| - 1];
      assert Numbers(chain) == numbers[..|numbers| - 1];
      SwapOut(fi);
      if chain != [] {
        SwapIn(chain[|chain| - 1]);
      }
    }

    /** What is left of a resume call of `fi` once control is back; an exception of the fiber is taken. */
    method Return(fi: UnixFiber) returns (thrown: Option<nat>)
      requires Shaped() && Known(fibers, fi) && chain != []
      modifies this`chain, this`process, this`stack, fi`eptr
      ensures Shaped() && thrown == old(fi.eptr)
      ensures View() == Returned(old(View()), fi.id)
    {
      Pop(fi);
      ghost var records := Records(fibers);
      thrown := fi.eptr;
      fi.eptr := None;
      Updated(records, fi);
    }

    /** A stopped fiber switches to the context it came from. */
    method SwitchBack(f: UnixFiber) returns (fi: UnixFiber, thrown: Option<nat>)
      requires Shaped() && Known(fibers, f) && chain != []
      requires (if f.prev == null then target else f.prev.target) != null
      modifies this, fibers
      ensures fibers == old(fibers) && Shaped()
      ensures (View(), Back(fi.id, thrown)) == Fibers.SwitchBack(old(View()), f.id)
    {
      var c := f.prev;
      fi := if c == null then target else c.target;
      thrown := Return(fi);
      PassControl(c, null, c);
    }

    /** The innermost fiber, stopped in the world `w`, gives control back. */
    method GiveBack(ghost w: World, fi: UnixFiber) returns (back: UnixFiber, thrown: Option<nat>)
      requires Shaped() && chain != [] && fi == chain[|chain| - 1] && w.Valid() && w.chain == Numbers(chain)
      requires w.chain[|w.chain| - 1] < |w.fibers| && Stops(w, fi.Record()) && fi.state != Running
      requires View() == w.(fibers := w.fibers[fi.id := fi.Record()])
      modifies this, fibers
      ensures Valid() && fibers == old(fibers)
      ensures (View(), Back(back.id, thrown)) == Leave(w, old(fi.Record()))
    {
      BelowWaits(w);
      LeaveKeepsValid(w, fi.Record());
      assert View().Target(View().fibers[fi.id].prev) == Some(fi.id);
      back, thrown := SwitchBack(fi);
    }

    method Mark(fi: UnixFiber, state: State, wakeUp: nat, eptr: Option<nat>)
      requires Shaped() && Known(fibers, fi)
      modifies fi`state, fi`wakeUp, fi`eptr
      ensures Shaped() && fi.Record() == old(fi.Record()).(state := state, wakeUp := wakeUp, eptr := eptr)
      ensures View() == old(View()).(fibers := old(View()).fibers[fi.id := fi.Record()])
    {
      ghost var was := Records(fibers);
      fi.wakeUp := wakeUp;
      fi.eptr := eptr;
      fi.state := state;
      Updated(was, fi);
    }

    lemma InnermostIsLast()
      requires Valid() && chain != []
      ensures chain[|chain| - 1] in fibers && Innermost(View()) == chain[|chain| - 1].Record()
      ensures View().chain[|View().chain| - 1] == chain[|chain| - 1].id
    {
    }

    /** Marks the innermost fiber as stopped and gives control back. */
    method Stop(state: State, wakeUp: nat, eptr: Option<nat>) returns (back: UnixFiber, thrown: Option<nat>)
      requires Valid() && chain != [] && state != Running
      modifies this, fibers
      ensures Valid() && fibers == old(fibers)
      ensures (View(), Back(back.id, thrown)) ==
        Leave(old(View()), Innermost(old(View())).(state := state, wakeUp := wakeUp, eptr := eptr))
    {
      ghost var w := View();
      var fi := chain[|chain| - 1];
      InnermostIsLast();
      Mark(fi, state, wakeUp, eptr);
      back, thrown := GiveBack(w, fi);
    }

    method Yield() returns (ok: bool, back: UnixFiber?, thrown: Option<nat>)
      requires Valid()
      modifies this, fibers
      ensures Valid() && fibers == old(fibers) && ok == (old(chain) != [])
      ensures ok ==> back != null && (View(), Back(back.id, thrown)) == Step(old(View()), Op.Yield)
      ensures !ok ==> (View(), Refused) == Step(old(View()), Op.Yield)
    {
      if chain == [] {
        return false, null, None;
      }
      var fi := chain[|chain| - 1];
      InnermostIsLast();
      StoppingSteps(View(), 0, None);
      back, thrown := Stop(Suspended, fi.wakeUp, fi.eptr);
      ok := true;
    }

    method SleepFor(ms: nat) returns (ok: bool, back: UnixFiber?, thrown: Option<nat>)
      requires Valid()
      modifies this, fibers
      ensures Valid() && fibers == old(fibers) && ok == (old(chain) != [])
      ensures ok ==> back != null && (View(), Back(back.id, thrown)) == Step(old(View()), Op.Sleep(ms))
      ensures !ok ==> (View(), Refused) == Step(old(View()), Op.Sleep(ms))
    {
      if chain == [] {
        return false, null, None;
      }
      var fi := chain[|chain| - 1];
      InnermostIsLast();
      ghost var w := View();
      ghost var asleep := Innermost(w).(state := Sleeping, wakeUp := w.clock + ms);
      StoppingSteps(w, ms, None);
      assert asleep == Innermost(w).(state := Sleeping, wakeUp := clock + ms, eptr := fi.eptr);
      assert Step(w, Op.Sleep(ms)) == Leave(w, asleep);
      back, thrown := Stop(Sleeping, clock + ms, fi.eptr);
      ok := true;
    }

    /** The function of the innermost fiber ends, with or without an exception. */
    method Finish(raised: Option<nat>) returns (back: UnixFiber, thrown: Option<nat>)
      requires Valid() && chain != []
      modifies this, fibers
      ensures Valid() && fibers == old(fibers)
      ensures (View(), Back(back.id, thrown)) == Step(old(View()), Op.Finish(raised))
    {
      var fi := chain[|chain| - 1];
      InnermostIsLast();
      StoppingSteps(View(), 0, raised);
      back, thrown := Stop(Finished, fi.wakeUp, raised);
    }

    /** The caller of a sleeping fiber waits: a fiber goes to sleep, other code lets time pass. */
    method BackOff(fi: UnixFiber, nap: nat) returns (back: UnixFiber?, thrown: Option<nat>)
      requires Valid() && Known(fibers, fi) && fi.state == Sleeping && clock < fi.wakeUp
      modifies this, fibers
      ensures Valid() && fibers == old(fibers)
      ensures View() == Step(old(View()), Op.Resume(fi.id, Some(nap))).0
      ensures Step(old(View()), Op.Resume(fi.id, Some(nap))).1 == if back == null then Quiet else Back(back.id, thrown)
    {
      ResumeSteps(View(), fi.id, Some(nap));
      if chain != [] {
        var slept;
        slept, back, thrown := SleepFor(nap);
      } else {
        ghost var w := View();
        clock := clock + nap;
        SameFibers(w, View());
        back, thrown := null, None;
      }
    }

    /** The number `resume` is called with in the machine; a null fiber is one that does not exist. */
    ghost function Called(fi: UnixFiber?): nat
      reads this
    {
      if fi == null then |fibers| else fi.id
    }

    /** What the code that calls `resume` sees at once: an error, nothing, a switch into the fiber, or, when
        the fiber still sleeps and the caller is put to sleep as well, the switch back of the caller. `nap`
        is the time the back-off decides to wait, if any. */
    method Resume(fi: UnixFiber?, nap: Option<nat>) returns (refused: bool, back: UnixFiber?, thrown: Option<nat>)
      requires Valid() && Known(fibers, fi)
      modifies this, fibers
      ensures Valid() && fibers == old(fibers)
      ensures View() == Step(old(View()), Op.Resume(Called(fi), nap)).0
      ensures refused <==> Step(old(View()), Op.Resume(Called(fi), nap)).1 == Refused
      ensures Step(old(View()), Op.Resume(Called(fi), nap)).1.Back? <==> back != null
      ensures back != null ==> Step(old(View()), Op.Resume(Called(fi), nap)).1 == Back(back.id, thrown)
    {
      if fi != null {
        ResumeSteps(View(), fi.id, nap);
      }
      if fi == null || fi.state == Running || fi.state == Finished {
        return true, null, None;
      }
      if fi.state == Sleeping && clock < fi.wakeUp {
        refused, back, thrown := false, null, None;
        if nap.Some? {
          back, thrown := BackOff(fi, nap.value);
        }
        return;
      }
      SwitchToKeepsValid(View(), fi.id);
      Switch(fi);
      return false, null, None;
    }
  }
}
