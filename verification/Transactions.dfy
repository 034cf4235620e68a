/**
 Storage transactions: a snapshot is taken first and put back unless the work is committed. Whatever the
 work does to scopes, variables, caches and records, rolling back restores every binding.
 */
module Transactions {
  import opened Options
  import opened Values
  import opened Storage
  import opened DomainManager

  class StorageTransaction {
    const storage: Manager
    var snap: Option<Snapshot>
    var committed: bool

    ghost predicate Valid()
      reads this, if snap.Some? then snap.value.domains else []
    {
      snap.Some? ==> snap.value.Valid()
    }

    /** The snapshot holds what the storage holds now. */
    ghost predicate Holds()
      reads this, storage, storage.data, if snap.Some? then snap.value.domains else []
    {
      snap.Some? && storage.IsIn(snap.value)
    }

    constructor (s: Manager)
      requires s.Valid()
      ensures storage == s && Valid() && Holds() && !committed
      ensures fresh(snap.value.domains)
    {
      storage := s;
      committed := false;
      snap := None;
      new;
      var taken := s.CreateSnapshot();
      snap := Some(taken);
    }

    method Commit()
      modifies this
      ensures snap.None? && committed
    {
      committed := true;
      snap := None;
    }

    method Discard()
      modifies this`snap
      ensures snap.None?
    {
      snap := None;
    }

    /** Runs on request and again when the transaction goes out of scope; without a snapshot it does nothing. */
    method Rollback()
      requires Valid() && storage.Valid()
      modifies this`snap, storage`data, storage`fiber, storage`live, storage`sets
      ensures snap.None? && storage.Valid() && storage.fiber == old(storage.fiber)
      ensures old(snap.None?) ==> unchanged(storage)
      ensures old(snap.Some?) ==>
        && Manager.Mirrors(storage.data, old(snap.value.domains))
        && storage.sets == Manager.OutermostFirst(old(snap.value.sets))
        && (forall k, id :: 0 <= k < |storage.data| && id in storage.ids ==> id.ref != storage.data[k].ref)
    {
      if snap.Some? {
        storage.RestoreSnapshot(snap.value);
        snap := None;
      }
    }
  }

  /** What a program does to its storage. Identifiers and parked fiber stacks are given by their place in the
      lists of known ones. */
  datatype Action =
    | EnterScope(full: bool)
    | LeaveScope
    | ClearScope
    | NextRound
    | Rewind
    | Define(name: string, val: Value, replace: bool)
    | DefineId(id: nat, val: Value, replace: bool)
    | DefineGlobal(name: string, val: Value)
    | LookUp(id: nat)
    | EnterSet
    | LeaveSet
    | Declare(name: string)
    | ReadId(name: string)
    | StartFiber
    | ResumeFiber(stack: nat)
    | LeaveFiber
    | Begin
    | Commit
    | Rollback

  predicate OnScopes(a: Action) {
    a.EnterScope? || a.LeaveScope? || a.ClearScope? || a.NextRound? || a.Rewind?
  }

  predicate OnNames(a: Action) {
    a.Define? || a.DefineId? || a.DefineGlobal? || a.LookUp?
  }

  predicate OnRecords(a: Action) {
    a.EnterSet? || a.LeaveSet? || a.Declare?
  }

  predicate OnFibers(a: Action) {
    a.StartFiber? || a.ResumeFiber? || a.LeaveFiber?
  }

  ghost predicate Known(m: Manager, known: seq<VarId>)
    reads m
  {
    forall k :: 0 <= k < |known| ==> known[k] in m.ids
  }

  /** Two domains hold now what they held then. */
  twostate predicate SameScopes(was: seq<Domain>, new now: seq<Domain>)
    reads now
  {
    && |now| == |was|
    && (forall k :: 0 <= k < |now| ==> now[k].reflect == old(was[k].reflect) && now[k].slots == old(was[k].slots))
  }

  /** What an action did to the stack of scopes, to the innermost bindings and to the records. Those that
      need a scope, or an identifier that is not known, do nothing when there is none. */
  twostate predicate Did(m: Manager, a: Action, known: seq<VarId>)
    requires old(m.Valid()) && m.Valid() && Known(m, known)
    reads m, m.live, m.ids
  {
    var was, now := old(m.Stack()), m.Stack();
    match a
    case EnterScope(_) => |now| == |was| + 1 && now[0].reflect == map[] && SameScopes(was, now[1..])
    case LeaveScope => now == if was == [] then [] else was[1..]
    case ClearScope => now == was && (now != [] ==> now[0].reflect == map[])
    case NextRound => now == was && (now != [] ==> now[0].optimize && now[0].Bindings() == old(was[0].Bindings()))
    case Rewind => m.data == old(m.data) && (m.data != [] ==> m.Bottom().reflect == map[])
    case Define(name, val, replace) =>
      && now == was
      && (now != [] ==> Bound(now[0], name, val, old(was[0].RefusesName(name, replace))))
    case DefineId(k, val, replace) =>
      && now == was
      && (now != [] && k < |known| ==>
            now[0].Cached(known[k]) && Bound(now[0], known[k].name, val, old(was[0].RefusesId(known[k], replace))))
    case DefineGlobal(name, val) =>
      && m.data == old(m.data)
      && (m.data != [] ==> Bound(m.Bottom(), name, val, name in old(m.Bottom().reflect)))
    case LookUp(_) => SameScopes(was, now) && now == was
    case EnterSet => m.sets == [{}] + old(m.sets)
    case LeaveSet => m.sets == if old(m.sets) == [] then [] else old(m.sets)[1..]
    case Declare(name) => m.sets == if old(m.sets) == [] then [] else [old(m.sets)[0] + {name}] + old(m.sets)[1..]
    case _ => true
  }

  /** The name is bound to the value, and nothing else changed, unless it was refused. */
  twostate predicate Bound(d: Domain, name: string, val: Value, refused: bool)
    requires old(d.Valid()) && d.Valid()
    reads d
  {
    d.Bindings() == if refused then old(d.Bindings()) else old(d.Bindings())[name := val]
  }

  /** An action on scopes, names or records. */
  method Perform(m: Manager, a: Action, known: seq<VarId>)
    requires m.Valid() && Known(m, known)
    modifies m, m.live, m.ids
    ensures m.Valid() && m.ids == old(m.ids) && m.aside == old(m.aside) && fresh(m.live - old(m.live))
    ensures Known(m, known) && Did(m, a, known)
  {
    if OnRecords(a) {
      PerformOnRecords(m, a, known);
    } else if OnScopes(a) {
      PerformOnScopes(m, a, known);
    } else if OnNames(a) {
      PerformOnNames(m, a, known);
    }
  }

  method PerformOnScopes(m: Manager, a: Action, ghost known: seq<VarId>)
    requires m.Valid() && OnScopes(a) && Known(m, known)
    modifies m, m.live
    ensures m.Valid() && m.ids == old(m.ids) && m.aside == old(m.aside) && fresh(m.live - old(m.live))
    ensures Did(m, a, known)
  {
    var open := m.Stack() != [];
    match a
    case EnterScope(full) => m.AddDomain(full);
    case LeaveScope => if open { m.RemoveDomain(); }
    case ClearScope => if open { m.ClearDomain(); }
    case NextRound => if open { m.NextDomain(); }
    case Rewind => if m.data != [] { m.ClearGlobal(); }
  }

  /** A definition in the innermost scope or in the global one. */
  method PerformDefinition(m: Manager, a: Action, known: seq<VarId>)
    requires m.Valid() && (a.Define? || a.DefineId? || a.DefineGlobal?) && Known(m, known)
    modifies m.live, m.ids
    ensures m.Valid() && Did(m, a, known)
  {
    if a.DefineGlobal? {
      if m.data != [] {
        var _ := m.AddVarGlobal(a.name, a.val);
      }
    } else if m.Stack() != [] {
      if a.Define? {
        var _ := m.AddVar(a.name, a.val, a.replace);
      } else if a.id < |known| {
        var _ := m.AddVarById(known[a.id], a.val, a.replace);
      }
    }
  }

  method PerformOnNames(m: Manager, a: Action, known: seq<VarId>)
    requires m.Valid() && OnNames(a) && Known(m, known)
    modifies m.live, m.ids
    ensures m.Valid() && Did(m, a, known)
  {
    if a.LookUp? {
      if a.id < |known| {
        var _, _, _ := m.GetVarById(known[a.id]);
      }
    } else {
      PerformDefinition(m, a, known);
    }
  }

  method PerformOnRecords(m: Manager, a: Action, ghost known: seq<VarId>)
    requires m.Valid() && OnRecords(a) && Known(m, known)
    modifies m`sets
    ensures m.Valid() && Did(m, a, known)
  {
    match a
    case EnterSet => m.AddSet();
    case LeaveSet => if m.sets != [] { m.RemoveSet(); }
    case Declare(name) =>
      if m.sets != [] {
        var declared := m.AddRecord(name);
        assert !declared ==> old(m.sets)[0] + {name} == old(m.sets)[0];
      }
  }

  /** The stacks of the parked fibers, no domain on two of them. */
  ghost predicate Parked(m: Manager, parked: seq<seq<Domain>>)
    reads m
  {
    && (forall j, k :: 0 <= j < |parked| && 0 <= k < |parked[j]| ==> parked[j][k] in m.aside)
    && (forall j, k, l :: 0 <= j < |parked| && 0 <= k < l < |parked[j]| ==> parked[j][k] != parked[j][l])
    && (forall i, j, k, l :: 0 <= i < j < |parked| && 0 <= k < |parked[i]| && 0 <= l < |parked[j]| ==>
          parked[i][k] != parked[j][l])
  }

  /** A fiber starts with an empty stack, goes on with its own, or leaves the main stack alone in use; the
      stack in use until then is parked. */
  method SwitchFiber(m: Manager, a: Action, parked: seq<seq<Domain>>) returns (parked': seq<seq<Domain>>)
    requires m.Valid() && OnFibers(a) && Parked(m, parked)
    modifies m`fiber, m`inFiber, m`aside
    ensures m.Valid() && Parked(m, parked')
    ensures if a.ResumeFiber? && a.stack < |parked| then
              m.inFiber && m.fiber == parked[a.stack] && parked' == parked[a.stack := old(m.fiber)]
            else if a.ResumeFiber? then parked' == parked && m.fiber == old(m.fiber) && m.inFiber == old(m.inFiber)
            else m.fiber == [] && m.inFiber == a.StartFiber? && parked' == parked + [old(m.fiber)]
  {
    if a.ResumeFiber? {
      if a.stack < |parked| {
        var was := m.SwitchStack(true, parked[a.stack]);
        return parked[a.stack := was];
      }
      return parked;
    }
    var was := m.SwitchStack(a.StartFiber?, []);
    parked' := parked + [was];
  }

  /** The program cannot reach the domains of a snapshot. */
  ghost predicate OutOfReach(m: Manager, snap: Snapshot)
    reads m
  {
    forall k :: 0 <= k < |snap.domains| ==> snap.domains[k] !in m.live
  }

  ghost function Recorded(open: seq<Snapshot>): (r: set<Domain>)
    ensures forall k, d :: 0 <= k < |open| && d in open[k].domains ==> d in r
  {
    if open == [] then {} else (set d | d in open[0].domains) + Recorded(open[1..])
  }

  /** Snapshots that can still be put back, and that nothing but a rollback touches. */
  ghost predicate Kept(m: Manager, open: seq<Snapshot>)
    reads m, Recorded(open)
  {
    forall k :: 0 <= k < |open| ==> open[k].Valid() && OutOfReach(m, open[k])
  }

  /** Nested transactions: a snapshot is taken, dropped or put back. */
  method Transact(m: Manager, a: Action, open: seq<Snapshot>) returns (open': seq<Snapshot>)
    requires m.Valid() && (a.Begin? || a.Commit? || a.Rollback?)
    requires Kept(m, open)
    modifies m`data, m`fiber, m`live, m`sets
    ensures m.Valid() && fresh(m.live - old(m.live))
    ensures Kept(m, open')
    ensures forall k :: 0 <= k < |open'| && k >= |open| ==> fresh(open'[k].domains)
    ensures forall k :: 0 <= k < |open'| && k < |open| ==> open'[k] == open[k]
    ensures a.Begin? ==> |open'| == |open| + 1
    ensures !a.Begin? ==> |open'| == if open == [] then 0 else |open| - 1
    ensures a.Rollback? && open != [] ==>
      Manager.Mirrors(m.data, open[|open| - 1].domains)
  {
    if a.Begin? {
      var snap := m.CreateSnapshot();
      open' := open + [snap];
    } else if open == [] {
      open' := open;
    } else {
      open' := open[..|open| - 1];
      if a.Rollback? {
        m.RestoreSnapshot(open[|open| - 1]);
      }
    }
  }

  /** One action of a run, with what the run has read, parked and opened so far. */
  method Act(m: Manager, a: Action, known: seq<VarId>, parked: seq<seq<Domain>>, open: seq<Snapshot>)
      returns (known': seq<VarId>, parked': seq<seq<Domain>>, open': seq<Snapshot>)
    requires m.Valid() && Known(m, known) && Parked(m, parked) && Kept(m, open)
    modifies m, m.live, m.ids
    ensures m.Valid() && old(m.ids) <= m.ids && fresh(m.ids - old(m.ids)) && fresh(m.live - old(m.live))
    ensures Known(m, known') && Parked(m, parked') && Kept(m, open')
    ensures forall k :: 0 <= k < |open'| ==> (k < |open| && open'[k] == open[k]) || fresh(open'[k].domains)
  {
    known', parked', open' := known, parked, open;
    if a.ReadId? {
      var id := m.NewId(a.name);
      known' := known + [id];
    } else if OnFibers(a) {
      parked' := SwitchFiber(m, a, parked);
    } else if a.Begin? || a.Commit? || a.Rollback? {
      open' := Transact(m, a, open);
    } else {
      Perform(m, a, known);
    }
  }

  /** After any run, with new identifiers, fibers that come and go and transactions inside each other, every
      cache is coherent with every live domain. */
  method Run(m: Manager, given: seq<VarId>, actions: seq<Action>)
    requires m.Valid() && Known(m, given)
    modifies m, m.live, m.ids
    ensures m.Valid() && old(m.ids) <= m.ids && fresh(m.ids - old(m.ids)) && fresh(m.live - old(m.live))
  {
    var known, parked: seq<seq<Domain>>, open: seq<Snapshot> := given, [], [];
    for i := 0 to |actions|
      invariant m.Valid() && old(m.ids) <= m.ids && fresh(m.ids - old(m.ids)) && fresh(m.live - old(m.live))
      invariant Known(m, known) && Parked(m, parked) && Kept(m, open)
      invariant forall k :: 0 <= k < |open| ==> fresh(open[k].domains)
    {
      known, parked, open := Act(m, actions[i], known, parked, open);
    }
  }

  /** What the transaction recorded when it was taken is untouched by the run inside it. */
  method RunInside(m: Manager, transaction: StorageTransaction, given: seq<VarId>, actions: seq<Action>)
    requires m.Valid() && Known(m, given)
    requires transaction.storage == m && transaction.Valid() && transaction.snap.Some?
    requires OutOfReach(m, transaction.snap.value)
    modifies m, m.live, m.ids
    ensures m.Valid() && old(m.ids) <= m.ids
    ensures transaction.Valid() && unchanged(transaction) && unchanged(transaction.snap.value.domains)
  {
    Run(m, given, actions);
  }

  method UndoneInside(m: Manager, transaction: StorageTransaction, given: seq<VarId>, actions: seq<Action>)
    requires m.Valid() && Known(m, given)
    requires transaction.storage == m && transaction.Valid() && transaction.Holds()
    requires OutOfReach(m, transaction.snap.value)
    modifies m, m.live, m.ids, transaction`snap
    ensures m.Valid() && old(m.ids) <= m.ids && m.sets == old(m.sets)
    ensures |m.data| == |old(m.data)|
    ensures forall k :: 0 <= k < |m.data| ==>
      m.data[k].reflect == old(m.data[k].reflect) && m.data[k].slots == old(m.data[k].slots)
    ensures forall k, id :: 0 <= k < |m.data| && id in m.ids ==> id.ref != m.data[k].ref
  {
    ghost var n, domains := |m.data|, transaction.snap.value.domains;
    RunInside(m, transaction, given, actions);
    transaction.Rollback();
    Manager.TurnedTwice(old(m.sets));
    forall k | 0 <= k < n
      ensures m.data[k].reflect == old(m.data[k].reflect) && m.data[k].slots == old(m.data[k].slots)
    {
      assert Manager.SameTable(m.data[k], domains[n - 1 - k]) && unchanged(domains[n - 1 - k]);
      assert old(Manager.SameTable(domains[n - 1 - k], m.data[k]));
    }
  }

  /** A transaction that is rolled back after any run leaves the bindings and the records as they were,
      scope by scope, and no cache, old or new, matches a restored domain. */
  method Undone(m: Manager, given: seq<VarId>, actions: seq<Action>)
    requires m.Valid() && Known(m, given)
    modifies m, m.live, m.ids
    ensures m.Valid() && old(m.ids) <= m.ids && m.sets == old(m.sets)
    ensures |m.data| == |old(m.data)|
    ensures forall k :: 0 <= k < |m.data| ==>
      m.data[k].reflect == old(m.data[k].reflect) && m.data[k].slots == old(m.data[k].slots)
    ensures forall k, id :: 0 <= k < |m.data| && id in m.ids ==> id.ref != m.data[k].ref
  {
    var transaction := new StorageTransaction(m);
    UndoneInside(m, transaction, given, actions);
  }

  /** An outer scope that binds the name of `id` and an empty inner one. */
  ghost predicate BoundOutside(m: Manager, id: VarId)
    reads m, m.live, m.ids, id
  {
    && m.Valid() && id in m.ids && !m.inFiber && |m.data| == 2
    && id.name !in m.data[0].reflect && id.name in m.data[1].reflect
  }

  method BindOutside(name: string, val: Value) returns (m: Manager, id: VarId)
    ensures fresh(m) && fresh(m.live) && fresh(m.ids) && id.name == name && BoundOutside(m, id)
  {
    m := new Manager();
    id := m.NewId(name);
    var defined := m.AddVar(name, val, false);
    assert name in m.data[0].Bindings();
    m.Push();
  }

  method CacheIt(m: Manager, id: VarId)
    requires BoundOutside(m, id)
    modifies id
    ensures BoundOutside(m, id) && id.domainId == 1 && m.data[1].Cached(id)
  {
    assert Manager.Innermost(m.data, id.name) == 1;
    var found, at, slot := m.GetVarById(id);
  }

  /** The inner scope gains the name, the cache still points at the outer one. */
  ghost predicate BoundTwice(m: Manager, id: VarId)
    reads m, m.live, m.ids, id
  {
    && m.Valid() && id in m.ids && !m.inFiber && |m.data| == 2
    && id.name in m.data[0].reflect && id.domainId == 1 && m.data[1].Cached(id)
  }

  method BindInside(m: Manager, id: VarId, val: Value)
    requires BoundOutside(m, id) && id.domainId == 1 && m.data[1].Cached(id)
    modifies m.data[0]
    ensures BoundTwice(m, id)
  {
    var defined := m.AddVar(id.name, val, false);
    assert id.name in m.data[0].Bindings();
  }

  method LookUpBothWays(m: Manager, id: VarId) returns (byId: nat, byName: nat)
    requires BoundTwice(m, id)
    modifies id
    ensures byId == 1 && byName == 0
  {
    assert Manager.Innermost(m.data, id.name) == 0 && Manager.Hit(m.data, id);
    var found, slot;
    found, byName, slot := m.GetVarByName(id.name);
    found, byId, slot := m.GetVarById(id);
  }

  /** A cached lookup and a fresh scan part ways: a scope entered after the name was cached in the one
      around it gains the same name. */
  method CacheSkipsLaterBinding(outer: Value, inner: Value) returns (byId: nat, byName: nat)
    ensures byId == 1 && byName == 0
  {
    var m, id := BindOutside("x", outer);
    CacheIt(m, id);
    BindInside(m, id, inner);
    byId, byName := LookUpBothWays(m, id);
  }

  /** A definition by name is refused and the same definition by identifier goes through: the identifier
      was never looked up, so its cache does not show that the name is taken. */
  method IdentifierRebinds(first: Value, second: Value) returns (byName: bool, byId: bool, value: Value)
    ensures !byName && byId && value == second
  {
    var m := new Manager();
    var id := m.NewId("x");
    var defined := m.AddVar("x", first, false);
    assert "x" in m.Top().Bindings();
    byName := m.AddVar("x", second, false);
    byId := m.AddVarById(id, second, false);
    assert m.Top().Bindings()["x"] == second;
    value := m.Top().slots[m.Top().reflect["x"]];
  }
}
