/**
 The stack of domains and the stack of declared-name records: every operation keeps every cache
 coherent, lookup by identifier finds a binding of its name whenever there is one, and a rolled-back
 transaction leaves the bindings it started from.
 */
module DomainManager {
  import opened Values
  import opened Storage

  class Manager {
    /** Innermost domain first. */
    var data: seq<Domain>
    /** The domain stack of the running fiber, if any. */
    var fiber: seq<Domain>
    var inFiber: bool
    /** Declared names, innermost scope first. */
    var sets: seq<set<string>>
    /** Every domain in use, among them those on the stacks of parked fibers, and every identifier of the
        program. */
    ghost var live: set<Domain>
    ghost var aside: set<Domain>
    ghost var ids: set<VarId>

    ghost predicate Valid()
      reads this, live, ids
    {
      Stacked() && Sound(live, ids)
    }

    /** These domains are well formed, told apart by their identities, and may be trusted by every cache. */
    static ghost predicate Sound(domains: set<Domain>, ids: set<VarId>)
      reads domains, ids
    {
      && (forall d :: d in domains ==> d.Valid())
      && (forall d, e :: d in domains && e in domains && d != e ==> d.ref != e.ref)
      && (forall d, id :: d in domains && id in ids ==> d.Coherent(id))
    }

    static lemma SoundWithout(domains: set<Domain>, ids: set<VarId>, out: set<Domain>)
      requires Sound(domains, ids)
      ensures Sound(domains - out, ids)
    {
    }

    /** Domains that nothing refers to yet. */
    ghost predicate Newborn(domains: seq<Domain>)
      reads this, domains, ids, live
    {
      && (forall k :: 0 <= k < |domains| ==> domains[k].Valid() && domains[k] !in live)
      && (forall i, j :: 0 <= i < j < |domains| ==> domains[i] != domains[j] && domains[i].ref != domains[j].ref)
      && (forall k, id :: 0 <= k < |domains| && id in ids ==> id.ref != domains[k].ref)
      && (forall k, d :: 0 <= k < |domains| && d in live ==> d.ref != domains[k].ref)
    }

    lemma NewbornIsSound(domains: seq<Domain>)
      requires Sound(live, ids) && Newborn(domains)
      ensures Sound(live + (set d | d in domains), ids)
    {
      var all := live + set d | d in domains;
      forall d, e | d in all && e in all && d != e ensures d.ref != e.ref {
        if d !in live {
          var i :| 0 <= i < |domains| && domains[i] == d;
        }
        if e !in live {
          var j :| 0 <= j < |domains| && domains[j] == e;
        }
      }
    }

    /** The two stacks and the parked ones hold live domains, each once. */
    ghost predicate Stacked()
      reads this
    {
      && (forall i :: 0 <= i < |data| ==> data[i] in live)
      && (forall i :: 0 <= i < |fiber| ==> fiber[i] in live)
      && (forall i, j :: 0 <= i < j < |data| ==> data[i] != data[j])
      && (forall i, j :: 0 <= i < j < |fiber| ==> fiber[i] != fiber[j])
      && (forall i, j :: 0 <= i < |fiber| && 0 <= j < |data| ==> fiber[i] != data[j])
      && aside <= live
      && (forall i :: 0 <= i < |data| ==> data[i] !in aside)
      && (forall i :: 0 <= i < |fiber| ==> fiber[i] !in aside)
    }

    /** The domains a lookup goes through, innermost first. */
    function Scope(): seq<Domain>
      reads this
    {
      if inFiber then fiber + data else data
    }

    /** The stack that scopes are pushed on. */
    function Stack(): seq<Domain>
      reads this
    {
      if inFiber then fiber else data
    }

    /** The innermost domain. */
    function Top(): Domain
      requires Stack() != []
      reads this
    {
      Stack()[0]
    }

    /** The global domain. */
    function Bottom(): Domain
      requires data != []
      reads this
    {
      data[|data| - 1]
    }

    constructor ()
      ensures Valid() && fresh(live) && ids == {} && aside == {} && !inFiber
      ensures |data| == 1 && data[0].reflect == map[] && !data[0].optimize && sets == [{}]
    {
      var d := new Domain();
      data, fiber, inFiber, sets, live, aside, ids := [d], [], false, [{}], {d}, {}, {};
    }

    /** A new identifier is read from the program text. */
    method NewId(name: string) returns (id: VarId)
      requires Valid()
      modifies this`ids
      ensures Valid() && fresh(id) && id.name == name && id.ref == null && ids == old(ids) + {id}
    {
      id := new VarId(name);
      ids := ids + {id};
    }

    // ----- lookup -----

    /** Where the innermost-first scan of a scope finds a name; its length when it does not. */
    static function Innermost(scope: seq<Domain>, name: string): (i: nat)
      reads scope
      ensures i <= |scope|
      ensures i < |scope| ==> name in scope[i].reflect
      ensures forall k :: 0 <= k < i ==> name !in scope[k].reflect
    {
      if scope == [] then 0
      else if name in scope[0].reflect then 0
      else 1 + Innermost(scope[1..], name)
    }

    /** The domain the cache of `id` points at, as a place in the scope. */
    static predicate Hit(stack: seq<Domain>, id: VarId)
      reads stack, id
    {
      id.domainId < |stack| && stack[id.domainId].ref == id.ref
    }

    method GetVarByName(name: string) returns (found: bool, at: nat, slot: nat)
      requires Valid()
      ensures found <==> Innermost(Scope(), name) < |Scope()|
      ensures found ==> at == Innermost(Scope(), name) && slot == Scope()[at].reflect[name]
    {
      var offset := 0;
      if inFiber {
        var i := Find(fiber, name);
        if i < |fiber| {
          ScanSplit(fiber, data, name);
          return true, i, fiber[i].reflect[name];
        }
        offset := |fiber|;
        ScanSplit(fiber, data, name);
      }
      var i := Find(data, name);
      if i < |data| {
        return true, offset + i, data[i].reflect[name];
      }
      return false, 0, 0;
    }

    static method Find(stack: seq<Domain>, name: string) returns (i: nat)
      ensures i == Innermost(stack, name)
    {
      i := 0;
      assert stack[0..] == stack;
      while i < |stack| && name !in stack[i].reflect
        invariant i <= |stack|
        invariant Innermost(stack, name) == i + Innermost(stack[i..], name)
      {
        assert stack[i..][1..] == stack[i + 1..];
        i := i + 1;
      }
    }

    static lemma {:induction false} ScanSplit(a: seq<Domain>, b: seq<Domain>, name: string)
      ensures Innermost(a + b, name)
           == if Innermost(a, name) < |a| then Innermost(a, name) else |a| + Innermost(b, name)
    {
      if a == [] {
        assert a + b == b;
      } else {
        assert (a + b)[1..] == a[1..] + b;
        ScanSplit(a[1..], b, name);
      }
    }

    /** One stack: the cached place if its domain is still the cached one, else a scan. */
    static method LookIn(stack: seq<Domain>, id: VarId, ghost innermost: nat, ghost place: nat)
        returns (found: bool, at: nat, slot: nat)
      requires forall i :: 0 <= i < |stack| ==> stack[i].Valid() && stack[i].Coherent(id)
      requires innermost == Innermost(stack, id.name) && place == InStack(stack, id)
      modifies id
      ensures found <==> innermost < |stack|
      ensures found ==> at == place < |stack| && at == id.domainId && stack[at].Cached(id) && slot == id.slotId
      ensures !found ==> unchanged(id)
    {
      if id.domainId < |stack| && stack[id.domainId].Consistence(id) {
        assert stack[id.domainId].Coherent(id);
        return true, id.domainId, id.slotId;
      }
      var i := Find(stack, id.name);
      if i < |stack| {
        slot := stack[i].GetVarNoCheck(id, i);
        return true, i, slot;
      }
      return false, 0, 0;
    }

    /** Where lookup by identifier ends up. */
    function Place(id: VarId): nat
      reads this, data, fiber, id
    {
      if inFiber && Innermost(fiber, id.name) < |fiber| then InStack(fiber, id)
      else (if inFiber then |fiber| else 0) + InStack(data, id)
    }

    static function InStack(stack: seq<Domain>, id: VarId): nat
      reads stack, id
    {
      if Hit(stack, id) then id.domainId else Innermost(stack, id.name)
    }

    /** The cache of `id` is going to be used although a domain further in holds the name as well. */
    predicate Skips(id: VarId)
      reads this, data, fiber, id
    {
      if inFiber && Innermost(fiber, id.name) < |fiber| then
        Hit(fiber, id) && Innermost(fiber, id.name) < id.domainId
      else Hit(data, id) && Innermost(data, id.name) < id.domainId
    }

    lemma PlaceIsInnermost(id: VarId)
      requires Valid() && id in ids
      ensures Place(id) == Innermost(Scope(), id.name) <==> !Skips(id)
    {
      ScanSplit(fiber, data, id.name);
      if inFiber && Innermost(fiber, id.name) < |fiber| {
        HitIsBound(fiber, id);
      } else {
        HitIsBound(data, id);
      }
    }

    static lemma HitIsBound(stack: seq<Domain>, id: VarId)
      requires forall i :: 0 <= i < |stack| ==> stack[i].Coherent(id)
      ensures Hit(stack, id) ==> Innermost(stack, id.name) <= id.domainId
    {
      if Hit(stack, id) {
        assert stack[id.domainId].Coherent(id);
      }
    }

    method Search(id: VarId, ghost innermost: nat, ghost place: nat) returns (found: bool, at: nat, slot: nat)
      requires forall i :: 0 <= i < |fiber| ==> fiber[i].Valid() && fiber[i].Coherent(id)
      requires forall i :: 0 <= i < |data| ==> data[i].Valid() && data[i].Coherent(id)
      requires innermost == Innermost(Scope(), id.name) && place == Place(id)
      modifies id
      ensures found <==> innermost < |Scope()|
      ensures found ==> at == place < |Scope()| && Scope()[at].Cached(id) && slot == id.slotId
      ensures found && !inFiber ==> at == id.domainId
      ensures !found ==> unchanged(id)
    {
      if inFiber {
        found, at, slot := SearchBoth(id, innermost, place);
      } else {
        found, at, slot := LookIn(data, id, innermost, place);
      }
    }

    /** First the stack of the fiber, then the main one. */
    method SearchBoth(id: VarId, ghost innermost: nat, ghost place: nat) returns (found: bool, at: nat, slot: nat)
      requires forall i :: 0 <= i < |fiber| ==> fiber[i].Valid() && fiber[i].Coherent(id)
      requires forall i :: 0 <= i < |data| ==> data[i].Valid() && data[i].Coherent(id)
      requires inFiber && innermost == Innermost(fiber + data, id.name) && place == Place(id)
      modifies id
      ensures found <==> innermost < |fiber| + |data|
      ensures found ==> at == place < |fiber| + |data| && (fiber + data)[at].Cached(id) && slot == id.slotId
      ensures !found ==> unchanged(id)
    {
      ghost var inFiberStack, inData := Innermost(fiber, id.name), Innermost(data, id.name);
      ghost var placeInData := InStack(data, id);
      ScanSplit(fiber, data, id.name);
      found, at, slot := LookIn(fiber, id, inFiberStack, InStack(fiber, id));
      if !found {
        found, at, slot := LookIn(data, id, inData, placeInData);
        at := |fiber| + at;
      }
    }

    /** A cache that points at one of the domains is coherent with all of them. */
    static lemma CachedIsSound(domains: set<Domain>, ids: set<VarId>, d: Domain, id: VarId)
      requires Sound(domains, ids - {id}) && d in domains && d.Cached(id)
      ensures Sound(domains, ids)
    {
    }

    method Look(id: VarId, ghost innermost: nat, ghost place: nat) returns (found: bool, at: nat, slot: nat)
      requires Valid() && id in ids && innermost == Innermost(Scope(), id.name) && place == Place(id)
      modifies id
      ensures Valid() && (found <==> innermost < |Scope()|)
      ensures found ==> at == place < |Scope()| && Scope()[at].Cached(id) && slot == id.slotId
      ensures found && !inFiber ==> at == id.domainId
      ensures !found ==> unchanged(id)
    {
      assert Sound(live, ids - {id});
      found, at, slot := Search(id, innermost, place);
      if found {
        CachedIsSound(live, ids, Scope()[at], id);
      }
    }

    /** Lookup by identifier: succeeds exactly when the name is bound somewhere in the scope, gives a cell
        of that name, and gives the cell of the innermost-first scan exactly when the cache skips none. */
    method GetVarById(id: VarId) returns (found: bool, at: nat, slot: nat)
      requires Valid() && id in ids
      modifies id
      ensures Valid()
      ensures found <==> Innermost(Scope(), id.name) < |Scope()|
      ensures found ==> at < |Scope()| && Scope()[at].Cached(id) && slot == id.slotId
      ensures found && !inFiber ==> at == id.domainId
      ensures found ==> (at == Innermost(Scope(), id.name) <==> !old(Skips(id)))
      ensures !found ==> unchanged(id)
    {
      PlaceIsInnermost(id);
      ghost var scope, innermost := Scope(), Innermost(Scope(), id.name);
      found, at, slot := Look(id, innermost, Place(id));
      assert Innermost(scope, id.name) == innermost;
    }

    // ----- scopes -----

    /** `a` holds now what `b` held before. */
    static twostate predicate Took(new a: Domain, b: Domain)
      reads a
    {
      a.reflect == old(b.reflect) && a.slots == old(b.slots) && a.names == old(b.names)
    }

    static method MoveAll(stack: seq<Domain>) returns (moved: seq<Domain>)
      requires forall i :: 0 <= i < |stack| ==> stack[i].Valid()
      requires forall i, j :: 0 <= i < j < |stack| ==> stack[i] != stack[j]
      modifies stack
      ensures |moved| == |stack|
      ensures forall k :: 0 <= k < |stack| ==> fresh(moved[k]) && fresh(moved[k].ref) && moved[k].Valid()
      ensures forall k :: 0 <= k < |stack| ==> Took(moved[k], stack[k])
      ensures forall i, j :: 0 <= i < j < |stack| ==> moved[i] != moved[j] && moved[i].ref != moved[j].ref
    {
      moved := [];
      for i := 0 to |stack|
        invariant |moved| == i
        invariant forall k :: 0 <= k < i ==> fresh(moved[k]) && fresh(moved[k].ref) && moved[k].Valid()
        invariant forall k :: 0 <= k < i ==> Took(moved[k], stack[k])
        invariant forall k, j :: 0 <= k < j < i ==> moved[k] != moved[j] && moved[k].ref != moved[j].ref
        invariant forall k :: i <= k < |stack| ==> unchanged(stack[k])
      {
        var d := new Domain.Move(stack[i]);
        moved := moved + [d];
      }
    }

    /** Every domain of the stack moves out; what is left behind is dead. */
    method MoveOut() returns (moved: seq<Domain>)
      requires Valid()
      modifies this`live, Stack()
      ensures live == old(live) - set d | d in Stack()
      ensures Sound(live, ids) && Newborn(moved) && |moved| == |Stack()| && aside <= live
      ensures forall k :: 0 <= k < |moved| ==> fresh(moved[k]) && Took(moved[k], Stack()[k])
    {
      var stack := Stack();
      SoundWithout(live, ids, set d | d in stack);
      live := live - set d | d in stack;
      moved := MoveAll(stack);
      assert Sound(live, ids);
    }

    /** The block that holds the stack is replaced by a larger one. */
    method Reallocate()
      requires Valid()
      modifies this`data, this`fiber, this`live, Stack()
      ensures Valid() && fresh(live - old(live))
      ensures |Stack()| == |old(Stack())|
      ensures forall k :: 0 <= k < |Stack()| ==> Took(Stack()[k], old(Stack())[k])
      ensures if inFiber then data == old(data) else fiber == old(fiber)
    {
      var moved := MoveOut();
      NewbornIsSound(moved);
      Install(moved, inFiber);
    }

    /** One of the stacks is replaced by new domains. */
    method Install(stack: seq<Domain>, onFiber: bool)
      requires Newborn(stack) && Sound(live + (set d | d in stack), ids)
      requires aside <= live && forall d :: d in (if onFiber then data else fiber) ==> d in live && d !in aside
      requires forall i, j :: 0 <= i < j < |data| ==> data[i] != data[j]
      requires forall i, j :: 0 <= i < j < |fiber| ==> fiber[i] != fiber[j]
      modifies this`data, this`fiber, this`live
      ensures Valid() && live == old(live) + set d | d in stack
      ensures if onFiber then fiber == stack && data == old(data) else data == stack && fiber == old(fiber)
    {
      live := live + set d | d in stack;
      if onFiber {
        fiber := stack;
      } else {
        data := stack;
      }
    }

    /** A domain goes on top of the stack in use. */
    method PutOnTop(d: Domain)
      requires Stacked() && d !in live && Sound(live + {d}, ids)
      modifies this`data, this`fiber, this`live
      ensures Valid() && live == old(live) + {d} && Stack() == [d] + old(Stack())
      ensures if inFiber then data == old(data) else fiber == old(fiber)
    {
      if inFiber {
        fiber := [d] + fiber;
      } else {
        data := [d] + data;
      }
      live := live + {d};
    }

    /** The innermost domain leaves the stack in use. */
    method TakeFromTop()
      requires Stacked() && Stack() != [] && Sound(live - {Top()}, ids)
      modifies this`data, this`fiber, this`live
      ensures Valid() && live == old(live - {Top()}) && Stack() == old(Stack()[1..])
      ensures if inFiber then data == old(data) else fiber == old(fiber)
    {
      live := live - {Top()};
      if inFiber {
        fiber := fiber[1..];
      } else {
        data := data[1..];
      }
    }

    method Push()
      requires Valid()
      modifies this`data, this`fiber, this`live
      ensures Valid() && |Stack()| > 0 && fresh(Top()) && fresh(Top().ref) && Top().reflect == map[] && !Top().optimize
      ensures live == old(live) + {Top()} && Stack() == [Top()] + old(Stack())
      ensures if inFiber then data == old(data) else fiber == old(fiber)
    {
      var d := new Domain();
      assert live + {d} - {d} == live;
      Rejoin(live + {d}, ids, d);
      PutOnTop(d);
    }

    /** Enters a scope. When the block of the stack is full, every domain of it moves to a new place. */
    method AddDomain(full: bool)
      requires Valid()
      modifies this`data, this`fiber, this`live, Stack()
      ensures Valid() && fresh(live - old(live))
      ensures |Stack()| == |old(Stack())| + 1 && Top().reflect == map[] && fresh(Top().ref)
      ensures forall k :: 0 <= k < |old(Stack())| ==>
        if full then Took(Stack()[k + 1], old(Stack())[k])
        else Stack()[k + 1] == old(Stack())[k] && unchanged(old(Stack())[k])
      ensures if inFiber then data == old(data) else fiber == old(fiber)
    {
      if full {
        Reallocate();
      }
      ghost var below := Stack();
      Push();
      forall k | 0 <= k < |below|
        ensures Stack()[k + 1] == below[k]
      {
      }
    }

    /** Leaves a scope. */
    method RemoveDomain()
      requires Valid() && Stack() != []
      modifies this, Top()
      ensures Valid() && ids == old(ids) && inFiber == old(inFiber) && sets == old(sets)
      ensures live == old(live - {Top()}) && aside == old(aside)
      ensures Stack() == old(Stack()[1..])
      ensures if inFiber then data == old(data) else fiber == old(fiber)
    {
      SoundWithout(live, ids, {Top()});
      Top().Clear();
      TakeFromTop();
    }

    method ClearDomain()
      requires Valid() && Stack() != []
      modifies Top()
      ensures Valid() && Top().reflect == map[] && fresh(Top().ref)
    {
      Top().Clear();
    }

    method NextDomain()
      requires Valid() && Stack() != []
      modifies Top()
      ensures Valid() && Top().optimize && Top().ref == old(Top().ref) && Top().Bindings() == old(Top().Bindings())
    {
      Top().Next();
    }

    method ClearGlobal()
      requires Valid() && data != []
      modifies Bottom()
      ensures Valid() && Bottom().reflect == map[] && fresh(Bottom().ref)
    {
      Bottom().SafeRewind();
    }

    /** The running fiber changes, and with it the stack that scopes are pushed on. */
    method SwitchStack(active: bool, stack: seq<Domain>) returns (was: seq<Domain>)
      requires Valid()
      requires forall i :: 0 <= i < |stack| ==> stack[i] in aside || stack[i] in fiber
      requires forall i, j :: 0 <= i < j < |stack| ==> stack[i] != stack[j]
      modifies this`fiber, this`inFiber, this`aside
      ensures Valid() && fiber == stack && inFiber == active && was == old(fiber)
      ensures aside == old(aside) + (set d | d in was) - set d | d in stack
    {
      was := fiber;
      aside := aside + (set d | d in fiber) - set d | d in stack;
      fiber, inFiber := stack, active;
    }

    // ----- definitions -----

    static lemma Rejoin(domains: set<Domain>, ids: set<VarId>, d: Domain)
      requires Sound(domains - {d}, ids) && d.Valid()
      requires forall e :: e in domains && e != d ==> e.ref != d.ref
      requires forall id :: id in ids ==> d.Coherent(id)
      ensures Sound(domains, ids)
    {
    }

    /** Defines a name in the innermost scope; refused when it is bound there and may not be rebound. */
    method AddVar(name: string, val: Value, replace: bool) returns (ok: bool)
      requires Valid() && Stack() != []
      modifies Top()
      ensures Valid() && Top().ref == old(Top().ref) && Top().optimize == old(Top().optimize)
      ensures ok == !old(Top().RefusesName(name, replace))
      ensures Top().Bindings() == if ok then old(Top().Bindings())[name := val] else old(Top().Bindings())
    {
      ghost var top := Top();
      assert Sound(live - {top}, ids);
      ok := Top().AddVarOptimal(name, val, replace);
      Rejoin(live, ids, top);
    }

    method AddVarById(id: VarId, val: Value, replace: bool) returns (ok: bool)
      requires Valid() && Stack() != [] && id in ids
      modifies Top(), id`slotId, id`ref
      ensures Valid() && Top().ref == old(Top().ref) && Top().optimize == old(Top().optimize)
      ensures ok == !old(Top().RefusesId(id, replace)) && Top().Cached(id)
      ensures Top().Bindings() == if ok then old(Top().Bindings())[id.name := val] else old(Top().Bindings())
    {
      var top := Top();
      assert top.Coherent(id);
      ok := top.AddVarOptimalById(id, val, replace);
      CachedIsSound(live, ids, top, id);
    }

    method AddVarGlobal(name: string, val: Value) returns (ok: bool)
      requires Valid() && data != []
      modifies Bottom()
      ensures Valid() && Bottom().ref == old(Bottom().ref) && Bottom().optimize == old(Bottom().optimize)
      ensures ok == (name !in old(Bottom().reflect))
      ensures Bottom().Bindings() ==
              if ok then old(Bottom().Bindings())[name := val] else old(Bottom().Bindings())
    {
      if Bottom().Exists(name) {
        return false;
      }
      ghost var bottom := Bottom();
      assert Sound(live - {bottom}, ids);
      Bottom().AddVar(name, val);
      Rejoin(live, ids, bottom);
      return true;
    }

    // ----- records of declared names -----

    method AddSet()
      modifies this`sets
      ensures sets == [{}] + old(sets)
    {
      sets := [{}] + sets;
    }

    method RemoveSet()
      requires sets != []
      modifies this`sets
      ensures sets == old(sets)[1..]
    {
      sets := sets[1..];
    }

    predicate ExistRecord(name: string)
      reads this
    {
      sets != [] && name in sets[0]
    }

    /** Declares a name once per scope. */
    method AddRecord(name: string) returns (ok: bool)
      requires sets != []
      modifies this`sets
      ensures ok == !old(ExistRecord(name))
      ensures sets == if ok then [old(sets)[0] + {name}] + old(sets)[1..] else old(sets)
      ensures ExistRecord(name)
    {
      if ExistRecord(name) {
        return false;
      }
      sets := [sets[0] + {name}] + sets[1..];
      return true;
    }

    // ----- snapshots -----

    /** Two stacks hold the same tables, in opposite order. */
    static ghost predicate Mirrors(a: seq<Domain>, b: seq<Domain>)
      reads a, b
    {
      && |a| == |b|
      && forall i, j {:trigger a[i], b[j]} :: 0 <= i < |a| && 0 <= j < |b| && i + j == |a| - 1 ==> SameTable(a[i], b[j])
    }

    /** The snapshot holds the tables and the record sets of now, outermost first. */
    ghost predicate IsIn(snap: Snapshot)
      reads this, data, snap.domains
    {
      && Mirrors(snap.domains, data)
      && snap.sets == OutermostFirst(sets)
    }

    /** Copies the domain stack, innermost first, then turns it round in place; the record sets likewise. */
    method CreateSnapshot() returns (snap: Snapshot)
      requires Valid()
      ensures snap.Valid() && fresh(snap.domains) && IsIn(snap)
      ensures forall k, id :: 0 <= k < |snap.domains| && id in ids ==> id.ref != snap.domains[k].ref
    {
      var domains := TurnedCopies(data);
      snap := Snapshot(domains, OutermostFirst(sets));
    }

    static function OutermostFirst(sets: seq<set<string>>): (r: seq<set<string>>)
      ensures |r| == |sets|
      ensures forall i, j {:trigger r[i], sets[j]} :: 0 <= i < |r| && 0 <= j < |sets| && i + j == |r| - 1 ==>
        r[i] == sets[j]
    {
      if sets == [] then [] else OutermostFirst(sets[1..]) + [sets[0]]
    }

    static lemma TurnedTwice(sets: seq<set<string>>)
      ensures OutermostFirst(OutermostFirst(sets)) == sets
    {
      var turned := OutermostFirst(sets);
      forall k | 0 <= k < |sets|
        ensures OutermostFirst(turned)[k] == sets[k]
      {
        assert OutermostFirst(turned)[k] == turned[|sets| - 1 - k];
      }
    }

    static method TurnedCopies(stack: seq<Domain>) returns (copies: seq<Domain>)
      requires forall k :: 0 <= k < |stack| ==> stack[k].Valid()
      ensures Mirrors(copies, stack)
      ensures forall k :: 0 <= k < |copies| ==> fresh(copies[k]) && fresh(copies[k].ref) && copies[k].Valid()
      ensures forall i, j :: 0 <= i < j < |copies| ==> copies[i] != copies[j]
    {
      ghost var tables;
      copies, tables := CopyAll(stack);
      Reverse(copies, tables);
    }

    static method CopyAll(stack: seq<Domain>) returns (copies: seq<Domain>, ghost tables: seq<Table>)
      requires forall k :: 0 <= k < |stack| ==> stack[k].Valid()
      ensures |copies| == |tables| == |stack| && Separate(copies)
      ensures forall k :: 0 <= k < |stack| ==> fresh(copies[k]) && fresh(copies[k].ref)
      ensures forall k :: 0 <= k < |stack| ==> copies[k].Holds() == tables[k] == stack[k].Holds()
    {
      copies, tables := [], [];
      for i := 0 to |stack|
        invariant |copies| == |tables| == i && Separate(copies)
        invariant forall k :: 0 <= k < i ==> fresh(copies[k]) && fresh(copies[k].ref)
        invariant forall k :: 0 <= k < i ==> copies[k].Holds() == tables[k] == stack[k].Holds()
      {
        var d := new Domain.Copy(stack[i]);
        copies, tables := copies + [d], tables + [d.Holds()];
      }
    }

    static predicate SameTable(a: Domain, b: Domain)
      reads a, b
    {
      a.reflect == b.reflect && a.slots == b.slots
    }

    /** Two domains exchange their tables by one move and two move assignments. */
    static method Swap(a: Domain, b: Domain)
      requires a != b && a.Valid() && b.Valid()
      modifies a, b
      ensures a.Valid() && b.Valid() && a.ref == old(a.ref) && b.ref == old(b.ref)
      ensures a.Holds() == old(b.Holds()) && b.Holds() == old(a.Holds())
    {
      var temp := new Domain.Move(a);
      a.MoveAssign(b);
      b.MoveAssign(temp);
    }

    /** Where the table at k comes from after the first i exchanges. */
    static ghost function Source(k: nat, n: nat, i: nat): nat
      requires k < n
    {
      if i <= k < n - i then k else n - 1 - k
    }

    /** The domains hold the tables of `was`, the first i and the last i of them exchanged. */
    static ghost predicate Turned(ds: seq<Domain>, was: seq<Table>, i: nat)
      reads ds
    {
      && |was| == |ds|
      && forall k :: 0 <= k < |ds| ==> ds[k].Holds() == was[Source(k, |ds|, i)]
    }

    static ghost predicate Separate(ds: seq<Domain>)
      reads ds
    {
      && (forall k :: 0 <= k < |ds| ==> ds[k].Valid())
      && (forall i, j :: 0 <= i < j < |ds| ==> ds[i] != ds[j])
    }

    static method Exchange(ds: seq<Domain>, i: nat, ghost was: seq<Table>)
      requires Separate(ds) && i < |ds| / 2 && Turned(ds, was, i)
      modifies ds[i], ds[|ds| - 1 - i]
      ensures Separate(ds) && Turned(ds, was, i + 1)
      ensures forall k :: 0 <= k < |ds| ==> ds[k].ref == old(ds[k].ref)
    {
      var n := |ds|;
      Swap(ds[i], ds[n - 1 - i]);
      forall k | 0 <= k < n
        ensures ds[k].Holds() == was[Source(k, n, i + 1)]
      {
        if k != i && k != n - 1 - i {
          assert unchanged(ds[k]) && Source(k, n, i + 1) == Source(k, n, i);
        }
      }
    }

    /** After half the exchanges every table has changed places. */
    static lemma TurnedRound(ds: seq<Domain>, was: seq<Table>, i: nat, j: nat)
      requires Turned(ds, was, |ds| / 2) && i + j == |ds| - 1
      ensures ds[i].Holds() == was[j]
    {
      assert Source(i, |ds|, |ds| / 2) == j;
    }

    /** Turns the stack round in place: the tables, given by `was`, move, and the identities stay. */
    static method Reverse(ds: seq<Domain>, ghost was: seq<Table>)
      requires Separate(ds) && |was| == |ds| && forall k :: 0 <= k < |ds| ==> ds[k].Holds() == was[k]
      modifies ds
      ensures Separate(ds) && forall k :: 0 <= k < |ds| ==> ds[k].ref == old(ds[k].ref)
      ensures forall i, j {:trigger ds[i], was[j]} :: 0 <= i < |ds| && 0 <= j < |was| && i + j == |ds| - 1 ==>
        ds[i].Holds() == was[j]
    {
      var n, i := |ds|, 0;
      while i < n / 2
        invariant 0 <= i <= n / 2
        invariant Separate(ds) && Turned(ds, was, i)
        invariant forall k :: 0 <= k < n ==> ds[k].ref == old(ds[k].ref)
      {
        Exchange(ds, i, was);
        i := i + 1;
      }
      forall i, j {:trigger ds[i], was[j]} | 0 <= i < |ds| && 0 <= j < |was| && i + j == |ds| - 1
        ensures ds[i].Holds() == was[j]
      {
        TurnedRound(ds, was, i, j);
      }
    }

    /** Pushes copies of the recorded domains, outermost first. */
    static method PushCopies(domains: seq<Domain>) returns (stack: seq<Domain>)
      requires forall k :: 0 <= k < |domains| ==> domains[k].Valid()
      ensures Mirrors(stack, domains)
      ensures forall k :: 0 <= k < |stack| ==> fresh(stack[k]) && fresh(stack[k].ref) && stack[k].Valid()
      ensures forall i, j :: 0 <= i < j < |stack| ==> stack[i] != stack[j] && stack[i].ref != stack[j].ref
    {
      stack := [];
      for n := 0 to |domains|
        invariant |stack| == n
        invariant forall k :: 0 <= k < n ==> fresh(stack[k]) && fresh(stack[k].ref) && stack[k].Valid()
        invariant forall i, j {:trigger stack[i], domains[j]} :: 0 <= i < n && 0 <= j < n && i + j == n - 1 ==>
          SameTable(stack[i], domains[j])
        invariant forall i, j :: 0 <= i < j < n ==> stack[i] != stack[j] && stack[i].ref != stack[j].ref
      {
        var d := new Domain.Copy(domains[n]);
        stack := [d] + stack;
      }
    }

    method MakeCopies(domains: seq<Domain>) returns (copies: seq<Domain>)
      requires forall k :: 0 <= k < |domains| ==> domains[k].Valid()
      ensures Newborn(copies) && fresh(copies) && Mirrors(copies, domains)
    {
      copies := PushCopies(domains);
    }

    /** Every domain of the main stack is destroyed. */
    method PopAll()
      requires Valid()
      modifies this`live
      ensures live <= old(live) && Sound(live, ids) && aside <= live
      ensures forall k :: 0 <= k < |fiber| ==> fiber[k] in live
    {
      SoundWithout(live, ids, set d | d in data);
      live := live - set d | d in data;
    }

    /** The main stack is gone and copies stand ready in its place. */
    method PopAndCopy(domains: seq<Domain>) returns (copies: seq<Domain>)
      requires Valid() && forall k :: 0 <= k < |domains| ==> domains[k].Valid()
      modifies this`live
      ensures live <= old(live) && aside <= live && forall k :: 0 <= k < |fiber| ==> fiber[k] in live
      ensures Newborn(copies) && Sound(live + (set d | d in copies), ids)
      ensures fresh(copies) && Mirrors(copies, domains)
    {
      PopAll();
      copies := MakeCopies(domains);
      NewbornIsSound(copies);
    }

    method RestoreDomains(domains: seq<Domain>)
      requires Valid() && forall k :: 0 <= k < |domains| ==> domains[k].Valid()
      modifies this`data, this`fiber, this`live
      ensures Valid() && fresh(live - old(live)) && fiber == old(fiber) && Mirrors(data, domains)
      ensures forall k, id :: 0 <= k < |data| && id in ids ==> id.ref != data[k].ref
    {
      var copies := PopAndCopy(domains);
      Install(copies, false);
    }

    /** Puts copies of the recorded domains and record sets in the place of the present ones. No cache made
        before matches any of them. */
    method RestoreSnapshot(snap: Snapshot)
      requires Valid() && snap.Valid()
      modifies this`data, this`fiber, this`live, this`sets
      ensures Valid() && fresh(live - old(live)) && fiber == old(fiber) && Mirrors(data, snap.domains)
      ensures forall k, id :: 0 <= k < |data| && id in ids ==> id.ref != data[k].ref
      ensures sets == OutermostFirst(snap.sets)
    {
      RestoreDomains(snap.domains);
      sets := OutermostFirst(snap.sets);
    }
  }

  /** Recorded domains and record sets, outermost first. */
  datatype Snapshot = Snapshot(domains: seq<Domain>, sets: seq<set<string>>) {
    ghost predicate Valid()
      reads domains
    {
      && (forall k :: 0 <= k < |domains| ==> domains[k].Valid())
      && (forall i, j :: 0 <= i < j < |domains| ==> domains[i] != domains[j])
    }
  }
}
