/**
 Variable storage: a `domain_type` maps names to slots, and a `var_id` caches where its name was last
 found. A cached slot is trusted as long as the identity object of the domain is the cached one.
 */
module Storage {
  import opened Values

  /** Identity of a domain's table; a new one is made whenever the table is thrown away. */
  class DomainRef {
    constructor () { }
  }

  /** A name in the program text with its cache. */
  class VarId {
    const name: string
    var domainId: nat
    var slotId: nat
    var ref: DomainRef?

    constructor (name: string)
      ensures this.name == name && ref == null
    {
      this.name := name;
      domainId, slotId, ref := 0, 0, null;
    }
  }

  /** The name table of a domain, its slots, and the names of the slots. */
  type Table = (map<string, nat>, seq<Value>, seq<string>)

  class Domain {
    var reflect: map<string, nat>
    var ref: DomainRef
    var slots: seq<Value>
    var optimize: bool
    /** The inverse of `reflect`. */
    ghost var names: seq<string>

    /** The name table is a bijection onto the slot indices. */
    ghost predicate Valid()
      reads this
    {
      && |names| == |slots|
      && (forall k :: 0 <= k < |names| ==> names[k] in reflect && reflect[names[k]] == k)
      && (forall n :: n in reflect ==> reflect[n] < |names| && names[reflect[n]] == n)
    }

    /** What a move takes along. */
    ghost function Holds(): Table
      reads this
    {
      (reflect, slots, names)
    }

    /** What the names stand for. */
    ghost function Bindings(): map<string, Value>
      requires Valid()
      reads this
    {
      map n | n in reflect :: slots[reflect[n]]
    }

    /** The cache of `id` may be trusted. */
    ghost predicate Coherent(id: VarId)
      reads this, id
    {
      id.ref == ref ==> id.name in reflect && reflect[id.name] == id.slotId
    }

    /** `id` caches its name's place in this table. */
    ghost predicate Cached(id: VarId)
      reads this, id
    {
      id.ref == ref && id.name in reflect && reflect[id.name] == id.slotId
    }

    constructor ()
      ensures Valid() && reflect == map[] && slots == [] && !optimize && fresh(ref)
    {
      reflect, slots, optimize, names := map[], [], false, [];
      ref := new DomainRef();
    }

    /** Copies share bindings, not identity. */
    constructor Copy(domain: Domain)
      requires domain.Valid()
      ensures Valid() && fresh(ref)
      ensures reflect == domain.reflect && slots == domain.slots && optimize == domain.optimize && names == domain.names
    {
      reflect, slots, optimize, names := domain.reflect, domain.slots, domain.optimize, domain.names;
      ref := new DomainRef();
    }

    /** Moving takes the bindings, not the identity and not the `optimize` flag. */
    constructor Move(domain: Domain)
      requires domain.Valid()
      modifies domain
      ensures Valid() && fresh(ref) && !optimize
      ensures reflect == old(domain.reflect) && slots == old(domain.slots) && names == old(domain.names)
      ensures domain.Valid() && domain.reflect == map[] && domain.slots == [] && domain.ref == old(domain.ref)
      ensures domain.optimize == old(domain.optimize)
    {
      reflect, slots, optimize, names := domain.reflect, domain.slots, false, domain.names;
      ref := new DomainRef();
      new;
      domain.reflect, domain.slots, domain.names := map[], [], [];
    }

    /** Move assignment exchanges the tables and leaves both identities and both `optimize` flags where they
        are. */
    method MoveAssign(domain: Domain)
      requires Valid() && domain.Valid()
      modifies this, domain
      ensures Valid() && domain.Valid()
      ensures ref == old(ref) && domain.ref == old(domain.ref)
      ensures optimize == old(optimize) && domain.optimize == old(domain.optimize)
      ensures reflect == old(domain.reflect) && slots == old(domain.slots) && names == old(domain.names)
      ensures domain.reflect == old(reflect) && domain.slots == old(slots) && domain.names == old(names)
    {
      if this != domain {
        reflect, domain.reflect := domain.reflect, reflect;
        slots, domain.slots := domain.slots, slots;
        names, domain.names := domain.names, names;
      }
    }

    /** So a cache that points here survives the exchange exactly when the other table has its name in the
        same slot. */
    method MoveAssignUnderCache(domain: Domain, id: VarId)
      requires Valid() && domain.Valid() && Cached(id)
      modifies this, domain
      ensures Coherent(id) <==> id.name in old(domain.reflect) && old(domain.reflect)[id.name] == id.slotId
    {
      MoveAssign(domain);
    }

    /** Throws the bindings away; every cached id stops matching. */
    method Clear()
      modifies this
      ensures Valid() && reflect == map[] && slots == [] && !optimize && fresh(ref)
    {
      reflect := map[];
      ref := new DomainRef();
      slots := [];
      names := [];
      optimize := false;
    }

    /** Throws the slots away from the last one to the first; whatever runs in between sees a table that
        is still a bijection, with the identity already changed. */
    method SafeRewind()
      requires Valid()
      modifies this
      ensures Valid() && reflect == map[] && slots == [] && !optimize && fresh(ref)
    {
      ref := new DomainRef();
      var rev := ReverseIndex();
      while slots != []
        invariant Valid() && names <= rev && fresh(ref)
        decreases |slots|
      {
        PopSlot(rev);
      }
      optimize := false;
      NoSlotsNoNames();
    }

    /** The last slot goes and its name with it; what is left is still a bijection with the same cells. */
    method PopSlot(rev: seq<string>)
      requires Valid() && slots != [] && names <= rev
      modifies this`reflect, this`slots, this`names
      ensures Valid() && slots == old(slots)[..|old(slots)| - 1] && names == old(names)[..|old(names)| - 1]
      ensures Bindings() == old(Bindings()) - {rev[|old(slots)| - 1]}
    {
      var idx := |slots| - 1;
      reflect := reflect - {rev[idx]};
      slots := slots[..idx];
      names := names[..idx];
    }

    lemma NoSlotsNoNames()
      requires Valid() && slots == []
      ensures reflect == map[]
    {
      if reflect != map[] {
        var n :| n in reflect;
        assert false;
      }
    }

    /** Slot index to name, filled in the order the table is walked. */
    method ReverseIndex() returns (rev: seq<string>)
      requires Valid()
      ensures rev == names
    {
      rev := seq(|slots|, _ => "");
      var todo := reflect.Keys;
      while todo != {}
        invariant |rev| == |names| && todo <= reflect.Keys
        invariant forall n :: n in reflect && n !in todo ==> rev[reflect[n]] == n
      {
        var n :| n in todo;
        rev := rev[reflect[n] := n];
        todo := todo - {n};
      }
      assert forall k :: 0 <= k < |names| ==> rev[k] == rev[reflect[names[k]]];
    }

    method Next()
      modifies this`optimize
      ensures optimize
    {
      optimize := true;
    }

    predicate Exists(name: string)
      reads this
    {
      name in reflect
    }

    predicate Consistence(id: VarId)
      reads this, id
    {
      id.ref == ref
    }

    /** Binds or rebinds a name; the slots of the other names stay where they are. */
    method AddVar(name: string, val: Value)
      requires Valid()
      modifies this`reflect, this`slots, this`names
      ensures Valid() && Bindings() == old(Bindings())[name := val]
      ensures forall n :: n in old(reflect) ==> n in reflect && reflect[n] == old(reflect)[n]
      ensures names == if name in old(reflect) then old(names) else old(names) + [name]
    {
      if name !in reflect {
        slots := slots + [val];
        reflect := reflect[name := |slots| - 1];
        names := names + [name];
      } else {
        slots := slots[reflect[name] := val];
      }
    }

    /** The same by identifier: it writes the cell its name stands for, and the cache then points there. */
    method AddVarById(id: VarId, val: Value)
      requires Valid() && Coherent(id)
      modifies this`reflect, this`slots, this`names, id`slotId, id`ref
      ensures Valid() && Bindings() == old(Bindings())[id.name := val]
      ensures forall n :: n in old(reflect) ==> n in reflect && reflect[n] == old(reflect)[n]
      ensures names == if id.name in old(reflect) then old(names) else old(names) + [id.name]
      ensures Cached(id)
    {
      if id.name !in reflect {
        slots := slots + [val];
        reflect := reflect[id.name := |slots| - 1];
        names := names + [id.name];
        id.slotId := |slots| - 1;
        id.ref := ref;
      } else {
        if id.ref != ref {
          id.slotId := reflect[id.name];
          id.ref := ref;
        }
        slots := slots[id.slotId := val];
      }
    }

    /** A definition by name is refused when the name is bound, unless rebinding is allowed. */
    predicate RefusesName(name: string, replace: bool)
      reads this
    {
      name in reflect && !optimize && !replace
    }

    /** A definition by identifier looks at the cache only. */
    predicate RefusesId(id: VarId, replace: bool)
      reads this, id
    {
      id.ref == ref && !optimize && !replace
    }

    /** The two refusals differ exactly on a bound name whose identifier is not cached here. */
    lemma RefusalsDiffer(id: VarId, replace: bool)
      requires Coherent(id)
      ensures RefusesId(id, replace) <==> RefusesName(id.name, replace) && id.ref == ref
    {
    }

    method AddVarOptimal(name: string, val: Value, replace: bool) returns (ok: bool)
      requires Valid()
      modifies this`reflect, this`slots, this`names
      ensures Valid() && ok == !old(RefusesName(name, replace))
      ensures Bindings() == if ok then old(Bindings())[name := val] else old(Bindings())
      ensures forall n :: n in old(reflect) ==> n in reflect && reflect[n] == old(reflect)[n]
      ensures names == if name in old(reflect) then old(names) else old(names) + [name]
    {
      if name in reflect {
        if optimize {
          slots := slots[reflect[name] := val];
          return true;
        } else if replace {
          slots := slots[reflect[name] := val];
          return true;
        } else {
          return false;
        }
      } else {
        slots := slots + [val];
        reflect := reflect[name := |slots| - 1];
        names := names + [name];
        return true;
      }
    }

    method AddVarOptimalById(id: VarId, val: Value, replace: bool) returns (ok: bool)
      requires Valid() && Coherent(id)
      modifies this`reflect, this`slots, this`names, id`slotId, id`ref
      ensures Valid() && ok == !old(RefusesId(id, replace))
      ensures Bindings() == if ok then old(Bindings())[id.name := val] else old(Bindings())
      ensures forall n :: n in old(reflect) ==> n in reflect && reflect[n] == old(reflect)[n]
      ensures names == if id.name in old(reflect) then old(names) else old(names) + [id.name]
      ensures Cached(id)
    {
      if id.ref == ref {
        if optimize {
          slots := slots[id.slotId := val];
          return true;
        } else if replace {
          AddVarById(id, val);
          return true;
        } else {
          return false;
        }
      } else {
        AddVarById(id, val);
        return true;
      }
    }

    /** Lookup after the name was seen here; remembers the place in the stack as well. */
    method GetVarNoCheck(id: VarId, domainId: nat) returns (slot: nat)
      requires Valid() && Coherent(id) && id.name in reflect
      modifies id
      ensures Cached(id) && id.domainId == domainId && slot == reflect[id.name]
    {
      id.domainId := domainId;
      if id.ref != ref {
        id.slotId := reflect[id.name];
        id.ref := ref;
      }
      return id.slotId;
    }

    /** Reads by identifier; `None` is the source's "use of undefined variable" and leaves the cache alone. */
    method GetVarById(id: VarId) returns (found: bool, value: Value)
      requires Valid() && Coherent(id)
      modifies id`slotId, id`ref
      ensures found == (id.name in reflect)
      ensures if found then value == Bindings()[id.name] && Cached(id)
              else id.ref == old(id.ref) && id.slotId == old(id.slotId)
    {
      if id.ref != ref {
        if id.name !in reflect {
          return false, Unset;
        }
        id.slotId := reflect[id.name];
        id.ref := ref;
      }
      return true, slots[id.slotId];
    }
  }
}
