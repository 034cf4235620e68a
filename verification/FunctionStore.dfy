/**
 The store of compiled functions: indices are handed out to tokens and must stay good while nested
 transactions add, commit and roll back.
 */
module FunctionStore {
  import opened Options

  /** A slot: the function it owns and, for a lambda, the callable tokens ask for. Rolling back empties it. */
  datatype Entry = Entry(func: Option<nat>, callable: Option<nat>)

  const EMPTY := Entry(None, None)

  /** Slots and, outermost first, the indices each open transaction added. */
  datatype Store = Store(entries: seq<Entry>, transactions: seq<seq<nat>>) {

    predicate Live(i: nat) {
      i < |entries| && entries[i] != EMPTY
    }

    predicate Owned(i: nat) {
      exists t :: 0 <= t < |transactions| && i in transactions[t]
    }

    /** No open transaction can take the slot away any more. */
    predicate Committed(i: nat) {
      Live(i) && !Owned(i)
    }

    /** Open transactions own live slots, no slot twice. */
    ghost predicate Valid() {
      && (forall t, k :: 0 <= t < |transactions| && 0 <= k < |transactions[t]| ==> Live(transactions[t][k]))
      && (forall t, k, l :: 0 <= t < |transactions| && 0 <= k < l < |transactions[t]| ==>
            transactions[t][k] != transactions[t][l])
      && (forall t, u, k, l ::
            0 <= t < u < |transactions| && 0 <= k < |transactions[t]| && 0 <= l < |transactions[u]| ==>
            transactions[t][k] != transactions[u][l])
    }
  }

  // ----- operations on values -----

  datatype Op = Begin | Add(entry: Entry) | Commit | Rollback

  /** Registered functions are never null. */
  predicate Possible(op: Op) {
    op.Add? ==> op.entry.func.Some?
  }

  function Emptied(entries: seq<Entry>, indices: seq<nat>): (r: seq<Entry>)
    ensures |r| == |entries|
  {
    seq(|entries|, i requires 0 <= i < |entries| => if i in indices then EMPTY else entries[i])
  }

  function Trimmed(entries: seq<Entry>): (r: seq<Entry>)
    ensures r <= entries
    ensures r != [] ==> r[|r| - 1] != EMPTY
    ensures forall i :: |r| <= i < |entries| ==> entries[i] == EMPTY
  {
    if entries == [] || entries[|entries| - 1] != EMPTY then entries
    else Trimmed(entries[..|entries| - 1])
  }

  function Step(s: Store, op: Op): Store {
    var n := |s.transactions|;
    match op
    case Begin => s.(transactions := s.transactions + [[]])
    case Add(e) =>
      Store(s.entries + [e],
            if n == 0 then s.transactions
            else s.transactions[n - 1 := s.transactions[n - 1] + [|s.entries|]])
    case Commit => if n == 0 then s else s.(transactions := s.transactions[..n - 1])
    case Rollback =>
      if n == 0 then s
      else Store(Trimmed(Emptied(s.entries, s.transactions[n - 1])), s.transactions[..n - 1])
  }

  function Run(s: Store, ops: seq<Op>): Store
    decreases |ops|
  {
    if ops == [] then s else Run(Step(s, ops[0]), ops[1..])
  }

  // ----- one step -----

  lemma StepKeepsValid(s: Store, op: Op)
    requires s.Valid() && Possible(op)
    ensures Step(s, op).Valid()
  {
    var n, r := |s.transactions|, Step(s, op);
    if op.Add? && n > 0 {
      forall t, k | 0 <= t < n && 0 <= k < |r.transactions[t]| ensures r.Live(r.transactions[t][k]) {
        if k < |s.transactions[t]| {
          assert s.Live(s.transactions[t][k]);
        }
      }
    } else if op.Rollback? && n > 0 {
      forall t, k | 0 <= t < n - 1 && 0 <= k < |r.transactions[t]| ensures r.Live(r.transactions[t][k]) {
        RollbackIsExact(s, s.transactions[t][k]);
      }
    }
  }

  /** Rolling back empties exactly the slots of the innermost transaction and reclaims no live one. */
  lemma RollbackIsExact(s: Store, i: nat)
    requires s.Valid() && s.transactions != []
    ensures Step(s, Rollback).Live(i) <==> s.Live(i) && i !in s.transactions[|s.transactions| - 1]
    ensures Step(s, Rollback).Live(i) ==> Step(s, Rollback).entries[i] == s.entries[i]
  {
    var emptied := Emptied(s.entries, s.transactions[|s.transactions| - 1]);
    if i < |emptied| {
      assert i < |Trimmed(emptied)| || emptied[i] == EMPTY;
    }
  }

  /** A new index is one that no token can hold: its slot is not live. */
  lemma AddTakesAFreeIndex(s: Store, e: Entry)
    requires s.Valid()
    ensures !s.Live(|s.entries|) && !s.Owned(|s.entries|)
    ensures Step(s, Add(e)).entries[|s.entries|] == e
  {
    forall t, k | 0 <= t < |s.transactions| && 0 <= k < |s.transactions[t]| ensures s.transactions[t][k] < |s.entries| {
      assert s.Live(s.transactions[t][k]);
    }
  }

  // ----- any run -----

  lemma {:induction false} RunKeepsValid(s: Store, ops: seq<Op>)
    requires s.Valid() && forall op :: op in ops ==> Possible(op)
    ensures Run(s, ops).Valid()
    decreases |ops|
  {
    if ops != [] {
      StepKeepsValid(s, ops[0]);
      RunKeepsValid(Step(s, ops[0]), ops[1..]);
    }
  }

  lemma StepKeepsCommitted(s: Store, op: Op, i: nat)
    requires s.Valid() && Possible(op) && s.Committed(i)
    ensures Step(s, op).Committed(i) && Step(s, op).entries[i] == s.entries[i]
  {
    var n, r := |s.transactions|, Step(s, op);
    if op.Rollback? && n > 0 {
      RollbackIsExact(s, i);
    }
    forall t | 0 <= t < |r.transactions| ensures i !in r.transactions[t] {
      if t < n {
        assert i !in s.transactions[t];
      }
    }
  }

  /** A committed index keeps its entry for good, whatever encloses the transaction that added it. */
  lemma {:induction false} CommittedForever(s: Store, ops: seq<Op>, i: nat)
    requires s.Valid() && s.Committed(i) && forall op :: op in ops ==> Possible(op)
    ensures Run(s, ops).Committed(i) && Run(s, ops).entries[i] == s.entries[i]
    decreases |ops|
  {
    if ops != [] {
      StepKeepsCommitted(s, ops[0], i);
      StepKeepsValid(s, ops[0]);
      CommittedForever(Step(s, ops[0]), ops[1..], i);
    }
  }

  /** Committing makes every slot of the innermost transaction safe, even inside another one. */
  lemma CommitMakesCommitted(s: Store, i: nat)
    requires s.Valid() && s.transactions != [] && i in s.transactions[|s.transactions| - 1]
    ensures Step(s, Commit).Committed(i)
  {
    var n := |s.transactions|;
    var l :| 0 <= l < |s.transactions[n - 1]| && s.transactions[n - 1][l] == i;
    forall t, k | 0 <= t < n - 1 && 0 <= k < |s.transactions[t]| ensures s.transactions[t][k] != i {
      assert s.transactions[t][k] != s.transactions[n - 1][l];
    }
    assert s.Live(s.transactions[n - 1][l]);
  }

  // ----- a transaction around a run -----

  /** The run ends every transaction it begins and no other. */
  predicate Nested(ops: seq<Op>, depth: nat) {
    if ops == [] then depth == 0
    else if ops[0].Begin? then Nested(ops[1..], depth + 1)
    else if ops[0].Add? then Nested(ops[1..], depth)
    else depth > 0 && Nested(ops[1..], depth - 1)
  }

  /** Which of the transactions open in a run, outermost first, have added something of their own. */
  function AddedBy(added: seq<bool>, op: Op): seq<bool> {
    var n := |added|;
    if op.Begin? then added + [false]
    else if n == 0 then added
    else if op.Add? then added[n - 1 := true]
    else added[..n - 1]
  }

  /** Every commit of the run closes a transaction that has added nothing of its own. */
  predicate EmptyCommits(ops: seq<Op>, added: seq<bool>)
    decreases |ops|
  {
    ops == [] || (
      && (ops[0].Commit? && added != [] ==> !added[|added| - 1])
      && EmptyCommits(ops[1..], AddedBy(added, ops[0]))
    )
  }

  /** `added` says so of the transactions begun after `s`. */
  predicate Tracks(s: Store, now: Store, added: seq<bool>) {
    && |now.transactions| == |s.transactions| + |added|
    && (forall t :: 0 <= t < |added| ==> (added[t] <==> now.transactions[|s.transactions| + t] != []))
  }

  lemma StepTracks(s: Store, now: Store, added: seq<bool>, op: Op)
    requires Tracks(s, now, added) && added != []
    ensures Tracks(s, Step(now, op), AddedBy(added, op))
    ensures added[|added| - 1] <==> now.transactions[|now.transactions| - 1] != []
  {
  }

  lemma {:induction false} StaysOpen(ops: seq<Op>, added: seq<bool>)
    requires ops != [] && added != [] && Nested(ops, |added| - 1)
    ensures AddedBy(added, ops[0]) != [] && Nested(ops[1..], |AddedBy(added, ops[0])| - 1)
  {
    var n := |AddedBy(added, ops[0])|;
    assert n == if ops[0].Begin? then |added| + 1 else if ops[0].Add? then |added| else |added| - 1;
  }

  /** The first operation of a nested run keeps at least one transaction open. */
  lemma NestedStep(s: Store, now: Store, ops: seq<Op>, added: seq<bool>)
    requires ops != [] && added != [] && Nested(ops, |added| - 1) && Tracks(s, now, added)
    ensures AddedBy(added, ops[0]) != [] && Nested(ops[1..], |AddedBy(added, ops[0])| - 1)
    ensures |Step(now, ops[0]).transactions| > |s.transactions|
  {
    StepTracks(s, now, added, ops[0]);
    StaysOpen(ops, added);
  }

  /** While a transaction begun in `s` is open in `now`: what `s` had is untouched and owned by none of the
      later transactions, and unless some commit took slots along they own all that is new. */
  ghost predicate Inside(s: Store, now: Store, i: nat, committed: bool) {
    var b := |s.transactions|;
    && |now.transactions| > b && now.transactions[..b] == s.transactions
    && (s.Live(i) ==> now.Live(i) && now.entries[i] == s.entries[i])
    && (s.Live(i) ==> forall t :: b <= t < |now.transactions| ==> i !in now.transactions[t])
    && (now.Live(i) && !s.Live(i) && !committed ==> exists t :: b <= t < |now.transactions| && i in now.transactions[t])
  }

  lemma StepStaysInside(s: Store, now: Store, op: Op, i: nat, committed: bool)
    requires s.Valid() && now.Valid() && Possible(op) && Inside(s, now, i, committed)
    requires |Step(now, op).transactions| > |s.transactions|
    requires op.Commit? ==> committed || now.transactions[|now.transactions| - 1] == []
    ensures Inside(s, Step(now, op), i, committed)
  {
    var b, n, r := |s.transactions|, |now.transactions|, Step(now, op);
    AddTakesAFreeIndex(now, EMPTY);
    if op.Rollback? {
      RollbackIsExact(now, i);
    }
    assert r.transactions[..b] == s.transactions;
    if r.Live(i) && !s.Live(i) && !committed {
      NewIsOwned(s, now, op, i);
    }
  }

  /** What is new after a step that takes nothing along belongs to a transaction begun after `s`. */
  lemma NewIsOwned(s: Store, now: Store, op: Op, i: nat)
    requires s.Valid() && now.Valid() && Possible(op) && Inside(s, now, i, false)
    requires |Step(now, op).transactions| > |s.transactions| && Step(now, op).Live(i) && !s.Live(i)
    requires op.Commit? ==> now.transactions[|now.transactions| - 1] == []
    ensures exists t :: |s.transactions| <= t < |Step(now, op).transactions| && i in Step(now, op).transactions[t]
  {
    var b, n, r := |s.transactions|, |now.transactions|, Step(now, op);
    if op.Rollback? {
      RollbackIsExact(now, i);
    }
    if now.Live(i) {
      var t :| b <= t < n && i in now.transactions[t];
      assert t < |r.transactions| && i in r.transactions[t];
    } else {
      assert op.Add? && i in r.transactions[n - 1];
    }
  }

  lemma {:induction false} RunStaysInside(s: Store, now: Store, ops: seq<Op>, added: seq<bool>, i: nat, committed: bool)
    requires s.Valid() && now.Valid() && Inside(s, now, i, committed) && Tracks(s, now, added)
    requires (forall op :: op in ops ==> Possible(op)) && (committed || EmptyCommits(ops, added))
    requires added != [] && Nested(ops, |added| - 1)
    ensures Run(now, ops).Valid() && Inside(s, Run(now, ops), i, committed)
    ensures |Run(now, ops).transactions| == |s.transactions| + 1
    decreases |ops|
  {
    if ops != [] {
      var op, next := ops[0], Step(now, ops[0]);
      StepKeepsValid(now, op);
      StepTracks(s, now, added, op);
      NestedStep(s, now, ops, added);
      StepStaysInside(s, now, op, i, committed);
      assert committed || EmptyCommits(ops[1..], AddedBy(added, op));
      RunStaysInside(s, next, ops[1..], AddedBy(added, op), i, committed);
    }
  }

  lemma JustBegun(s: Store, i: nat)
    requires s.Valid()
    ensures Step(s, Begin).Valid() && Tracks(s, Step(s, Begin), [false]) && Inside(s, Step(s, Begin), i, false)
  {
    StepKeepsValid(s, Begin);
    assert Step(s, Begin).transactions[..|s.transactions|] == s.transactions;
    assert s.Live(i) ==>
      forall t, k :: 0 <= t < |s.transactions| && 0 <= k < |s.transactions[t]| ==> s.Live(s.transactions[t][k]);
    assert s.Live(i) ==> Step(s, Begin).Live(i);
  }

  /** A transaction that is rolled back takes away nothing that was there before it, and leaves nothing
      behind when every commit inside it closes a transaction that added nothing. */
  lemma RolledBack(s: Store, ops: seq<Op>, i: nat)
    requires s.Valid() && Nested(ops, 0) && forall op :: op in ops ==> Possible(op)
    ensures var r := Step(Run(Step(s, Begin), ops), Rollback);
            && r.transactions == s.transactions
            && (s.Live(i) ==> r.Live(i) && r.entries[i] == s.entries[i])
            && (r.Live(i) && EmptyCommits(ops, [false]) ==> s.Live(i))
  {
    var begun, committed := Step(s, Begin), !EmptyCommits(ops, [false]);
    JustBegun(s, i);
    RunStaysInside(s, begun, ops, [false], i, committed);
    RollbackEndsIt(s, Run(begun, ops), i, committed);
  }

  lemma RollbackEndsIt(s: Store, last: Store, i: nat, committed: bool)
    requires last.Valid() && |last.transactions| == |s.transactions| + 1 && Inside(s, last, i, committed)
    ensures var r := Step(last, Rollback);
            && r.transactions == s.transactions
            && (s.Live(i) ==> r.Live(i) && r.entries[i] == s.entries[i])
            && (r.Live(i) && !committed ==> s.Live(i))
  {
    RollbackIsExact(last, i);
  }

  lemma TakenAlong(s: Store, now: Store) returns (i: nat)
    requires now.Valid() && |now.transactions| > |s.transactions| && now.transactions[|now.transactions| - 1] != []
    requires forall k: nat :: Inside(s, now, k, true)
    ensures Step(now, Commit).Committed(i) && !s.Live(i)
  {
    var last := now.transactions[|now.transactions| - 1];
    i := last[0];
    assert i in last && Inside(s, now, i, true);
    CommitMakesCommitted(now, i);
  }

  lemma AllStayInside(s: Store, now: Store, op: Op)
    requires s.Valid() && now.Valid() && Possible(op) && forall k: nat :: Inside(s, now, k, true)
    requires |Step(now, op).transactions| > |s.transactions|
    ensures forall k: nat :: Inside(s, Step(now, op), k, true)
  {
    forall k: nat ensures Inside(s, Step(now, op), k, true) {
      assert Inside(s, now, k, true);
      StepStaysInside(s, now, op, k, true);
    }
  }

  /** The run is inside the transaction begun in `s`, and some commit in it takes slots along. */
  ghost predicate CommitsSome(s: Store, now: Store, ops: seq<Op>, added: seq<bool>) {
    && s.Valid() && now.Valid() && Tracks(s, now, added) && (forall k: nat :: Inside(s, now, k, true))
    && (forall op :: op in ops ==> Possible(op)) && !EmptyCommits(ops, added)
    && added != [] && Nested(ops, |added| - 1)
  }

  lemma StepCommitsSome(s: Store, now: Store, ops: seq<Op>, added: seq<bool>)
    requires CommitsSome(s, now, ops, added) && !(ops[0].Commit? && added[|added| - 1])
    ensures CommitsSome(s, Step(now, ops[0]), ops[1..], AddedBy(added, ops[0]))
  {
    StepKeepsValid(now, ops[0]);
    StepTracks(s, now, added, ops[0]);
    NestedStep(s, now, ops, added);
    AllStayInside(s, now, ops[0]);
  }

  lemma CommitTakesAlong(s: Store, now: Store, ops: seq<Op>, added: seq<bool>) returns (i: nat)
    requires CommitsSome(s, now, ops, added) && ops[0].Commit? && added[|added| - 1]
    ensures Run(Step(now, ops[0]), ops[1..]).Committed(i) && !s.Live(i)
  {
    StepKeepsValid(now, ops[0]);
    i := TakenAlong(s, now);
    CommittedForever(Step(now, ops[0]), ops[1..], i);
  }

  /** A commit of a transaction that added something leaves a slot behind for good. */
  lemma {:induction false} LeavesBehind(s: Store, now: Store, ops: seq<Op>, added: seq<bool>) returns (i: nat)
    requires CommitsSome(s, now, ops, added)
    ensures Run(now, ops).Committed(i) && !s.Live(i)
    decreases |ops|
  {
    if ops[0].Commit? && added[|added| - 1] {
      i := CommitTakesAlong(s, now, ops, added);
    } else {
      StepCommitsSome(s, now, ops, added);
      i := LeavesBehind(s, Step(now, ops[0]), ops[1..], AddedBy(added, ops[0]));
    }
  }

  /** A rolled-back transaction is undone entirely, up to empty slots at the end, if and only if every
      commit inside it closes a transaction that added nothing of its own. */
  lemma RolledBackExactly(s: Store, ops: seq<Op>)
    requires s.Valid() && Nested(ops, 0) && forall op :: op in ops ==> Possible(op)
    ensures Step(Run(Step(s, Begin), ops), Rollback) == Store(Trimmed(s.entries), s.transactions)
       <==> EmptyCommits(ops, [false])
  {
    if EmptyCommits(ops, [false]) {
      RolledBackEntirely(s, ops);
    } else {
      NotRolledBackEntirely(s, ops);
    }
  }

  lemma SlotRolledBack(s: Store, ops: seq<Op>, i: nat)
    requires s.Valid() && Nested(ops, 0) && (forall op :: op in ops ==> Possible(op)) && EmptyCommits(ops, [false])
    ensures Slot(Step(Run(Step(s, Begin), ops), Rollback).entries, i) == Slot(Trimmed(s.entries), i)
  {
    RolledBack(s, ops, i);
    var t := Trimmed(s.entries);
    assert i < |s.entries| && i >= |t| ==> s.entries[i] == EMPTY;
  }

  lemma RolledBackEntirely(s: Store, ops: seq<Op>)
    requires s.Valid() && Nested(ops, 0) && (forall op :: op in ops ==> Possible(op)) && EmptyCommits(ops, [false])
    ensures Step(Run(Step(s, Begin), ops), Rollback) == Store(Trimmed(s.entries), s.transactions)
  {
    var r, t := Step(Run(Step(s, Begin), ops), Rollback), Trimmed(s.entries);
    forall i: nat ensures Slot(r.entries, i) == Slot(t, i) {
      SlotRolledBack(s, ops, i);
    }
    RolledBack(s, ops, 0);
    LastIsLive(s, ops);
    SameSlots(r.entries, t);
  }

  lemma NotRolledBackEntirely(s: Store, ops: seq<Op>)
    requires s.Valid() && Nested(ops, 0) && (forall op :: op in ops ==> Possible(op)) && !EmptyCommits(ops, [false])
    ensures Step(Run(Step(s, Begin), ops), Rollback) != Store(Trimmed(s.entries), s.transactions)
  {
    var begun := Step(s, Begin);
    JustBegun(s, 0);
    forall k: nat ensures Inside(s, begun, k, true) {
      JustBegun(s, k);
    }
    var i := LeavesBehind(s, begun, ops, [false]);
    RunKeepsValid(begun, ops);
    StepKeepsCommitted(Run(begun, ops), Rollback, i);
    assert i < |Trimmed(s.entries)| ==> Trimmed(s.entries)[i] == s.entries[i];
  }

  function Slot(entries: seq<Entry>, i: nat): Entry {
    if i < |entries| then entries[i] else EMPTY
  }

  lemma SameSlots(a: seq<Entry>, b: seq<Entry>)
    requires forall i: nat :: Slot(a, i) == Slot(b, i)
    requires a != [] ==> a[|a| - 1] != EMPTY
    requires b != [] ==> b[|b| - 1] != EMPTY
    ensures a == b
  {
    if a != [] { assert Slot(a, |a| - 1) == Slot(b, |a| - 1); }
    if b != [] { assert Slot(b, |b| - 1) == Slot(a, |b| - 1); }
    assert |a| == |b|;
    forall i | 0 <= i < |a| ensures a[i] == b[i] {
      assert Slot(a, i) == Slot(b, i);
    }
  }

  lemma LastIsLive(s: Store, ops: seq<Op>)
    requires s.Valid() && Nested(ops, 0) && forall op :: op in ops ==> Possible(op)
    ensures var r := Step(Run(Step(s, Begin), ops), Rollback).entries; r != [] ==> r[|r| - 1] != EMPTY
  {
    JustBegun(s, |s.entries|);
    RunStaysInside(s, Step(s, Begin), ops, [false], |s.entries|, true);
  }

  // ----- the class -----

  class Functions {
    var entries: seq<Entry>
    var transactions: seq<seq<nat>>

    ghost function State(): Store
      reads this
    {
      Store(entries, transactions)
    }

    constructor ()
      ensures State() == Store([], []) && State().Valid()
    {
      entries, transactions := [], [];
    }

    method AddFunction(func: nat)
      requires State().Valid()
      modifies this
      ensures State() == Step(old(State()), Add(Entry(Some(func), None))) && State().Valid()
    {
      StepKeepsValid(State(), Add(Entry(Some(func), None)));
      entries := entries + [Entry(Some(func), None)];
      if transactions != [] {
        var n := |transactions| - 1;
        transactions := transactions[n := transactions[n] + [|entries| - 1]];
      }
    }

    /** The index is what tokens keep. */
    method AddLambda(func: nat, callable: nat) returns (index: nat)
      requires State().Valid()
      modifies this
      ensures State() == Step(old(State()), Add(Entry(Some(func), Some(callable)))) && State().Valid()
      ensures !old(State().Live(index)) && State().Live(index) && entries[index].callable == Some(callable)
    {
      StepKeepsValid(State(), Add(Entry(Some(func), Some(callable))));
      entries := entries + [Entry(Some(func), Some(callable))];
      index := |entries| - 1;
      if transactions != [] {
        var n := |transactions| - 1;
        transactions := transactions[n := transactions[n] + [index]];
      }
    }

    method BeginTransaction()
      requires State().Valid()
      modifies this
      ensures State() == Step(old(State()), Begin) && State().Valid()
    {
      transactions := transactions + [[]];
    }

    method CommitTransaction()
      requires State().Valid()
      modifies this
      ensures State() == Step(old(State()), Commit) && State().Valid()
    {
      StepKeepsValid(State(), Commit);
      if transactions != [] {
        transactions := transactions[..|transactions| - 1];
      }
    }

    method RollbackTransaction()
      requires State().Valid()
      modifies this
      ensures State() == Step(old(State()), Rollback) && State().Valid()
    {
      StepKeepsValid(State(), Rollback);
      if transactions == [] {
        return;
      }
      EmptySlots(transactions[|transactions| - 1]);
      transactions := transactions[..|transactions| - 1];
      while entries != [] && entries[|entries| - 1].func.None? && entries[|entries| - 1].callable.None?
        invariant transactions == old(transactions)[..|old(transactions)| - 1]
        invariant Trimmed(entries) == Trimmed(Emptied(old(entries), old(transactions)[|old(transactions)| - 1]))
      {
        entries := entries[..|entries| - 1];
      }
    }

    /** The first loop: the slots of the transaction are emptied. */
    method EmptySlots(own: seq<nat>)
      modifies this`entries
      ensures entries == Emptied(old(entries), own)
    {
      for k := 0 to |own|
        invariant |entries| == |old(entries)|
        invariant forall i :: 0 <= i < |entries| ==> entries[i] == if i in own[..k] then EMPTY else old(entries)[i]
      {
        if own[k] < |entries| {
          entries := entries[own[k] := EMPTY];
        }
        assert own[..k + 1] == own[..k] + [own[k]];
      }
      assert own[..|own|] == own;
    }

    /** What a lambda token finds under its index; an index out of range is an error. */
    method Get(index: nat) returns (ok: bool, callable: Option<nat>)
      ensures State().Live(index) ==> ok && callable == entries[index].callable
      ensures ok && !State().Live(index) ==> callable == None
      ensures ok == (index < |entries|)
    {
      ok := index < |entries|;
      callable := if ok then entries[index].callable else None;
    }
  }
}
