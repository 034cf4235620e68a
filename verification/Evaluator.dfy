/**
 `parse_expr`: the evaluator of expression trees, on the scalar fragment.

 Evaluation yields references, not values: an identifier yields the cell it is bound to, and an
 operator reads its operands only after both have been evaluated, so `x + (x = 5)` sees the new x.
 */
module Evaluator {
  import opened Options
  import opened Signals
  import opened Numeric
  import opened Values
  import opened Trees

  /** `Lang` is a `lang_error`, the only kind of error a script can catch. */
  datatype Error =
    | Undefined(name: string) | Uninitialized | TypeMismatch | Unsupported | Protected
    | RequiresBool | Unrecognized | NoExpression | NotThrowable | ReturnOutsideFunction | ArgumentCount
    | Lang(text: string)

  datatype Result<+T> = Ok(value: T) | Fail(error: Error)

  /** A variable's storage. A protected cell refuses assignment. */
  datatype Cell = Cell(v: Value, prot: bool)

  /** The domain stack, innermost first, binding names to cells. */
  datatype Store = Store(domains: seq<map<string, nat>>, cells: seq<Cell>)

  /** What `parse_expr` returns: the cell of a variable, a temporary, a constant token's value, or
      the empty `var()` of a null operand. */
  datatype Res = Ref(loc: nat) | Temp(value: Value) | Lit(v: Scalar) | Void

  /** What the C++ leaves open: which operand of a call is evaluated first, and the results of float
      arithmetic and of integer arithmetic that leaves the 64-bit range. */
  datatype Host = Host(leftFirst: bool, arith: (Signal, Number, Number) -> Number)

  /** `get_var`: the innermost binding of the name. */
  function Lookup(domains: seq<map<string, nat>>, name: string): Option<nat> {
    if domains == [] then None
    else if name in domains[0] then Some(domains[0][name])
    else Lookup(domains[1..], name)
  }

  function Deref(r: Res, st: Store): Option<Value> {
    match r
    case Ref(l) => if l < |st.cells| && !st.cells[l].v.Unset? then Some(st.cells[l].v) else None
    case Temp(v) => if v.Unset? then None else Some(v)
    case Lit(v) => Some(Plain(v))
    case Void => None
  }

  predicate Assignable(r: Res, st: Store) {
    r.Ref? && r.loc < |st.cells| && !st.cells[r.loc].prot
  }

  // ----- operator families -----

  datatype Kind =
    | KArith | KOrder | KEqual | KAnd | KOr | KNot | KMinus | KChoice | KPair | KAssign | KCompound | KOther

  function KindOf(s: Signal): Kind {
    if s.Add? || s.Sub? || s.Mul? || s.Div? || s.Mod? || s.Pow? then KArith
    else if s.Und? || s.Abo? || s.Ueq? || s.Aeq? then KOrder
    else if s.Equ? || s.Neq? then KEqual
    else if s.And? then KAnd
    else if s.Or? then KOr
    else if s.Not? then KNot
    else if s.Minus? then KMinus
    else if s.Choice? then KChoice
    else if s.Pair? then KPair
    else if s.Asi? then KAssign
    else if s.AddAsi? || s.SubAsi? || s.MulAsi? || s.DivAsi? || s.ModAsi? || s.PowAsi? then KCompound
    else KOther
  }

  /** The arithmetic a compound assignment performs. */
  function Underlying(s: Signal): Signal {
    if s.AddAsi? then Add else if s.SubAsi? then Sub else if s.MulAsi? then Mul
    else if s.DivAsi? then Div else if s.ModAsi? then Mod else Pow
  }

  // ----- primitive operations -----

  /** A sum, difference or product: exact in range, the host's business otherwise. */
  function Exact(s: Signal, result: int, a: Number, b: Number, host: Host): Number {
    if Fits(result) then Int(result) else host.arith(s, a, b)
  }

  function TruncRem(a: int, b: int): int
    requires b != 0
  {
    a - TruncDiv(a, b) * b
  }

  lemma QuotientTimes(a: int, b: int)
    requires b != 0
    ensures TruncDiv(a, b) * b == if a >= 0 then Abs(b) * (Abs(a) / Abs(b)) else -(Abs(b) * (Abs(a) / Abs(b)))
  {
    var q := Abs(a) / Abs(b);
    if (a >= 0) == (b > 0) {
      assert TruncDiv(a, b) == q;
    } else {
      assert TruncDiv(a, b) == -q;
    }
  }

  /** The remainder has the dividend's sign and is smaller than the divisor. */
  lemma TruncRemFits(a: Int64, b: Int64)
    requires b != 0
    ensures Fits(TruncRem(a, b)) && Abs(TruncRem(a, b)) < Abs(b)
    ensures (a >= 0 ==> TruncRem(a, b) >= 0) && (a <= 0 ==> TruncRem(a, b) <= 0)
  {
    QuotientTimes(a, b);
    DivBounds(Abs(a), Abs(b));
    assert Fits(a) && Fits(b);
    var multiple := Abs(b) * (Abs(a) / Abs(b));
    assert TruncRem(a, b) == if a >= 0 then a - multiple else a + multiple;
    assert multiple <= Abs(a) < multiple + Abs(b);
  }

  function IntArith(s: Signal, i: Int64, j: Int64, host: Host): Result<Number> {
    var a, b := Int(i), Int(j);
    if s.Add? then Ok(Exact(s, i + j, a, b, host))
    else if s.Sub? then Ok(Exact(s, i - j, a, b, host))
    else if s.Mul? then Ok(Exact(s, i * j, a, b, host))
    else if s.Div? then
      if j == 0 then Fail(Lang("Integer division by zero"))
      else if i == MIN && j == -1 then Ok(host.arith(s, a, b))
      else
        TruncRemFits(i, j);
        if TruncRem(i, j) == 0 then Ok(Exact(s, TruncDiv(i, j), a, b, host)) else Ok(host.arith(s, a, b))
    else if s.Mod? then
      if j == 0 then Fail(Lang("Integer modulo by zero"))
      else if i == MIN && j == -1 then Ok(Int(0))
      else TruncRemFits(i, j); Ok(Int(TruncRem(i, j)))
    else if j >= 0 then Ok(Exact(s, Numeric.Pow(i, j), a, b, host))
    else if i == 0 then Ok(Flt(PosInf))
    else Ok(host.arith(s, a, b))
  }

  function Arith(s: Signal, a: Value, b: Value, host: Host): Result<Scalar> {
    if !(a.Plain? && a.s.Num?) then Fail(Unsupported)
    else if !(b.Plain? && b.s.Num?) then Fail(TypeMismatch)
    else if a.s.n.Int? && b.s.n.Int? then
      match IntArith(s, a.s.n.i, b.s.n.i, host)
      case Ok(n) => Ok(Num(n))
      case Fail(e) => Fail(e)
    else Ok(Num(host.arith(s, a.s.n, b.s.n)))
  }

  predicate SameType(a: Value, b: Value) {
    (a.Err? && b.Err?) || (a.NullPointer? && b.NullPointer?) || (a.Plain? && b.Plain? && (a.s.Num? <==> b.s.Num?))
  }

  function Order(s: Signal, a: Value, b: Value): Result<Scalar> {
    if !SameType(a, b) then Ok(Bool(false))
    else if !(a.Plain? && a.s.Num?) then Fail(Unsupported)
    else
      var x, y := a.s.n, b.s.n;
      Ok(Bool(if s.Und? then Less(x, y) else if s.Abo? then Greater(x, y)
              else if s.Ueq? then LessEqual(x, y) else GreaterEqual(x, y)))
  }

  /** Equality of values; error objects are equal only when they are the same object. */
  predicate Same(ra: Res, rb: Res, a: Value, b: Value) {
    SameType(a, b) &&
    if a.Err? then ra == rb && ra.Ref? else if a.NullPointer? then true
    else if a.s.Num? then Equal(a.s.n, b.s.n) else a.s == b.s
  }

  function Negate(a: Value, host: Host): Result<Scalar> {
    if !(a.Plain? && a.s.Num?) then Fail(Unsupported)
    else match a.s.n
      case Int(i) => Ok(Num(Exact(Minus, -(i as int), a.s.n, a.s.n, host)))
      case Flt(Finite(v)) => Ok(Num(Flt(Finite(-v))))
      case Flt(PosInf) => Ok(Num(Flt(NegInf)))
      case Flt(NegInf) => Ok(Num(Flt(PosInf)))
      case Flt(NaN) => Ok(Num(Flt(NaN)))
  }

  /** `const_val<boolean>()`. */
  function BoolOf(r: Res, st: Store): Result<bool> {
    match Deref(r, st)
    case None => Fail(Uninitialized)
    case Some(Plain(Bool(b))) => Ok(b)
    case Some(_) => Fail(TypeMismatch)
  }

  function AsTemp(r: Result<Scalar>): Result<Res> {
    match r
    case Ok(v) => Ok(Temp(Plain(v)))
    case Fail(e) => Fail(e)
  }

  /** The operators that read two operands and write nothing. */
  function Binary(s: Signal, ra: Res, rb: Res, st: Store, host: Host): Result<Res> {
    var a, b := Deref(ra, st), Deref(rb, st);
    if KindOf(s) == KArith then
      if a.None? || b.None? then Fail(Uninitialized) else AsTemp(Arith(s, a.value, b.value, host))
    else if KindOf(s) == KOrder then
      if a.None? || b.None? then Ok(Temp(Plain(Bool(false)))) else AsTemp(Order(s, a.value, b.value))
    else
      var same := a.Some? && b.Some? && Same(ra, rb, a.value, b.value);
      Ok(Temp(Plain(Bool(if s.Equ? then same else !same))))
  }

  /** `swap(value, true)` on the left operand: writes the cell unless it is protected. A null side
      makes the swap a swap of handles, which changes no cell. */
  function Assign(ra: Res, value: Option<Value>, rb: Res, st: Store): (Result<Res>, Store) {
    if Deref(ra, st).None? || value.None? then (Ok(Copy(rb, st)), st)
    else if !Assignable(ra, st) then (Fail(Protected), st)
    else (Ok(ra), st.(cells := st.cells[ra.loc := Cell(value.value, false)]))
  }

  /** The value a handle swap leaves in the returned temporary. */
  function Copy(r: Res, st: Store): Res {
    match Deref(r, st)
    case Some(v) => Temp(v)
    case None => Void
  }

  function Compound(s: Signal, ra: Res, rb: Res, st: Store, host: Host): (Result<Res>, Store) {
    match (Deref(ra, st), Deref(rb, st))
    case (Some(a), Some(b)) =>
      (match Arith(Underlying(s), a, b, host)
       case Ok(v) => Assign(ra, Some(Plain(v)), rb, st)
       case Fail(e) => (Fail(e), st))
    case _ => (Fail(Uninitialized), st)
  }

  // ----- the evaluator -----

  /** Both operands, in the host's order; the first failure ends the evaluation. */
  function EvalBoth(t: Tree, st: Store, host: Host): (Result<(Res, Res)>, Store)
    requires t.Node?
    decreases t, 0
  {
    if host.leftFirst then
      var (x, st1) := Eval(t.left, st, host);
      if x.Fail? then (Fail(x.error), st1)
      else
        var (y, st2) := Eval(t.right, st1, host);
        if y.Fail? then (Fail(y.error), st2) else (Ok((x.value, y.value)), st2)
    else
      var (y, st1) := Eval(t.right, st, host);
      if y.Fail? then (Fail(y.error), st1)
      else
        var (x, st2) := Eval(t.left, st1, host);
        if x.Fail? then (Fail(x.error), st2) else (Ok((x.value, y.value)), st2)
  }

  function EvalBool(t: Tree, st: Store, host: Host): (Result<bool>, Store)
    decreases t, 3
  {
    var (x, st1) := Eval(t, st, host);
    if x.Fail? then (Fail(x.error), st1) else (BoolOf(x.value, st1), st1)
  }

  function Eval(t: Tree, st: Store, host: Host): (Result<Res>, Store)
    decreases t, 2
  {
    if t.Nil? then (Fail(NoExpression), st)
    else if t.data.Null? then (Ok(Void), st)
    else if t.data.Id? then
      match Lookup(st.domains, t.data.id)
      case Some(l) => (Ok(Ref(l)), st)
      case None => (Fail(Undefined(t.data.id)), st)
    else if t.data.Val? then (Ok(Lit(t.data.value)), st)
    else if t.data.Expr? then Eval(t.data.tree, st, host)
    else if !t.data.Sig? then (Fail(Unrecognized), st)
    else EvalSignal(t, st, host)
  }

  function EvalSignal(t: Tree, st: Store, host: Host): (Result<Res>, Store)
    requires t.Node? && t.data.Sig?
    decreases t, 1
  {
    var s := t.data.op.signal;
    match KindOf(s)
    case KArith | KOrder | KEqual =>
      var (p, st1) := EvalBoth(t, st, host);
      if p.Fail? then (Fail(p.error), st1) else (Binary(s, p.value.0, p.value.1, st1, host), st1)
    case KAssign =>
      var (p, st1) := EvalBoth(t, st, host);
      if p.Fail? then (Fail(p.error), st1)
      else Assign(p.value.0, Deref(p.value.1, st1), p.value.1, st1)
    case KCompound =>
      var (p, st1) := EvalBoth(t, st, host);
      if p.Fail? then (Fail(p.error), st1) else Compound(s, p.value.0, p.value.1, st1, host)
    case KMinus =>
      var (x, st1) := Eval(t.right, st, host);
      if x.Fail? then (x, st1)
      else if x.value.Void? || Deref(x.value, st1).None? then (Fail(Uninitialized), st1)
      else (AsTemp(Negate(Deref(x.value, st1).value, host)), st1)
    case KNot =>
      var (x, st1) := Eval(t.right, st, host);
      if x.Fail? then (x, st1)
      else if BoolOf(x.value, st1).Fail? then (Fail(RequiresBool), st1)
      else (Ok(Temp(Plain(Bool(!BoolOf(x.value, st1).value)))), st1)
    case KAnd =>
      var (a, st1) := EvalBool(t.left, st, host);
      if a.Fail? then (Fail(a.error), st1)
      else if !a.value then (Ok(Temp(Plain(Bool(false)))), st1)
      else
        var (b, st2) := EvalBool(t.right, st1, host);
        if b.Fail? then (Fail(b.error), st2) else (Ok(Temp(Plain(Bool(b.value)))), st2)
    case KOr =>
      var (a, st1) := EvalBool(t.left, st, host);
      if a.Fail? then (Fail(a.error), st1)
      else if a.value then (Ok(Temp(Plain(Bool(true)))), st1)
      else
        var (b, st2) := EvalBool(t.right, st1, host);
        if b.Fail? then (Fail(b.error), st2) else (Ok(Temp(Plain(Bool(b.value)))), st2)
    case KChoice =>
      var (x, st1) := Eval(t.left, st, host);
      if x.Fail? then (x, st1)
      else if BoolOf(x.value, st1).Fail? then (Fail(RequiresBool), st1)
      else if t.right.Nil? then (Fail(NoExpression), st1)
      else Eval(if BoolOf(x.value, st1).value then t.right.left else t.right.right, st1, host)
    case _ => (Fail(Unrecognized), st)
  }

  // ----- evaluation writes unprotected cells only -----

  /** Evaluation may write unprotected cells, and nothing else. */
  predicate Frame(st: Store, st': Store) {
    st'.domains == st.domains && |st'.cells| == |st.cells|
    && forall l :: 0 <= l < |st.cells| ==>
         st'.cells[l].prot == st.cells[l].prot && (st.cells[l].prot ==> st'.cells[l] == st.cells[l])
  }

  lemma FrameTrans(a: Store, b: Store, c: Store)
    requires Frame(a, b) && Frame(b, c)
    ensures Frame(a, c)
  {
  }

  lemma AssignFrame(ra: Res, value: Option<Value>, rb: Res, st: Store)
    ensures Frame(st, Assign(ra, value, rb, st).1)
  {
  }

  lemma CompoundFrame(s: Signal, ra: Res, rb: Res, st: Store, host: Host)
    ensures Frame(st, Compound(s, ra, rb, st, host).1)
  {
    match (Deref(ra, st), Deref(rb, st))
    case (Some(a), Some(b)) =>
      var r := Arith(Underlying(s), a, b, host);
      if r.Ok? {
        AssignFrame(ra, Some(Plain(r.value)), rb, st);
      }
    case _ =>
  }

  lemma {:induction false} BothFrame(t: Tree, st: Store, host: Host)
    requires t.Node?
    ensures Frame(st, EvalBoth(t, st, host).1)
    decreases t, 0
  {
    var first, second := if host.leftFirst then t.left else t.right, if host.leftFirst then t.right else t.left;
    EvalFrame(first, st, host);
    var st1 := Eval(first, st, host).1;
    EvalFrame(second, st1, host);
    FrameTrans(st, st1, Eval(second, st1, host).1);
  }

  lemma {:induction false} EvalFrame(t: Tree, st: Store, host: Host)
    ensures Frame(st, Eval(t, st, host).1)
    decreases t, 2
  {
    if t.Node? && t.data.Expr? {
      EvalFrame(t.data.tree, st, host);
    } else if t.Node? && t.data.Sig? {
      SignalFrame(t, st, host);
    }
  }

  lemma {:induction false} SignalFrame(t: Tree, st: Store, host: Host)
    requires t.Node? && t.data.Sig?
    ensures Frame(st, EvalSignal(t, st, host).1)
    decreases t, 1
  {
    var s := t.data.op.signal;
    var (p, st1) := EvalBoth(t, st, host);
    BothFrame(t, st, host);
    match KindOf(s)
    case KArith | KOrder | KEqual =>
    case KAssign =>
      if p.Ok? {
        AssignFrame(p.value.0, Deref(p.value.1, st1), p.value.1, st1);
      }
    case KCompound =>
      if p.Ok? {
        CompoundFrame(s, p.value.0, p.value.1, st1, host);
      }
    case KMinus | KNot => EvalFrame(t.right, st, host);
    case KAnd | KOr | KChoice => BranchFrame(t, st, host);
    case _ =>
  }

  lemma {:induction false} BranchFrame(t: Tree, st: Store, host: Host)
    requires t.Node? && t.data.Sig? && KindOf(t.data.op.signal) in {KAnd, KOr, KChoice}
    ensures Frame(st, EvalSignal(t, st, host).1)
    decreases t, 0
  {
    EvalFrame(t.left, st, host);
    var st1 := Eval(t.left, st, host).1;
    EvalFrame(t.right, st1, host);
    if t.right.Node? {
      EvalFrame(t.right.left, st1, host);
      EvalFrame(t.right.right, st1, host);
    }
  }
}
