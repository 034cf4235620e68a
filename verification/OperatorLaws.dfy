/**
 What the operators compute, said of `parse_expr` on a node and of the values its operands have: integer results
 by the equations that determine them, comparisons by the exact order, assignments by the cell they change.
 */
module OperatorLaws {
  import opened Options
  import opened Signals
  import opened Numeric
  import opened Values
  import opened Trees
  import opened Evaluator
  import opened Optimizer

  // ----- operands -----

  /** Both operands succeed, in the host's order; `mid` is the store between them. */
  ghost predicate BothGive(t: Tree, ra: Res, rb: Res, st: Store, mid: Store, st': Store, host: Host)
    requires t.Node?
  {
    if host.leftFirst then Eval(t.left, st, host) == (Ok(ra), mid) && Eval(t.right, mid, host) == (Ok(rb), st')
    else Eval(t.right, st, host) == (Ok(rb), mid) && Eval(t.left, mid, host) == (Ok(ra), st')
  }

  /** A result has a value: the one in its cell, or its own. */
  predicate Denotes(r: Res, v: Value, st: Store) {
    !v.Unset? &&
    match r
    case Ref(l) => l < |st.cells| && st.cells[l].v == v
    case Temp(w) => w == v
    case Lit(w) => Plain(w) == v
    case Void => false
  }

  /** The empty handle: a null operand, or a variable that was given no value. */
  predicate DenotesNothing(r: Res, st: Store) {
    match r
    case Ref(l) => l >= |st.cells| || st.cells[l].v.Unset?
    case Temp(w) => w.Unset?
    case Lit(_) => false
    case Void => true
  }

  predicate IsOperator(t: Tree, s: Signal) { t.Node? && t.data.Sig? && t.data.op.signal == s }

  function NumberValue(n: Number): Value { Plain(Num(n)) }

  function IntValue(i: Int64): Value { NumberValue(Int(i)) }

  function Truth(b: bool): Result<Res> { Ok(Temp(Plain(Bool(b)))) }

  // ----- failing operands -----

  /** The operators that evaluate both operands. */
  predicate TakesBoth(s: Signal) {
    IsArithmetic(s) || IsComparison(s) || s.Asi? || exists u: Signal :: IsCompoundOf(s, u)
  }

  /** The first operand, in the host's order, that fails ends the evaluation with its error. */
  lemma OperandFails(t: Tree, st: Store, host: Host)
    requires t.Node? && t.data.Sig? && TakesBoth(t.data.op.signal)
    ensures var first, second := if host.leftFirst then t.left else t.right, if host.leftFirst then t.right else t.left;
            var (x, st1) := Eval(first, st, host);
            && (x.Fail? ==> Eval(t, st, host) == (Fail(x.error), st1))
            && (x.Ok? ==>
                  var (y, st2) := Eval(second, st1, host);
                  y.Fail? ==> Eval(t, st, host) == (Fail(y.error), st2))
  {
    assert KindOf(t.data.op.signal) in {KArith, KOrder, KEqual, KAssign, KCompound};
    BothFail(t, st, host);
  }

  lemma BothFail(t: Tree, st: Store, host: Host)
    requires t.Node? && t.data.Sig? && KindOf(t.data.op.signal) in {KArith, KOrder, KEqual, KAssign, KCompound}
    ensures var (p, st1) := EvalBoth(t, st, host);
            p.Fail? ==> Eval(t, st, host) == (Fail(p.error), st1)
  {
  }

  /** So does a failing operand of the others: nothing after it is evaluated. */
  lemma FirstOperandFails(t: Tree, st: Store, host: Host)
    requires IsOperator(t, And) || IsOperator(t, Or) || IsOperator(t, Choice)
    ensures Eval(t.left, st, host).0.Fail? ==>
              Eval(t, st, host) == (Fail(Eval(t.left, st, host).0.error), Eval(t.left, st, host).1)
  {
    var (x, st1) := Eval(t.left, st, host);
    if x.Fail? && !IsOperator(t, Choice) {
      assert EvalBool(t.left, st, host) == (Fail(x.error), st1);
      LogicFollows(t, st, host);
    }
  }

  lemma OnlyOperandFails(t: Tree, st: Store, host: Host)
    requires IsOperator(t, Minus) || IsOperator(t, Not)
    ensures Eval(t.right, st, host).0.Fail? ==> Eval(t, st, host) == Eval(t.right, st, host)
  {
  }

  // ----- arithmetic -----

  predicate IsArithmetic(s: Signal) { s.Add? || s.Sub? || s.Mul? || s.Div? || s.Mod? || s.Pow? }

  /** The equation that makes `r` the integer result. A remainder has the sign of the dividend and is smaller than
      the divisor, which divides the rest. */
  predicate Solves(s: Signal, i: Int64, j: Int64, r: Int64) {
    || (s.Add? && r - j == i)
    || (s.Sub? && r + j == i)
    || (s.Mul? && r == i * j)
    || (s.Div? && j != 0 && r * j == i)
    || (s.Mod? && j != 0 && Abs(r) < Abs(j) && (i >= 0 ==> r >= 0) && (i <= 0 ==> r <= 0) && (i - r) % j == 0)
    || (s.Pow? && j >= 0 && r == Numeric.Pow(i, j))
  }

  lemma MultipleIsLarge(q: int, j: int)
    ensures q != 0 ==> Abs(q * j) >= Abs(j)
  {
    if q >= 1 {
      assert q * j == j + (q - 1) * j;
      assert j >= 0 ==> (q - 1) * j >= 0;
      assert j <= 0 ==> (q - 1) * j <= 0;
    } else if q <= -1 {
      assert q * j == -j + (q + 1) * j;
      assert j >= 0 ==> (q + 1) * j <= 0;
      assert j <= 0 ==> (q + 1) * j >= 0;
    }
  }

  lemma MultipleBelow(x: int, j: int)
    requires j != 0 && x % j == 0 && Abs(x) < Abs(j)
    ensures x == 0
  {
    var q := x / j;
    assert x == q * j;
    MultipleIsLarge(q, j);
  }

  lemma MultipleIsDivided(q: int, j: int)
    requires j != 0
    ensures (q * j) % j == 0
  {
    var x := q * j;
    var p, m := x / j, x % j;
    assert x == p * j + m;
    assert m == (q - p) * j;
    MultipleIsLarge(q - p, j);
  }

  lemma RemainderIs(i: Int64, j: Int64)
    requires j != 0
    ensures i - TruncRem(i, j) == TruncDiv(i, j) * j
  {
  }

  lemma RemaindersAgree(i: Int64, j: Int64, r: Int64)
    requires j != 0 && Solves(Signal.Mod, i, j, r)
    ensures TruncRem(i, j) == r
  {
    var r0 := TruncRem(i, j);
    TruncRemFits(i, j);
    RemainderIs(i, j);
    var q := TruncDiv(i, j);
    DifferenceDivided(i - r, q, j);
    assert i - r - q * j == r0 - r;
    MultipleBelow(r0 - r, j);
  }

  lemma DifferenceDivided(x: int, q: int, j: int)
    requires j != 0 && x % j == 0
    ensures (x - q * j) % j == 0
  {
    var p := x / j;
    assert x == p * j;
    assert x - q * j == (p - q) * j;
    MultipleIsDivided(p - q, j);
  }

  lemma QuotientOf(i: Int64, j: Int64, r: Int64)
    requires j != 0 && r * j == i
    ensures TruncRem(i, j) == 0 && TruncDiv(i, j) == r && !(i == MIN && j == -1)
  {
    var q := TruncDiv(i, j);
    TruncRemFits(i, j);
    RemainderIs(i, j);
    Distribute(r, q, j);
    MultipleIsLarge(r - q, j);
    var d := r - q;
    assert TruncRem(i, j) == d * j && d == 0;
    assert Fits(r) && (j == -1 ==> i == -r);
  }

  lemma Distribute(r: int, q: int, j: int)
    ensures r * j - q * j == (r - q) * j
  {
  }

  /** The integer operations, whenever a 64-bit integer solves the equation. */
  lemma SolvedExactly(s: Signal, i: Int64, j: Int64, r: Int64, host: Host)
    requires Solves(s, i, j, r)
    ensures IntArith(s, i, j, host) == Ok(Int(r))
  {
    if s.Div? {
      QuotientOf(i, j, r);
    } else if s.Mod? {
      if i == MIN && j == -1 {
        assert r == 0;
      } else {
        RemaindersAgree(i, j, r);
      }
    }
  }

  lemma DenotesDeref(r: Res, v: Value, st: Store)
    ensures Denotes(r, v, st) <==> Deref(r, st) == Some(v)
    ensures DenotesNothing(r, st) <==> Deref(r, st) == None
  {
  }

  lemma BothEvaluate(t: Tree, ra: Res, rb: Res, st: Store, mid: Store, st': Store, host: Host)
    requires t.Node? && BothGive(t, ra, rb, st, mid, st', host)
    ensures EvalBoth(t, st, host) == (Ok((ra, rb)), st')
  {
  }

  /** Integer operands: the result is the integer that solves the equation of the operator. */
  lemma ArithmeticIsExact(t: Tree, i: Int64, j: Int64, r: Int64, ra: Res, rb: Res, st: Store, mid: Store, st': Store,
                          host: Host)
    requires t.Node? && t.data.Sig? && BothGive(t, ra, rb, st, mid, st', host)
    requires Denotes(ra, IntValue(i), st') && Denotes(rb, IntValue(j), st') && Solves(t.data.op.signal, i, j, r)
    ensures Eval(t, st, host) == (Ok(Temp(IntValue(r))), st')
  {
    BothEvaluate(t, ra, rb, st, mid, st', host);
    DenotesDeref(ra, IntValue(i), st');
    DenotesDeref(rb, IntValue(j), st');
    SolvedExactly(t.data.op.signal, i, j, r, host);
  }

  /** What becomes of the rest: division by zero is an error a script can catch, 0 to a negative power is infinite,
      and everything else is left to floating point. */
  function Unsolved(s: Signal, i: Int64, j: Int64, host: Host): Result<Number> {
    if s.Div? && j == 0 then Fail(Lang("Integer division by zero"))
    else if s.Mod? && j == 0 then Fail(Lang("Integer modulo by zero"))
    else if s.Pow? && j < 0 && i == 0 then Ok(Flt(PosInf))
    else Ok(host.arith(s, Int(i), Int(j)))
  }

  lemma RemainderSolves(i: Int64, j: Int64)
    requires j != 0
    ensures Fits(TruncRem(i, j)) && Solves(Signal.Mod, i, j, TruncRem(i, j))
  {
    TruncRemFits(i, j);
    RemainderIs(i, j);
    MultipleIsDivided(TruncDiv(i, j), j);
  }

  /** When the integer operation is carried out: the exact result fits, or a quotient is exact. */
  predicate IsExact(s: Signal, i: Int64, j: Int64) {
    || (s.Add? && Fits(i + j))
    || (s.Sub? && Fits(i - j))
    || (s.Mul? && Fits(i * j))
    || (s.Div? && j != 0 && TruncRem(i, j) == 0 && Fits(TruncDiv(i, j)))
    || (s.Mod? && j != 0)
    || (s.Pow? && j >= 0 && Fits(Numeric.Pow(i, j)))
  }

  lemma ExactIsSolved(s: Signal, i: Int64, j: Int64) returns (r: Int64)
    requires IsExact(s, i, j)
    ensures Solves(s, i, j, r)
  {
    if s.Add? { r := i + j; }
    else if s.Sub? { r := i - j; }
    else if s.Mul? { r := i * j; }
    else if s.Div? { r := TruncDiv(i, j); RemainderIs(i, j); }
    else if s.Mod? { RemainderSolves(i, j); r := TruncRem(i, j); }
    else { r := Numeric.Pow(i, j); }
  }

  lemma InexactIsUnsolved(s: Signal, i: Int64, j: Int64, host: Host)
    requires IsArithmetic(s) && !IsExact(s, i, j)
    ensures IntArith(s, i, j, host) == Unsolved(s, i, j, host)
  {
  }

  lemma UnsolvedOtherwise(s: Signal, i: Int64, j: Int64, host: Host)
    requires IsArithmetic(s) && forall r: Int64 :: !Solves(s, i, j, r)
    ensures IntArith(s, i, j, host) == Unsolved(s, i, j, host)
  {
    if IsExact(s, i, j) {
      var r := ExactIsSolved(s, i, j);
      assert false;
    }
    InexactIsUnsolved(s, i, j, host);
  }

  /** Integer operands without an integer result. */
  lemma ArithmeticOtherwise(t: Tree, i: Int64, j: Int64, ra: Res, rb: Res, st: Store, mid: Store, st': Store,
                            host: Host)
    requires t.Node? && t.data.Sig? && BothGive(t, ra, rb, st, mid, st', host) && IsArithmetic(t.data.op.signal)
    requires Denotes(ra, IntValue(i), st') && Denotes(rb, IntValue(j), st')
    requires forall r: Int64 :: !Solves(t.data.op.signal, i, j, r)
    ensures Eval(t, st, host) ==
            (match Unsolved(t.data.op.signal, i, j, host)
             case Ok(n) => Ok(Temp(NumberValue(n)))
             case Fail(e) => Fail(e), st')
  {
    BothEvaluate(t, ra, rb, st, mid, st', host);
    DenotesDeref(ra, IntValue(i), st');
    DenotesDeref(rb, IntValue(j), st');
    UnsolvedOtherwise(t.data.op.signal, i, j, host);
  }

  /** A float on either side: the floating-point operation on the two, in this order. */
  lemma FloatArithmetic(t: Tree, a: Number, b: Number, ra: Res, rb: Res, st: Store, mid: Store, st': Store,
                        host: Host)
    requires t.Node? && t.data.Sig? && BothGive(t, ra, rb, st, mid, st', host) && IsArithmetic(t.data.op.signal)
    requires Denotes(ra, NumberValue(a), st') && Denotes(rb, NumberValue(b), st') && (a.Flt? || b.Flt?)
    ensures Eval(t, st, host) == (Ok(Temp(NumberValue(host.arith(t.data.op.signal, a, b)))), st')
  {
    BothEvaluate(t, ra, rb, st, mid, st', host);
    DenotesDeref(ra, NumberValue(a), st');
    DenotesDeref(rb, NumberValue(b), st');
  }

  /** Operands without a value are refused. */
  lemma ArithmeticOfNothing(t: Tree, ra: Res, rb: Res, st: Store, mid: Store, st': Store, host: Host)
    requires t.Node? && t.data.Sig? && BothGive(t, ra, rb, st, mid, st', host) && IsArithmetic(t.data.op.signal)
    requires DenotesNothing(ra, st') || DenotesNothing(rb, st')
    ensures Eval(t, st, host) == (Fail(Uninitialized), st')
  {
    BothEvaluate(t, ra, rb, st, mid, st', host);
    DenotesDeref(ra, Unset, st');
    DenotesDeref(rb, Unset, st');
  }

  predicate IsNumber(v: Value) { v.Plain? && v.s.Num? }

  /** Operands that are no numbers are refused, the left one first. */
  lemma ArithmeticRefuses(t: Tree, a: Value, b: Value, ra: Res, rb: Res, st: Store, mid: Store, st': Store, host: Host)
    requires t.Node? && t.data.Sig? && BothGive(t, ra, rb, st, mid, st', host) && IsArithmetic(t.data.op.signal)
    requires Denotes(ra, a, st') && Denotes(rb, b, st') && !(IsNumber(a) && IsNumber(b))
    ensures Eval(t, st, host) == (Fail(if !IsNumber(a) then Unsupported else TypeMismatch), st')
  {
    BothEvaluate(t, ra, rb, st, mid, st', host);
    DenotesDeref(ra, a, st');
    DenotesDeref(rb, b, st');
  }

  /** A negation is what gives zero when the operand is added. */
  lemma NegationIsExact(t: Tree, i: Int64, r: Int64, rb: Res, st: Store, st': Store, host: Host)
    requires IsOperator(t, Minus) && Eval(t.right, st, host) == (Ok(rb), st')
    requires Denotes(rb, IntValue(i), st') && r + i == 0
    ensures Eval(t, st, host) == (Ok(Temp(IntValue(r))), st')
  {
    DenotesDeref(rb, IntValue(i), st');
  }

  // ----- comparison -----

  /** The exact order on the extended reals; NaN compares to nothing. */
  predicate Compares(s: Signal, a: Number, b: Number) {
    || (s.Und? && ExactLess(a, b))
    || (s.Abo? && ExactLess(b, a))
    || (s.Ueq? && !IsNaN(a) && !IsNaN(b) && !ExactLess(b, a))
    || (s.Aeq? && !IsNaN(a) && !IsNaN(b) && !ExactLess(a, b))
    || (s.Equ? && !IsNaN(a) && !IsNaN(b) && !ExactLess(a, b) && !ExactLess(b, a))
    || (s.Neq? && (IsNaN(a) || IsNaN(b) || ExactLess(a, b) || ExactLess(b, a)))
  }

  lemma ComparisonIsExact(t: Tree, a: Number, b: Number, ra: Res, rb: Res, st: Store, mid: Store, st': Store,
                          host: Host)
    requires t.Node? && t.data.Sig? && BothGive(t, ra, rb, st, mid, st', host) && IsComparison(t.data.op.signal)
    requires Denotes(ra, NumberValue(a), st') && Denotes(rb, NumberValue(b), st')
    ensures Eval(t, st, host) == (Truth(Compares(t.data.op.signal, a, b)), st')
  {
    BothEvaluate(t, ra, rb, st, mid, st', host);
    DenotesDeref(ra, NumberValue(a), st');
    DenotesDeref(rb, NumberValue(b), st');
    ComparisonsAreExact(a, b);
  }

  /** Values other than two numbers: booleans and null pointers by value, errors by the variable they are in. */
  predicate Equals(a: Value, b: Value, ra: Res, rb: Res) {
    || (a.Plain? && a == b)
    || (a.NullPointer? && b.NullPointer?)
    || (a.Err? && b.Err? && ra.Ref? && rb.Ref? && ra.loc == rb.loc)
  }

  lemma SameOthers(a: Value, b: Value, ra: Res, rb: Res)
    requires !a.Unset? && !b.Unset? && !(a.Plain? && a.s.Num? && b.Plain? && b.s.Num?)
    ensures SameType(a, b) && Same(ra, rb, a, b) <==> Equals(a, b, ra, rb)
  {
  }

  lemma EqualityOfOthers(t: Tree, a: Value, b: Value, ra: Res, rb: Res, st: Store, mid: Store, st': Store, host: Host)
    requires (IsOperator(t, Equ) || IsOperator(t, Neq)) && BothGive(t, ra, rb, st, mid, st', host)
    requires Denotes(ra, a, st') && Denotes(rb, b, st') && !(a.Plain? && a.s.Num? && b.Plain? && b.s.Num?)
    ensures Eval(t, st, host) == (Truth(Equals(a, b, ra, rb) <==> t.data.op.signal.Equ?), st')
  {
    BothEvaluate(t, ra, rb, st, mid, st', host);
    DenotesDeref(ra, a, st');
    DenotesDeref(rb, b, st');
    SameOthers(a, b, ra, rb);
  }

  predicate SameKind(a: Value, b: Value) {
    || (a.Plain? && b.Plain? && (a.s.Num? <==> b.s.Num?))
    || (a.Err? && b.Err?)
    || (a.NullPointer? && b.NullPointer?)
  }

  /** Values of different kinds are in no order; of one kind, only numbers can be ordered. */
  lemma OrderOfOthers(t: Tree, a: Value, b: Value, ra: Res, rb: Res, st: Store, mid: Store, st': Store, host: Host)
    requires t.Node? && t.data.Sig? && KindOf(t.data.op.signal) == KOrder && BothGive(t, ra, rb, st, mid, st', host)
    requires Denotes(ra, a, st') && Denotes(rb, b, st') && !(a.Plain? && a.s.Num? && b.Plain? && b.s.Num?)
    ensures Eval(t, st, host) == (if SameKind(a, b) then Fail(Unsupported) else Truth(false), st')
  {
    BothEvaluate(t, ra, rb, st, mid, st', host);
    DenotesDeref(ra, a, st');
    DenotesDeref(rb, b, st');
    assert SameKind(a, b) <==> SameType(a, b);
  }

  /** The empty handle is in no order and equal to nothing. */
  lemma NothingCompares(t: Tree, ra: Res, rb: Res, st: Store, mid: Store, st': Store, host: Host)
    requires t.Node? && t.data.Sig? && IsComparison(t.data.op.signal) && BothGive(t, ra, rb, st, mid, st', host)
    requires DenotesNothing(ra, st') || DenotesNothing(rb, st')
    ensures Eval(t, st, host) == (Truth(t.data.op.signal.Neq?), st')
  {
    BothEvaluate(t, ra, rb, st, mid, st', host);
    DenotesDeref(ra, Unset, st');
    DenotesDeref(rb, Unset, st');
  }

  // ----- logic -----

  /** `false && ..` and `true || ..` do not look at the right side. */
  lemma ShortCircuit(t: Tree, ra: Res, st: Store, mid: Store, host: Host)
    requires IsOperator(t, And) || IsOperator(t, Or)
    requires Eval(t.left, st, host) == (Ok(ra), mid) && Denotes(ra, Plain(Bool(t.data.op.signal.Or?)), mid)
    ensures Eval(t, st, host) == (Truth(t.data.op.signal.Or?), mid)
  {
    DenotesDeref(ra, Plain(Bool(t.data.op.signal.Or?)), mid);
    assert EvalBool(t.left, st, host) == (Ok(t.data.op.signal.Or?), mid);
  }

  /** Otherwise the right side decides. */
  lemma RightSideDecides(t: Tree, b: bool, ra: Res, rb: Res, st: Store, mid: Store, st': Store, host: Host)
    requires IsOperator(t, And) || IsOperator(t, Or)
    requires Eval(t.left, st, host) == (Ok(ra), mid) && Denotes(ra, Plain(Bool(t.data.op.signal.And?)), mid)
    requires Eval(t.right, mid, host) == (Ok(rb), st') && Denotes(rb, Plain(Bool(b)), st')
    ensures Eval(t, st, host) == (Truth(b), st')
  {
    DenotesDeref(ra, Plain(Bool(t.data.op.signal.And?)), mid);
    DenotesDeref(rb, Plain(Bool(b)), st');
    assert EvalBool(t.left, st, host) == (Ok(t.data.op.signal.And?), mid);
    assert EvalBool(t.right, mid, host) == (Ok(b), st');
    LogicFollows(t, st, host);
  }

  lemma NegatesTruth(t: Tree, b: bool, rb: Res, st: Store, st': Store, host: Host)
    requires IsOperator(t, Not) && Eval(t.right, st, host) == (Ok(rb), st') && Denotes(rb, Plain(Bool(b)), st')
    ensures Eval(t, st, host) == (Truth(!b), st')
  {
    DenotesDeref(rb, Plain(Bool(b)), st');
  }

  /** Only the branch that is taken is evaluated. */
  lemma TakesBranch(t: Tree, b: bool, ra: Res, st: Store, mid: Store, host: Host)
    requires IsOperator(t, Choice) && t.right.Node?
    requires Eval(t.left, st, host) == (Ok(ra), mid) && Denotes(ra, Plain(Bool(b)), mid)
    ensures b ==> Eval(t, st, host) == Eval(t.right.left, mid, host)
    ensures !b ==> Eval(t, st, host) == Eval(t.right.right, mid, host)
  {
    DenotesDeref(ra, Plain(Bool(b)), mid);
  }

  // ----- variables -----

  /** A name stands for its innermost binding. */
  lemma InnermostBinding(t: Tree, k: nat, st: Store, host: Host)
    requires t.Node? && t.data.Id? && k < |st.domains| && t.data.id in st.domains[k]
    requires forall m :: 0 <= m < k ==> t.data.id !in st.domains[m]
    ensures Eval(t, st, host) == (Ok(Ref(st.domains[k][t.data.id])), st)
  {
    FirstBinding(st.domains, t.data.id, k);
  }

  lemma {:induction false} FirstBinding(domains: seq<map<string, nat>>, name: string, k: nat)
    requires k < |domains| && name in domains[k] && forall m :: 0 <= m < k ==> name !in domains[m]
    ensures Lookup(domains, name) == Some(domains[k][name])
  {
    if k > 0 {
      assert name !in domains[0];
      FirstBinding(domains[1..], name, k - 1);
    }
  }

  /** Only the cell `l` changes, to this value. */
  predicate Writes(st: Store, l: nat, v: Value, st': Store) {
    && st'.domains == st.domains && |st'.cells| == |st.cells| && l < |st.cells| && st'.cells[l] == Cell(v, false)
    && forall k :: 0 <= k < |st.cells| && k != l ==> st'.cells[k] == st.cells[k]
  }

  /** A variable that has a value takes the value of the right side. */
  lemma AssignmentWrites(t: Tree, l: nat, v: Value, rb: Res, st: Store, mid: Store, st': Store, host: Host)
    requires IsOperator(t, Asi) && BothGive(t, Ref(l), rb, st, mid, st', host)
    requires l < |st'.cells| && !st'.cells[l].v.Unset? && Denotes(rb, v, st')
    ensures st'.cells[l].prot ==> Eval(t, st, host) == (Fail(Protected), st')
    ensures !st'.cells[l].prot ==> Eval(t, st, host).0 == Ok(Ref(l)) && Writes(st', l, v, Eval(t, st, host).1)
  {
    BothEvaluate(t, Ref(l), rb, st, mid, st', host);
    DenotesDeref(rb, v, st');
  }

  /** An empty handle on either side: no variable changes, and the result is a copy of the right side. */
  lemma AssignmentOfNothing(t: Tree, ra: Res, rb: Res, st: Store, mid: Store, st': Store, host: Host)
    requires IsOperator(t, Asi) && BothGive(t, ra, rb, st, mid, st', host)
    requires DenotesNothing(ra, st') || DenotesNothing(rb, st')
    ensures Eval(t, st, host).1 == st' && Eval(t, st, host).0.Ok? && !Eval(t, st, host).0.value.Ref?
    ensures forall v :: Denotes(rb, v, st') <==> Denotes(Eval(t, st, host).0.value, v, st')
  {
    BothEvaluate(t, ra, rb, st, mid, st', host);
    DenotesDeref(ra, Unset, st');
    DenotesDeref(rb, Unset, st');
  }

  /** A name without a binding. */
  lemma {:induction false} NoBinding(domains: seq<map<string, nat>>, name: string)
    requires forall m :: 0 <= m < |domains| ==> name !in domains[m]
    ensures Lookup(domains, name) == None
  {
    if domains != [] {
      assert name !in domains[0];
      NoBinding(domains[1..], name);
    }
  }

  lemma UnboundFails(t: Tree, st: Store, host: Host)
    requires t.Node? && t.data.Id? && forall m :: 0 <= m < |st.domains| ==> t.data.id !in st.domains[m]
    ensures Eval(t, st, host) == (Fail(Undefined(t.data.id)), st)
  {
    NoBinding(st.domains, t.data.id);
  }

  predicate IsCompoundOf(s: Signal, u: Signal) {
    || (s.AddAsi? && u.Add?) || (s.SubAsi? && u.Sub?) || (s.MulAsi? && u.Mul?)
    || (s.DivAsi? && u.Div?) || (s.ModAsi? && u.Mod?) || (s.PowAsi? && u.Pow?)
  }

  lemma CompoundIsArith(t: Tree, l: nat, rb: Res, st: Store, mid: Store, st': Store, host: Host)
    requires t.Node? && t.data.Sig? && KindOf(t.data.op.signal) == KCompound
    requires BothGive(t, Ref(l), rb, st, mid, st', host)
    ensures Eval(t, st, host) == Compound(t.data.op.signal, Ref(l), rb, st', host)
  {
    BothEvaluate(t, Ref(l), rb, st, mid, st', host);
  }

  lemma CompoundStores(s: Signal, u: Signal, l: nat, rb: Res, st: Store, host: Host)
    requires IsCompoundOf(s, u)
    ensures match Binary(u, Ref(l), rb, st, host)
            case Fail(e) => Compound(s, Ref(l), rb, st, host) == (Fail(e), st)
            case Ok(r) =>
              l < |st.cells| && r.Temp? &&
              (if st.cells[l].prot then Compound(s, Ref(l), rb, st, host) == (Fail(Protected), st)
               else
                 var (x, st1) := Compound(s, Ref(l), rb, st, host);
                 x == Ok(Ref(l)) && Writes(st, l, r.value, st1))
  {
    assert Underlying(s) == u && KindOf(u) == KArith;
    match (Deref(Ref(l), st), Deref(rb, st))
    case (Some(a), Some(b)) =>
      var r := Arith(u, a, b, host);
      assert Binary(u, Ref(l), rb, st, host) == AsTemp(r);
      if r.Ok? {
        assert Compound(s, Ref(l), rb, st, host) == Assign(Ref(l), Some(Plain(r.value)), rb, st);
      }
    case _ =>
  }

  /** `x op= y` leaves in `x` what `x op y` evaluates to, and fails like it. */
  lemma CompoundWrites(t: Tree, u: Tree, l: nat, rb: Res, st: Store, mid: Store, st': Store, host: Host)
    requires t.Node? && t.data.Sig? && u.Node? && u.data.Sig? && IsCompoundOf(t.data.op.signal, u.data.op.signal)
    requires t.left == u.left && t.right == u.right && BothGive(t, Ref(l), rb, st, mid, st', host)
    ensures Eval(u, st, host).1 == st'
    ensures match Eval(u, st, host).0
            case Fail(e) => Eval(t, st, host) == (Fail(e), st')
            case Ok(r) =>
              l < |st'.cells| && r.Temp? &&
              (if st'.cells[l].prot then Eval(t, st, host) == (Fail(Protected), st')
               else
                 var (x, st1) := Eval(t, st, host);
                 x == Ok(Ref(l)) && Writes(st', l, r.value, st1))
  {
    CompoundIsArith(t, l, rb, st, mid, st', host);
    BothEvaluate(u, Ref(l), rb, st, mid, st', host);
    assert Eval(u, st, host) == (Binary(u.data.op.signal, Ref(l), rb, st', host), st');
    CompoundStores(t.data.op.signal, u.data.op.signal, l, rb, st', host);
  }
}
