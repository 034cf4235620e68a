/**
 The operator alphabet of the CovScript parser and its two tables: the binding level of a
 signal and the set of signals that re-associate to the right of an equal level.
 */
module Signals {
  import opened Options

  /** The signals of `signal_types` that can stand inside an expression. */
  datatype Signal =
    | Add | AddAsi | Sub | SubAsi | Mul | MulAsi | Div | DivAsi | Mod | ModAsi | Pow | PowAsi
    | Com | Dot | Und | Abo | Asi | LnkAsi | Equ | Ueq | Aeq | Neq | And | Or | Not | Inc | Dec
    | Pair | Choice
    | Slb | Srb | Mlb | Mrb | Llb | Lrb | Esb | Emb | Elb
    | Fcall | Access | Typeid | Addr | New | Gcnew | Arrow | Lambda | Escape | Minus
    | VarDef | VarChk | VarPrt | Vargs | Bind | Error | EndLine

  /** Membership in `signal_left_associative`: exactly the assignment signals. */
  predicate IsAssignment(s: Signal) {
    s.Asi? || s.LnkAsi? || s.AddAsi? || s.SubAsi? || s.MulAsi? || s.DivAsi? || s.ModAsi? || s.PowAsi?
  }

  predicate IsComparison(s: Signal) {
    s.Und? || s.Abo? || s.Equ? || s.Ueq? || s.Aeq? || s.Neq?
  }

  predicate IsAllocation(s: Signal) {
    s.Typeid? || s.New? || s.Gcnew?
  }

  predicate IsPostfix(s: Signal) {
    s.Dot? || s.Arrow? || s.Fcall? || s.Emb? || s.Access?
  }

  predicate IsDeclaration(s: Signal) {
    s.VarDef? || s.VarChk? || s.VarPrt? || s.Vargs?
  }

  /** The level table; a signal that is not listed has no level and asking for it is an error. */
  function Level(s: Signal): Option<int> {
    if s.Com? then Some(0)
    else if s.Asi? || s.LnkAsi? || s.AddAsi? || s.SubAsi? then Some(1)
    else if s.MulAsi? || s.DivAsi? || s.ModAsi? || s.PowAsi? then Some(1)
    else if s.Lambda? then Some(2)
    else if s.Choice? then Some(3)
    else if s.Pair? then Some(4)
    else if s.Or? then Some(6)
    else if s.And? then Some(7)
    else if s.Not? then Some(8)
    else if IsComparison(s) then Some(9)
    else if s.Add? || s.Sub? then Some(10)
    else if s.Mul? || s.Div? then Some(11)
    else if s.Mod? || s.Pow? then Some(12)
    else if s.Inc? || s.Dec? || s.Addr? then Some(13)
    else if IsAllocation(s) then Some(14)
    else if IsPostfix(s) then Some(15)
    else if IsDeclaration(s) then Some(20)
    else None
  }

  const ASSIGNMENT_LEVEL := 1

  /** A signal with its row of the level table; the level is negative when the table has no row. */
  datatype Operator = Operator(signal: Signal, level: int) {
    predicate HasLevel() { level >= 0 }

    predicate IsAssignment() { level == ASSIGNMENT_LEVEL }
  }

  function OperatorOf(s: Signal): Operator {
    Operator(s, match Level(s) case Some(level) => level case None => -1)
  }

  /** The two tables agree: a signal re-associates exactly when it has the assignment level, so
      operators of one level always associate alike; and a missing row is never a negative level. */
  lemma TablesAgree(s: Signal)
    ensures OperatorOf(s).IsAssignment() <==> IsAssignment(s)
    ensures OperatorOf(s).HasLevel() <==> Level(s).Some?
  {
  }
}
