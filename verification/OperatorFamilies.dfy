/**
 How operators group, family by family: the families are listed from the loosest to the tightest, and the
 trees that `build_tree` and `gen_tree` give for two operators of any two families are written out.
 */
module OperatorFamilies {
  import opened Options
  import opened Signals
  import opened Trees
  import opened Parser
  import opened TreeBuilder

  /** The operators that group with each other alike, the loosest family first. */
  datatype Family =
    | Comma | Assignment | Function | Choosing | Pairing | Disjunction | Conjunction | Negation | Comparison
    | Sum | Product | Power | Prefix | Allocation | Postfix | Declaration

  predicate InFamily(s: Signal, f: Family) {
    match f
    case Comma => s.Com?
    case Assignment =>
      s.Asi? || s.LnkAsi? || s.AddAsi? || s.SubAsi? || s.MulAsi? || s.DivAsi? || s.ModAsi? || s.PowAsi?
    case Function => s.Lambda?
    case Choosing => s.Choice?
    case Pairing => s.Pair?
    case Disjunction => s.Or?
    case Conjunction => s.And?
    case Negation => s.Not?
    case Comparison => s.Und? || s.Abo? || s.Equ? || s.Ueq? || s.Aeq? || s.Neq?
    case Sum => s.Add? || s.Sub?
    case Product => s.Mul? || s.Div?
    case Power => s.Mod? || s.Pow?
    case Prefix => s.Inc? || s.Dec? || s.Addr?
    case Allocation => s.Typeid? || s.New? || s.Gcnew?
    case Postfix => s.Dot? || s.Arrow? || s.Fcall? || s.Emb? || s.Access?
    case Declaration => s.VarDef? || s.VarChk? || s.VarPrt? || s.Vargs?
  }

  function Tightness(f: Family): nat {
    match f
    case Comma => 0
    case Assignment => 1
    case Function => 2
    case Choosing => 3
    case Pairing => 4
    case Disjunction => 5
    case Conjunction => 6
    case Negation => 7
    case Comparison => 8
    case Sum => 9
    case Product => 10
    case Power => 11
    case Prefix => 12
    case Allocation => 13
    case Postfix => 14
    case Declaration => 15
  }

  predicate Tighter(g: Family, f: Family) { Tightness(g) > Tightness(f) }

  /** Of two operators side by side the second one takes the operand between them: it binds tighter, or both are
      assignments. */
  predicate SecondTakes(f: Family, g: Family) {
    Tighter(g, f) || (f == Assignment && g == Assignment)
  }

  // ----- the level table orders the families -----

  /** The row of a family in the level table. */
  function RowOf(f: Family): int { Row(Tightness(f)) }

  function Row(tightness: nat): int {
    if tightness <= 4 then tightness else if tightness <= 14 then tightness + 1 else 20
  }

  /** The family of this tightness. */
  function FamilyAt(tightness: nat): Family {
    if tightness == 0 then Comma else if tightness == 1 then Assignment else if tightness == 2 then Function
    else if tightness == 3 then Choosing else if tightness == 4 then Pairing else if tightness == 5 then Disjunction
    else if tightness == 6 then Conjunction else if tightness == 7 then Negation
    else if tightness == 8 then Comparison else if tightness == 9 then Sum else if tightness == 10 then Product
    else if tightness == 11 then Power else if tightness == 12 then Prefix else if tightness == 13 then Allocation
    else if tightness == 14 then Postfix else Declaration
  }

  lemma OneFamilyEach(f: Family)
    ensures FamilyAt(Tightness(f)) == f && Tightness(f) <= 15
  {
  }

  lemma RowsAscend(t: nat, u: nat)
    requires t <= 15 && u <= 15
    ensures Row(t) >= 0 && (Row(t) < Row(u) <==> t < u) && (Row(t) == Row(u) <==> t == u) && (Row(t) == 1 <==> t == 1)
  {
  }

  lemma RowsOrderFamilies(f: Family, g: Family)
    ensures RowOf(f) >= 0
    ensures RowOf(f) < RowOf(g) <==> Tighter(g, f)
    ensures RowOf(f) == RowOf(g) <==> f == g
    ensures RowOf(f) == ASSIGNMENT_LEVEL <==> f == Assignment
  {
    var t, u := Tightness(f), Tightness(g);
    assert t <= 15 && FamilyAt(t) == f by { OneFamilyEach(f); }
    assert u <= 15 && FamilyAt(u) == g by { OneFamilyEach(g); }
    RowsAscend(t, u);
    OneFamilyEach(Assignment);
  }

  lemma LevelOfFamily(s: Signal, f: Family)
    requires InFamily(s, f)
    ensures OperatorOf(s).level == RowOf(f)
  {
  }

  /** The order of levels is the order of families, and the assignments are one of them. */
  lemma LevelsOrderFamilies(s: Signal, u: Signal, f: Family, g: Family)
    requires InFamily(s, f) && InFamily(u, g)
    ensures OperatorOf(s).HasLevel() && OperatorOf(u).HasLevel()
    ensures OperatorOf(s).level < OperatorOf(u).level <==> Tighter(g, f)
    ensures OperatorOf(s).level == OperatorOf(u).level <==> f == g
    ensures OperatorOf(s).IsAssignment() <==> f == Assignment
  {
    var p, q := RowOf(f), RowOf(g);
    assert OperatorOf(s).level == p by { LevelOfFamily(s, f); }
    assert OperatorOf(u).level == q by { LevelOfFamily(u, g); }
    assert p >= 0 && q >= 0 && (p < q <==> Tighter(g, f)) && (p == q <==> f == g) by {
      RowsOrderFamilies(f, g);
      RowsOrderFamilies(g, f);
    }
    assert p == ASSIGNMENT_LEVEL <==> f == Assignment by { RowsOrderFamilies(f, g); }
  }

  lemma ListedLoose(s: Signal)
    requires Level(s).Some? && Level(s).value <= 8
    ensures InFamily(s, Comma) || InFamily(s, Assignment) || InFamily(s, Function) || InFamily(s, Choosing)
         || InFamily(s, Pairing) || InFamily(s, Disjunction) || InFamily(s, Conjunction) || InFamily(s, Negation)
  {
  }

  lemma ListedTight(s: Signal)
    requires Level(s).Some? && Level(s).value > 8
    ensures InFamily(s, Comparison) || InFamily(s, Sum) || InFamily(s, Product) || InFamily(s, Power)
         || InFamily(s, Prefix) || InFamily(s, Allocation) || InFamily(s, Postfix) || InFamily(s, Declaration)
  {
  }

  /** Every signal with a level is in a family, and no other is. */
  lemma ListedExactly(s: Signal)
    ensures (exists f :: InFamily(s, f)) <==> OperatorOf(s).HasLevel()
  {
    TablesAgree(s);
    if Level(s).Some? {
      if Level(s).value <= 8 {
        ListedLoose(s);
      } else {
        ListedTight(s);
      }
    } else if f :| InFamily(s, f) {
      LevelOfFamily(s, f);
      RowsOrderFamilies(f, f);
    }
  }

  // ----- two operators -----

  /** `a s (b u c)` */
  function ToTheRight(s: Signal, u: Signal, a: Token, b: Token, c: Token): Tree {
    Node(Sig(OperatorOf(s)), Leaf(a), Node(Sig(OperatorOf(u)), Leaf(b), Leaf(c)))
  }

  /** `(a s b) u c` */
  function ToTheLeft(s: Signal, u: Signal, a: Token, b: Token, c: Token): Tree {
    Node(Sig(OperatorOf(u)), Node(Sig(OperatorOf(s)), Leaf(a), Leaf(b)), Leaf(c))
  }

  lemma BuildTwo(s: Operator, u: Operator, a: Token, b: Token, c: Token)
    requires !a.Sig? && !b.Sig? && !c.Sig?
    ensures Buildable([s, u], [a, b, c])
    ensures Build([s, u], [a, b, c]) ==
            if s.level < u.level || (s.level == u.level && s.IsAssignment())
            then Node(Sig(s), Leaf(a), Node(Sig(u), Leaf(b), Leaf(c)))
            else Node(Sig(u), Node(Sig(s), Leaf(a), Leaf(b)), Leaf(c))
  {
    var signals, objects := [s, u], [a, b, c];
    assert BuildOpen(signals, objects, 1) == Node(Sig(s), Leaf(a), Nil);
    var t := Node(Sig(s), Leaf(a), Leaf(b));
    assert BuildOpen(signals, objects, 2) == Climb(t, u);
    assert Build(signals, objects) == Attach(Climb(t, u), c);
    assert Climb(Leaf(b), u) == Node(Sig(u), Leaf(b), Nil);
    assert Attach(Node(Sig(u), Leaf(b), Nil), c) == Node(Sig(u), Leaf(b), Leaf(c));
  }

  /** For all operands, two operators of any two families group to the right exactly when the second one binds
      tighter or both are assignments, and otherwise to the left. */
  lemma FamiliesGroup(s: Signal, u: Signal, f: Family, g: Family, a: Token, b: Token, c: Token)
    requires InFamily(s, f) && InFamily(u, g) && !a.Sig? && !b.Sig? && !c.Sig?
    ensures Buildable([OperatorOf(s), OperatorOf(u)], [a, b, c])
    ensures var t := Build([OperatorOf(s), OperatorOf(u)], [a, b, c]);
            && (t == ToTheRight(s, u, a, b, c) <==> SecondTakes(f, g))
            && (t == ToTheLeft(s, u, a, b, c) <==> !SecondTakes(f, g))
  {
    LevelsOrderFamilies(s, u, f, g);
    BuildTwo(OperatorOf(s), OperatorOf(u), a, b, c);
    assert Leaf(a) != Node(Sig(OperatorOf(s)), Leaf(a), Leaf(b));
  }

  // ----- the same from the token list -----

  /** The written list; an operand that is missing leaves no token. */
  function Line(s: Signal, u: Signal, a: Token, b: Token, c: Token): seq<Token> {
    Tokens(a) + [Sig(OperatorOf(s))] + Tokens(b) + [Sig(OperatorOf(u))] + Tokens(c)
  }

  function Tokens(o: Token): seq<Token> {
    if o.Null? then [] else [o]
  }

  lemma LineIsWritten(s: Signal, u: Signal, a: Token, b: Token, c: Token)
    ensures Line(s, u, a, b, c) == DropNulls(Interleave([OperatorOf(s), OperatorOf(u)], [a, b, c]))
  {
    var p, q := OperatorOf(s), OperatorOf(u);
    InterleaveSnoc([], [a], p, b);
    InterleaveSnoc([p], [a, b], q, c);
    assert [] + [p] == [p] && [p] + [q] == [p, q] && [a] + [b] == [a, b] && [a, b] + [c] == [a, b, c];
    DropNullsSnoc([], a);
    assert [] + [a] == [a] && DropNulls([a]) == Tokens(a);
    DropNullsPair([a], p, b);
    DropNullsPair([a] + [Sig(p), b], q, c);
  }

  lemma {:induction false} ConvertEach(objects: seq<Token>, values: seq<Token>, f: Finish, bound: nat)
    requires forall k :: 0 <= k < |objects| ==> TokenSize(objects[k]) <= bound
    requires |values| == |objects| && forall k :: 0 <= k < |objects| ==> Convert(objects[k], f) == Some(values[k])
    ensures ConvertAll(objects, f, bound) == Some(values)
  {
    if objects != [] {
      var n := |objects| - 1;
      ConvertEach(objects[..n], values[..n], f, bound);
      assert values == values[..n] + [values[n]];
    }
  }

  lemma GrownTwo(s: Operator, u: Operator, objects: seq<Token>, values: seq<Token>, f: Finish)
    requires s.HasLevel() && u.HasLevel() && |objects| == |values| == 3 && NoSignals(objects) && !HasKeyword(objects)
    requires forall k :: 0 <= k < 3 ==> Convert(objects[k], f) == Some(values[k])
    ensures Buildable([s, u], values)
    ensures Grown(DropNulls(Interleave([s, u], objects)), f) == Some(Build([s, u], values))
  {
    var raw := DropNulls(Interleave([s, u], objects));
    SplitReadsExpression([s, u], objects);
    GrownStep(raw, f);
    ConvertEach(objects, values, f, ListSize(raw));
  }

  /** The tree of the token list `a s b u c`, whose operands may be groups or missing. */
  lemma FamiliesParse(s: Signal, u: Signal, f: Family, g: Family, objects: seq<Token>, values: seq<Token>)
    requires InFamily(s, f) && InFamily(u, g)
    requires |objects| == |values| == 3 && NoSignals(objects) && !HasKeyword(objects)
    requires forall k :: 0 <= k < 3 ==> Convert(objects[k], AsBuilt) == Some(values[k])
    ensures Parse(Line(s, u, objects[0], objects[1], objects[2]), AsBuilt)
         == Some(if SecondTakes(f, g) then ToTheRight(s, u, values[0], values[1], values[2])
                 else ToTheLeft(s, u, values[0], values[1], values[2]))
  {
    var a, b, c := values[0], values[1], values[2];
    LevelsOrderFamilies(s, u, f, g);
    LineIsWritten(s, u, objects[0], objects[1], objects[2]);
    assert objects == [objects[0], objects[1], objects[2]] && values == [a, b, c];
    GrownTwo(OperatorOf(s), OperatorOf(u), objects, values, AsBuilt);
    FamiliesGroup(s, u, f, g, a, b, c);
  }

  /** `a + b * c` is a sum, and so is `a * b + c`. */
  lemma ProductsInSums(a: Token, b: Token, c: Token)
    requires !a.Sig? && !b.Sig? && !c.Sig?
    ensures Buildable([OperatorOf(Add), OperatorOf(Mul)], [a, b, c])
    ensures Build([OperatorOf(Add), OperatorOf(Mul)], [a, b, c]) == ToTheRight(Add, Mul, a, b, c)
    ensures Build([OperatorOf(Mul), OperatorOf(Add)], [a, b, c]) == ToTheLeft(Mul, Add, a, b, c)
  {
    FamiliesGroup(Add, Mul, Sum, Product, a, b, c);
    FamiliesGroup(Mul, Add, Product, Sum, a, b, c);
  }
}
