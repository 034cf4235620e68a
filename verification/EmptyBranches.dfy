/**
 Finishing every group is not finishing once when a conditional has an empty branch: a group can then be
 finished to the null operand, and a minus sign beside it, below a compound assignment, is taken for a negation
 when the tree around it is trimmed.
 */
module EmptyBranches {
  import opened Options
  import opened Signals
  import opened Numeric
  import opened Values
  import opened Trees
  import opened Parser
  import opened Evaluator
  import opened Optimizer
  import opened Trimmer
  import opened TreeBuilder
  import opened OperatorFamilies

  // ----- lists of two operators, the second one binding tighter -----

  function Nested(s: Operator, u: Operator, a: Token, b: Token, c: Token): Tree {
    Node(Sig(s), Leaf(a), Node(Sig(u), Leaf(b), Leaf(c)))
  }

  lemma GrownNested(s: Operator, u: Operator, objects: seq<Token>, values: seq<Token>, f: Finish)
    requires 0 <= s.level < u.level && |objects| == |values| == 3 && NoSignals(objects) && !HasKeyword(objects)
    requires forall i :: 0 <= i < 3 ==> Convert(objects[i], f) == Some(values[i])
    ensures NoSignals(values)
    ensures Grown(DropNulls(Interleave([s, u], objects)), f) == Some(Nested(s, u, values[0], values[1], values[2]))
  {
    GrownTwo(s, u, objects, values, f);
    BuildTwo(s, u, values[0], values[1], values[2]);
    assert values == [values[0], values[1], values[2]];
  }

  lemma ReadLeaf(t: Token)
    requires !t.Sig? && !t.Expr?
    ensures Read(Leaf(t)) == Leaf(t)
  {
    assert Read(Nil) == Nil;
  }

  lemma ReadNested(s: Operator, u: Operator, a: Token, b: Token, c: Token)
    requires !s.signal.Sub? && !a.Sig? && !b.Sig? && !c.Sig? && !a.Expr? && !c.Expr? && !b.Null?
    ensures Read(Nested(s, u, a, b, c)) == Nested(s, u, a, if b.Expr? then Expr(Read(b.tree)) else b, c)
  {
    ReadLeaf(a);
    ReadLeaf(c);
    assert Read(Leaf(b)) == Leaf(if b.Expr? then Expr(Read(b.tree)) else b);
    assert !IsNull(Leaf(b));
  }

  // ----- finishing `true ? : c`, then `a += (..) - c`, then `(a += .. - c)` -----

  lemma ChoiceFinishes(s: Operator, u: Operator, a: Token, c: Token, f: Finish)
    requires f.Passes? && f.enabled && s.signal.Choice? && u.signal.Pair? && a == Val(Bool(true)) && c.Val?
    ensures Finished(Nested(s, u, a, Null, c), f) == Some(Leaf(Null))
  {
    var t := Nested(s, u, a, Null, c);
    assert Trim(Leaf(a)) == Some(Leaf(a)) && Trim(Leaf(Null)) == Some(Leaf(Null)) && Trim(Leaf(c)) == Some(Leaf(c));
    assert Trim(t) == Some(t);
    assert Opt(Leaf(a), f.consts, f.host) == Some(Leaf(a)) && Opt(Leaf(c), f.consts, f.host) == Some(Leaf(c));
    assert Opt(Leaf(Null), f.consts, f.host) == Some(Leaf(Null));
    assert Opt(t, f.consts, f.host) == Some(Leaf(Null));
  }

  lemma DifferenceFinishes(s: Operator, u: Operator, a: Token, c: Token, f: Finish)
    requires f.Passes? && f.enabled && s.signal.AddAsi? && u.signal.Sub? && a.Id? && c.Val?
    ensures Finished(Nested(s, u, a, Expr(Leaf(Null)), c), f) == Some(Nested(s, u, a, Null, c))
  {
    var t := Nested(s, u, a, Expr(Leaf(Null)), c);
    assert Trim(Leaf(Null)) == Some(Leaf(Null)) && Trim(Leaf(c)) == Some(Leaf(c)) && Trim(Leaf(a)) == Some(Leaf(a));
    assert Trim(Leaf(Expr(Leaf(Null)))) == Some(Leaf(Null));
    assert Trim(t.right) == Some(Node(Sig(u), Leaf(Null), Leaf(c)));
    assert Trim(t) == Some(Nested(s, u, a, Null, c));
  }

  lemma DifferenceBecomesSign(s: Operator, u: Operator, a: Token, c: Token, f: Finish)
    requires f.Passes? && f.enabled && s.signal.AddAsi? && u.signal.Sub? && a.Id? && c.Val?
    ensures Finished(Leaf(Expr(Nested(s, u, a, Null, c))), f) == Some(Nested(s, MINUS, a, Null, c))
  {
    var t := Nested(s, u, a, Null, c);
    assert Trim(Leaf(Null)) == Some(Leaf(Null)) && Trim(Leaf(c)) == Some(Leaf(c)) && Trim(Leaf(a)) == Some(Leaf(a));
    assert Trim(t.right) == Some(Node(Sig(MINUS), Leaf(Null), Leaf(c)));
    assert Trim(t) == Some(Nested(s, MINUS, a, Null, c));
    assert Trim(Leaf(Expr(t))) == Trim(t);
  }

  // ----- what the two mean -----

  lemma DifferenceFails(s: Operator, u: Operator, a: Token, b: Token, c: Token, st: Store, host: Host)
    requires s.signal.AddAsi? && u.signal.Sub? && Eval(Leaf(a), st, host).0.Ok? && Eval(Leaf(a), st, host).1 == st
    requires Eval(Leaf(b), st, host) == (Ok(Void), st) && c.Val?
    ensures Eval(Nested(s, u, a, b, c), st, host) == (Fail(Uninitialized), st)
  {
    var t := Nested(s, u, a, b, c);
    assert Eval(Leaf(c), st, host) == (Ok(Lit(c.value)), st);
    assert EvalBoth(t.right, st, host) == (Ok((Void, Lit(c.value))), st);
    assert Eval(t.right, st, host) == (Fail(Uninitialized), st);
    assert EvalBoth(t, st, host) == (Fail(Uninitialized), st);
  }

  lemma ChoiceIsVoid(s: Operator, u: Operator, a: Token, c: Token, st: Store, host: Host)
    requires s.signal.Choice? && a == Val(Bool(true))
    ensures Eval(Leaf(Expr(Nested(s, u, a, Null, c))), st, host) == (Ok(Void), st)
  {
    var t := Nested(s, u, a, Null, c);
    assert Eval(Leaf(a), st, host) == (Ok(Lit(Bool(true))), st) && Eval(Leaf(Null), st, host) == (Ok(Void), st);
    ChoiceStep(t, st, host);
    assert Eval(Leaf(Expr(t)), st, host) == Eval(t, st, host);
  }

  lemma SignSubtracts(s: Operator, x: string, l: nat, i: Int64, k: Int64, st: Store, host: Host)
    requires s.signal.AddAsi? && Lookup(st.domains, x) == Some(l) && l < |st.cells|
    requires st.cells[l] == Cell(Plain(Num(Int(i))), false) && Fits(-(k as int)) && Fits(i - k)
    ensures Eval(Nested(s, MINUS, Id(x), Null, Val(Num(Int(k)))), st, host)
         == (Ok(Ref(l)), st.(cells := st.cells[l := Cell(Plain(Num(Int(i - k))), false)]))
  {
    var t := Nested(s, MINUS, Id(x), Null, Val(Num(Int(k))));
    assert Eval(t.right.right, st, host) == (Ok(Lit(Num(Int(k)))), st);
    assert Eval(t.right, st, host) == (Ok(Temp(Plain(Num(Int(-k))))), st);
    assert Eval(t.left, st, host) == (Ok(Ref(l)), st);
    assert EvalBoth(t, st, host) == (Ok((Ref(l), Temp(Plain(Num(Int(-k)))))), st);
    assert Arith(Add, Plain(Num(Int(i))), Plain(Num(Int(-k))), host) == Ok(Num(Int(i - k)));
  }

  // ----- `(x += (true ? : 2) - 1)` -----

  const CHOICE := OperatorOf(Choice)
  const PAIR := OperatorOf(Pair)
  const ADD_ASSIGN := OperatorOf(AddAsi)
  const SUBTRACT := OperatorOf(Sub)

  function Parenthesised(tokens: seq<Token>): Token { Group([Segment(tokens)]) }

  /** `yes ? : c` */
  function Conditional(yes: Token, c: Token): seq<Token> { Line(Choice, Pair, yes, Null, c) }

  /** `a += (..) - c` */
  function Increment(a: Token, g: Token, c: Token): seq<Token> { Line(AddAsi, Sub, a, g, c) }

  lemma GroupConverts(tokens: seq<Token>, f: Finish)
    requires Parse(tokens, f).Some?
    ensures Convert(Parenthesised(tokens), f) == Some(Expr(Parse(tokens, f).value))
  {
    assert Joined([Segment(tokens)]) == tokens;
  }

  lemma ParseFinishes(raw: seq<Token>, t: Tree, f: Finish)
    requires Grown(raw, f) == Some(t)
    ensures Parse(raw, f) == Finished(t, f)
  {
  }

  /** The conditional is finished to its empty branch. */
  lemma ConditionalIsNull(yes: Token, c: Token, f: Finish)
    requires yes == Val(Bool(true)) && c.Val? && f.Passes? && f.enabled
    ensures Parse(Conditional(yes, c), AsBuilt) == Some(Nested(CHOICE, PAIR, yes, Null, c))
    ensures Parse(Conditional(yes, c), f) == Some(Leaf(Null))
  {
    var raw := Conditional(yes, c);
    LineIsWritten(Choice, Pair, yes, Null, c);
    GrownNested(CHOICE, PAIR, [yes, Null, c], [yes, Null, c], AsBuilt);
    GrownNested(CHOICE, PAIR, [yes, Null, c], [yes, Null, c], f);
    ParseFinishes(raw, Nested(CHOICE, PAIR, yes, Null, c), AsBuilt);
    ParseFinishes(raw, Nested(CHOICE, PAIR, yes, Null, c), f);
    ChoiceFinishes(CHOICE, PAIR, yes, c, f);
  }

  /** With a group that is finished to nothing, the null operand comes to stand on the left of the minus sign. */
  lemma IncrementLosesOperand(a: Token, g: Token, c: Token, t: Tree, f: Finish)
    requires a.Id? && c.Val? && g.Group? && f.Passes? && f.enabled
    requires Convert(g, AsBuilt) == Some(Expr(t)) && Convert(g, f) == Some(Expr(Leaf(Null)))
    ensures Parse(Increment(a, g, c), AsBuilt) == Some(Nested(ADD_ASSIGN, SUBTRACT, a, Expr(t), c))
    ensures Parse(Increment(a, g, c), f) == Some(Nested(ADD_ASSIGN, SUBTRACT, a, Null, c))
  {
    var raw := Increment(a, g, c);
    LineIsWritten(AddAsi, Sub, a, g, c);
    GrownNested(ADD_ASSIGN, SUBTRACT, [a, g, c], [a, Expr(t), c], AsBuilt);
    GrownNested(ADD_ASSIGN, SUBTRACT, [a, g, c], [a, Expr(Leaf(Null)), c], f);
    ParseFinishes(raw, Nested(ADD_ASSIGN, SUBTRACT, a, Expr(t), c), AsBuilt);
    ParseFinishes(raw, Nested(ADD_ASSIGN, SUBTRACT, a, Expr(Leaf(Null)), c), f);
    DifferenceFinishes(ADD_ASSIGN, SUBTRACT, a, c, f);
  }

  /** In parentheses it is trimmed once more: the subtraction becomes a negation. */
  lemma MinusBecomesSign(raw: seq<Token>, a: Token, c: Token, t: Tree, f: Finish)
    requires a.Id? && c.Val? && f.Passes? && f.enabled && Parse(raw, AsBuilt) == Some(t)
    requires Parse(raw, f) == Some(Nested(ADD_ASSIGN, SUBTRACT, a, Null, c))
    ensures Parse([Parenthesised(raw)], AsBuilt) == Some(Leaf(Expr(t)))
    ensures Parse([Parenthesised(raw)], f) == Some(Nested(ADD_ASSIGN, MINUS, a, Null, c))
  {
    GroupConverts(raw, AsBuilt);
    GroupConverts(raw, f);
    ParseFinishes([Parenthesised(raw)], Leaf(Expr(t)), AsBuilt);
    ParseFinishes([Parenthesised(raw)], Leaf(Expr(Nested(ADD_ASSIGN, SUBTRACT, a, Null, c))), f);
    DifferenceBecomesSign(ADD_ASSIGN, SUBTRACT, a, c, f);
  }

  /** `(x += (true ? : c) - k)`. As written it fails, since the conditional has no value; as compiled it lowers
      `x` by k. */
  lemma EmptyBranchChangesMeaning(x: string, c: Token, l: nat, i: Int64, k: Int64, f: Finish, st: Store)
    requires f.Passes? && f.enabled && c.Val? && Lookup(st.domains, x) == Some(l) && l < |st.cells|
    requires st.cells[l] == Cell(Plain(Num(Int(i))), false) && Fits(-(k as int)) && Fits(i - k)
    ensures var group := Parenthesised(Conditional(Val(Bool(true)), c));
            var raw := [Parenthesised(Increment(Id(x), group, Val(Num(Int(k)))))];
            && Parse(raw, AsBuilt).Some? && Parse(raw, f).Some?
            && Eval(Read(Parse(raw, AsBuilt).value), st, f.host) == (Fail(Uninitialized), st)
            && Eval(Parse(raw, f).value, st, f.host)
            == (Ok(Ref(l)), st.(cells := st.cells[l := Cell(Plain(Num(Int(i - k))), false)]))
  {
    var yes, a, m := Val(Bool(true)), Id(x), Val(Num(Int(k)));
    var t := Nested(CHOICE, PAIR, yes, Null, c);
    var group := Parenthesised(Conditional(yes, c));
    ConditionalIsNull(yes, c, f);
    GroupConverts(Conditional(yes, c), AsBuilt);
    GroupConverts(Conditional(yes, c), f);
    IncrementLosesOperand(a, group, m, t, f);
    var written := Nested(ADD_ASSIGN, SUBTRACT, a, Expr(t), m);
    MinusBecomesSign(Increment(a, group, m), a, m, written, f);
    SignSubtracts(ADD_ASSIGN, x, l, i, k, st, f.host);
    WrittenFails(a, yes, c, m, st, f.host);
  }

  lemma WrittenFails(a: Token, yes: Token, c: Token, m: Token, st: Store, host: Host)
    requires a.Id? && Lookup(st.domains, a.id).Some? && yes == Val(Bool(true)) && c.Val? && m.Val?
    ensures var t := Nested(CHOICE, PAIR, yes, Null, c);
            Eval(Read(Leaf(Expr(Nested(ADD_ASSIGN, SUBTRACT, a, Expr(t), m)))), st, host) == (Fail(Uninitialized), st)
  {
    var t := Nested(CHOICE, PAIR, yes, Null, c);
    var written := Nested(ADD_ASSIGN, SUBTRACT, a, Expr(t), m);
    ReadChoice(CHOICE, PAIR, yes, c);
    ReadNested(ADD_ASSIGN, SUBTRACT, a, Expr(t), m);
    assert Read(Leaf(Expr(written))) == Leaf(Expr(written));
    ChoiceIsVoid(CHOICE, PAIR, yes, c, st, host);
    DifferenceFails(ADD_ASSIGN, SUBTRACT, a, Expr(t), m, st, host);
  }

  lemma ReadChoice(s: Operator, u: Operator, a: Token, c: Token)
    requires s.signal.Choice? && u.signal.Pair? && a.Val? && c.Val?
    ensures Read(Nested(s, u, a, Null, c)) == Nested(s, u, a, Null, c)
  {
    ReadLeaf(a);
    ReadLeaf(c);
    ReadLeaf(Null);
  }
}
