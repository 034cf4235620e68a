/**
 What `gen_tree` as a whole guarantees: exactly which token lists it accepts, and that the tree it
 builds, nested groups included, is ordered and spells the list it was built from.
 */
module ParserTheorems {
  import opened Signals
  import opened Trees
  import opened Precedence
  import opened Parser
  import opened Acceptance
  import opened TreeBuilder

  const LEFT_PAREN: Token := Sig(OperatorOf(Slb))
  const RIGHT_PAREN: Token := Sig(OperatorOf(Srb))

  // ----- spelling -----

  /** The source text of a token: null operands vanish, groups and group trees get parentheses. */
  function TextOf(t: Token): seq<Token>
    decreases t, 0
  {
    if t.Null? then []
    else if t.Group? then [LEFT_PAREN] + TextOfSegments(t.segments) + [RIGHT_PAREN]
    else if t.Expr? then [LEFT_PAREN] + TextOfTree(t.tree) + [RIGHT_PAREN]
    else [t]
  }

  function TextOfTree(t: Tree): seq<Token>
    decreases t, 0
  {
    if t.Nil? then [] else TextOfTree(t.left) + TextOf(t.data) + TextOfTree(t.right)
  }

  function TextOfList(tokens: seq<Token>): seq<Token>
    decreases tokens, 1
  {
    if tokens == [] then []
    else TextOfList(tokens[..|tokens| - 1]) + TextOf(tokens[|tokens| - 1])
  }

  function TextOfSegments(segments: seq<Segment>): seq<Token>
    decreases segments, 1
  {
    if segments == [] then []
    else if |segments| == 1 then TextOfList(segments[0].tokens)
    else TextOfList(segments[0].tokens) + [Sig(OperatorOf(Com))] + TextOfSegments(segments[1..])
  }

  lemma {:induction false} TextOfSnoc(body: seq<Token>, t: Token)
    ensures TextOfList(body + [t]) == TextOfList(body) + TextOf(t)
  {
    assert (body + [t])[..|body|] == body;
  }

  lemma {:induction false} Regroup(a: seq<Token>, b: seq<Token>, c: seq<Token>)
    ensures (a + b) + c == a + (b + c)
  {
  }

  lemma {:induction false} TextOfConcat(a: seq<Token>, b: seq<Token>)
    ensures TextOfList(a + b) == TextOfList(a) + TextOfList(b)
  {
    if b == [] {
      assert a + b == a;
    } else {
      var n := |b| - 1;
      var before := b[..n];
      assert TextOfList(a + b) == TextOfList(a + before) + TextOf(b[n]) by {
        assert a + b == (a + before) + [b[n]];
        TextOfSnoc(a + before, b[n]);
      }
      assert TextOfList(b) == TextOfList(before) + TextOf(b[n]) by {
        assert b == before + [b[n]];
        TextOfSnoc(before, b[n]);
      }
      TextOfConcat(a, before);
      Regroup(TextOfList(a), TextOfList(before), TextOf(b[n]));
    }
  }

  lemma {:induction false} TextOfOne(t: Token)
    ensures TextOfList([t]) == TextOf(t)
  {
    assert [t][..0] == [];
  }

  lemma {:induction false} TextOfJoined(segments: seq<Segment>)
    ensures TextOfList(Joined(segments)) == TextOfSegments(segments)
  {
    if |segments| > 1 {
      TextOfJoined(segments[1..]);
      TextOfConcat(segments[0].tokens + [COMMA], Joined(segments[1..]));
      TextOfConcat(segments[0].tokens, [COMMA]);
      TextOfOne(COMMA);
    }
  }

  lemma {:induction false} TextOfInOrder(t: Tree)
    ensures TextOfTree(t) == TextOfList(InOrder(t))
  {
    if t.Node? {
      TextOfInOrder(t.left);
      TextOfInOrder(t.right);
      TextOfConcat(InOrder(t.left) + [t.data], InOrder(t.right));
      TextOfConcat(InOrder(t.left), [t.data]);
      TextOfOne(t.data);
    }
  }

  lemma {:induction false} TextOfDropNulls(tokens: seq<Token>)
    ensures TextOfList(DropNulls(tokens)) == TextOfList(tokens)
  {
    if tokens != [] {
      var n := |tokens| - 1;
      TextOfDropNulls(tokens[..n]);
      if tokens[n].Null? {
        assert DropNulls(tokens) == DropNulls(tokens[..n]);
        assert TextOfList(tokens) == TextOfList(tokens[..n]);
      } else {
        TextOfConcat(DropNulls(tokens[..n]), [tokens[n]]);
        TextOfOne(tokens[n]);
      }
    }
  }

  predicate SameText(a: seq<Token>, b: seq<Token>) {
    |a| == |b| && forall i :: 0 <= i < |a| ==> TextOf(a[i]) == TextOf(b[i])
  }

  lemma {:induction false} TextOfInterleave(signals: seq<Operator>, a: seq<Token>, b: seq<Token>)
    requires |a| == |signals| + 1 && SameText(a, b)
    ensures TextOfList(Interleave(signals, a)) == TextOfList(Interleave(signals, b))
  {
    var n := |signals|;
    if n == 0 {
      assert a[..0] == b[..0];
    } else {
      TextOfInterleave(signals[..n - 1], a[..n], b[..n]);
      TextOfSnoc2(Interleave(signals[..n - 1], a[..n]), Sig(signals[n - 1]), a[n]);
      TextOfSnoc2(Interleave(signals[..n - 1], b[..n]), Sig(signals[n - 1]), b[n]);
    }
  }

  lemma {:induction false} TextOfSnoc2(body: seq<Token>, s: Token, o: Token)
    ensures TextOfList(body + [s, o]) == TextOfList(body) + TextOf(s) + TextOf(o)
  {
    assert (body + [s, o])[..|body| + 1] == body + [s];
    assert (body + [s])[..|body|] == body;
  }

  lemma {:induction false} GroupText(o: Token, t: Tree)
    requires o.Group? && TextOfTree(t) == TextOfList(Joined(o.segments))
    ensures TextOf(Expr(t)) == TextOf(o)
  {
    TextOfJoined(o.segments);
  }

  lemma {:induction false} ConvertText(o: Token)
    requires Convert(o, AsBuilt).Some?
    ensures TextOf(Convert(o, AsBuilt).value) == TextOf(o)
    decreases TokenSize(o), 1
  {
    if o.Group? {
      JoinedSize(o.segments);
      ParseSpellsTokens(Joined(o.segments));
      GroupText(o, Parse(Joined(o.segments), AsBuilt).value);
    }
  }

  lemma {:induction false} ConvertAllText(objects: seq<Token>, bound: nat)
    requires forall i :: 0 <= i < |objects| ==> TokenSize(objects[i]) <= bound
    requires ConvertAll(objects, AsBuilt, bound).Some?
    ensures SameText(ConvertAll(objects, AsBuilt, bound).value, objects)
    decreases bound, 2, |objects|
  {
    if objects != [] {
      ConvertAllText(objects[..|objects| - 1], bound);
      ConvertText(objects[|objects| - 1]);
    }
  }

  lemma {:induction false} BuiltText(scan: Scan, operands: seq<Token>, raw: seq<Token>)
    requires Buildable(scan.signals, operands) && SameText(operands, Closed(scan))
    requires ReadBack(scan) == DropNulls(raw)
    ensures TextOfTree(Build(scan.signals, operands)) == TextOfList(raw)
  {
    calc {
      TextOfTree(Build(scan.signals, operands));
      { BuildInOrder(scan.signals, operands); TextOfInOrder(Build(scan.signals, operands)); }
      TextOfList(Interleave(scan.signals, operands));
      { TextOfInterleave(scan.signals, operands, Closed(scan)); }
      TextOfList(Interleave(scan.signals, Closed(scan)));
      { TextOfDropNulls(Interleave(scan.signals, Closed(scan))); }
      TextOfList(DropNulls(raw));
      { TextOfDropNulls(raw); }
      TextOfList(raw);
    }
  }

  lemma {:induction false} SplitSpells(raw: seq<Token>)
    requires |raw| != 1 && Grown(raw, AsBuilt).Some?
    ensures TextOfTree(Grown(raw, AsBuilt).value) == TextOfList(raw)
    decreases ListSize(raw), 3
  {
    GrownStep(raw, AsBuilt);
    var scan := ScanTokens(raw);
    var operands := ConvertAll(Closed(scan), AsBuilt, ListSize(raw)).value;
    ConvertAllText(Closed(scan), ListSize(raw));
    ScanCounts(raw);
    ScanReadsBack(raw);
    BuiltText(scan, operands, raw);
  }

  /** Round trip: the tree spells exactly the tokens it was built from, parentheses included. */
  lemma {:induction false} ParseSpellsTokens(raw: seq<Token>)
    requires Parse(raw, AsBuilt).Some?
    ensures TextOfTree(Parse(raw, AsBuilt).value) == TextOfList(raw)
    decreases ListSize(raw), 4
  {
    if |raw| == 1 {
      MemberSize(raw, 0);
      ConvertText(raw[0]);
      TextOfOne(raw[0]);
      var o := Convert(raw[0], AsBuilt).value;
      assert Parse(raw, AsBuilt).value == Leaf(o) && raw == [raw[0]];
      assert TextOfTree(Leaf(o)) == [] + TextOf(o) + [];
    } else {
      SplitSpells(raw);
    }
  }

  // ----- order at every depth -----

  /** One token, or a complete precedence-ordered expression; and the same for every tree its tokens hold. */
  predicate WellBuilt(t: Tree)
    decreases t, 1
  {
    t.Node? && ((t.left.Nil? && t.right.Nil?) || (IsExpr(t) && Ordered(t))) && HoldsWellBuilt(t)
  }

  predicate HoldsWellBuilt(t: Tree)
    decreases t, 0
  {
    t.Node? ==> (t.data.Expr? ==> WellBuilt(t.data.tree)) && HoldsWellBuilt(t.left) && HoldsWellBuilt(t.right)
  }

  /** Trees already held by the token, groups included, are well built. The lexer's tokens hold none. */
  predicate Sound(o: Token) {
    match o
    case Expr(t) => WellBuilt(t)
    case Group(segments) => forall i :: 0 <= i < |segments| ==> SoundSegment(segments[i])
    case _ => true
  }

  predicate SoundSegment(segment: Segment) {
    forall i :: 0 <= i < |segment.tokens| ==> Sound(segment.tokens[i])
  }

  predicate AllSound(tokens: seq<Token>) { forall o :: o in tokens ==> Sound(o) }

  lemma {:induction false} HeldInOrder(t: Tree)
    ensures HoldsWellBuilt(t) <==> forall o :: o in InOrder(t) && o.Expr? ==> WellBuilt(o.tree)
  {
    if t.Node? {
      HeldInOrder(t.left);
      HeldInOrder(t.right);
      assert forall o :: o in InOrder(t) <==> o in InOrder(t.left) || o == t.data || o in InOrder(t.right);
    }
  }

  lemma {:induction false} JoinedSound(segments: seq<Segment>)
    requires forall i :: 0 <= i < |segments| ==> SoundSegment(segments[i])
    ensures AllSound(Joined(segments))
  {
    if |segments| > 1 {
      JoinedSound(segments[1..]);
    }
    if segments != [] {
      assert SoundSegment(segments[0]) && AllSound(segments[0].tokens);
    }
  }

  lemma {:induction false} ClosedFrom(raw: seq<Token>, o: Token)
    requires o in Closed(ScanTokens(raw))
    ensures o in raw || o == Null
  {
    if raw != [] {
      var n := |raw| - 1;
      assert raw == raw[..n] + [raw[n]];
      if o in Closed(ScanTokens(raw[..n])) {
        ClosedFrom(raw[..n], o);
      }
    }
  }

  lemma {:induction false} InterleaveFrom(signals: seq<Operator>, objects: seq<Token>, o: Token)
    requires |objects| == |signals| + 1 && o in Interleave(signals, objects)
    ensures o.Sig? || o in objects
  {
    var n := |signals|;
    if n > 0 && o in Interleave(signals[..n - 1], objects[..n]) {
      InterleaveFrom(signals[..n - 1], objects[..n], o);
    }
  }

  lemma {:induction false} ConvertSound(o: Token)
    requires Sound(o) && Convert(o, AsBuilt).Some?
    ensures Convert(o, AsBuilt).value.Expr? ==> WellBuilt(Convert(o, AsBuilt).value.tree)
    decreases TokenSize(o), 1
  {
    if o.Group? {
      JoinedSize(o.segments);
      JoinedSound(o.segments);
      ParseIsOrdered(Joined(o.segments));
    }
  }

  lemma {:induction false} ConvertAllSound(objects: seq<Token>, bound: nat)
    requires forall i :: 0 <= i < |objects| ==> TokenSize(objects[i]) <= bound
    requires AllSound(objects) && ConvertAll(objects, AsBuilt, bound).Some?
    ensures forall o :: o in ConvertAll(objects, AsBuilt, bound).value && o.Expr? ==> WellBuilt(o.tree)
    decreases bound, 2, |objects|
  {
    if objects != [] {
      ConvertAllSound(objects[..|objects| - 1], bound);
      ConvertSound(objects[|objects| - 1]);
    }
  }

  lemma {:induction false} BuiltIsWellBuilt(raw: seq<Token>)
    requires |raw| != 1 && Grown(raw, AsBuilt).Some? && AllSound(raw)
    ensures HoldsWellBuilt(Grown(raw, AsBuilt).value)
    decreases ListSize(raw), 3
  {
    GrownStep(raw, AsBuilt);
    var signals, objects := ScanTokens(raw).signals, Closed(ScanTokens(raw));
    forall o | o in objects
      ensures Sound(o)
    {
      ClosedFrom(raw, o);
    }
    ConvertAllSound(objects, ListSize(raw));
    var operands := ConvertAll(objects, AsBuilt, ListSize(raw)).value;
    BuildInOrder(signals, operands);
    forall o | o in InOrder(Build(signals, operands)) && o.Expr?
      ensures WellBuilt(o.tree)
    {
      InterleaveFrom(signals, operands, o);
    }
    HeldInOrder(Build(signals, operands));
  }

  /** A list of several tokens gives a complete, precedence-ordered expression, and so does the inside of
      every group, at any depth. */
  lemma {:induction false} ParseIsOrdered(raw: seq<Token>)
    requires Parse(raw, AsBuilt).Some?
    ensures |raw| != 1 ==> IsExpr(Parse(raw, AsBuilt).value) && Ordered(Parse(raw, AsBuilt).value)
    ensures AllSound(raw) ==> WellBuilt(Parse(raw, AsBuilt).value)
    decreases ListSize(raw), 4
  {
    if |raw| == 1 {
      MemberSize(raw, 0);
      if AllSound(raw) {
        assert raw[0] in raw;
        ConvertSound(raw[0]);
      }
    } else {
      GrownStep(raw, AsBuilt);
      var signals, objects := ScanTokens(raw).signals, Closed(ScanTokens(raw));
      var operands := ConvertAll(objects, AsBuilt, ListSize(raw)).value;
      BuildInOrder(signals, operands);
      BuildOrdered(signals, operands);
      if AllSound(raw) {
        BuiltIsWellBuilt(raw);
      }
    }
  }

  // ----- acceptance -----

  function SignalsOf(raw: seq<Token>): seq<Operator> {
    if raw == [] then []
    else SignalsOf(raw[..|raw| - 1]) + if raw[|raw| - 1].Sig? then [raw[|raw| - 1].op] else []
  }

  /** What a token list must look like to have a tree, said without splitting or building. */
  predicate WellFormed(raw: seq<Token>) {
    |raw| == 1
    || (SignalsOf(raw) != [] && !AdjacentOperands(raw) && !HasKeyword(raw)
        && (|SignalsOf(raw)| == 1 || forall s :: s in SignalsOf(raw) ==> s.HasLevel()))
  }

  /** The closing passes, if there are any, accept the tree. */
  ghost predicate CanFinish(t: Tree, f: Finish) {
    match f
    case AsBuilt => true
    case Passes(enabled, consts, host) => Acceptable(t, enabled, consts, host)
  }

  lemma FinishExactly(t: Tree, f: Finish)
    ensures Finished(t, f).Some? <==> CanFinish(t, f)
  {
    if f.Passes? {
      OptimizedExactly(t, f.enabled, f.consts, f.host);
    }
  }

  /** Every group is accepted, the list is well formed, and the operands of the tree over it are there. */
  ghost predicate Accepted(raw: seq<Token>, f: Finish)
    decreases ListSize(raw), 1
  {
    GroupsAccepted(raw, f, ListSize(raw)) && WellFormed(raw)
    && (Grown(raw, f).Some? ==> CanFinish(Grown(raw, f).value, f))
  }

  ghost predicate GroupsAccepted(raw: seq<Token>, f: Finish, bound: nat)
    requires ListSize(raw) <= bound
    decreases bound, 0, |raw|
  {
    forall i :: 0 <= i < |raw| && raw[i].Group? ==>
      (MemberSize(raw, i); JoinedSize(raw[i].segments); Accepted(Joined(raw[i].segments), f))
  }

  lemma {:induction false} ScanSignals(raw: seq<Token>)
    ensures ScanTokens(raw).signals == SignalsOf(raw)
  {
    if raw != [] {
      ScanSignals(raw[..|raw| - 1]);
    }
  }

  /** The groups of the raw list are the groups among the collected operands. */
  lemma {:induction false} ScanKeepsGroups(raw: seq<Token>, o: Token)
    requires o.Group?
    ensures o in raw <==> o in Closed(ScanTokens(raw))
  {
    if raw != [] {
      var n := |raw| - 1;
      assert raw == raw[..n] + [raw[n]];
      ScanKeepsGroups(raw[..n], o);
    }
  }

  lemma {:induction false} ConvertAllSome(objects: seq<Token>, f: Finish, bound: nat)
    requires forall i :: 0 <= i < |objects| ==> TokenSize(objects[i]) <= bound
    ensures ConvertAll(objects, f, bound).Some? <==> forall o :: o in objects ==> Convert(o, f).Some?
  {
    if objects != [] {
      var n := |objects| - 1;
      var before := objects[..n];
      ConvertAllSome(before, f, bound);
      assert objects == before + [objects[n]];
      assert ConvertAll(objects, f, bound).Some? <==>
               ConvertAll(before, f, bound).Some? && Convert(objects[n], f).Some?;
      if ConvertAll(objects, f, bound).Some? {
        forall o | o in objects ensures Convert(o, f).Some? {
          assert o in before || o == objects[n];
        }
      } else if Convert(objects[n], f).Some? {
        var o :| o in before && Convert(o, f).None?;
        assert o in objects;
      } else {
        assert objects[n] in objects;
      }
    }
  }

  lemma {:induction false} ConvertAccepts(o: Token, f: Finish)
    ensures Convert(o, f).Some? <==> (o.Group? ==> Accepted(Joined(o.segments), f))
    decreases TokenSize(o), 1
  {
    if o.Group? {
      JoinedSize(o.segments);
      ParseAccepts(Joined(o.segments), f);
    }
  }

  lemma {:induction false} AllConvert(raw: seq<Token>, f: Finish)
    ensures GroupsAccepted(raw, f, ListSize(raw)) <==> forall o :: o in raw ==> Convert(o, f).Some?
    decreases ListSize(raw), 3
  {
    forall i | 0 <= i < |raw|
      ensures Convert(raw[i], f).Some? <==> (raw[i].Group? ==> Accepted(Joined(raw[i].segments), f))
    {
      MemberSize(raw, i);
      ConvertAccepts(raw[i], f);
    }
    if forall o :: o in raw ==> Convert(o, f).Some? {
      assert forall i :: 0 <= i < |raw| ==> raw[i] in raw;
    }
  }

  lemma {:induction false} ClosedConvert(raw: seq<Token>, f: Finish)
    ensures (forall o :: o in Closed(ScanTokens(raw)) ==> Convert(o, f).Some?)
            <==> forall o :: o in raw ==> Convert(o, f).Some?
  {
    forall o: Token | o.Group?
      ensures o in raw <==> o in Closed(ScanTokens(raw))
    {
      ScanKeepsGroups(raw, o);
    }
    assert forall o: Token :: !o.Group? ==> Convert(o, f).Some?;
  }

  lemma {:induction false} GrownAccepts(raw: seq<Token>, f: Finish)
    ensures Grown(raw, f).Some? <==> GroupsAccepted(raw, f, ListSize(raw)) && WellFormed(raw)
    decreases ListSize(raw), 4
  {
    AllConvert(raw, f);
    if |raw| == 1 {
      assert raw[0] in raw;
    } else if |raw| > 1 {
      GrownStep(raw, f);
      ScanCounts(raw);
      ScanSignals(raw);
      ConvertAllSome(Closed(ScanTokens(raw)), f, ListSize(raw));
      ClosedConvert(raw, f);
    }
  }

  /** `gen_tree` succeeds exactly on the accepted token lists. */
  lemma {:induction false} ParseAccepts(raw: seq<Token>, f: Finish)
    ensures Parse(raw, f).Some? <==> Accepted(raw, f)
    decreases ListSize(raw), 5
  {
    GrownAccepts(raw, f);
    if Grown(raw, f).Some? {
      FinishExactly(Grown(raw, f).value, f);
    }
  }
}
