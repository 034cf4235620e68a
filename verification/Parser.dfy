/**
 `split_token`: a raw token list becomes a list of operators and a list of operands, null operands filled in.
 */
module Parser {
  import opened Signals
  import opened Trees

  // ----- split_token -----

  datatype Scan = Scan(signals: seq<Operator>, objects: seq<Token>, requestSignal: bool)

  predicate IsOperand(t: Token) { !t.Sig? }

  /** What the scan has collected after reading `raw`: a null operand stands before each signal
      that has no operand of its own on the left. */
  function ScanTokens(raw: seq<Token>): (scan: Scan)
    ensures NoSignals(scan.objects)
  {
    if raw == [] then Scan([], [], false)
    else
      var before := ScanTokens(raw[..|raw| - 1]);
      var t := raw[|raw| - 1];
      if t.Sig? then
        Scan(before.signals + [t.op], if before.requestSignal then before.objects else before.objects + [Null], false)
      else Scan(before.signals, before.objects + [t], true)
  }

  function Closed(scan: Scan): seq<Token> {
    if scan.requestSignal then scan.objects else scan.objects + [Null]
  }

  predicate HasKeyword(raw: seq<Token>) {
    exists i :: 0 <= i < |raw| && raw[i].Action?
  }

  /** Collects the signals and operands of a raw token list; fails on a keyword. */
  method SplitToken(raw: seq<Token>) returns (ok: bool, signals: seq<Operator>, objects: seq<Token>)
    ensures ok <==> !HasKeyword(raw)
    ensures ok ==> signals == ScanTokens(raw).signals && objects == Closed(ScanTokens(raw))
  {
    ok, signals, objects := true, [], [];
    var requestSignal := false;
    for i := 0 to |raw|
      invariant forall k :: 0 <= k < i ==> !raw[k].Action?
      invariant Scan(signals, objects, requestSignal) == ScanTokens(raw[..i])
    {
      var ptr := raw[i];
      assert raw[..i + 1][..i] == raw[..i];
      if ptr.Action? {
        ok := false;
        return;
      }
      if ptr.Sig? {
        if !requestSignal {
          objects := objects + [Null];
        }
        signals := signals + [ptr.op];
        requestSignal := false;
      } else {
        objects := objects + [ptr];
        requestSignal := true;
      }
    }
    assert raw[..|raw|] == raw;
    if !requestSignal {
      objects := objects + [Null];
    }
  }

  predicate BothOperands(raw: seq<Token>, i: nat)
    requires i + 1 < |raw|
  {
    IsOperand(raw[i]) && IsOperand(raw[i + 1])
  }

  /** Two operands side by side, with no signal between them. */
  predicate AdjacentOperands(raw: seq<Token>) {
    exists i :: 0 <= i < |raw| - 1 && BothOperands(raw, i)
  }

  function DropNulls(tokens: seq<Token>): seq<Token> {
    if tokens == [] then []
    else
      var last := tokens[|tokens| - 1];
      DropNulls(tokens[..|tokens| - 1]) + if last.Null? then [] else [last]
  }

  lemma DropNullsSnoc(tokens: seq<Token>, t: Token)
    ensures DropNulls(tokens + [t]) == DropNulls(tokens) + if t.Null? then [] else [t]
  {
    assert (tokens + [t])[..|tokens|] == tokens;
  }

  lemma AdjacentSnoc(raw: seq<Token>)
    requires raw != []
    ensures var n := |raw| - 1;
            AdjacentOperands(raw) <==>
              AdjacentOperands(raw[..n]) || (n > 0 && IsOperand(raw[n - 1]) && IsOperand(raw[n]))
  {
    var n := |raw| - 1;
    forall i | 0 <= i < n - 1
      ensures BothOperands(raw[..n], i) <==> BothOperands(raw, i)
    {
    }
    if n > 0 {
      assert BothOperands(raw, n - 1) <==> IsOperand(raw[n - 1]) && IsOperand(raw[n]);
    }
  }

  /** The scan never holds too few operands; it holds too many exactly when two are adjacent. */
  lemma {:induction false} ScanCounts(raw: seq<Token>)
    ensures var scan := ScanTokens(raw);
            (scan.requestSignal <==> raw != [] && IsOperand(raw[|raw| - 1]))
            && |Closed(scan)| >= |scan.signals| + 1
            && (|Closed(scan)| == |scan.signals| + 1 <==> !AdjacentOperands(raw))
  {
    if raw != [] {
      ScanCounts(raw[..|raw| - 1]);
      AdjacentSnoc(raw);
    }
  }

  /** Everything before the last operand. */
  function InterleaveBody(signals: seq<Operator>, objects: seq<Token>): seq<Token>
    requires |objects| == |signals|
  {
    if signals == [] then [] else Interleave(signals[..|signals| - 1], objects) + [Sig(signals[|signals| - 1])]
  }

  lemma InterleaveLast(signals: seq<Operator>, objects: seq<Token>, o: Token)
    requires |objects| == |signals|
    ensures Interleave(signals, objects + [Null]) == InterleaveBody(signals, objects) + [Null]
    ensures Interleave(signals, objects + [o]) == InterleaveBody(signals, objects) + [o]
  {
    assert (objects + [Null])[..|objects|] == objects;
    assert (objects + [o])[..|objects|] == objects;
  }

  /** The reading so far, null operands dropped. */
  function ReadBack(scan: Scan): seq<Token>
    requires |Closed(scan)| == |scan.signals| + 1
  {
    DropNulls(Interleave(scan.signals, Closed(scan)))
  }

  lemma ReadBackSignal(before: Scan, op: Operator)
    requires |Closed(before)| == |before.signals| + 1
    ensures ReadBack(Scan(before.signals + [op], Closed(before), false)) == ReadBack(before) + [Sig(op)]
  {
    var text := Interleave(before.signals, Closed(before));
    InterleaveSnoc(before.signals, Closed(before), op, Null);
    DropNullsSnoc(text, Sig(op));
    DropNullsSnoc(text + [Sig(op)], Null);
    assert text + [Sig(op), Null] == text + [Sig(op)] + [Null];
  }

  lemma ReadBackOperand(before: Scan, o: Token)
    requires !before.requestSignal && |before.objects| == |before.signals|
    ensures ReadBack(Scan(before.signals, before.objects + [o], true)) == ReadBack(before) + if o.Null? then [] else [o]
  {
    var body := InterleaveBody(before.signals, before.objects);
    InterleaveLast(before.signals, before.objects, o);
    DropNullsSnoc(body, Null);
    DropNullsSnoc(body, o);
  }

  /** Nothing is lost: without the null operands the scan reads back as the raw list
      (which in the parser holds no null token). */
  lemma {:induction false} ScanReadsBack(raw: seq<Token>)
    requires !AdjacentOperands(raw)
    ensures |Closed(ScanTokens(raw))| == |ScanTokens(raw).signals| + 1
    ensures ReadBack(ScanTokens(raw)) == DropNulls(raw)
  {
    ScanCounts(raw);
    if raw == [] {
      assert DropNulls([Null]) == DropNulls([]) == [];
    } else {
      var n := |raw| - 1;
      var before := ScanTokens(raw[..n]);
      AdjacentSnoc(raw);
      ScanCounts(raw[..n]);
      ScanReadsBack(raw[..n]);
      if raw[n].Sig? {
        ReadBackSignal(before, raw[n].op);
      } else {
        ReadBackOperand(before, raw[n]);
      }
    }
  }

  lemma ScanSnoc(before: seq<Token>, t: Token)
    ensures var scan, next := ScanTokens(before), ScanTokens(before + [t]);
            if t.Sig? then next.signals == scan.signals + [t.op] && next.objects == Closed(scan) && !next.requestSignal
            else next == Scan(scan.signals, scan.objects + [t], true)
  {
    assert (before + [t])[..|before|] == before;
  }

  lemma KeywordSnoc(before: seq<Token>, t: Token)
    ensures HasKeyword(before + [t]) <==> HasKeyword(before) || t.Action?
  {
    if HasKeyword(before) {
      var i :| 0 <= i < |before| && before[i].Action?;
      assert (before + [t])[i].Action?;
    }
    assert (before + [t])[|before|] == t;
  }

  /** One more signal, and the operand after it unless that is null. */
  lemma ScanPair(before: seq<Token>, op: Operator, o: Token)
    requires !o.Sig?
    ensures var raw, scan := before + [Sig(op)] + if o.Null? then [] else [o], ScanTokens(before);
            ScanTokens(raw).signals == scan.signals + [op] && Closed(ScanTokens(raw)) == Closed(scan) + [o]
            && (HasKeyword(raw) <==> HasKeyword(before) || o.Action?)
  {
    ScanSnoc(before, Sig(op));
    KeywordSnoc(before, Sig(op));
    if o.Null? {
      assert before + [Sig(op)] + [] == before + [Sig(op)];
    } else {
      ScanSnoc(before + [Sig(op)], o);
      KeywordSnoc(before + [Sig(op)], o);
    }
  }

  lemma DropNullsPair(text: seq<Token>, op: Operator, o: Token)
    ensures DropNulls(text + [Sig(op), o]) == DropNulls(text) + [Sig(op)] + if o.Null? then [] else [o]
  {
    DropNullsSnoc(text, Sig(op));
    DropNullsSnoc(text + [Sig(op)], o);
    assert text + [Sig(op), o] == text + [Sig(op)] + [o];
  }

  /** `raw` is split into these signals and operands, and has the keywords of the operands. */
  predicate SplitsInto(raw: seq<Token>, signals: seq<Operator>, objects: seq<Token>) {
    ScanTokens(raw).signals == signals && Closed(ScanTokens(raw)) == objects && |raw| >= |signals|
    && (HasKeyword(raw) <==> HasKeyword(objects))
  }

  lemma SplitsOne(o: Token)
    requires !o.Sig?
    ensures SplitsInto(DropNulls([o]), [], [o])
  {
    DropNullsSnoc([], o);
    ScanSnoc([], o);
    KeywordSnoc([], o);
    assert [] + [o] == [o];
  }

  lemma SplitsMore(signals: seq<Operator>, objects: seq<Token>, op: Operator, o: Token)
    requires |objects| == |signals| + 1 && !o.Sig?
    requires SplitsInto(DropNulls(Interleave(signals, objects)), signals, objects)
    ensures SplitsInto(DropNulls(Interleave(signals + [op], objects + [o])), signals + [op], objects + [o])
  {
    InterleaveSnoc(signals, objects, op, o);
    DropNullsPair(Interleave(signals, objects), op, o);
    ScanPair(DropNulls(Interleave(signals, objects)), op, o);
    KeywordSnoc(objects, o);
  }

  lemma UpToLast<T>(s: seq<T>)
    requires s != []
    ensures s == s[..|s| - 1] + [s[|s| - 1]]
  {
  }

  /** The other way round: an expression written out without its null operands is split into its signals and
      operands again. */
  lemma {:induction false} SplitReadsExpression(signals: seq<Operator>, objects: seq<Token>)
    requires |objects| == |signals| + 1 && NoSignals(objects)
    ensures SplitsInto(DropNulls(Interleave(signals, objects)), signals, objects)
  {
    if signals == [] {
      assert objects == [objects[0]];
      SplitsOne(objects[0]);
    } else {
      var n := |signals| - 1;
      UpToLast(signals);
      UpToLast(objects);
      SplitReadsExpression(signals[..n], objects[..n + 1]);
      SplitsMore(signals[..n], objects[..n + 1], signals[n], objects[n + 1]);
    }
  }
}
