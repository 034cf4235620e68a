/**
 What the groups of `process_brackets` look like: no bracket is left open or closed on its own at any depth, and
 every comma inside brackets has become the border of two segments.
 */
module GroupShapes {
  import opened Options
  import opened Brackets

  /** No bracket stands on its own, here or inside a group, and no comma inside a group. */
  predicate Settled(tokens: seq<Token>) {
    forall i :: 0 <= i < |tokens| ==> SettledToken(tokens[i])
  }

  predicate SettledToken(t: Token) {
    match t
    case Open(_) | Close(_) => false
    case Group(_, segments) => forall i :: 0 <= i < |segments| ==> SettledSegment(segments[i])
    case _ => true
  }

  predicate SettledSegment(s: Segment) { Settled(s.tokens) && NoComma(s.tokens) }

  predicate NoComma(tokens: seq<Token>) {
    forall i :: 0 <= i < |tokens| ==> !tokens[i].Comma?
  }

  /** The lexer's tokens: no groups yet. */
  predicate Flat(tokens: seq<Token>) {
    forall i :: 0 <= i < |tokens| ==> !tokens[i].Group?
  }

  // ----- commas outside brackets -----

  function Depth(t: Token): int {
    if t.Open? then 1 else if t.Close? then -1 else 0
  }

  function DepthAfter(tokens: seq<Token>, depth: int): int {
    if tokens == [] then depth else DepthAfter(tokens[1..], depth + Depth(tokens[0]))
  }

  /** From this depth on, every comma is inside brackets. */
  predicate CommasInside(tokens: seq<Token>, depth: int) {
    tokens == [] || ((depth <= 0 ==> !tokens[0].Comma?) && CommasInside(tokens[1..], depth + Depth(tokens[0])))
  }

  lemma {:induction false} CommasInsideLast(tokens: seq<Token>, t: Token, depth: int)
    ensures CommasInside(tokens + [t], depth) <==>
            CommasInside(tokens, depth) && (DepthAfter(tokens, depth) <= 0 ==> !t.Comma?)
    ensures DepthAfter(tokens + [t], depth) == DepthAfter(tokens, depth) + Depth(t)
  {
    if tokens == [] {
      assert [] + [t] == [t] && [t][1..] == [];
    } else {
      assert (tokens + [t])[0] == tokens[0] && (tokens + [t])[1..] == tokens[1..] + [t];
      CommasInsideLast(tokens[1..], t, depth + Depth(tokens[0]));
    }
  }

  lemma {:induction false} CollapseKeepsCommas(tokens: seq<Token>, depth: int)
    ensures CommasInside(Collapse(tokens), depth) <==> CommasInside(tokens, depth)
    ensures Flat(tokens) ==> Flat(Collapse(tokens))
    decreases |tokens|
  {
    if tokens == [] {
    } else if tokens[0].Open? && |tokens| > 1 && tokens[1] == Close(tokens[0].b) {
      CollapseKeepsCommas(tokens[2..], depth);
      assert tokens[1..][1..] == tokens[2..];
      assert Collapse(tokens)[1..] == Collapse(tokens[2..]);
    } else {
      CollapseKeepsCommas(tokens[1..], depth + Depth(tokens[0]));
      assert Collapse(tokens)[1..] == Collapse(tokens[1..]);
    }
  }

  // ----- the pass -----

  /** What the scan has in hand: finished segments, and a part whose commas are all inside brackets. */
  predicate InHand(stack: seq<Bracket>, parts: seq<Segment>, part: seq<Token>) {
    && (forall i :: 0 <= i < |parts| ==> SettledSegment(parts[i]))
    && Flat(part) && (stack == [] ==> parts == [] && part == [])
    && (stack != [] ==> CommasInside(part, 0) && DepthAfter(part, 0) == |stack| - 1)
  }

  /** The result of the scan from here on. */
  predicate Settles(r: Option<seq<Token>>, text: seq<Token>, depth: int) {
    r.Some? ==> Settled(r.value) && (CommasInside(text, depth) ==> NoComma(r.value))
  }

  lemma SettlesPrepended(t: Token, r: Option<seq<Token>>, text: seq<Token>, depth: int)
    requires text != [] && SettledToken(t) && Settles(r, text[1..], depth + Depth(text[0]))
    requires CommasInside(text, depth) ==> !t.Comma?
    ensures Settles(Prepend([t], r), text, depth)
  {
  }

  lemma PartGrows(stack: seq<Bracket>, parts: seq<Segment>, part: seq<Token>, t: Token, next: seq<Bracket>)
    requires InHand(stack, parts, part) && stack != [] && next != [] && !t.Group?
    requires |next| == |stack| + Depth(t) && (|stack| == 1 ==> !t.Comma?)
    ensures InHand(next, parts, part + [t])
  {
    CommasInsideLast(part, t, 0);
  }

  lemma {:induction false} ScanSettles(text: seq<Token>, stack: seq<Bracket>, parts: seq<Segment>, part: seq<Token>)
    requires Flat(text) && InHand(stack, parts, part)
    ensures Settles(Scan(text, stack, parts, part), text, |stack|)
    decreases |part| + |text|, 0, |text|
  {
    if text != [] {
      var t, rest := text[0], text[1..];
      if t.Open? {
        if stack == [] {
          ScanSettles(rest, [t.b], parts, part);
          assert [t.b] + stack == [t.b];
        } else {
          PartGrows(stack, parts, part, t, [t.b] + stack);
          ScanSettles(rest, [t.b] + stack, parts, part + [t]);
        }
      } else if t.Close? && (stack == [] || stack[0] != t.b) {
      } else if t.Close? && |stack| == 1 {
        CloseSettles(t, rest, stack, parts, part);
      } else if t.Close? {
        PartGrows(stack, parts, part, t, stack[1..]);
        ScanSettles(rest, stack[1..], parts, part + [t]);
      } else if t.Comma? && |stack| == 1 {
        CommaSettles(rest, stack, parts, part);
      } else if stack == [] {
        ScanSettles(rest, [], parts, part);
        SettlesPrepended(t, Scan(rest, [], parts, part), text, 0);
      } else {
        PartGrows(stack, parts, part, t, stack);
        ScanSettles(rest, stack, parts, part + [t]);
      }
    }
  }

  lemma {:induction false} CloseSettles(t: Token, rest: seq<Token>, stack: seq<Bracket>, parts: seq<Segment>,
                                        part: seq<Token>)
    requires t.Close? && |stack| == 1 && stack[0] == t.b && Flat(rest) && InHand(stack, parts, part)
    ensures Settles(Scan([t] + rest, stack, parts, part), [t] + rest, 1)
    decreases |part| + |rest| + 1, 0, 0
  {
    assert ([t] + rest)[0] == t && ([t] + rest)[1..] == rest;
    ProcessSettles(part);
    ScanSettles(rest, [], [], []);
    if Process(part).Some? {
      var group := Group(t.b, parts + [Segment(Process(part).value)]);
      assert SettledToken(group);
      SettlesPrepended(group, Scan(rest, [], [], []), [t] + rest, 1);
    }
  }

  lemma {:induction false} CommaSettles(rest: seq<Token>, stack: seq<Bracket>, parts: seq<Segment>, part: seq<Token>)
    requires |stack| == 1 && Flat(rest) && InHand(stack, parts, part)
    ensures Settles(Scan([Comma] + rest, stack, parts, part), [Comma] + rest, 1)
    decreases |part| + |rest| + 1, 0, 0
  {
    assert ([Comma] + rest)[0] == Comma && ([Comma] + rest)[1..] == rest;
    ProcessSettles(part);
    if Process(part).Some? {
      var more := parts + [Segment(Process(part).value)];
      assert InHand(stack, more, []);
      ScanSettles(rest, stack, more, []);
    }
  }

  /** No bracket is left on its own at any depth; commas are left only where they were outside all brackets, so
      every comma part of a group is a segment of its own. */
  lemma {:induction false} ProcessSettles(tokens: seq<Token>)
    requires Flat(tokens)
    ensures Process(tokens).Some? ==>
              Settled(Process(tokens).value) && (CommasInside(tokens, 0) ==> NoComma(Process(tokens).value))
    decreases |tokens|, 1, 0
  {
    CollapseKeepsCommas(tokens, 0);
    if Process(tokens).Some? {
      ScanSettles(Collapse(tokens), [], [], []);
    }
  }

  // ----- empty pairs -----

  /** Empty pairs written out again. */
  function Expanded(tokens: seq<Token>): seq<Token> {
    if tokens == [] then []
    else (if tokens[0].Empty? then [Open(tokens[0].b), Close(tokens[0].b)] else [tokens[0]]) + Expanded(tokens[1..])
  }

  /** A joined pair stands for the two brackets it was made from. */
  lemma {:induction false} CollapseExpands(tokens: seq<Token>)
    requires forall i :: 0 <= i < |tokens| ==> !tokens[i].Empty?
    ensures Expanded(Collapse(tokens)) == tokens
    decreases |tokens|
  {
    if tokens == [] {
    } else if tokens[0].Open? && |tokens| > 1 && tokens[1] == Close(tokens[0].b) {
      CollapseExpands(tokens[2..]);
      assert Collapse(tokens)[1..] == Collapse(tokens[2..]);
      assert tokens == [tokens[0], tokens[1]] + tokens[2..];
    } else {
      CollapseExpands(tokens[1..]);
      assert Collapse(tokens)[1..] == Collapse(tokens[1..]);
      assert tokens == [tokens[0]] + tokens[1..];
    }
  }
}
