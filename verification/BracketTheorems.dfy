/**
 What the bracket passes promise: exactly which buffers are accepted, and that the nested groups
 spell the buffer they were made from.
 */
module BracketTheorems {
  import opened Options
  import opened Brackets

  // ----- collapsing -----

  /** No bracket is closed right after it is opened. */
  predicate NoPair(tokens: seq<Token>) {
    forall k :: 0 <= k < |tokens| - 1 && tokens[k].Open? ==> tokens[k + 1] != Close(tokens[k].b)
  }

  lemma {:induction false} CollapseLeavesNoPair(tokens: seq<Token>)
    ensures NoPair(Collapse(tokens))
    ensures tokens != [] ==> Collapse(tokens) != []
    ensures tokens != [] ==> Collapse(tokens)[0] == tokens[0] || Collapse(tokens)[0].Empty?
    decreases |tokens|
  {
    if tokens == [] {
    } else if tokens[0].Open? && |tokens| > 1 && tokens[1] == Close(tokens[0].b) {
      CollapseLeavesNoPair(tokens[2..]);
    } else {
      CollapseLeavesNoPair(tokens[1..]);
    }
  }

  lemma {:induction false} CollapseOfCollapsed(tokens: seq<Token>)
    requires NoPair(tokens)
    ensures Collapse(tokens) == tokens
  {
    if tokens != [] {
      assert NoPair(tokens[1..]) by {
        forall k | 0 <= k < |tokens| - 2 && tokens[1..][k].Open?
          ensures tokens[1..][k + 1] != Close(tokens[1..][k].b)
        {
          assert tokens[k + 1].Open?;
        }
      }
      CollapseOfCollapsed(tokens[1..]);
      assert tokens == [tokens[0]] + tokens[1..];
    }
  }

  lemma {:induction false} CollapseKeepsStack(tokens: seq<Token>, stack: seq<Bracket>)
    ensures StackAfter(Collapse(tokens), stack) == StackAfter(tokens, stack)
    decreases |tokens|
  {
    if tokens == [] {
    } else if tokens[0].Open? && |tokens| > 1 && tokens[1] == Close(tokens[0].b) {
      CollapseKeepsStack(tokens[2..], stack);
      assert ([tokens[0].b] + stack)[1..] == stack;
      assert tokens[1..][1..] == tokens[2..];
      assert Collapse(tokens)[1..] == Collapse(tokens[2..]);
    } else {
      assert Collapse(tokens)[1..] == Collapse(tokens[1..]);
      if tokens[0].Open? {
        CollapseKeepsStack(tokens[1..], [tokens[0].b] + stack);
      } else if tokens[0].Close? {
        if stack != [] { CollapseKeepsStack(tokens[1..], stack[1..]); }
      } else {
        CollapseKeepsStack(tokens[1..], stack);
      }
    }
  }

  // ----- spelling -----

  /** Writes groups out again with their brackets and commas. */
  function Spell(tokens: seq<Token>): seq<Token> {
    if tokens == [] then [] else Written(tokens[0]) + Spell(tokens[1..])
  }

  function Written(t: Token): seq<Token> {
    match t
    case Group(b, segments) => [Open(b)] + Join(segments) + [Close(b)]
    case _ => [t]
  }

  function Join(segments: seq<Segment>): seq<Token> {
    if segments == [] then []
    else if |segments| == 1 then Spell(segments[0].tokens)
    else Spell(segments[0].tokens) + [Comma] + Join(segments[1..])
  }

  function SpellEach(segments: seq<Segment>): seq<Token> {
    if segments == [] then [] else Spell(segments[0].tokens) + [Comma] + SpellEach(segments[1..])
  }

  lemma {:induction false} Regroup(a: seq<Token>, b: seq<Token>, c: seq<Token>, d: seq<Token>)
    ensures a + (b + c) + d == a + b + (c + d)
  {
  }

  lemma {:induction false} Bracketed(open: seq<Token>, inner: seq<Token>, close: seq<Token>, rest: seq<Token>)
    ensures (open + inner + close) + rest == (open + inner) + (close + rest)
  {
  }

  lemma {:induction false} Assoc(a: seq<Token>, b: seq<Token>, c: seq<Token>)
    ensures a + (b + c) == (a + b) + c
  {
  }

  lemma {:induction false} JoinLast(segments: seq<Segment>, last: Segment)
    ensures Join(segments + [last]) == SpellEach(segments) + Spell(last.tokens)
  {
    var all, end := segments + [last], Spell(last.tokens);
    if segments == [] {
      assert all == [last] && [] + end == end;
    } else {
      var head, rest := Spell(segments[0].tokens) + [Comma], segments[1..];
      JoinLast(rest, last);
      assert all[0] == segments[0] && all[1..] == rest + [last];
      assert Join(all) == head + (SpellEach(rest) + end);
      Assoc(head, SpellEach(rest), end);
    }
  }

  lemma {:induction false} SpellEachLast(segments: seq<Segment>, last: Segment)
    ensures SpellEach(segments + [last]) == SpellEach(segments) + Spell(last.tokens) + [Comma]
  {
    if segments == [] {
      assert segments + [last] == [last];
      assert [last][1..] == [];
    } else {
      SpellEachLast(segments[1..], last);
      assert (segments + [last])[1..] == segments[1..] + [last];
      Regroup(Spell(segments[0].tokens) + [Comma], SpellEach(segments[1..]), Spell(last.tokens), [Comma]);
      Bracketed(Spell(segments[0].tokens) + [Comma], SpellEach(segments[1..]), Spell(last.tokens), [Comma]);
    }
  }

  lemma {:induction false} SpellConcat(a: seq<Token>, b: seq<Token>)
    ensures Spell(a + b) == Spell(a) + Spell(b)
  {
    if a == [] {
      assert a + b == b;
    } else {
      SpellConcat(a[1..], b);
      assert (a + b)[1..] == a[1..] + b && (a + b)[0] == a[0];
      assert Written(a[0]) + (Spell(a[1..]) + Spell(b)) == Written(a[0]) + Spell(a[1..]) + Spell(b);
    }
  }

  lemma {:induction false} SpellOne(t: Token)
    ensures Spell([t]) == Written(t)
  {
    assert [t][1..] == [] && Spell([t]) == Written(t) + Spell([]);
  }

  /** What the scan has read but not yet written. */
  function Pending(stack: seq<Bracket>, parts: seq<Segment>, part: seq<Token>): seq<Token> {
    if stack == [] then [] else [Open(stack[|stack| - 1])] + SpellEach(parts) + Spell(part)
  }

  lemma {:induction false} NoPairParts(a: seq<Token>, b: seq<Token>)
    requires NoPair(a + b)
    ensures NoPair(a) && NoPair(b)
  {
    forall k | 0 <= k < |a| - 1 && a[k].Open? ensures a[k + 1] != Close(a[k].b) {
      assert (a + b)[k].Open? && (a + b)[k + 1] == a[k + 1];
    }
    forall k | 0 <= k < |b| - 1 && b[k].Open? ensures b[k + 1] != Close(b[k].b) {
      assert (a + b)[|a| + k].Open? && (a + b)[|a| + k + 1] == b[k + 1];
    }
  }

  /** What follows the next token, read on its own and read after the part that token joins. */
  lemma {:induction false} NoPairNext(part: seq<Token>, text: seq<Token>)
    requires text != [] && NoPair(part + text)
    ensures NoPair([] + text[1..])
    ensures NoPair((part + [text[0]]) + text[1..])
    ensures NoPair([text[0]] + text[1..])
    ensures NoPair(part)
  {
    NoPairParts(part, text);
    assert [text[0]] + text[1..] == text;
    NoPairParts([text[0]], text[1..]);
    assert [] + text[1..] == text[1..];
    assert (part + [text[0]]) + text[1..] == part + text;
  }

  lemma {:induction false} PendingShift(stack: seq<Bracket>, parts: seq<Segment>, part: seq<Token>, text: seq<Token>)
    requires text != [] && stack != []
    ensures Pending(stack, parts, part + [text[0]]) + Spell(text[1..]) == Pending(stack, parts, part) + Spell(text)
  {
    SpellConcat(part, [text[0]]);
    SpellOne(text[0]);
    Regroup([Open(stack[|stack| - 1])] + SpellEach(parts), Spell(part), Written(text[0]), Spell(text[1..]));
  }

  lemma {:induction false} PendingIs(stack: seq<Bracket>, parts: seq<Segment>, part: seq<Token>)
    requires stack != []
    ensures Pending(stack, parts, part) == [Open(stack[|stack| - 1])] + (SpellEach(parts) + Spell(part))
  {
  }

  lemma {:induction false} SpellHead(text: seq<Token>)
    requires text != [] && !text[0].Group?
    ensures Spell(text) == [text[0]] + Spell(text[1..])
  {
  }

  lemma {:induction false} PendingComma(stack: seq<Bracket>, parts: seq<Segment>, part: seq<Token>,
                                        done: Segment, text: seq<Token>)
    requires text != [] && stack != [] && text[0] == Comma
    requires Spell(done.tokens) == Spell(part)
    ensures Pending(stack, parts + [done], []) + Spell(text[1..]) == Pending(stack, parts, part) + Spell(text)
  {
    PendingIs(stack, parts, part);
    PendingIs(stack, parts + [done], []);
    SpellEachLast(parts, done);
    SpellHead(text);
    Regroup([Open(stack[|stack| - 1])], SpellEach(parts) + Spell(part), [Comma], Spell(text[1..]));
    assert SpellEach(parts + [done]) + Spell([]) == SpellEach(parts) + Spell(part) + [Comma];
  }

  lemma {:induction false} PendingClose(b: Bracket, parts: seq<Segment>, part: seq<Token>, done: Segment,
                                        text: seq<Token>, more: seq<Token>)
    requires text != [] && text[0] == Close(b)
    requires Spell(done.tokens) == Spell(part) && Spell(more) == Spell(text[1..])
    ensures Spell([Group(b, parts + [done])] + more) == Pending([b], parts, part) + Spell(text)
  {
    var inner := SpellEach(parts) + Spell(part);
    JoinLast(parts, done);
    SpellConcat([Group(b, parts + [done])], more);
    SpellOne(Group(b, parts + [done]));
    PendingIs([b], parts, part);
    SpellHead(text);
    Bracketed([Open(b)], inner, [Close(b)], Spell(more));
  }

  /** Outside brackets nothing is pending. */
  lemma {:induction false} PendingNothing(text: seq<Token>)
    ensures Pending([], [], []) + Spell(text) == Spell(text)
  {
  }

  lemma {:induction false} PendingOpen(text: seq<Token>)
    requires text != [] && text[0].Open?
    ensures Pending([text[0].b], [], []) + Spell(text[1..]) == Spell(text)
  {
    var one := [text[0].b];
    assert SpellEach([]) + Spell([]) == [] by {
      assert SpellEach([]) == [] && Spell([]) == [];
    }
    PendingIs(one, [], []);
    assert Pending(one, [], []) == [text[0]];
    SpellHead(text);
  }

  lemma {:induction false} SpellPrepended(t: Token, more: seq<Token>, text: seq<Token>)
    requires text != [] && text[0] == t && Spell(more) == Spell(text[1..])
    ensures Spell([t] + more) == Spell(text)
  {
    assert [t] + text[1..] == text;
    SpellConcat([t], more);
    SpellConcat([t], text[1..]);
  }

  lemma {:induction false} ScanSpells(text: seq<Token>, stack: seq<Bracket>, parts: seq<Segment>, part: seq<Token>)
    requires stack == [] ==> parts == [] && part == []
    requires NoPair(part + text)
    requires Scan(text, stack, parts, part).Some?
    ensures Spell(Scan(text, stack, parts, part).value) == Pending(stack, parts, part) + Spell(text)
    decreases |part| + |text|, 0, |text|
  {
    if text == [] {
      PendingNothing([]);
    } else {
      var t, rest := text[0], text[1..];
      NoPairNext(part, text);
      if stack == [] {
        PendingNothing(text);
        if t.Open? {
          assert [t.b] + stack == [t.b];
          ScanSpells(rest, [t.b], [], []);
          PendingOpen(text);
        } else {
          ScanSpells(rest, [], [], []);
          PendingNothing(rest);
          SpellPrepended(t, Scan(rest, [], [], []).value, text);
        }
      } else if t.Close? && |stack| == 1 {
        ScanSpells(rest, [], [], []);
        ProcessSpells(part);
        CollapseOfCollapsed(part);
        assert stack == [t.b];
        PendingClose(t.b, parts, part, Segment(Process(part).value), text, Scan(rest, [], [], []).value);
      } else if t.Comma? && |stack| == 1 {
        ProcessSpells(part);
        CollapseOfCollapsed(part);
        var done := Segment(Process(part).value);
        ScanSpells(rest, stack, parts + [done], []);
        PendingComma(stack, parts, part, done, text);
      } else {
        var next := if t.Open? then [t.b] + stack else if t.Close? then stack[1..] else stack;
        assert next[|next| - 1] == stack[|stack| - 1];
        ScanSpells(rest, next, parts, part + [t]);
        PendingShift(stack, parts, part, text);
      }
    }
  }

  lemma {:induction false} ProcessSpells(tokens: seq<Token>)
    requires Process(tokens).Some?
    ensures Spell(Process(tokens).value) == Spell(Collapse(tokens))
    decreases |tokens|, 1, 0
  {
    CollapseLeavesNoPair(tokens);
    assert [] + Collapse(tokens) == Collapse(tokens);
    ScanSpells(Collapse(tokens), [], [], []);
  }

  lemma {:induction false} SpellPlain(tokens: seq<Token>)
    requires forall t :: t in tokens ==> !t.Group?
    ensures Spell(tokens) == tokens
  {
    if tokens != [] {
      SpellPlain(tokens[1..]);
    }
  }

  lemma {:induction false} CollapsePlain(tokens: seq<Token>)
    requires forall t :: t in tokens ==> !t.Group?
    ensures forall t :: t in Collapse(tokens) ==> !t.Group?
    decreases |tokens|
  {
    if tokens == [] {
    } else if tokens[0].Open? && |tokens| > 1 && tokens[1] == Close(tokens[0].b) {
      CollapsePlain(tokens[2..]);
    } else {
      CollapsePlain(tokens[1..]);
    }
  }

  /** Writing out the nested groups gives the buffer back, empty bracket pairs joined. */
  lemma {:induction false} GroupsSpellTheBuffer(tokens: seq<Token>)
    requires forall t :: t in tokens ==> !t.Group?
    requires Process(tokens).Some?
    ensures Spell(Process(tokens).value) == Collapse(tokens)
  {
    ProcessSpells(tokens);
    CollapsePlain(tokens);
    SpellPlain(Collapse(tokens));
  }

  // ----- acceptance -----

  /** Inside brackets no comma follows an opening bracket or a comma, and no closing bracket a comma:
      every comma part has something in it, unless the brackets hold nothing at all. `prev` is the token
      before the text and `depth` the number of brackets open there. */
  predicate NoEmptyPart(prev: Token, text: seq<Token>, depth: int)
    decreases |text|
  {
    text == [] || (
      && (depth > 0 ==> Follows(prev, text[0]))
      && NoEmptyPart(text[0], text[1..], Deeper(text[0], depth))
    )
  }

  predicate Follows(prev: Token, t: Token) {
    && (t.Comma? ==> !prev.Open? && !prev.Comma?)
    && (t.Close? ==> !prev.Comma?)
  }

  function Deeper(t: Token, depth: int): int {
    if t.Open? then depth + 1 else if t.Close? then depth - 1 else depth
  }

  /** Any token that is neither a comma nor an opening bracket. */
  const START := Atom("")

  lemma {:induction false} NoEmptyPartAfter(prev: Token, other: Token, text: seq<Token>, depth: int)
    requires depth <= 0 || (prev.Open? == other.Open? && prev.Comma? == other.Comma?)
    ensures NoEmptyPart(prev, text, depth) == NoEmptyPart(other, text, depth)
  {
  }

  lemma {:induction false} NoEmptyPartOfCollapse(prev: Token, tokens: seq<Token>, depth: int)
    ensures NoEmptyPart(prev, Collapse(tokens), depth) == NoEmptyPart(prev, tokens, depth)
    decreases |tokens|
  {
    if tokens == [] {
    } else if tokens[0].Open? && |tokens| > 1 && tokens[1] == Close(tokens[0].b) {
      NoEmptyPartOfCollapse(tokens[1], tokens[2..], depth);
      NoEmptyPartAfter(tokens[1], Empty(tokens[0].b), Collapse(tokens[2..]), depth);
      assert tokens[1..][1..] == tokens[2..];
      assert Collapse(tokens)[1..] == Collapse(tokens[2..]);
    } else {
      NoEmptyPartOfCollapse(tokens[0], tokens[1..], Deeper(tokens[0], depth));
      assert Collapse(tokens)[1..] == Collapse(tokens[1..]);
    }
  }

  function Last(prev: Token, tokens: seq<Token>): Token {
    if tokens == [] then prev else tokens[|tokens| - 1]
  }

  lemma {:induction false} StackAfterLast(tokens: seq<Token>, t: Token, stack: seq<Bracket>)
    requires StackAfter(tokens, stack).Some?
    ensures StackAfter(tokens + [t], stack) == StackAfter([t], StackAfter(tokens, stack).value)
  {
    if tokens == [] {
      assert tokens + [t] == [t];
    } else {
      assert (tokens + [t])[1..] == tokens[1..] + [t];
      StackAfterLast(tokens[1..], t,
        if tokens[0].Open? then [tokens[0].b] + stack else if tokens[0].Close? then stack[1..] else stack);
    }
  }

  lemma {:induction false} NoEmptyPartLast(prev: Token, tokens: seq<Token>, t: Token, stack: seq<Bracket>)
    requires StackAfter(tokens, stack).Some?
    ensures NoEmptyPart(prev, tokens + [t], |stack|) ==
            (NoEmptyPart(prev, tokens, |stack|)
             && (|StackAfter(tokens, stack).value| > 0 ==> Follows(Last(prev, tokens), t)))
    decreases |tokens|
  {
    if tokens == [] {
      assert tokens + [t] == [t];
    } else {
      assert (tokens + [t])[1..] == tokens[1..] + [t];
      var next := if tokens[0].Open? then [tokens[0].b] + stack else if tokens[0].Close? then stack[1..] else stack;
      NoEmptyPartLast(tokens[0], tokens[1..], t, next);
      assert Last(tokens[0], tokens[1..]) == Last(prev, tokens);
    }
  }

  /** The part read so far is what lies between the outermost open bracket's last comma and here. */
  predicate PartOf(part: seq<Token>, stack: seq<Bracket>) {
    if stack == [] then part == []
    else
      && StackAfter(part, []) == Some(stack[..|stack| - 1])
      && (|stack| == 1 && part != [] ==> !part[|part| - 1].Open? && !part[|part| - 1].Comma?)
  }

  lemma {:induction false} AfterOpening(t: Token, rest: seq<Token>)
    requires t.Open? && NoPair([t] + rest)
    requires StackAfter(rest, [t.b]).Some?
    ensures NoEmptyPart(t, rest, 1) == NoEmptyPart(Comma, rest, 1)
  {
    if rest != [] {
      assert ([t] + rest)[0] == t && ([t] + rest)[1] == rest[0];
    }
  }

  /** A token inside the outermost bracket joins the part. */
  lemma {:induction false} PartGrows(part: seq<Token>, stack: seq<Bracket>, t: Token, next: seq<Bracket>)
    requires PartOf(part, stack) && stack != [] && next != []
    requires |stack| == 1 ==> !t.Comma? && !t.Close?
    requires t.Close? ==> stack[0] == t.b
    requires next == if t.Open? then [t.b] + stack else if t.Close? then stack[1..] else stack
    ensures PartOf(part + [t], next)
    ensures NoEmptyPart(START, part + [t], 0) <==> NoEmptyPart(START, part, 0) && Follows(Last(Comma, part), t)
  {
    StackAfterLast(part, t, []);
    NoEmptyPartLast(START, part, t, []);
    var inner := stack[..|stack| - 1];
    if t.Open? {
      assert next[..|next| - 1] == [t.b] + inner;
    } else if t.Close? {
      assert inner[0] == stack[0];
      assert next[..|next| - 1] == inner[1..];
    }
  }

  lemma {:induction false} ScanAccepts(text: seq<Token>, stack: seq<Bracket>, parts: seq<Segment>, part: seq<Token>)
    requires PartOf(part, stack) && NoPair(part + text)
    ensures Scan(text, stack, parts, part).Some? <==>
            && StackAfter(text, stack) == Some([])
            && NoEmptyPart(START, part, 0)
            && NoEmptyPart(Last(Comma, part), text, |stack|)
    decreases |part| + |text|, 0, |text|
  {
    if text != [] {
      var t, rest := text[0], text[1..];
      NoPairNext(part, text);
      if t.Close? && (stack == [] || stack[0] != t.b) {
      } else if stack == [] {
        if t.Open? {
          assert [t.b] + stack == [t.b];
          ScanAccepts(rest, [t.b], parts, part);
          if StackAfter(rest, [t.b]).Some? { AfterOpening(t, rest); }
        } else {
          ScanAccepts(rest, [], parts, part);
          NoEmptyPartAfter(t, Comma, rest, 0);
        }
      } else if t.Close? && |stack| == 1 {
        ScanAccepts(rest, [], [], []);
        ProcessAccepts(part);
        NoEmptyPartAfter(t, Comma, rest, 0);
      } else if t.Comma? && |stack| == 1 {
        ProcessAccepts(part);
        if Process(part).Some? {
          ScanAccepts(rest, stack, parts + [Segment(Process(part).value)], []);
        }
      } else {
        var next := if t.Open? then [t.b] + stack else if t.Close? then stack[1..] else stack;
        PartGrows(part, stack, t, next);
        ScanAccepts(rest, next, parts, part + [t]);
      }
    }
  }

  /** A buffer is accepted exactly when it is not empty, its brackets match and no comma part inside
      brackets is empty. */
  lemma {:induction false} ProcessAccepts(tokens: seq<Token>)
    ensures Process(tokens).Some? <==> tokens != [] && Matched(tokens) && NoEmptyPart(START, tokens, 0)
    decreases |tokens|, 1, 0
  {
    CollapseLeavesNoPair(tokens);
    CollapseKeepsStack(tokens, []);
    NoEmptyPartOfCollapse(START, tokens, 0);
    NoEmptyPartAfter(START, Comma, Collapse(tokens), 0);
    assert [] + Collapse(tokens) == Collapse(tokens);
    ScanAccepts(Collapse(tokens), [], [], []);
  }
}
