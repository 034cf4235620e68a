/**
 The bracket passes of the lexer: `process_empty_brackets` joins an opening bracket with the closing one
 right after it, and `process_brackets` turns every bracketed stretch into one group token, split at
 its commas, recursively.
 */
module Brackets {
  import opened Options

  datatype Bracket = Small | Middle | Large

  datatype Token =
    | Open(b: Bracket)
    | Close(b: Bracket)
    | Empty(b: Bracket)
    | Comma
    | Atom(name: string)
    | Group(b: Bracket, segments: seq<Segment>)

  datatype Segment = Segment(tokens: seq<Token>)

  // ----- matching -----

  /** The stack of open brackets after reading tokens, innermost first; none on a mismatch. */
  function StackAfter(tokens: seq<Token>, stack: seq<Bracket>): Option<seq<Bracket>> {
    if tokens == [] then Some(stack)
    else if tokens[0].Open? then StackAfter(tokens[1..], [tokens[0].b] + stack)
    else if tokens[0].Close? then
      if stack == [] || stack[0] != tokens[0].b then None else StackAfter(tokens[1..], stack[1..])
    else StackAfter(tokens[1..], stack)
  }

  /** All brackets are closed, each by its own kind, in order. */
  predicate Matched(tokens: seq<Token>) {
    StackAfter(tokens, []) == Some([])
  }

  // ----- empty brackets -----

  function Collapse(tokens: seq<Token>): (r: seq<Token>)
    ensures |r| <= |tokens|
  {
    if tokens == [] then []
    else if tokens[0].Open? && |tokens| > 1 && tokens[1] == Close(tokens[0].b) then
      [Empty(tokens[0].b)] + Collapse(tokens[2..])
    else [tokens[0]] + Collapse(tokens[1..])
  }

  /** `process_empty_brackets`; fails on an empty buffer or unmatched brackets. */
  method ProcessEmptyBrackets(oldt: seq<Token>) returns (ok: bool, tokens: seq<Token>)
    ensures ok <==> oldt != [] && Matched(oldt)
    ensures ok ==> tokens == Collapse(oldt)
  {
    tokens := [];
    if oldt == [] {
      return false, [];
    }
    var stack: seq<Bracket> := [];
    var empty := false;
    var i := 0;
    ghost var waiting: seq<Token> := [];
    assert From(tokens, waiting, oldt[0..]) == Collapse(oldt) by { assert waiting + oldt[0..] == oldt; }
    while i < |oldt|
      invariant 0 <= i <= |oldt| && (empty ==> stack != [])
      invariant waiting == if empty then [Open(stack[0])] else []
      invariant StackAfter(oldt, []) == StackAfter(oldt[i..], stack)
      invariant Collapse(oldt) == From(tokens, waiting, oldt[i..])
    {
      var ptr := oldt[i];
      assert oldt[i..][1..] == oldt[i + 1..];
      if ptr.Open? {
        CollapseOpens(tokens, waiting, oldt[i..]);
        if empty {
          tokens := tokens + [Open(stack[0])];
        }
        stack := [ptr.b] + stack;
        empty := true;
        waiting := [ptr];
      } else {
        if ptr.Close? {
          if stack == [] || stack[0] != ptr.b {
            return false, [];
          }
        }
        if ptr.Close? && empty {
          CollapsePair(tokens, ptr.b, oldt[i..]);
          tokens := tokens + [Empty(ptr.b)];
        } else {
          CollapseKeeps(tokens, waiting, oldt[i..]);
          if empty {
            tokens := tokens + [Open(stack[0])];
          }
          tokens := tokens + [ptr];
        }
        empty := false;
        waiting := [];
        if ptr.Close? {
          stack := stack[1..];
        }
      }
      i := i + 1;
    }
    assert waiting + oldt[|oldt|..] == waiting;
    if stack != [] {
      return false, [];
    }
    ok := true;
  }

  predicate Waits(waiting: seq<Token>) {
    waiting == [] || (|waiting| == 1 && waiting[0].Open?)
  }

  /** The result when this much is written, an opening bracket may be waiting and this much is unread. */
  function From(done: seq<Token>, waiting: seq<Token>, rest: seq<Token>): seq<Token> {
    done + Collapse(waiting + rest)
  }

  /** What is written once the waiting bracket is. */
  function Release(done: seq<Token>, waiting: seq<Token>): seq<Token> {
    if waiting == [] then done else done + waiting
  }

  lemma CollapseOpens(done: seq<Token>, waiting: seq<Token>, rest: seq<Token>)
    requires Waits(waiting) && rest != [] && rest[0].Open?
    ensures From(done, waiting, rest) == From(Release(done, waiting), [rest[0]], rest[1..])
  {
    assert [rest[0]] + rest[1..] == rest;
    if waiting != [] {
      assert (waiting + rest)[1..] == rest;
    } else {
      assert waiting + rest == rest;
    }
  }

  lemma CollapsePair(done: seq<Token>, b: Bracket, rest: seq<Token>)
    requires rest != [] && rest[0] == Close(b)
    ensures From(done, [Open(b)], rest) == From(done + [Empty(b)], [], rest[1..])
  {
    assert ([Open(b)] + rest)[2..] == rest[1..] == [] + rest[1..];
  }

  lemma CollapseKeeps(done: seq<Token>, waiting: seq<Token>, rest: seq<Token>)
    requires Waits(waiting) && rest != [] && !rest[0].Open? && (waiting == [] || !rest[0].Close?)
    ensures From(done, waiting, rest) == From(Release(done, waiting) + [rest[0]], [], rest[1..])
  {
    assert [] + rest[1..] == rest[1..];
    if waiting != [] {
      assert (waiting + rest)[1..] == rest && waiting == [waiting[0]];
    } else {
      assert waiting + rest == rest;
    }
    var tail := [rest[0]] + Collapse(rest[1..]);
    assert Collapse(waiting + rest) == waiting + tail;
    assert done + (waiting + tail) == Release(done, waiting) + tail;
    assert Release(done, waiting) + tail == Release(done, waiting) + [rest[0]] + Collapse(rest[1..]);
  }

  // ----- grouping -----

  /** The whole pass on values: what a buffer becomes, none when it is refused. */
  function Process(tokens: seq<Token>): Option<seq<Token>>
    decreases |tokens|, 1, 0
  {
    if tokens == [] || !Matched(tokens) then None else Scan(Collapse(tokens), [], [], [])
  }

  /** What the scan appends to the output from some point on: `stack` are the open brackets, innermost
      first, `parts` and `part` the finished and the current comma part of the outermost one. */
  function Scan(text: seq<Token>, stack: seq<Bracket>, parts: seq<Segment>, part: seq<Token>): Option<seq<Token>>
    decreases |part| + |text|, 0, |text|
  {
    if text == [] then if stack == [] then Some([]) else None
    else
      var t, rest := text[0], text[1..];
      if t.Open? then
        Scan(rest, [t.b] + stack, parts, if stack == [] then part else part + [t])
      else if t.Close? && (stack == [] || stack[0] != t.b) then None
      else if t.Close? && |stack| == 1 then
        var p := Process(part);
        if p.None? then None else Prepend([Group(t.b, parts + [Segment(p.value)])], Scan(rest, [], [], []))
      else if t.Close? then Scan(rest, stack[1..], parts, part + [t])
      else if t.Comma? && |stack| == 1 then
        var p := Process(part);
        if p.None? then None else Scan(rest, stack, parts + [Segment(p.value)], [])
      else if stack == [] then Prepend([t], Scan(rest, [], parts, part))
      else Scan(rest, stack, parts, part + [t])
  }

  /** `process_brackets`: each comma part of an outermost bracket is processed by the method itself. */
  method ProcessBrackets(buffer: seq<Token>) returns (ok: bool, tokens: seq<Token>)
    ensures ok <==> Process(buffer).Some?
    ensures ok ==> tokens == Process(buffer).value
    decreases |buffer|
  {
    tokens := [];
    if buffer == [] {
      return false, [];
    }
    var balanced, oldt := ProcessEmptyBrackets(buffer);
    if !balanced {
      return false, [];
    }
    var blist: seq<Segment> := [];
    var btokens: seq<Token> := [];
    var stack: seq<Bracket> := [];
    var i := 0;
    assert Prepend([], Scan(oldt[0..], [], [], [])) == Process(buffer) by {
      assert oldt[0..] == oldt;
      PrependNothing(Process(buffer));
    }
    while i < |oldt|
      invariant 0 <= i <= |oldt| && |btokens| <= i
      invariant stack != [] ==> |btokens| < i
      invariant stack == [] ==> blist == [] && btokens == []
      invariant Process(buffer) == Prepend(tokens, Scan(oldt[i..], stack, blist, btokens))
    {
      var ptr := oldt[i];
      assert oldt[i..][0] == ptr && oldt[i..][1..] == oldt[i + 1..];
      i := i + 1;
      if ptr.Open? {
        stack := [ptr.b] + stack;
        if |stack| == 1 {
          continue;
        }
      } else if ptr.Close? {
        if stack == [] || stack[0] != ptr.b {
          return false, [];
        }
        stack := stack[1..];
        if stack == [] {
          var done, part := ProcessBrackets(btokens);
          if !done {
            return false, [];
          }
          blist := blist + [Segment(part)];
          PrependTwice(tokens, [Group(ptr.b, blist)], Scan(oldt[i..], [], [], []));
          tokens := tokens + [Group(ptr.b, blist)];
          blist, btokens := [], [];
          continue;
        }
      } else if ptr.Comma? && |stack| == 1 {
        var done, part := ProcessBrackets(btokens);
        if !done {
          return false, [];
        }
        blist, btokens := blist + [Segment(part)], [];
        continue;
      }
      if stack == [] {
        PrependTwice(tokens, [ptr], Scan(oldt[i..], [], [], []));
        tokens := tokens + [ptr];
      } else {
        btokens := btokens + [ptr];
      }
    }
    ok := stack == [];
  }
}
