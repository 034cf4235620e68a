/**
 `translator_type::translate`: from statement lines to nested statements, with the `loop_depth` counter
 that rejects break and continue outside loops.

 The lines of an open block are only collected; they are translated when the block closes. While they
 are collected, the loops among them are counted up and down again, and inside a function the counter
 starts anew.
 */
module Translator {
  import opened Options

  datatype Kind = While | Loop | For | Foreach | If | Plain | Function

  /** A line after grammar matching: a block opener, a closer or a single statement. */
  datatype Line =
    | Open(kind: Kind, header: string)
    | End
    | Until(cond: string)
    | Break
    | Continue
    | Single(text: string)

  datatype Node = Leaf(line: Line) | Block(kind: Kind, header: string, body: seq<Node>, close: Line)

  /** `is_loop_block`. */
  predicate IsLoop(k: Kind) { k.While? || k.Loop? || k.For? || k.Foreach? }

  predicate IsClose(l: Line) { l.End? || l.Until? }

  /** The lines a forest was written as. */
  function Flatten(forest: seq<Node>): seq<Line> {
    if forest == [] then [] else FlattenNode(forest[0]) + Flatten(forest[1..])
  }

  function FlattenNode(n: Node): seq<Line> {
    match n
    case Leaf(l) => [l]
    case Block(k, h, body, close) => [Open(k, h)] + Flatten(body) + [close]
  }

  /** Blocks close properly, and every break and continue has a loop of its own function around it. */
  predicate Legal(forest: seq<Node>, inLoop: bool)
    decreases forest, 1
  {
    forest == [] || (LegalNode(forest[0], inLoop) && Legal(forest[1..], inLoop))
  }

  predicate LegalNode(n: Node, inLoop: bool)
    decreases n, 0
  {
    match n
    case Leaf(l) => !l.Open? && !IsClose(l) && (l.Break? || l.Continue? ==> inLoop)
    case Block(k, _, body, close) =>
      (close.End? || (close.Until? && k.Loop?)) && Legal(body, Inside(k, inLoop))
  }

  /** Whether the lines inside a block of kind k are inside a loop. */
  predicate Inside(k: Kind, inLoop: bool) {
    !k.Function? && (IsLoop(k) || inLoop)
  }

  // ----- the reference translation: find the matching end, then recurse -----

  /** The number of lines before the one that closes `open` + 1 blocks; |lines| if there is none. */
  function CloseAt(lines: seq<Line>, open: nat): (k: nat)
    ensures k <= |lines|
    ensures k < |lines| ==> IsClose(lines[k])
  {
    if lines == [] then 0
    else if lines[0].Open? then 1 + CloseAt(lines[1..], open + 1)
    else if IsClose(lines[0]) then if open == 0 then 0 else 1 + CloseAt(lines[1..], open - 1)
    else 1 + CloseAt(lines[1..], open)
  }

  function Nest(lines: seq<Line>, inLoop: bool): Option<seq<Node>>
    decreases |lines|, 0
  {
    if lines == [] then Some([])
    else match lines[0]
      case Open(k, h) =>
        var rest := lines[1..];
        var n := CloseAt(rest, 0);
        if n == |rest| then None
        else (match CloseBlock(k, h, rest[..n], rest[n], inLoop)
              case None => None
              case Some(b) => Prepend([b], Nest(rest[n + 1..], inLoop)))
      case End => None
      case Until(_) => None
      case Break => if inLoop then Prepend([Leaf(lines[0])], Nest(lines[1..], inLoop)) else None
      case Continue => if inLoop then Prepend([Leaf(lines[0])], Nest(lines[1..], inLoop)) else None
      case Single(_) => Prepend([Leaf(lines[0])], Nest(lines[1..], inLoop))
  }

  /** A block with its collected lines and its closing line. */
  function CloseBlock(k: Kind, h: string, lines: seq<Line>, close: Line, inLoop: bool): Option<Node>
    decreases |lines|, 1
  {
    if close.Until? && !k.Loop? then None
    else match Nest(lines, Inside(k, inLoop))
      case None => None
      case Some(body) => Some(Block(k, h, body, close))
  }

  lemma {:induction false} CloseAtFlatten(forest: seq<Node>, rest: seq<Line>, open: nat, inLoop: bool)
    requires Legal(forest, inLoop)
    ensures CloseAt(Flatten(forest) + rest, open) == |Flatten(forest)| + CloseAt(rest, open)
    decreases forest, 1
  {
    if forest == [] {
      assert Flatten(forest) + rest == rest;
    } else {
      var after := Flatten(forest[1..]) + rest;
      assert Flatten(forest) + rest == FlattenNode(forest[0]) + after;
      CloseAtNode(forest[0], after, open, inLoop);
      CloseAtFlatten(forest[1..], rest, open, inLoop);
    }
  }

  lemma {:induction false} CloseAtNode(n: Node, rest: seq<Line>, open: nat, inLoop: bool)
    requires LegalNode(n, inLoop)
    ensures CloseAt(FlattenNode(n) + rest, open) == |FlattenNode(n)| + CloseAt(rest, open)
    decreases n, 0
  {
    match n
    case Leaf(l) => assert ([l] + rest)[1..] == rest;
    case Block(k, h, body, close) =>
      var lines := FlattenNode(n) + rest;
      var tail := [close] + rest;
      assert lines[0] == Open(k, h) && lines[1..] == Flatten(body) + tail;
      CloseAtFlatten(body, tail, open + 1, Inside(k, inLoop));
      assert tail[0] == close && tail[1..] == rest;
  }

  lemma FlattenCons(n: Node, forest: seq<Node>)
    ensures Flatten([n] + forest) == FlattenNode(n) + Flatten(forest)
  {
    assert ([n] + forest)[1..] == forest;
  }

  /** One step of the reference translation on a single line. */
  lemma NestLeaf(l: Line, after: seq<Line>, inLoop: bool)
    requires !l.Open?
    ensures Nest([l] + after, inLoop) ==
            if IsClose(l) || ((l.Break? || l.Continue?) && !inLoop) then None
            else Prepend([Leaf(l)], Nest(after, inLoop))
  {
    assert ([l] + after)[1..] == after;
  }

  /** One step on a block whose closing line is known. */
  lemma NestBlock(open: Line, inner: seq<Line>, close: Line, after: seq<Line>, inLoop: bool)
    requires open.Open? && CloseAt(inner + [close] + after, 0) == |inner|
    ensures Nest([open] + inner + [close] + after, inLoop) ==
            match CloseBlock(open.kind, open.header, inner, close, inLoop)
            case None => None
            case Some(b) => Prepend([b], Nest(after, inLoop))
  {
    var rest := inner + [close] + after;
    var lines := [open] + inner + [close] + after;
    assert lines[0] == open && lines[1..] == rest;
    assert rest[..|inner|] == inner && rest[|inner|] == close && rest[|inner| + 1..] == after;
  }

  lemma NestUnclosed(open: Line, inner: seq<Line>, inLoop: bool)
    requires open.Open? && CloseAt(inner, 0) == |inner|
    ensures Nest([open] + inner, inLoop) == None
  {
    assert ([open] + inner)[1..] == inner;
  }

  /** Every legal forest is translated to itself. */
  lemma {:induction false} NestFlatten(forest: seq<Node>, inLoop: bool)
    requires Legal(forest, inLoop)
    ensures Nest(Flatten(forest), inLoop) == Some(forest)
    decreases forest, 1
  {
    if forest != [] {
      NestFlatten(forest[1..], inLoop);
      NestFlattenNode(forest[0], Flatten(forest[1..]), inLoop);
      assert [forest[0]] + forest[1..] == forest;
    }
  }

  lemma {:induction false} NestFlattenNode(n: Node, after: seq<Line>, inLoop: bool)
    requires LegalNode(n, inLoop)
    ensures Nest(FlattenNode(n) + after, inLoop) == Prepend([n], Nest(after, inLoop))
    decreases n, 0
  {
    match n
    case Leaf(l) => NestLeaf(l, after, inLoop);
    case Block(k, h, body, close) =>
      NestFlatten(body, Inside(k, inLoop));
      CloseAtFlatten(body, [close] + after, 0, Inside(k, inLoop));
      assert Flatten(body) + [close] + after == Flatten(body) + ([close] + after);
      NestBlock(Open(k, h), Flatten(body), close, after, inLoop);
  }

  lemma {:induction false} ConsSound(n: Node, forest: seq<Node>, inLoop: bool)
    requires LegalNode(n, inLoop) && Legal(forest, inLoop)
    ensures Legal([n] + forest, inLoop) && Flatten([n] + forest) == FlattenNode(n) + Flatten(forest)
  {
    FlattenCons(n, forest);
    assert ([n] + forest)[0] == n && ([n] + forest)[1..] == forest;
  }

  lemma {:induction false} BlockSound(k: Kind, h: string, inner: seq<Line>, close: Line, inLoop: bool)
    requires IsClose(close) && CloseBlock(k, h, inner, close, inLoop).Some?
    ensures var n := CloseBlock(k, h, inner, close, inLoop).value;
      LegalNode(n, inLoop) && FlattenNode(n) == [Open(k, h)] + inner + [close]
    decreases |inner|, 1
  {
    NestSound(inner, Inside(k, inLoop));
  }

  /** What is translated is legal, and reads back as its lines. */
  lemma {:induction false} NestSound(lines: seq<Line>, inLoop: bool)
    requires Nest(lines, inLoop).Some?
    ensures Legal(Nest(lines, inLoop).value, inLoop) && Flatten(Nest(lines, inLoop).value) == lines
    decreases |lines|, 0
  {
    if lines == [] {
    } else if lines[0].Open? {
      var rest := lines[1..];
      var k := CloseAt(rest, 0);
      var inner, close, after := rest[..k], rest[k], rest[k + 1..];
      assert lines == [lines[0]] + inner + [close] + after;
      BlockSound(lines[0].kind, lines[0].header, inner, close, inLoop);
      NestSound(after, inLoop);
      var block := CloseBlock(lines[0].kind, lines[0].header, inner, close, inLoop).value;
      ConsSound(block, Nest(after, inLoop).value, inLoop);
    } else {
      var after := lines[1..];
      assert lines == [lines[0]] + after;
      NestLeaf(lines[0], after, inLoop);
      NestSound(after, inLoop);
      ConsSound(Leaf(lines[0]), Nest(after, inLoop).value, inLoop);
    }
  }

  /** Exactly the legal forests are accepted: a break or continue is accepted just when a loop of the same
      function encloses it, at any depth of nesting. */
  lemma NestIsExact(lines: seq<Line>, forest: seq<Node>, inLoop: bool)
    ensures Nest(lines, inLoop) == Some(forest) <==> Legal(forest, inLoop) && lines == Flatten(forest)
  {
    if Nest(lines, inLoop).Some? {
      NestSound(lines, inLoop);
    }
    if Legal(forest, inLoop) && lines == Flatten(forest) {
      NestFlatten(forest, inLoop);
    }
  }

  // ----- the translator -----

  function LoopsIn(methods: seq<Line>): nat {
    if methods == [] then 0
    else
      var last := methods[|methods| - 1];
      LoopsIn(methods[..|methods| - 1]) + if last.Open? && IsLoop(last.kind) then 1 else 0
  }

  lemma LoopsInSnoc(methods: seq<Line>, m: Line)
    ensures LoopsIn(methods + [m]) == LoopsIn(methods) + if m.Open? && IsLoop(m.kind) then 1 else 0
  {
    assert (methods + [m])[..|methods|] == methods;
  }

  class Compiler {
    var loopDepth: nat

    constructor ()
      ensures loopDepth == 0
    {
      loopDepth := 0;
    }

    /** The collected lines so far, and those still to come, mean what all lines mean. */
    ghost predicate Collected(lines: seq<Line>, i: nat, methods: seq<Line>, tmp: seq<Line>, statements: seq<Node>,
                              inLoop: bool)
      requires i <= |lines|
    {
      Means(lines, i, tmp, statements, inLoop) && Opened(lines, i, methods, tmp)
    }

    ghost predicate Means(lines: seq<Line>, i: nat, tmp: seq<Line>, statements: seq<Node>, inLoop: bool)
      requires i <= |lines|
    {
      Nest(lines, inLoop) == Prepend(statements, Nest(tmp + lines[i..], inLoop))
    }

    /** The open blocks, and where the outermost of them closes. */
    ghost predicate Opened(lines: seq<Line>, i: nat, methods: seq<Line>, tmp: seq<Line>)
      requires i <= |lines|
    {
      && (forall j :: 0 <= j < |methods| ==> methods[j].Open?)
      && if methods == [] then tmp == []
         else 1 <= |tmp| <= i && tmp[0] == methods[0]
              && CloseAt(tmp[1..] + lines[i..], 0) == |tmp| - 1 + CloseAt(lines[i..], |methods| - 1)
    }

    /** Collecting a line only moves it. */
    lemma StillMeans(lines: seq<Line>, i: nat, tmp: seq<Line>, statements: seq<Node>, inLoop: bool)
      requires i < |lines| && Means(lines, i, tmp, statements, inLoop)
      ensures Means(lines, i + 1, tmp + [lines[i]], statements, inLoop)
    {
      Shift(tmp, lines, i);
    }

    lemma CollectStart(lines: seq<Line>, inLoop: bool)
      ensures Collected(lines, 0, [], [], [], inLoop)
    {
      assert [] + lines[0..] == lines;
      PrependNothing(Nest(lines, inLoop));
    }

    lemma CollectOpen(lines: seq<Line>, i: nat, methods: seq<Line>, tmp: seq<Line>, statements: seq<Node>, inLoop: bool)
      requires i < |lines| && Collected(lines, i, methods, tmp, statements, inLoop) && lines[i].Open?
      ensures Collected(lines, i + 1, methods + [lines[i]], tmp + [lines[i]], statements, inLoop)
    {
      StillMeans(lines, i, tmp, statements, inLoop);
      if methods == [] {
        OpenedFirst(lines, i);
      } else {
        OpenedNext(lines, i, methods, methods + [lines[i]], tmp);
      }
    }

    lemma OpenedNext(lines: seq<Line>, i: nat, methods: seq<Line>, methods': seq<Line>, tmp: seq<Line>)
      requires i < |lines| && Opened(lines, i, methods, tmp) && methods != [] && methods' != []
      requires methods' == if lines[i].Open? then methods + [lines[i]]
                           else if IsClose(lines[i]) then methods[..|methods| - 1] else methods
      ensures Opened(lines, i + 1, methods', tmp + [lines[i]])
    {
      Collect(lines, i, tmp, |methods| - 1, |methods'| - 1);
      var grown := tmp + [lines[i]];
      assert |grown| == |tmp| + 1 && grown[0] == tmp[0] && methods'[0] == methods[0];
    }

    lemma OpenedFirst(lines: seq<Line>, i: nat)
      requires i < |lines| && lines[i].Open?
      ensures Opened(lines, i + 1, [] + [lines[i]], [] + [lines[i]])
    {
      var tmp := [] + [lines[i]];
      assert tmp[1..] == [] && [] + lines[i + 1..] == lines[i + 1..];
    }

    lemma CollectLine(lines: seq<Line>, i: nat, methods: seq<Line>, methods': seq<Line>, tmp: seq<Line>,
                      statements: seq<Node>, inLoop: bool)
      requires i < |lines| && Collected(lines, i, methods, tmp, statements, inLoop) && methods != [] && !lines[i].Open?
      requires methods' != [] && methods' == if IsClose(lines[i]) then methods[..|methods| - 1] else methods
      ensures Collected(lines, i + 1, methods', tmp + [lines[i]], statements, inLoop)
    {
      StillMeans(lines, i, tmp, statements, inLoop);
      OpenedNext(lines, i, methods, methods', tmp);
    }

    /** One more collected line; `open` and `open'` are the blocks open around it besides the outermost. */
    static lemma Collect(lines: seq<Line>, i: nat, tmp: seq<Line>, open: nat, open': nat)
      requires i < |lines| && tmp != []
      requires open' == if lines[i].Open? then open + 1 else if IsClose(lines[i]) then open - 1 else open
      requires CloseAt(tmp[1..] + lines[i..], 0) == |tmp| - 1 + CloseAt(lines[i..], open)
      ensures CloseAt((tmp + [lines[i]])[1..] + lines[i + 1..], 0) == |tmp| + CloseAt(lines[i + 1..], open')
    {
      assert (tmp + [lines[i]])[1..] == tmp[1..] + [lines[i]];
      Shift(tmp[1..], lines, i);
      CloseAtNext(lines, i, open);
    }

    static lemma CloseAtNext(lines: seq<Line>, i: nat, open: nat)
      requires i < |lines|
      ensures lines[i].Open? ==> CloseAt(lines[i..], open) == 1 + CloseAt(lines[i + 1..], open + 1)
      ensures IsClose(lines[i]) && open > 0 ==> CloseAt(lines[i..], open) == 1 + CloseAt(lines[i + 1..], open - 1)
      ensures !lines[i].Open? && !IsClose(lines[i]) ==> CloseAt(lines[i..], open) == 1 + CloseAt(lines[i + 1..], open)
    {
      assert lines[i..][1..] == lines[i + 1..];
    }

    static lemma Shift(tmp: seq<Line>, lines: seq<Line>, i: nat)
      requires i < |lines|
      ensures tmp + [lines[i]] + lines[i + 1..] == tmp + lines[i..]
    {
    }

    /** The outermost open block closes: the collected lines are exactly its inside. */
    lemma CollectClose(lines: seq<Line>, i: nat, methods: seq<Line>, tmp: seq<Line>, statements: seq<Node>,
                       inLoop: bool)
      requires i < |lines| && Collected(lines, i, methods, tmp, statements, inLoop)
      requires |methods| == 1 && IsClose(lines[i])
      ensures var b := CloseBlock(methods[0].kind, methods[0].header, tmp[1..], lines[i], inLoop);
              if b.None? then Nest(lines, inLoop) == None
              else Collected(lines, i + 1, [], [], statements + [b.value], inLoop)
    {
      assert tmp + lines[i..] == [tmp[0]] + tmp[1..] + [lines[i]] + lines[i + 1..];
      assert tmp[1..] + lines[i..] == tmp[1..] + [lines[i]] + lines[i + 1..];
      NestBlock(tmp[0], tmp[1..], lines[i], lines[i + 1..], inLoop);
      assert [] + lines[i + 1..] == lines[i + 1..];
      var b := CloseBlock(methods[0].kind, methods[0].header, tmp[1..], lines[i], inLoop);
      if b.Some? {
        PrependTwice(statements, [b.value], Nest(lines[i + 1..], inLoop));
      }
    }

    lemma CollectSingle(lines: seq<Line>, i: nat, statements: seq<Node>, inLoop: bool)
      requires i < |lines| && Collected(lines, i, [], [], statements, inLoop) && !lines[i].Open?
      ensures var l := lines[i];
              if IsClose(l) || ((l.Break? || l.Continue?) && !inLoop) then Nest(lines, inLoop) == None
              else Collected(lines, i + 1, [], [], statements + [Leaf(lines[i])], inLoop)
    {
      assert [] + lines[i..] == [lines[i]] + lines[i + 1..];
      assert [] + lines[i + 1..] == lines[i + 1..];
      NestLeaf(lines[i], lines[i + 1..], inLoop);
      PrependTwice(statements, [Leaf(lines[i])], Nest(lines[i + 1..], inLoop));
    }

    lemma CollectEnd(lines: seq<Line>, methods: seq<Line>, tmp: seq<Line>, statements: seq<Node>, inLoop: bool)
      requires Collected(lines, |lines|, methods, tmp, statements, inLoop)
      ensures Nest(lines, inLoop) == if methods == [] then Some(statements) else None
    {
      assert tmp + lines[|lines|..] == tmp;
      if methods == [] {
        assert statements + [] == statements;
      } else {
        assert tmp[1..] + lines[|lines|..] == tmp[1..] && tmp == [tmp[0]] + tmp[1..];
        NestUnclosed(tmp[0], tmp[1..], inLoop);
      }
    }

    /** A line that opens a block. */
    method OpenBlock(ghost lines: seq<Line>, ghost i: nat, line: Line, methods: seq<Line>, tmp: seq<Line>,
                     ghost statements: seq<Node>, ghost inLoop: bool)
        returns (methods': seq<Line>, tmp': seq<Line>)
      requires i < |lines| && line == lines[i] && line.Open?
      requires Collected(lines, i, methods, tmp, statements, inLoop)
      modifies this
      ensures Collected(lines, i + 1, methods', tmp', statements, inLoop)
      ensures loopDepth - LoopsIn(methods') == old(loopDepth) - LoopsIn(methods)
    {
      CollectOpen(lines, i, methods, tmp, statements, inLoop);
      LoopsInSnoc(methods, line);
      methods', tmp' := methods + [line], tmp + [line];
      if IsLoop(line.kind) {
        loopDepth := loopDepth + 1;
      }
    }

    /** A single line outside any block. */
    method TopLevel(ghost lines: seq<Line>, ghost i: nat, line: Line, statements: seq<Node>, ghost inLoop: bool)
        returns (ok: bool, statements': seq<Node>)
      requires i < |lines| && line == lines[i] && !line.Open? && inLoop == (loopDepth > 0)
      requires Collected(lines, i, [], [], statements, inLoop)
      ensures if ok then Collected(lines, i + 1, [], [], statements', inLoop) else Nest(lines, inLoop) == None
    {
      CollectSingle(lines, i, statements, inLoop);
      ok, statements' := true, statements;
      if IsClose(line) || ((line.Break? || line.Continue?) && loopDepth == 0) {
        ok := false;
        return;
      }
      statements' := statements + [Leaf(line)];
    }

    /** A line while blocks are open: it is collected, or it closes the outermost block. */
    method InBlock(ghost lines: seq<Line>, ghost i: nat, line: Line, methods: seq<Line>, tmp: seq<Line>,
                   statements: seq<Node>, ghost inLoop: bool)
        returns (ok: bool, methods': seq<Line>, tmp': seq<Line>, statements': seq<Node>)
      requires i < |lines| && line == lines[i] && !line.Open? && methods != []
      requires Collected(lines, i, methods, tmp, statements, inLoop)
      requires loopDepth >= LoopsIn(methods) && inLoop == (loopDepth > LoopsIn(methods))
      modifies this
      ensures if ok then Collected(lines, i + 1, methods', tmp', statements', inLoop)
                         && loopDepth - LoopsIn(methods') == old(loopDepth) - LoopsIn(methods)
              else Nest(lines, inLoop) == None
      decreases |tmp|, 2
    {
      ok, methods', tmp', statements' := true, methods, tmp, statements;
      if !IsClose(line) {
        CollectLine(lines, i, methods, methods, tmp, statements, inLoop);
        tmp' := tmp + [line];
        return;
      }
      var expected := methods[|methods| - 1];
      methods' := methods[..|methods| - 1];
      if methods' == [] {
        CollectClose(lines, i, methods, tmp, statements, inLoop);
        var b := TranslateBlock(expected, tmp[1..], line);
        if b.None? {
          ok := false;
          return;
        }
        statements', tmp' := statements + [b.value], [];
      } else {
        CollectLine(lines, i, methods, methods', tmp, statements, inLoop);
        tmp' := tmp + [line];
      }
      if IsLoop(expected.kind) {
        loopDepth := loopDepth - 1;
      }
    }

    /** Translates lines to statements; none on a compile error. On success `loop_depth` is as found. */
    method Translate(lines: seq<Line>) returns (r: Option<seq<Node>>)
      modifies this
      ensures r == Nest(lines, old(loopDepth) > 0)
      ensures r.Some? ==> loopDepth == old(loopDepth)
      decreases |lines|, 0
    {
      var statements: seq<Node> := [];
      var tmp: seq<Line> := [];
      var methods: seq<Line> := [];  // the open blocks, innermost last
      ghost var inLoop := loopDepth > 0;
      var i := 0;
      CollectStart(lines, inLoop);
      while i < |lines|
        invariant 0 <= i <= |lines|
        invariant loopDepth == old(loopDepth) + LoopsIn(methods)
        invariant Collected(lines, i, methods, tmp, statements, inLoop)
      {
        var line := lines[i];
        var ok := true;
        if line.Open? {
          methods, tmp := OpenBlock(lines, i, line, methods, tmp, statements, inLoop);
        } else if methods != [] {
          ok, methods, tmp, statements := InBlock(lines, i, line, methods, tmp, statements, inLoop);
        } else {
          ok, statements := TopLevel(lines, i, line, statements, inLoop);
        }
        if !ok {
          return None;
        }
        i := i + 1;
      }
      CollectEnd(lines, methods, tmp, statements, inLoop);
      r := if methods != [] then None else Some(statements);
    }

    /** The collected lines of a block that has just closed. A function body starts at depth zero and
        restores the depth afterwards. */
    method TranslateBlock(opener: Line, lines: seq<Line>, close: Line) returns (r: Option<Node>)
      requires opener.Open? && IsClose(close)
      modifies this
      ensures r == (if close.Until? && !opener.kind.Loop? then None
                    else match Nest(lines, !opener.kind.Function? && old(loopDepth) > 0)
                         case None => None
                         case Some(body) => Some(Block(opener.kind, opener.header, body, close)))
      ensures r.Some? ==> loopDepth == old(loopDepth)
      decreases |lines|, 1
    {
      if close.Until? && !opener.kind.Loop? {
        return None;
      }
      var previous := loopDepth;
      if opener.kind.Function? {
        loopDepth := 0;
      }
      var body := Translate(lines);
      if body.None? {
        return None;
      }
      if opener.kind.Function? {
        loopDepth := previous;
      }
      r := Some(Block(opener.kind, opener.header, body.value, close));
    }
  }
}
