/**
 Where a break or continue may stand, and which line closes which block, said by the names of the blocks: the
 translation of a single jump inside any number of nested blocks.
 */
module BlockLaws {
  import opened Options
  import opened Translator

  /** The blocks a break or continue belongs to. */
  predicate Repeats(k: Kind) {
    match k
    case While | Loop | For | Foreach => true
    case If | Plain | Function => false
  }

  /** `until` closes a `loop`, and `end` closes anything. */
  predicate Closes(close: Line, k: Kind) {
    match close
    case End => true
    case Until(_) => k == Loop
    case _ => false
  }

  /** A block with its header and the line that closes it. */
  datatype Frame = Frame(kind: Kind, header: string, close: Line)

  /** The lines of a line inside nested blocks, the outermost block first. */
  function Nested(frames: seq<Frame>, inner: Line): seq<Line> {
    if frames == [] then [inner]
    else [Open(frames[0].kind, frames[0].header)] + Nested(frames[1..], inner) + [frames[0].close]
  }

  /** Some block repeats, and no function starts inside it. */
  predicate InsideLoop(frames: seq<Frame>) {
    exists i :: 0 <= i < |frames| && Repeats(frames[i].kind) && NoFunctionAfter(frames, i)
  }

  predicate NoFunctionAfter(frames: seq<Frame>, i: int)
    requires 0 <= i < |frames|
  {
    forall j :: i < j < |frames| ==> frames[j].kind != Function
  }

  predicate NoFunction(frames: seq<Frame>) { forall j :: 0 <= j < |frames| ==> frames[j].kind != Function }

  predicate WellClosed(frames: seq<Frame>) {
    forall j :: 0 <= j < |frames| ==> Closes(frames[j].close, frames[j].kind)
  }

  lemma {:induction false} ClosedAfter(frames: seq<Frame>, inner: Line, rest: seq<Line>, open: nat)
    requires !inner.Open? && !IsClose(inner) && forall j :: 0 <= j < |frames| ==> IsClose(frames[j].close)
    ensures CloseAt(Nested(frames, inner) + rest, open) == |Nested(frames, inner)| + CloseAt(rest, open)
  {
    var lines := Nested(frames, inner);
    if frames == [] {
      assert (lines + rest)[1..] == rest;
    } else {
      var tail := [frames[0].close] + rest;
      assert lines + rest == [Open(frames[0].kind, frames[0].header)] + (Nested(frames[1..], inner) + tail);
      assert (lines + rest)[1..] == Nested(frames[1..], inner) + tail;
      ClosedAfter(frames[1..], inner, tail, open + 1);
      assert tail[0] == frames[0].close && tail[1..] == rest;
    }
  }

  lemma InsideOne(frames: seq<Frame>)
    requires frames != []
    ensures InsideLoop(frames) <==> InsideLoop(frames[1..]) || (Repeats(frames[0].kind) && NoFunction(frames[1..]))
    ensures NoFunction(frames) <==> frames[0].kind != Function && NoFunction(frames[1..])
  {
    var rest := frames[1..];
    if InsideLoop(frames) {
      var i :| 0 <= i < |frames| && Repeats(frames[i].kind) && NoFunctionAfter(frames, i);
      if i > 0 {
        assert rest[i - 1] == frames[i] && NoFunctionAfter(rest, i - 1);
      } else {
        forall j | 0 <= j < |rest| ensures rest[j].kind != Function { assert frames[j + 1] == rest[j]; }
      }
    }
    if InsideLoop(rest) {
      var i :| 0 <= i < |rest| && Repeats(rest[i].kind) && NoFunctionAfter(rest, i);
      forall j | i + 1 < j < |frames| ensures frames[j].kind != Function { assert rest[j - 1] == frames[j]; }
      assert frames[i + 1] == rest[i] && NoFunctionAfter(frames, i + 1);
    }
    if Repeats(frames[0].kind) && NoFunction(rest) {
      forall j | 0 < j < |frames| ensures frames[j].kind != Function { assert rest[j - 1] == frames[j]; }
      assert NoFunctionAfter(frames, 0);
    }
    if NoFunction(frames) {
      forall j | 0 <= j < |rest| ensures rest[j].kind != Function { assert frames[j + 1] == rest[j]; }
    }
    if frames[0].kind != Function && NoFunction(rest) {
      forall j | 0 <= j < |frames| ensures frames[j].kind != Function { assert j > 0 ==> rest[j - 1] == frames[j]; }
    }
  }

  /** One block around the lines of the others. */
  lemma NestOne(frames: seq<Frame>, inner: Line, inLoop: bool)
    requires frames != [] && !inner.Open? && !IsClose(inner)
    requires forall j :: 0 <= j < |frames| ==> IsClose(frames[j].close)
    ensures Nest(Nested(frames, inner), inLoop).Some? <==>
            Closes(frames[0].close, frames[0].kind)
            && Nest(Nested(frames[1..], inner), frames[0].kind != Function && (Repeats(frames[0].kind) || inLoop)).Some?
  {
    var k, close, inside := frames[0].kind, frames[0].close, Nested(frames[1..], inner);
    ClosedAfter(frames[1..], inner, [close], 0);
    assert [close][0] == close && inside + [close] + [] == inside + [close];
    NestBlock(Open(k, frames[0].header), inside, close, [], inLoop);
    assert Nested(frames, inner) == [Open(k, frames[0].header)] + inside + [close] + [];
    assert Nest([], inLoop) == Some([]);
  }

  lemma {:induction false} JumpAllowed(frames: seq<Frame>, jump: Line, inLoop: bool)
    requires jump.Break? || jump.Continue?
    requires forall j :: 0 <= j < |frames| ==> IsClose(frames[j].close)
    ensures Nest(Nested(frames, jump), inLoop).Some? <==>
            WellClosed(frames) && (InsideLoop(frames) || (inLoop && NoFunction(frames)))
  {
    if frames == [] {
      NestLeaf(jump, [], inLoop);
      assert [jump] + [] == [jump];
    } else {
      var k := frames[0].kind;
      NestOne(frames, jump, inLoop);
      JumpAllowed(frames[1..], jump, k != Function && (Repeats(k) || inLoop));
      InsideOne(frames);
      assert WellClosed(frames) <==> Closes(frames[0].close, k) && WellClosed(frames[1..]);
    }
  }

  /** A break or continue in blocks nested in any way is accepted exactly when every block is closed by a line of
      its own and one of them is a `while`, `loop`, `for` or `foreach` with no function inside it around the jump. */
  lemma JumpsBelongToLoops(frames: seq<Frame>, jump: Line)
    requires jump.Break? || jump.Continue?
    requires forall j :: 0 <= j < |frames| ==> frames[j].close.End? || frames[j].close.Until?
    ensures Nest(Nested(frames, jump), false).Some? <==> WellClosed(frames) && InsideLoop(frames)
  {
    JumpAllowed(frames, jump, false);
  }

  /** One block, outside all loops. */
  lemma JumpInBlock(k: Kind, header: string, jump: Line, close: Line)
    requires (jump.Break? || jump.Continue?) && (close.End? || close.Until?)
    ensures Nest([Open(k, header), jump, close], false).Some? <==>
            k in {While, Loop, For, Foreach} && (close.Until? ==> k == Loop)
  {
    var frames := [Frame(k, header, close)];
    JumpsBelongToLoops(frames, jump);
    assert frames[1..] == [] && Nested([], jump) == [jump];
    assert Nested(frames, jump) == [Open(k, header), jump, close];
    if Repeats(k) {
      assert frames[0].kind == k && NoFunctionAfter(frames, 0);
    }
  }
}
