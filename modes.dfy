/**
 * `interpret` and `interpretStepByStep` run the same algorithm: they differ only in how
 * they wait before each block (a delay and a short pause, or the next-step signal).  When
 * nobody presses stop, both leave the same memory, the same log, the same consumed answers
 * and the same pending question; only the number of suspensions differs.
 */
module Modes {

  import opened Wrappers
  import opened JsValues
  import opened Comparator
  import opened Memory
  import opened Blocks
  import opened Semantics

  /** Step-by-step mode, nobody stops the run. */
  function Stepwise(host: Evaluator.Host, answers: seq<string>): Env {
    Env(host, true, 0, answers)
  }

  /** Continuous mode, nobody stops the run. */
  function Continuous(host: Evaluator.Host, answers: seq<string>): Env {
    Env(host, false, 0, answers)
  }

  /** The two states agree on everything but the count of suspensions. */
  predicate SameRun(s: State, t: State) {
    s.(ticks := 0) == t.(ticks := 0)
  }

  lemma SameRunFields(s: State, t: State)
    requires SameRun(s, t)
    ensures s.mem == t.mem && s.names == t.names && s.log == t.log && s.abort == t.abort
    ensures s.consumed == t.consumed && s.waiting == t.waiting && s.active == t.active
  {
    assert s.(ticks := 0).mem == t.(ticks := 0).mem;
  }

  // ---------------------------------------------------------------------------
  // The simple statements ignore the mode and the suspension count

  lemma DeclareSame(s: State, t: State, name: string, dataType: string)
    requires SameRun(s, t)
    ensures SameRun(DeclareStep(s, name, dataType), DeclareStep(t, name, dataType))
  {
    SameRunFields(s, t);
    if Trim(name) == [] {
    } else if name in s.mem {
    } else {
      var e := Entry(dataType, TypeDefault(dataType));
      assert SameRun(AddVariable(s, name, e), AddVariable(t, name, e));
    }
  }

  lemma AssignSame(h: Evaluator.Host, ans: seq<string>, s: State, t: State, varName: string, expr: string)
    requires SameRun(s, t)
    ensures SameRun(AssignStep(Stepwise(h, ans), s, varName, expr), AssignStep(Continuous(h, ans), t, varName, expr))
  {
    SameRunFields(s, t);
    if varName != [] && varName in s.mem {
      var val := Eval(Stepwise(h, ans), s, expr);
      assert Eval(Continuous(h, ans), t, expr) == val;
      var typ := s.mem[varName].typ;
      if !val.Undef? && !(typ == Entier && !IsNumber(val)) {
        var stored := if typ == Entier then Trunc(val) else val;
        assert SameRun(SetValue(s, varName, stored), SetValue(t, varName, stored));
      }
    }
  }

  lemma DisplaySame(h: Evaluator.Host, ans: seq<string>, s: State, t: State, text: string)
    requires SameRun(s, t)
    ensures SameRun(DisplayStep(Stepwise(h, ans), s, text), DisplayStep(Continuous(h, ans), t, text))
  {
    SameRunFields(s, t);
  }

  lemma ReadSame(h: Evaluator.Host, ans: seq<string>, s: State, t: State, varName: string)
    requires SameRun(s, t)
    ensures SameRun(ReadStep(Stepwise(h, ans), s, varName), ReadStep(Continuous(h, ans), t, varName))
  {
    SameRunFields(s, t);
  }

  // ---------------------------------------------------------------------------
  // `_run` and the statements that nest blocks

  lemma {:induction false} ExecForestSame(h: Evaluator.Host, ans: seq<string>, bs: seq<Block>, s: State, t: State)
    requires SameRun(s, t)
    ensures SameRun(ExecForest(Stepwise(h, ans), bs, s), ExecForest(Continuous(h, ans), bs, t))
    decreases SizeF(bs), 2, 0
  {
    SameRunFields(s, t);
    if bs != [] && !Halted(s) {
      VisitSame(h, ans, bs[0], s, t);
      ExecForestSame(h, ans, bs[1..], Visit(Stepwise(h, ans), bs[0], s), Visit(Continuous(h, ans), bs[0], t));
    }
  }

  lemma {:induction false} VisitSame(h: Evaluator.Host, ans: seq<string>, b: Block, s: State, t: State)
    requires SameRun(s, t) && !s.abort
    ensures SameRun(Visit(Stepwise(h, ans), b, s), Visit(Continuous(h, ans), b, t))
    decreases Size(b), 1, 1
  {
    SameRunFields(s, t);
    var s1 := Suspend(0, s).(active := Some(b.id));
    var t1 := Suspend(0, Suspend(0, t).(active := Some(b.id)));
    assert SameRun(s1, t1);
    DispatchSame(h, ans, b, s1, t1);
  }

  lemma {:induction false} DispatchSame(h: Evaluator.Host, ans: seq<string>, b: Block, s: State, t: State)
    requires SameRun(s, t)
    ensures SameRun(Dispatch(Stepwise(h, ans), b, s), Dispatch(Continuous(h, ans), b, t))
    decreases Size(b), 1, 0
  {
    SameRunFields(s, t);
    match b.kind
    case Comment(_) =>
    case Declare(name, dataType) => DeclareSame(s, t, name, dataType);
    case Assign(varName, expr) => AssignSame(h, ans, s, t, varName, expr);
    case Display(text) => DisplaySame(h, ans, s, t, text);
    case Read(varName) => ReadSame(h, ans, s, t, varName);
    case Unknown(typeName) =>
    case _ => NestedSame(h, ans, b, s, t);
  }

  /** The four statements that nest blocks. */
  lemma {:induction false} NestedSame(h: Evaluator.Host, ans: seq<string>, b: Block, s: State, t: State)
    requires SameRun(s, t)
    requires b.kind.If? || b.kind.For? || b.kind.While? || b.kind.Repeat?
    ensures SameRun(Dispatch(Stepwise(h, ans), b, s), Dispatch(Continuous(h, ans), b, t))
    decreases Size(b), 0
  {
    match b.kind
    case If(left, op, right, thenBlocks, elseBlocks) =>
      IfBlockSame(h, ans, left, op, right, thenBlocks, elseBlocks, s, t);
    case For(varName, from, to, step, body) => ForBlockSame(h, ans, varName, from, to, step, body, s, t);
    case While(left, op, right, body) => WhileLoopSame(h, ans, body, left, op, right, 0, s, t);
    case Repeat(body, left, op, right) => RepeatLoopSame(h, ans, body, left, op, right, 0, s, t);
  }


  lemma {:induction false} IfBlockSame(h: Evaluator.Host, ans: seq<string>, left: string, op: string, right: string,
                                       thenBlocks: seq<Block>, elseBlocks: seq<Block>, s: State, t: State)
    requires SameRun(s, t)
    ensures SameRun(IfBlock(Stepwise(h, ans), left, op, right, thenBlocks, elseBlocks, s),
                    IfBlock(Continuous(h, ans), left, op, right, thenBlocks, elseBlocks, t))
    decreases SizeF(thenBlocks) + SizeF(elseBlocks), 4, 0
  {
    SameRunFields(s, t);
    var c := CompareValues(Eval(Stepwise(h, ans), s, left), op, Eval(Stepwise(h, ans), s, right));
    var msg := "Condition " + ConditionText(left, op, right) + " : " + (if c then "VRAIE" else "FAUSSE") + ".";
    var s1 := Log(s, msg, if c then Success else Warn);
    var t1 := Log(t, msg, if c then Success else Warn);
    assert SameRun(s1, t1);
    if c {
      ExecForestSame(h, ans, thenBlocks, s1, t1);
    } else {
      ExecForestSame(h, ans, elseBlocks, s1, t1);
    }
  }

  lemma {:induction false} ForBlockSame(h: Evaluator.Host, ans: seq<string>, varName: string, from: string,
                                        to: string, step: string, body: seq<Block>, s: State, t: State)
    requires SameRun(s, t)
    ensures SameRun(ForBlock(Stepwise(h, ans), varName, from, to, step, body, s),
                    ForBlock(Continuous(h, ans), varName, from, to, step, body, t))
    decreases SizeF(body), 4, 0
  {
    SameRunFields(s, t);
    var iter := ForBound(Stepwise(h, ans), s, from);
    var end := ForBound(Stepwise(h, ans), s, to);
    assert ForBound(Continuous(h, ans), t, from) == iter && ForBound(Continuous(h, ans), t, to) == end;
    var s1 := LoopVariable(s, varName, iter);
    var t1 := LoopVariable(t, varName, iter);
    assert SameRun(s1, t1);
    ForLoopSame(h, ans, body, varName, iter, end, ForStep(step), 0, s1, t1);
  }

  lemma {:induction false} ForTurnSame(h: Evaluator.Host, ans: seq<string>, body: seq<Block>, varName: string,
                                       iter: Value, s: State, t: State)
    requires SameRun(s, t)
    ensures SameRun(ForTurn(Stepwise(h, ans), body, varName, iter, s), ForTurn(Continuous(h, ans), body, varName, iter, t))
    decreases SizeF(body), 3, 0
  {
    SameRunFields(s, t);
    var msg := "Pour " + varName + " = " + ToString(iter);
    var s1 := Log(SetValue(s, varName, iter), msg, Info);
    var t1 := Log(SetValue(t, varName, iter), msg, Info);
    assert SameRun(s1, t1);
    ExecForestSame(h, ans, body, s1, t1);
  }

  lemma {:induction false} ForLoopSame(h: Evaluator.Host, ans: seq<string>, body: seq<Block>, varName: string,
                                       iter: Value, end: Value, inc: int, guard: nat, s: State, t: State)
    requires SameRun(s, t)
    ensures SameRun(ForLoop(Stepwise(h, ans), body, varName, iter, end, inc, guard, s),
                    ForLoop(Continuous(h, ans), body, varName, iter, end, inc, guard, t))
    decreases SizeF(body), 3, Cap + 1 - guard, 1
  {
    SameRunFields(s, t);
    if AtMost(iter, end) && guard < Cap && !Halted(s) {
      ForLoopTurnSame(h, ans, body, varName, iter, end, inc, guard, s, t);
    }
  }

  /** A turn of the loop in both modes, then the rest of it. */
  lemma {:induction false} ForLoopTurnSame(h: Evaluator.Host, ans: seq<string>, body: seq<Block>, varName: string,
                                           iter: Value, end: Value, inc: int, guard: nat, s: State, t: State)
    requires SameRun(s, t) && AtMost(iter, end) && guard < Cap && !Halted(s)
    ensures SameRun(ForLoop(Stepwise(h, ans), body, varName, iter, end, inc, guard, s),
                    ForLoop(Continuous(h, ans), body, varName, iter, end, inc, guard, t))
    decreases SizeF(body), 3, Cap + 1 - guard, 0
  {
    SameRunFields(s, t);
    var S := Stepwise(h, ans);
    var C := Continuous(h, ans);
    var s1 := ForTurn(S, body, varName, iter, s);
    var t1 := ForTurn(C, body, varName, iter, t);
    ForTurnSame(h, ans, body, varName, iter, s, t);
    ForLoopSame(h, ans, body, varName, AddNumber(iter, inc), end, inc, guard + 1, s1, t1);
    ForLoopStep(S, body, varName, iter, end, inc, guard, s);
    ForLoopStep(C, body, varName, iter, end, inc, guard, t);
  }

  lemma {:induction false} WhileLoopSame(h: Evaluator.Host, ans: seq<string>, body: seq<Block>, left: string,
                                         op: string, right: string, guard: nat, s: State, t: State)
    requires SameRun(s, t)
    ensures SameRun(WhileLoop(Stepwise(h, ans), body, left, op, right, guard, s),
                    WhileLoop(Continuous(h, ans), body, left, op, right, guard, t))
    decreases SizeF(body), 3, Cap + 1 - guard
  {
    SameRunFields(s, t);
    var S := Stepwise(h, ans);
    var C := Continuous(h, ans);
    assert Eval(S, s, left) == Eval(C, t, left) && Eval(S, s, right) == Eval(C, t, right);
    if CompareValues(Eval(S, s, left), op, Eval(S, s, right)) && guard < Cap && !Halted(s) {
      var msg := "Tant que " + ConditionText(left, op, right) + " : VRAI";
      var s1 := Log(s, msg, Info);
      var t1 := Log(t, msg, Info);
      assert SameRun(s1, t1);
      ExecForestSame(h, ans, body, s1, t1);
      WhileLoopSame(h, ans, body, left, op, right, guard + 1, ExecForest(S, body, s1), ExecForest(C, body, t1));
    }
  }

  lemma {:induction false} RepeatLoopSame(h: Evaluator.Host, ans: seq<string>, body: seq<Block>, left: string,
                                          op: string, right: string, guard: nat, s: State, t: State)
    requires SameRun(s, t)
    ensures SameRun(RepeatLoop(Stepwise(h, ans), body, left, op, right, guard, s),
                    RepeatLoop(Continuous(h, ans), body, left, op, right, guard, t))
    decreases SizeF(body), 3, Cap + 1 - guard
  {
    SameRunFields(s, t);
    var S := Stepwise(h, ans);
    var C := Continuous(h, ans);
    if !Halted(s) {
      var s1 := ExecForest(S, body, s);
      var t1 := ExecForest(C, body, t);
      ExecForestSame(h, ans, body, s, t);
      SameRunFields(s1, t1);
      assert Eval(S, s1, left) == Eval(C, t1, left) && Eval(S, s1, right) == Eval(C, t1, right);
      if !CompareValues(Eval(S, s1, left), op, Eval(S, s1, right)) && guard + 1 < Cap {
        RepeatLoopSame(h, ans, body, left, op, right, guard + 1, s1, t1);
      }
    }
  }

  /** Without a stop, the two modes leave the same memory, log, answers and question. */
  lemma ModesAgree(h: Evaluator.Host, ans: seq<string>, bs: seq<Block>)
    ensures var s := ExecForest(Stepwise(h, ans), bs, Fresh());
            var t := ExecForest(Continuous(h, ans), bs, Fresh());
            s.mem == t.mem && s.names == t.names && s.log == t.log
            && s.consumed == t.consumed && s.waiting == t.waiting
  {
    var s := ExecForest(Stepwise(h, ans), bs, Fresh());
    var t := ExecForest(Continuous(h, ans), bs, Fresh());
    ExecForestSame(h, ans, bs, Fresh(), Fresh());
    SameRunFields(s, t);
  }
}
