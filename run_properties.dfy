/**
 * What a run promises about each kind of block, stated on the functions of `Semantics`
 * (and so, through the contracts of `Interpreter`, about the methods that run the blocks).
 */
module RunProperties {

  import opened Wrappers
  import opened JsValues
  import opened Comparator
  import opened Memory
  import opened Blocks
  import opened Semantics

  // ---------------------------------------------------------------------------
  // The walk over a list of blocks

  /** Running `a + b` is running `a`, then `b` from where `a` left off. */
  lemma {:induction false} ExecForestAppend(env: Env, a: seq<Block>, b: seq<Block>, st: State)
    ensures ExecForest(env, a + b, st) == ExecForest(env, b, ExecForest(env, a, st))
    decreases |a|
  {
    if a == [] {
      assert a + b == b;
    } else if !Halted(st) {
      assert (a + b)[0] == a[0];
      assert (a + b)[1..] == a[1..] + b;
      ExecForestAppend(env, a[1..], b, Visit(env, a[0], st));
    }
  }

  /** A block that stops the run, or leaves it waiting for an answer, is the last to act. */
  lemma StopSkipsTheRest(env: Env, b: Block, rest: seq<Block>, st: State)
    requires !Halted(st) && Halted(Visit(env, b, st))
    ensures ExecForest(env, [b] + rest, st) == Visit(env, b, st)
  {
    assert ([b] + rest)[1..] == rest;
  }

  /** In step mode, a stop that arrives while the run waits for the next step skips the
      block: only the suspension is counted. */
  lemma StepModeStopSkipsBlock(env: Env, b: Block, st: State)
    requires env.stepMode && !st.abort && env.stopAt == st.ticks + 1
    ensures Visit(env, b, st) == st.(ticks := st.ticks + 1, abort := true)
  {
  }

  /** In continuous mode, a stop that arrives during the delay before a block does not keep
      that block from running: there is no check between the delay and the block. */
  lemma ContinuousStopStillRunsBlock(env: Env, id: string, text: string, st: State)
    requires !env.stepMode && !st.abort && env.stopAt == st.ticks + 1
    ensures Visit(env, Block(id, Display(text)), st).abort
    ensures Visit(env, Block(id, Display(text)), st).log
         == st.log + [LogEvent(if Eval(env, st, text).Undef? then text else ToString(Eval(env, st, text)), Output)]
  {
  }

  /** A block of an unknown type is reported as a warning and the run goes on. */
  lemma UnknownBlockWarnsAndContinues(env: Env, id: string, typeName: string, rest: seq<Block>, st: State)
    requires !Halted(st) && env.stopAt == 0
    ensures ExecForest(env, [Block(id, Unknown(typeName))] + rest, st)
         == ExecForest(env, rest, st.(ticks := st.ticks + (if env.stepMode then 1 else 2),
                                      active := Some(id),
                                      log := st.log + [LogEvent("Type de bloc inconnu : " + typeName + ".", Warn)]))
  {
    var u := Block(id, Unknown(typeName));
    var st1 := st.(ticks := st.ticks + (if env.stepMode then 1 else 2), active := Some(id));
    assert Visit(env, u, st) == Dispatch(env, u, st1);
    assert Dispatch(env, u, st1) == Log(st1, "Type de bloc inconnu : " + typeName + ".", Warn);
    assert ([u] + rest)[0] == u && ([u] + rest)[1..] == rest;
  }

  // ---------------------------------------------------------------------------
  // The simple statements

  /** A declaration is refused when the name is blank (an error) or already declared (a
      warning); otherwise it adds the variable with its type's default value, last in the
      key order.  Either way exactly one message is logged. */
  lemma DeclareOutcome(st: State, name: string, dataType: string)
    ensures var r := DeclareStep(st, name, dataType);
            && r == st.(mem := r.mem, names := r.names, log := r.log)
            && |r.log| == |st.log| + 1 && r.log[..|st.log|] == st.log
            && (Trim(name) == [] ==> r.log[|st.log|].severity == Error)
            && (Trim(name) != [] && name in st.mem ==> r.log[|st.log|].severity == Warn)
            && ((Trim(name) == [] || name in st.mem) <==> (r.mem == st.mem && r.names == st.names))
            && (Trim(name) != [] && name !in st.mem ==>
                  && r.mem == st.mem[name := Entry(dataType, TypeDefault(dataType))]
                  && r.names == st.names + [name]
                  && r.log[|st.log|].severity == Success)
  {
    var r := DeclareStep(st, name, dataType);
    assert r.log[..|st.log|] == st.log;
    if Trim(name) != [] && name !in st.mem {
      assert name in r.mem;
    }
  }

  /** An assignment is refused, with an error and no change to the memory, when there is no
      target, the target is not declared, the expression has no value, or a non-number is
      assigned to an `Entier`; otherwise only the target's value changes, truncated for an
      `Entier`, and its type stays. */
  lemma AssignOutcome(env: Env, st: State, varName: string, expr: string)
    ensures var r := AssignStep(env, st, varName, expr);
            var val := Eval(env, st, expr);
            var refused := varName == [] || varName !in st.mem || val.Undef?
                           || (st.mem[varName].typ == Entier && !IsNumber(val));
            && r == st.(mem := r.mem, log := r.log)
            && |r.log| == |st.log| + 1 && r.log[..|st.log|] == st.log
            && (refused <==> r.log[|st.log|].severity == Error)
            && (refused ==> r.mem == st.mem)
            && (!refused ==>
                  && r.mem == st.mem[varName := Entry(st.mem[varName].typ,
                                                      if st.mem[varName].typ == Entier then Trunc(val) else val)]
                  && r.log[|st.log|].severity == Info)
  {
    var r := AssignStep(env, st, varName, expr);
    assert r.log[..|st.log|] == st.log;
  }

  /** A display only logs: the value of the expression, or the raw text when it has none. */
  lemma DisplayOutcome(env: Env, st: State, text: string)
    ensures var val := Eval(env, st, text);
            (DisplayStep(env, st, text)
             == st.(log := st.log + [LogEvent(if val.Undef? then text else ToString(val), Output)]))
  {
  }

  /** A read of a missing or undeclared variable asks nothing: no suspension, no answer
      consumed, one error logged. */
  lemma ReadRefused(env: Env, st: State, varName: string)
    requires varName == [] || varName !in st.mem
    ensures var r := ReadStep(env, st, varName);
            && r == st.(log := r.log)
            && |r.log| == |st.log| + 1 && r.log[|st.log|].severity == Error
  {
  }

  /** A read of a declared variable waits once for the answer and consumes exactly one
      answer, parsed according to the variable's type, which it keeps. */
  lemma ReadConsumesOneAnswer(env: Env, st: State, varName: string)
    requires varName != [] && varName in st.mem && st.consumed < |env.answers|
    ensures var r := ReadStep(env, st, varName);
            && r.consumed == st.consumed + 1 && r.ticks == st.ticks + 1
            && r.mem == st.mem[varName := Entry(st.mem[varName].typ,
                                              ParseAnswer(st.mem[varName].typ, env.answers[st.consumed]))]
            && r.waiting == st.waiting && r.names == st.names
            && |r.log| == |st.log| + 1 && r.log[|st.log|].severity == Info
  {
  }

  /** When no answer ever comes, the read shows its question and the run waits forever:
      the memory and the log stay as they were and no later block acts. */
  lemma ReadWithoutAnswerWaits(env: Env, st: State, varName: string, rest: seq<Block>)
    requires varName != [] && varName in st.mem && st.consumed >= |env.answers|
    ensures var r := ReadStep(env, st, varName);
            && r.waiting == Some(Question(varName, st.mem[varName].typ))
            && r.mem == st.mem && r.log == st.log && r.consumed == st.consumed
            && Halted(r)
            && ExecForest(env, rest, r) == r
  {
  }

  // ---------------------------------------------------------------------------
  // Conditions and loops

  /** An `if` runs one branch only: the branch it does not take has no influence. */
  lemma IfRunsOneBranch(env: Env, left: string, op: string, right: string,
                        thenBlocks: seq<Block>, elseBlocks: seq<Block>, other: seq<Block>, st: State)
    ensures CompareValues(Eval(env, st, left), op, Eval(env, st, right)) ==>
              IfBlock(env, left, op, right, thenBlocks, elseBlocks, st)
              == IfBlock(env, left, op, right, thenBlocks, other, st)
    ensures !CompareValues(Eval(env, st, left), op, Eval(env, st, right)) ==>
              IfBlock(env, left, op, right, thenBlocks, elseBlocks, st)
              == IfBlock(env, left, op, right, other, elseBlocks, st)
  {
  }

  /** The last value a `for` from `a` to `b` by `inc` takes: the largest `a + k * inc`
      that is at most `b`. */
  function LastTurn(a: int, b: int, inc: int): (r: int)
    requires a <= b && inc > 0
    ensures a <= r <= b < r + inc
    decreases b - a
  {
    if a + inc > b then a else LastTurn(a + inc, b, inc)
  }

  /** The message of the turn at `k`. */
  function ForMessage(varName: string, k: int): LogEvent {
    LogEvent("Pour " + varName + " = " + IntToString(k), Info)
  }

  /** The messages of a `for` from `a` to `b` by `inc`. */
  function ForMessages(varName: string, a: int, b: int, inc: int): seq<LogEvent>
    requires inc > 0
    decreases b - a + 1
  {
    if a > b then [] else [ForMessage(varName, a)] + ForMessages(varName, a + inc, b, inc)
  }

  /** The state after a `for` from `a` to `b` by `inc` with an empty body. */
  function Counted(st: State, varName: string, a: int, b: int, inc: int): State
    requires varName in st.mem && inc > 0
  {
    if a > b then st
    else st.(mem := st.mem[varName := Entry(st.mem[varName].typ, Num(LastTurn(a, b, inc)))],
             log := st.log + ForMessages(varName, a, b, inc))
  }

  /** The state after one turn at `a` with an empty body. */
  function TurnState(st: State, varName: string, a: int): State
    requires varName in st.mem
  {
    st.(mem := st.mem[varName := Entry(st.mem[varName].typ, Num(a))],
        log := st.log + [ForMessage(varName, a)])
  }

  /** One turn with an empty body sets the variable and logs its value. */
  lemma ForTurnEmptyBody(env: Env, varName: string, a: int, st: State)
    requires varName in st.mem
    ensures ForTurn(env, [], varName, Num(a), st)
         == TurnState(st, varName, a)
  {
  }

  /** Counting from `a` is one turn at `a`, then counting from `a + inc`. */
  lemma CountedStep(st: State, varName: string, a: int, b: int, inc: int)
    requires varName in st.mem && inc > 0 && a <= b
    ensures Counted(TurnState(st, varName, a), varName, a + inc, b, inc) == Counted(st, varName, a, b, inc)
  {
    if a + inc <= b {
      CountedStepInner(st, varName, a, b, inc);
    } else {
      CountedStepLast(st, varName, a, b, inc);
    }
  }

  lemma CountedStepInner(st: State, varName: string, a: int, b: int, inc: int)
    requires varName in st.mem && inc > 0 && a + inc <= b
    ensures Counted(TurnState(st, varName, a), varName, a + inc, b, inc) == Counted(st, varName, a, b, inc)
  {
    TurnMemory(st, varName, a, b, inc);
    TurnLog(st, varName, a, b, inc);
  }

  lemma TurnMemory(st: State, varName: string, a: int, b: int, inc: int)
    requires varName in st.mem && inc > 0 && a + inc <= b
    ensures var m1 := TurnState(st, varName, a).mem;
            m1[varName := Entry(m1[varName].typ, Num(LastTurn(a + inc, b, inc)))]
            == st.mem[varName := Entry(st.mem[varName].typ, Num(LastTurn(a, b, inc)))]
  {
    assert LastTurn(a + inc, b, inc) == LastTurn(a, b, inc);
  }

  lemma TurnLog(st: State, varName: string, a: int, b: int, inc: int)
    requires inc > 0 && a <= b
    ensures st.log + [ForMessage(varName, a)] + ForMessages(varName, a + inc, b, inc)
         == st.log + ForMessages(varName, a, b, inc)
  {
    assert ForMessages(varName, a, b, inc) == [ForMessage(varName, a)] + ForMessages(varName, a + inc, b, inc);
  }

  lemma CountedStepLast(st: State, varName: string, a: int, b: int, inc: int)
    requires varName in st.mem && inc > 0 && a <= b < a + inc
    ensures Counted(TurnState(st, varName, a), varName, a + inc, b, inc) == Counted(st, varName, a, b, inc)
  {
    assert LastTurn(a, b, inc) == a;
    assert ForMessages(varName, a + inc, b, inc) == [];
    assert ForMessages(varName, a, b, inc) == [ForMessage(varName, a)];
  }

  /** A `for` with an empty body and integer bounds logs one message per value from `a` to
      `b` by `inc`, and leaves the variable at the last of them (at its former value when
      there is none). */
  lemma {:induction false} ForCountsUp(env: Env, varName: string, a: int, b: int, inc: int, guard: nat, st: State)
    requires inc > 0 && varName in st.mem && !Halted(st) && guard + (b - a) < Cap
    ensures ForLoop(env, [], varName, Num(a), Num(b), inc, guard, st) == Counted(st, varName, a, b, inc)
    decreases b - a + 1, 1
  {
    if a > b {
      ForPastEnd(env, [], varName, a, b, inc, guard, st);
    } else {
      ForCountsUpTurn(env, varName, a, b, inc, guard, st);
    }
  }

  /** The first turn of such a loop, then the rest of it. */
  lemma {:induction false} ForCountsUpTurn(env: Env, varName: string, a: int, b: int, inc: int, guard: nat, st: State)
    requires inc > 0 && varName in st.mem && !Halted(st) && guard + (b - a) < Cap && a <= b
    ensures ForLoop(env, [], varName, Num(a), Num(b), inc, guard, st) == Counted(st, varName, a, b, inc)
    decreases b - a + 1, 0
  {
    var st1 := TurnState(st, varName, a);
    CountedStep(st, varName, a, b, inc);
    ForCountsUp(env, varName, a + inc, b, inc, guard + 1, st1);
    ForEmptyTurn(env, varName, a, b, inc, guard, st);
  }

  /** A `for` whose start is past its end does nothing. */
  lemma ForPastEnd(env: Env, body: seq<Block>, varName: string, a: int, b: int, inc: int, guard: nat, st: State)
    requires a > b
    ensures ForLoop(env, body, varName, Num(a), Num(b), inc, guard, st) == st
  {
    CompareIntegers(a, b);
  }

  /** One turn of a `for` with an empty body and integer bounds. */
  lemma ForEmptyTurn(env: Env, varName: string, a: int, b: int, inc: int, guard: nat, st: State)
    requires varName in st.mem && !Halted(st) && a <= b && guard < Cap
    ensures var st1 := TurnState(st, varName, a);
            ForLoop(env, [], varName, Num(a), Num(b), inc, guard, st)
            == ForLoop(env, [], varName, Num(a + inc), Num(b), inc, guard + 1, st1)
  {
    CompareIntegers(a, b);
    ForLoopStep(env, [], varName, Num(a), Num(b), inc, guard, st);
    ForTurnEmptyBody(env, varName, a, st);
    assert AddNumber(Num(a), inc) == Num(a + inc);
  }

  /** The five messages of `for i from 1 to 5`. */
  lemma MessagesOneToFive()
    ensures ForMessages("i", 1, 5, 1)
         == [LogEvent("Pour i = 1", Info), LogEvent("Pour i = 2", Info), LogEvent("Pour i = 3", Info),
             LogEvent("Pour i = 4", Info), LogEvent("Pour i = 5", Info)]
  {
    assert ForMessages("i", 5, 5, 1) == [ForMessage("i", 5)];
    assert ForMessages("i", 4, 5, 1) == [ForMessage("i", 4)] + ForMessages("i", 5, 5, 1);
    assert ForMessages("i", 3, 5, 1) == [ForMessage("i", 3)] + ForMessages("i", 4, 5, 1);
    assert ForMessages("i", 2, 5, 1) == [ForMessage("i", 2)] + ForMessages("i", 3, 5, 1);
    assert ForMessages("i", 1, 5, 1) == [ForMessage("i", 1)] + ForMessages("i", 2, 5, 1);
    assert IntToString(1) == "1" && IntToString(2) == "2" && IntToString(3) == "3";
    assert IntToString(4) == "4" && IntToString(5) == "5";
    assert ForMessage("i", 1) == LogEvent("Pour i = 1", Info);
    assert ForMessage("i", 2) == LogEvent("Pour i = 2", Info);
    assert ForMessage("i", 3) == LogEvent("Pour i = 3", Info);
    assert ForMessage("i", 4) == LogEvent("Pour i = 4", Info);
    assert ForMessage("i", 5) == LogEvent("Pour i = 5", Info);
  }

  /** `for i from 1 to 5`: five messages, and `i` ends at 5. */
  lemma ForOneToFive(env: Env, st: State)
    requires "i" in st.mem && !Halted(st)
    ensures var r := ForLoop(env, [], "i", Num(1), Num(5), 1, 0, st);
            && "i" in r.mem && r.mem["i"].value == Num(5)
            && r.log == st.log + [LogEvent("Pour i = 1", Info), LogEvent("Pour i = 2", Info),
                                  LogEvent("Pour i = 3", Info), LogEvent("Pour i = 4", Info),
                                  LogEvent("Pour i = 5", Info)]
  {
    ForCountsUp(env, "i", 1, 5, 1, 0, st);
    assert LastTurn(1, 5, 1) == 5;
    MessagesOneToFive();
  }

  /** A `while` whose condition is false at the start runs its body zero times and logs
      nothing. */
  lemma WhileFalseRunsNothing(env: Env, body: seq<Block>, left: string, op: string, right: string, st: State)
    requires !CompareValues(Eval(env, st, left), op, Eval(env, st, right))
    ensures WhileLoop(env, body, left, op, right, 0, st) == st
  {
  }

  /** `n` copies of `x`. */
  function Copies<T>(x: T, n: nat): (r: seq<T>)
    ensures |r| == n && forall i :: 0 <= i < n ==> r[i] == x
  {
    if n == 0 then [] else [x] + Copies(x, n - 1)
  }

  /** A `while` whose condition always holds stops after the iteration bound: with an empty
      body it logs its message exactly `Cap` times. */
  lemma {:induction false} WhileStopsAtCap(env: Env, left: string, op: string, right: string, guard: nat, st: State)
    requires guard <= Cap && !Halted(st)
    requires CompareValues(Eval(env, st, left), op, Eval(env, st, right))
    ensures WhileLoop(env, [], left, op, right, guard, st)
         == st.(log := st.log + Copies(LogEvent("Tant que " + ConditionText(left, op, right) + " : VRAI", Info), Cap - guard))
    decreases Cap - guard
  {
    var m := LogEvent("Tant que " + ConditionText(left, op, right) + " : VRAI", Info);
    if guard < Cap {
      var st1 := st.(log := st.log + [m]);
      assert Eval(env, st1, left) == Eval(env, st, left) && Eval(env, st1, right) == Eval(env, st, right);
      WhileStopsAtCap(env, left, op, right, guard + 1, st1);
      assert st1.log + Copies(m, Cap - (guard + 1)) == st.log + Copies(m, Cap - guard);
    }
  }

  /** A `repeat` runs its body before it looks at the condition: when the condition holds
      after the first turn, the body has run exactly once. */
  lemma RepeatRunsAtLeastOnce(env: Env, body: seq<Block>, left: string, op: string, right: string, st: State)
    requires !Halted(st)
    requires var st1 := ExecForest(env, body, st);
             CompareValues(Eval(env, st1, left), op, Eval(env, st1, right))
    ensures RepeatLoop(env, body, left, op, right, 0, st) == ExecForest(env, body, st)
  {
  }

  /** How many times `WhileLoop` runs its body from iteration `guard` on: none when the
      condition is false at the start, and never more than the iteration bound allows. */
  function WhileTurns(env: Env, body: seq<Block>, left: string, op: string, right: string,
                      guard: nat, st: State): (n: nat)
    requires guard <= Cap
    ensures n <= Cap - guard
    ensures n == 0 <==> Halted(st) || guard == Cap || !CompareValues(Eval(env, st, left), op, Eval(env, st, right))
    decreases Cap - guard
  {
    if !(CompareValues(Eval(env, st, left), op, Eval(env, st, right)) && guard < Cap) || Halted(st) then 0
    else
      var st1 := Log(st, "Tant que " + ConditionText(left, op, right) + " : VRAI", Info);
      1 + WhileTurns(env, body, left, op, right, guard + 1, ExecForest(env, body, st1))
  }

  /** How many times `RepeatLoop` runs its body from iteration `guard` on: at least once
      unless the run is already halted, and never more than the iteration bound allows. */
  function RepeatTurns(env: Env, body: seq<Block>, left: string, op: string, right: string,
                       guard: nat, st: State): (n: nat)
    requires guard < Cap
    ensures n == 0 <==> Halted(st)
    ensures n <= Cap - guard
    decreases Cap - guard
  {
    if Halted(st) then 0
    else
      var st1 := ExecForest(env, body, st);
      if !CompareValues(Eval(env, st1, left), op, Eval(env, st1, right)) && guard + 1 < Cap then
        1 + RepeatTurns(env, body, left, op, right, guard + 1, st1)
      else 1
  }

  /** `n` turns of a `while` body, each preceded by the log line of a condition found true. */
  function WhileRounds(env: Env, body: seq<Block>, msg: string, n: nat, st: State): State
    decreases n
  {
    if n == 0 then st else WhileRounds(env, body, msg, n - 1, ExecForest(env, body, Log(st, msg, Info)))
  }

  /** `n` turns of a `repeat` body. */
  function RepeatRounds(env: Env, body: seq<Block>, n: nat, st: State): State
    decreases n
  {
    if n == 0 then st else RepeatRounds(env, body, n - 1, ExecForest(env, body, st))
  }

  /** A `while` loop is exactly `WhileTurns` turns: its final state is that of running as many
      logged turns of its body. */
  lemma {:induction false} WhileLoopRuns(env: Env, body: seq<Block>, left: string, op: string, right: string,
                                         guard: nat, st: State)
    requires guard <= Cap
    ensures WhileLoop(env, body, left, op, right, guard, st)
         == WhileRounds(env, body, "Tant que " + ConditionText(left, op, right) + " : VRAI",
                        WhileTurns(env, body, left, op, right, guard, st), st)
    decreases Cap - guard
  {
    if CompareValues(Eval(env, st, left), op, Eval(env, st, right)) && guard < Cap && !Halted(st) {
      var st1 := ExecForest(env, body, Log(st, "Tant que " + ConditionText(left, op, right) + " : VRAI", Info));
      WhileLoopRuns(env, body, left, op, right, guard + 1, st1);
      WhileLoopTurn(env, body, left, op, right, guard, st);
    } else {
      WhileLoopStops(env, body, left, op, right, guard, st);
    }
  }

  /** One turn of `WhileLoopRuns`: the claim for `guard` follows from the claim for the turn after. */
  lemma WhileLoopTurn(env: Env, body: seq<Block>, left: string, op: string, right: string,
                      guard: nat, st: State)
    requires CompareValues(Eval(env, st, left), op, Eval(env, st, right)) && guard < Cap && !Halted(st)
    requires var msg := "Tant que " + ConditionText(left, op, right) + " : VRAI";
             var st1 := ExecForest(env, body, Log(st, msg, Info));
             WhileLoop(env, body, left, op, right, guard + 1, st1)
             == WhileRounds(env, body, msg, WhileTurns(env, body, left, op, right, guard + 1, st1), st1)
    ensures WhileLoop(env, body, left, op, right, guard, st)
         == WhileRounds(env, body, "Tant que " + ConditionText(left, op, right) + " : VRAI",
                        WhileTurns(env, body, left, op, right, guard, st), st)
  {
    WhileLoopStep(env, body, left, op, right, guard, st);
    WhileTurnsStep(env, body, left, op, right, guard, st);
  }

  lemma WhileTurnsStep(env: Env, body: seq<Block>, left: string, op: string, right: string,
                       guard: nat, st: State)
    requires CompareValues(Eval(env, st, left), op, Eval(env, st, right)) && guard < Cap && !Halted(st)
    ensures WhileTurns(env, body, left, op, right, guard, st)
         == 1 + WhileTurns(env, body, left, op, right, guard + 1,
                           ExecForest(env, body, Log(st, "Tant que " + ConditionText(left, op, right) + " : VRAI", Info)))
  {
  }

  lemma WhileLoopStops(env: Env, body: seq<Block>, left: string, op: string, right: string,
                       guard: nat, st: State)
    requires !(CompareValues(Eval(env, st, left), op, Eval(env, st, right)) && guard < Cap && !Halted(st))
    ensures WhileLoop(env, body, left, op, right, guard, st) == st
  {
  }

  /** Turns of an empty body only log their message. */
  lemma {:induction false} WhileRoundsEmpty(env: Env, msg: string, n: nat, st: State)
    ensures WhileRounds(env, [], msg, n, st) == st.(log := st.log + Copies(LogEvent(msg, Info), n))
    decreases n
  {
    if n > 0 {
      var st1 := Log(st, msg, Info);
      WhileRoundsEmpty(env, msg, n - 1, st1);
      assert st1.log + Copies(LogEvent(msg, Info), n - 1) == st.log + Copies(LogEvent(msg, Info), n);
    }
  }

  /** With an empty body, a `while` loop leaves the state as it found it except for one
      "condition true" line per turn. */
  lemma WhileEmptyBodyLog(env: Env, left: string, op: string, right: string, st: State)
    ensures WhileLoop(env, [], left, op, right, 0, st)
         == st.(log := st.log + Copies(LogEvent("Tant que " + ConditionText(left, op, right) + " : VRAI", Info),
                                       WhileTurns(env, [], left, op, right, 0, st)))
  {
    WhileLoopRuns(env, [], left, op, right, 0, st);
    WhileRoundsEmpty(env, "Tant que " + ConditionText(left, op, right) + " : VRAI",
                     WhileTurns(env, [], left, op, right, 0, st), st);
  }

  /** A `repeat` loop is exactly `RepeatTurns` turns of its body. */
  lemma {:induction false} RepeatLoopRuns(env: Env, body: seq<Block>, left: string, op: string, right: string,
                                          guard: nat, st: State)
    requires guard < Cap
    ensures RepeatLoop(env, body, left, op, right, guard, st)
         == RepeatRounds(env, body, RepeatTurns(env, body, left, op, right, guard, st), st)
    decreases Cap - guard
  {
    if !Halted(st) {
      var st1 := ExecForest(env, body, st);
      if !CompareValues(Eval(env, st1, left), op, Eval(env, st1, right)) && guard + 1 < Cap {
        RepeatLoopRuns(env, body, left, op, right, guard + 1, st1);
      }
    }
  }

  /** Turns of an empty body change nothing. */
  lemma {:induction false} RepeatRoundsEmpty(env: Env, n: nat, st: State)
    ensures RepeatRounds(env, [], n, st) == st
    decreases n
  {
    if n > 0 {
      RepeatRoundsEmpty(env, n - 1, st);
    }
  }

  /** With an empty body, a `repeat` loop turns at least once yet leaves the state unchanged:
      the condition it re-evaluates never changes, so it stops after one turn when the
      condition holds and at the iteration bound otherwise. */
  lemma RepeatEmptyBody(env: Env, left: string, op: string, right: string, st: State)
    ensures RepeatLoop(env, [], left, op, right, 0, st) == st
    ensures !Halted(st) ==> RepeatTurns(env, [], left, op, right, 0, st)
                            == (if CompareValues(Eval(env, st, left), op, Eval(env, st, right)) then 1 else Cap)
  {
    RepeatLoopRuns(env, [], left, op, right, 0, st);
    RepeatRoundsEmpty(env, RepeatTurns(env, [], left, op, right, 0, st), st);
    if !Halted(st) && !CompareValues(Eval(env, st, left), op, Eval(env, st, right)) {
      RepeatTurnsFalse(env, left, op, right, 0, st);
    }
  }

  lemma {:induction false} RepeatTurnsFalse(env: Env, left: string, op: string, right: string, guard: nat, st: State)
    requires guard < Cap && !Halted(st) && !CompareValues(Eval(env, st, left), op, Eval(env, st, right))
    ensures RepeatTurns(env, [], left, op, right, guard, st) == Cap - guard
    decreases Cap - guard
  {
    RepeatTurnsEmptyStep(env, left, op, right, guard, st);
    if guard + 1 < Cap {
      RepeatTurnsFalse(env, left, op, right, guard + 1, st);
    }
  }

  lemma RepeatTurnsEmptyStep(env: Env, left: string, op: string, right: string, guard: nat, st: State)
    requires guard < Cap && !Halted(st) && !CompareValues(Eval(env, st, left), op, Eval(env, st, right))
    ensures RepeatTurns(env, [], left, op, right, guard, st)
         == if guard + 1 < Cap then 1 + RepeatTurns(env, [], left, op, right, guard + 1, st) else 1
  {
    assert ExecForest(env, [], st) == st;
  }

  // ---------------------------------------------------------------------------
  // The iteration bound of `for`

  /** How many turns `ForLoop` runs from iteration `guard` on: none when the variable is past
      its bound at the start, and never more than the iteration bound allows. */
  function ForTurns(env: Env, body: seq<Block>, varName: string, iter: Value, end: Value, inc: int,
                    guard: nat, st: State): (n: nat)
    requires guard <= Cap
    ensures n <= Cap - guard
    ensures n == 0 <==> Halted(st) || guard == Cap || !AtMost(iter, end)
    decreases Cap - guard
  {
    if !(AtMost(iter, end) && guard < Cap) || Halted(st) then 0
    else 1 + ForTurns(env, body, varName, AddNumber(iter, inc), end, inc, guard + 1,
                      ForTurn(env, body, varName, iter, st))
  }

  /** `n` turns of a `for` body from the value `iter` on, the value stepping by `inc`. */
  function ForRounds(env: Env, body: seq<Block>, varName: string, iter: Value, inc: int,
                     n: nat, st: State): State
    decreases n
  {
    if n == 0 then st
    else ForRounds(env, body, varName, AddNumber(iter, inc), inc, n - 1, ForTurn(env, body, varName, iter, st))
  }

  /** A `for` loop is exactly `ForTurns` turns: its final state is that of running as many
      turns of its body, from the start value on. */
  lemma {:induction false} ForLoopRuns(env: Env, body: seq<Block>, varName: string, iter: Value, end: Value,
                                       inc: int, guard: nat, st: State)
    requires guard <= Cap
    ensures ForLoop(env, body, varName, iter, end, inc, guard, st)
         == ForRounds(env, body, varName, iter, inc, ForTurns(env, body, varName, iter, end, inc, guard, st), st)
    decreases Cap - guard
  {
    if AtMost(iter, end) && guard < Cap && !Halted(st) {
      var next, st1 := AddNumber(iter, inc), ForTurn(env, body, varName, iter, st);
      ForLoopRuns(env, body, varName, next, end, inc, guard + 1, st1);
      ForLoopTurn(env, body, varName, iter, end, inc, guard, st);
    } else {
      ForLoopStops(env, body, varName, iter, end, inc, guard, st);
    }
  }

  /** One turn of `ForLoopRuns`: the claim for `guard` follows from the claim for the turn after. */
  lemma ForLoopTurn(env: Env, body: seq<Block>, varName: string, iter: Value, end: Value, inc: int,
                    guard: nat, st: State)
    requires AtMost(iter, end) && guard < Cap && !Halted(st)
    requires var next, st1 := AddNumber(iter, inc), ForTurn(env, body, varName, iter, st);
             ForLoop(env, body, varName, next, end, inc, guard + 1, st1)
             == ForRounds(env, body, varName, next, inc, ForTurns(env, body, varName, next, end, inc, guard + 1, st1), st1)
    ensures ForLoop(env, body, varName, iter, end, inc, guard, st)
         == ForRounds(env, body, varName, iter, inc, ForTurns(env, body, varName, iter, end, inc, guard, st), st)
  {
    ForLoopStep(env, body, varName, iter, end, inc, guard, st);
    ForTurnsStep(env, body, varName, iter, end, inc, guard, st);
  }

  lemma ForTurnsStep(env: Env, body: seq<Block>, varName: string, iter: Value, end: Value, inc: int,
                     guard: nat, st: State)
    requires AtMost(iter, end) && guard < Cap && !Halted(st)
    ensures ForTurns(env, body, varName, iter, end, inc, guard, st)
         == 1 + ForTurns(env, body, varName, AddNumber(iter, inc), end, inc, guard + 1,
                         ForTurn(env, body, varName, iter, st))
  {
  }

  lemma ForLoopStops(env: Env, body: seq<Block>, varName: string, iter: Value, end: Value, inc: int,
                     guard: nat, st: State)
    requires !(AtMost(iter, end) && guard < Cap && !Halted(st))
    ensures ForLoop(env, body, varName, iter, end, inc, guard, st) == st
  {
  }

  /** The messages of `n` turns from `a` on, stepping by `inc`. */
  function StepMessages(varName: string, a: int, inc: int, n: nat): (r: seq<LogEvent>)
    ensures |r| == n
    decreases n
  {
    if n == 0 then [] else [ForMessage(varName, a)] + StepMessages(varName, a + inc, inc, n - 1)
  }

  /** A `for` whose step is negative never passes its end, so it stops at the iteration
      bound: with an empty body it logs exactly `Cap - guard` messages "Pour …", one per
      value `a`, `a + inc`, … it takes. */
  lemma ForStopsAtCap(env: Env, varName: string, a: int, b: int, inc: int, guard: nat, st: State)
    requires inc < 0 && a <= b && varName in st.mem && !Halted(st) && guard <= Cap
    ensures ForTurns(env, [], varName, Num(a), Num(b), inc, guard, st) == Cap - guard
    ensures ForLoop(env, [], varName, Num(a), Num(b), inc, guard, st).log
         == st.log + StepMessages(varName, a, inc, Cap - guard)
  {
    ForTurnsAtCap(env, varName, a, b, inc, guard, st);
    ForLoopRuns(env, [], varName, Num(a), Num(b), inc, guard, st);
    ForRoundsEmptyLog(env, varName, a, inc, Cap - guard, st);
  }

  /** The count of such a loop reaches the bound. */
  lemma {:induction false} ForTurnsAtCap(env: Env, varName: string, a: int, b: int, inc: int, guard: nat, st: State)
    requires inc < 0 && a <= b && varName in st.mem && !Halted(st) && guard <= Cap
    ensures ForTurns(env, [], varName, Num(a), Num(b), inc, guard, st) == Cap - guard
    decreases Cap - guard
  {
    if guard < Cap {
      var st1 := TurnState(st, varName, a);
      ForTurnsEmptyTurn(env, varName, a, b, inc, guard, st);
      TurnStateKeeps(st, varName, a);
      ForTurnsAtCap(env, varName, a + inc, b, inc, guard + 1, st1);
    }
  }

  /** A turn with an empty body keeps the variable and does not halt the run. */
  lemma TurnStateKeeps(st: State, varName: string, a: int)
    requires varName in st.mem
    ensures varName in TurnState(st, varName, a).mem && Halted(TurnState(st, varName, a)) == Halted(st)
  {
  }

  /** Turns of an empty body set the variable and log one message each. */
  lemma {:induction false} ForRoundsEmptyLog(env: Env, varName: string, a: int, inc: int, n: nat, st: State)
    requires varName in st.mem
    ensures ForRounds(env, [], varName, Num(a), inc, n, st).log == st.log + StepMessages(varName, a, inc, n)
    decreases n
  {
    if n == 0 {
      assert st.log + [] == st.log;
    } else {
      ForRoundsEmptyStep(env, varName, a, inc, n, st);
      ForRoundsEmptyLog(env, varName, a + inc, inc, n - 1, TurnState(st, varName, a));
      TurnStateLog(st, varName, a, inc, n);
    }
  }

  lemma TurnStateLog(st: State, varName: string, a: int, inc: int, n: nat)
    requires varName in st.mem && n > 0
    ensures TurnState(st, varName, a).log + StepMessages(varName, a + inc, inc, n - 1)
         == st.log + StepMessages(varName, a, inc, n)
  {
    var ms := StepMessages(varName, a + inc, inc, n - 1);
    assert StepMessages(varName, a, inc, n) == [ForMessage(varName, a)] + ms;
    assert st.log + [ForMessage(varName, a)] + ms == st.log + ([ForMessage(varName, a)] + ms);
  }

  lemma ForRoundsEmptyStep(env: Env, varName: string, a: int, inc: int, n: nat, st: State)
    requires varName in st.mem && n > 0
    ensures ForRounds(env, [], varName, Num(a), inc, n, st)
         == ForRounds(env, [], varName, Num(a + inc), inc, n - 1, TurnState(st, varName, a))
  {
    ForTurnEmptyBody(env, varName, a, st);
    assert AddNumber(Num(a), inc) == Num(a + inc);
  }

  /** One turn of the count of a `for` with an empty body and integer bounds. */
  lemma ForTurnsEmptyTurn(env: Env, varName: string, a: int, b: int, inc: int, guard: nat, st: State)
    requires varName in st.mem && !Halted(st) && a <= b && guard < Cap
    ensures ForTurns(env, [], varName, Num(a), Num(b), inc, guard, st)
         == 1 + ForTurns(env, [], varName, Num(a + inc), Num(b), inc, guard + 1, TurnState(st, varName, a))
  {
    CompareIntegers(a, b);
    ForTurnsStep(env, [], varName, Num(a), Num(b), inc, guard, st);
    ForTurnEmptyBody(env, varName, a, st);
    assert AddNumber(Num(a), inc) == Num(a + inc);
  }
}
