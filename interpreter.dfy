/**
 * `_run` as the source writes it: a walk over the blocks that updates a memory in place,
 * appends to a log and reads a stop flag, with `interpret` and `interpretStepByStep` as the
 * two entry points.  Every method is proved to leave the context in the state the
 * corresponding function of `Semantics` computes.
 *
 * A read whose answer never comes suspends the source's run forever; the context records
 * the question in `waiting`, and every check of the stop flag also gives up on such a run,
 * which is how "nothing happens afterwards" shows in a terminating model.
 */
module Interpreter {

  import opened Wrappers
  import opened JsValues
  import opened Comparator
  import opened Memory
  import opened Evaluator
  import opened Blocks
  import opened Semantics
  import opened RunInvariants

  class RunContext {
    var memory: map<string, Entry>
    /** The keys of `memory` in insertion order. */
    var names: seq<string>
    var log: seq<LogEvent>
    /** `abortRef.current`. */
    var abort: bool
    /** Read position in the answers. */
    var consumed: nat
    var waiting: Option<string>
    var ticks: nat
    /** The block last passed to `setActiveBlock`. */
    var active: Option<string>
    const host: Host
    /** The suspension during which the stop arrives (0: never). */
    const stopAt: nat
    /** The values the user submits to the successive input dialogs. */
    const answers: seq<string>

    function Snapshot(): State
      reads this
    {
      State(memory, names, log, abort, consumed, waiting, ticks, active)
    }

    function EnvOf(stepMode: bool): Env {
      Env(host, stepMode, stopAt, answers)
    }

    /** An empty memory, an empty log and a cleared stop flag. */
    constructor (host: Host, stopAt: nat, answers: seq<string>)
      ensures Snapshot() == Fresh()
      ensures this.host == host && this.stopAt == stopAt && this.answers == answers
    {
      memory := map[];
      names := [];
      log := [];
      abort := false;
      consumed := 0;
      waiting := None;
      ticks := 0;
      active := None;
      this.host := host;
      this.stopAt := stopAt;
      this.answers := answers;
    }

    /** `interpret`: continuous mode, a delay before every block. */
    method Interpret(blocks: seq<Block>)
      modifies this
      ensures Snapshot() == ExecForest(EnvOf(false), blocks, old(Snapshot()))
    {
      Run(blocks, false);
    }

    /** `interpretStepByStep`: every block waits for the next step. */
    method InterpretStepByStep(blocks: seq<Block>)
      modifies this
      ensures Snapshot() == ExecForest(EnvOf(true), blocks, old(Snapshot()))
    {
      Run(blocks, true);
    }

    // -------------------------------------------------------------------------
    // Primitive effects

    method Emit(msg: string, severity: Severity)
      modifies this
      ensures Snapshot() == Semantics.Log(old(Snapshot()), msg, severity)
    {
      log := log + [LogEvent(msg, severity)];
    }

    /** An `await`: the stop may arrive while the run is suspended. */
    method Yield()
      modifies this
      ensures Snapshot() == Suspend(stopAt, old(Snapshot()))
    {
      ticks := ticks + 1;
      if ticks == stopAt {
        abort := true;
      }
    }

    method SetValue(name: string, v: Value)
      requires name in memory
      modifies this
      ensures Snapshot() == Semantics.SetValue(old(Snapshot()), name, v)
    {
      memory := memory[name := memory[name].(value := v)];
    }

    // -------------------------------------------------------------------------
    // `_run`

    method Run(blocks: seq<Block>, stepMode: bool)
      modifies this
      ensures Snapshot() == ExecForest(EnvOf(stepMode), blocks, old(Snapshot()))
      decreases SizeF(blocks), 2, 0
    {
      var i := 0;
      while i < |blocks|
        invariant 0 <= i <= |blocks|
        invariant ExecForest(EnvOf(stepMode), blocks[i..], Snapshot())
               == ExecForest(EnvOf(stepMode), blocks, old(Snapshot()))
      {
        if abort || waiting.Some? {
          break;
        }
        assert blocks[i..][0] == blocks[i] && blocks[i..][1..] == blocks[i + 1..];
        SizeOfElement(blocks, i);
        Visit(blocks[i], stepMode);
        i := i + 1;
      }
    }

    method Visit(b: Block, stepMode: bool)
      modifies this
      ensures Snapshot() == Semantics.Visit(EnvOf(stepMode), b, old(Snapshot()))
      decreases Size(b), 1, 1
    {
      if stepMode {
        Yield();
        if abort {
          return;
        }
        active := Some(b.id);
      } else {
        Yield();
        active := Some(b.id);
        Yield();
      }
      Dispatch(b, stepMode);
    }

    method Dispatch(b: Block, stepMode: bool)
      modifies this
      ensures Snapshot() == Semantics.Dispatch(EnvOf(stepMode), b, old(Snapshot()))
      decreases Size(b), 1, 0
    {
      match b.kind
      case Comment(_) =>
      case Declare(name, dataType) => Declare(name, dataType);
      case Assign(varName, expr) => Assign(varName, expr, stepMode);
      case Display(text) => Display(text, stepMode);
      case Read(varName) => Read(varName, stepMode);
      case If(left, op, right, thenBlocks, elseBlocks) =>
        IfBlock(left, op, right, thenBlocks, elseBlocks, stepMode);
      case For(varName, from, to, step, body) => ForBlock(varName, from, to, step, body, stepMode);
      case While(left, op, right, body) => WhileBlock(left, op, right, body, stepMode);
      case Repeat(body, left, op, right) => RepeatBlock(body, left, op, right, stepMode);
      case Unknown(typeName) => Emit("Type de bloc inconnu : " + typeName + ".", Warn);
    }

    // -------------------------------------------------------------------------
    // Simple statements

    method Declare(name: string, dataType: string)
      modifies this
      ensures Snapshot() == DeclareStep(old(Snapshot()), name, dataType)
    {
      if Trim(name) == [] {
        Emit("Nom de variable manquant.", Error);
        return;
      }
      if name in memory {
        Emit("Variable '" + name + "' déjà déclarée.", Warn);
        return;
      }
      memory := memory[name := Entry(dataType, TypeDefault(dataType))];
      names := names + [name];
      Emit("Variable '" + name + "' déclarée de type " + dataType + ".", Success);
    }

    method Assign(varName: string, expr: string, stepMode: bool)
      modifies this
      ensures Snapshot() == AssignStep(EnvOf(stepMode), old(Snapshot()), varName, expr)
    {
      if varName == [] {
        Emit("Aucune variable cible.", Error);
        return;
      }
      if varName !in memory {
        Emit("Variable '" + varName + "' non déclarée.", Error);
        return;
      }
      var val := EvaluateExpr(expr, names, memory, host);
      if val.Undef? {
        Emit("Expression invalide : \"" + expr + "\".", Error);
        return;
      }
      var t := memory[varName].typ;
      if t == Entier && !IsNumber(val) {
        Emit("Impossible d'affecter une valeur non numérique à '" + varName + "'.", Error);
        return;
      }
      SetValue(varName, if t == Entier then Trunc(val) else val);
      Emit(varName + " <- " + ToString(memory[varName].value), Info);
    }

    method Display(text: string, stepMode: bool)
      modifies this
      ensures Snapshot() == DisplayStep(EnvOf(stepMode), old(Snapshot()), text)
    {
      var val := EvaluateExpr(text, names, memory, host);
      Emit(if val.Undef? then text else ToString(val), Output);
    }

    method Read(varName: string, stepMode: bool)
      modifies this
      ensures Snapshot() == ReadStep(EnvOf(stepMode), old(Snapshot()), varName)
    {
      if varName == [] {
        Emit("Aucune variable cible.", Error);
        return;
      }
      if varName !in memory {
        Emit("Variable '" + varName + "' non déclarée.", Error);
        return;
      }
      var t := memory[varName].typ;
      Yield();
      if consumed >= |answers| {
        waiting := Some(Question(varName, t));
        return;
      }
      var parsed := ParseAnswer(t, answers[consumed]);
      SetValue(varName, parsed);
      consumed := consumed + 1;
      Emit("Lecture : " + varName + " = " + ToString(parsed), Info);
    }

    // -------------------------------------------------------------------------
    // Nested statements

    method IfBlock(left: string, op: string, right: string, thenBlocks: seq<Block>,
                   elseBlocks: seq<Block>, stepMode: bool)
      modifies this
      ensures Snapshot() == Semantics.IfBlock(EnvOf(stepMode), left, op, right, thenBlocks, elseBlocks, old(Snapshot()))
      decreases SizeF(thenBlocks) + SizeF(elseBlocks), 4, 0
    {
      var lv := EvaluateExpr(left, names, memory, host);
      var rv := EvaluateExpr(right, names, memory, host);
      var c := CompareValues(lv, op, rv);
      Emit("Condition " + ConditionText(left, op, right) + " : " + (if c then "VRAIE" else "FAUSSE") + ".",
           if c then Success else Warn);
      if c {
        Run(thenBlocks, stepMode);
      } else {
        Run(elseBlocks, stepMode);
      }
    }

    method ForBlock(varName: string, from: string, to: string, step: string, body: seq<Block>,
                    stepMode: bool)
      modifies this
      ensures Snapshot() == Semantics.ForBlock(EnvOf(stepMode), varName, from, to, step, body, old(Snapshot()))
      decreases SizeF(body), 4, 0
    {
      var iter := Bound(from, stepMode);
      var end := Bound(to, stepMode);
      var inc := ForStep(step);
      if varName !in memory {
        memory := memory[varName := Entry(Entier, iter)];
        names := names + [varName];
      }
      ForLoop(body, varName, iter, end, inc, stepMode);
    }

    /** `evaluateExpr(text, memory) ?? parseInt(text, 10)`. */
    method Bound(text: string, stepMode: bool) returns (v: Value)
      ensures v == ForBound(EnvOf(stepMode), Snapshot(), text)
    {
      v := EvaluateExpr(text, names, memory, host);
      if v.Undef? {
        v := ParseInt(text);
      }
    }

    method ForLoop(body: seq<Block>, varName: string, iter0: Value, end: Value, inc: int, stepMode: bool)
      requires varName in memory
      modifies this
      ensures Snapshot() == Semantics.ForLoop(EnvOf(stepMode), body, varName, iter0, end, inc, 0, old(Snapshot()))
      decreases SizeF(body), 3, 2
    {
      var iter := iter0;
      var guard: nat := 0;
      while AtMost(iter, end) && guard < Cap && !(abort || waiting.Some?)
        invariant varName in memory && guard <= Cap
        invariant Semantics.ForLoop(EnvOf(stepMode), body, varName, iter, end, inc, guard, Snapshot())
               == Semantics.ForLoop(EnvOf(stepMode), body, varName, iter0, end, inc, 0, old(Snapshot()))
        decreases Cap - guard
      {
        iter := ForIteration(body, varName, iter, end, inc, guard, stepMode);
        guard := guard + 1;
      }
    }

    /** One turn of the loop, stated as the step the loop's invariant takes. */
    method ForIteration(body: seq<Block>, varName: string, iter: Value, end: Value, inc: int, guard: nat,
                        stepMode: bool) returns (next: Value)
      requires varName in memory && AtMost(iter, end) && guard < Cap
      requires !abort && waiting.None?
      modifies this
      ensures varName in memory
      ensures Semantics.ForLoop(EnvOf(stepMode), body, varName, next, end, inc, guard + 1, Snapshot())
           == Semantics.ForLoop(EnvOf(stepMode), body, varName, iter, end, inc, guard, old(Snapshot()))
      decreases SizeF(body), 3, 1
    {
      ForLoopStep(EnvOf(stepMode), body, varName, iter, end, inc, guard, Snapshot());
      ForTurnKeepsVariable(EnvOf(stepMode), body, varName, iter, Snapshot());
      ForTurn(body, varName, iter, stepMode);
      next := AddNumber(iter, inc);
    }

    method ForTurn(body: seq<Block>, varName: string, iter: Value, stepMode: bool)
      requires varName in memory
      modifies this
      ensures Snapshot() == Semantics.ForTurn(EnvOf(stepMode), body, varName, iter, old(Snapshot()))
      decreases SizeF(body), 3, 0
    {
      SetValue(varName, iter);
      Emit("Pour " + varName + " = " + ToString(iter), Info);
      Run(body, stepMode);
    }

    method WhileBlock(left: string, op: string, right: string, body: seq<Block>, stepMode: bool)
      modifies this
      ensures Snapshot() == WhileLoop(EnvOf(stepMode), body, left, op, right, 0, old(Snapshot()))
      decreases SizeF(body), 4, 0
    {
      var guard: nat := 0;
      var lv := EvaluateExpr(left, names, memory, host);
      var rv := EvaluateExpr(right, names, memory, host);
      while CompareValues(lv, op, rv) && guard < Cap && !(abort || waiting.Some?)
        invariant guard <= Cap
        invariant lv == Eval(EnvOf(stepMode), Snapshot(), left) && rv == Eval(EnvOf(stepMode), Snapshot(), right)
        invariant WhileLoop(EnvOf(stepMode), body, left, op, right, guard, Snapshot())
               == WhileLoop(EnvOf(stepMode), body, left, op, right, 0, old(Snapshot()))
        decreases Cap - guard
      {
        WhileTurn(body, left, op, right, guard, stepMode);
        guard := guard + 1;
        lv := EvaluateExpr(left, names, memory, host);
        rv := EvaluateExpr(right, names, memory, host);
      }
    }

    /** One turn of the `while` loop once its condition held: log, run the body. */
    method WhileTurn(body: seq<Block>, left: string, op: string, right: string, guard: nat, stepMode: bool)
      requires CompareValues(Eval(EnvOf(stepMode), Snapshot(), left), op, Eval(EnvOf(stepMode), Snapshot(), right))
      requires guard < Cap && !abort && waiting.None?
      modifies this
      ensures WhileLoop(EnvOf(stepMode), body, left, op, right, guard + 1, Snapshot())
           == WhileLoop(EnvOf(stepMode), body, left, op, right, guard, old(Snapshot()))
      decreases SizeF(body), 3, 1
    {
      WhileLoopStep(EnvOf(stepMode), body, left, op, right, guard, Snapshot());
      Emit("Tant que " + ConditionText(left, op, right) + " : VRAI", Info);
      Run(body, stepMode);
    }

    method RepeatBlock(body: seq<Block>, left: string, op: string, right: string, stepMode: bool)
      modifies this
      ensures Snapshot() == RepeatLoop(EnvOf(stepMode), body, left, op, right, 0, old(Snapshot()))
      decreases SizeF(body), 4, 0
    {
      var guard: nat := 0;
      var again := true;
      while again && !(abort || waiting.Some?)
        invariant guard <= Cap
        invariant again ==> guard < Cap
        invariant again ==> (RepeatLoop(EnvOf(stepMode), body, left, op, right, guard, Snapshot())
                             == RepeatLoop(EnvOf(stepMode), body, left, op, right, 0, old(Snapshot())))
        invariant !again ==> Snapshot() == RepeatLoop(EnvOf(stepMode), body, left, op, right, 0, old(Snapshot()))
        decreases Cap - guard
      {
        again := RepeatTurn(body, left, op, right, guard, stepMode);
        guard := guard + 1;
      }
    }

    /** One turn of the `repeat` loop: run the body, then decide whether to go on. */
    method RepeatTurn(body: seq<Block>, left: string, op: string, right: string, guard: nat, stepMode: bool)
      returns (again: bool)
      requires guard < Cap && !abort && waiting.None?
      modifies this
      ensures again ==> guard + 1 < Cap
      ensures again ==> (RepeatLoop(EnvOf(stepMode), body, left, op, right, guard + 1, Snapshot())
                         == RepeatLoop(EnvOf(stepMode), body, left, op, right, guard, old(Snapshot())))
      ensures !again ==> Snapshot() == RepeatLoop(EnvOf(stepMode), body, left, op, right, guard, old(Snapshot()))
      decreases SizeF(body), 3, 1
    {
      Run(body, stepMode);
      var lv := EvaluateExpr(left, names, memory, host);
      var rv := EvaluateExpr(right, names, memory, host);
      again := !CompareValues(lv, op, rv) && guard + 1 < Cap;
    }
  }
}
