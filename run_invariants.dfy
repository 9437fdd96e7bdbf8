/**
 * What every part of a run preserves: variables are never removed and keep their declared
 * type, the key order and the log only grow, answers are consumed in order, a stop is final,
 * and the memory and its key order stay in agreement.
 */
module RunInvariants {

  import opened Wrappers
  import opened JsValues
  import opened Comparator
  import opened Memory
  import opened Blocks
  import opened Semantics

  /** `t` comes after `s` in a run, and a consistent `s` leads to a consistent `t`. */
  ghost predicate Keeps(s: State, t: State) {
    Grows(s, t) && (Valid(s) ==> Valid(t))
  }

  lemma KeepsTrans(a: State, b: State, c: State)
    requires Keeps(a, b) && Keeps(b, c)
    ensures Keeps(a, c)
  {
  }

  // ---------------------------------------------------------------------------
  // The elementary changes

  lemma LogKeeps(st: State, msg: string, severity: Severity)
    ensures Keeps(st, Log(st, msg, severity))
  {
  }

  lemma SuspendKeeps(stopAt: nat, st: State)
    ensures Keeps(st, Suspend(stopAt, st))
  {
  }

  lemma SetValueKeeps(st: State, name: string, v: Value)
    ensures Keeps(st, SetValue(st, name, v))
  {
  }

  lemma AddVariableKeeps(st: State, name: string, e: Entry)
    requires name !in st.mem
    ensures Keeps(st, AddVariable(st, name, e))
  {
    var t := AddVariable(st, name, e);
    if Valid(st) {
      assert name !in st.names;
      forall i, j | 0 <= i < j < |t.names| ensures t.names[i] != t.names[j] {
        if j == |st.names| {
          assert t.names[i] == st.names[i];
        } else {
          assert t.names[i] == st.names[i] && t.names[j] == st.names[j];
        }
      }
    }
  }

  // ---------------------------------------------------------------------------
  // The simple statements

  lemma LoopVariableKeeps(st: State, varName: string, iter: Value)
    ensures Keeps(st, LoopVariable(st, varName, iter))
    ensures varName in LoopVariable(st, varName, iter).mem
  {
    if varName !in st.mem {
      AddVariableKeeps(st, varName, Entry(Entier, iter));
    }
  }

  lemma DeclareStepKeeps(st: State, name: string, dataType: string)
    ensures Keeps(st, DeclareStep(st, name, dataType))
  {
    if Trim(name) == [] {
      LogKeeps(st, "Nom de variable manquant.", Error);
    } else if name in st.mem {
      LogKeeps(st, "Variable '" + name + "' déjà déclarée.", Warn);
    } else {
      var st1 := AddVariable(st, name, Entry(dataType, TypeDefault(dataType)));
      AddVariableKeeps(st, name, Entry(dataType, TypeDefault(dataType)));
      LogKeeps(st1, "Variable '" + name + "' déclarée de type " + dataType + ".", Success);
      KeepsTrans(st, st1, DeclareStep(st, name, dataType));
    }
  }

  lemma AssignStepKeeps(env: Env, st: State, varName: string, expr: string)
    ensures Keeps(st, AssignStep(env, st, varName, expr))
  {
    var r := AssignStep(env, st, varName, expr);
    if varName == [] {
      LogKeeps(st, "Aucune variable cible.", Error);
    } else if varName !in st.mem {
      LogKeeps(st, "Variable '" + varName + "' non déclarée.", Error);
    } else {
      var val := Eval(env, st, expr);
      var t := st.mem[varName].typ;
      if val.Undef? {
        LogKeeps(st, "Expression invalide : \"" + expr + "\".", Error);
      } else if t == Entier && !IsNumber(val) {
        LogKeeps(st, "Impossible d'affecter une valeur non numérique à '" + varName + "'.", Error);
      } else {
        var stored := if t == Entier then Trunc(val) else val;
        var st1 := SetValue(st, varName, stored);
        SetValueKeeps(st, varName, stored);
        LogKeeps(st1, varName + " <- " + ToString(stored), Info);
        KeepsTrans(st, st1, r);
      }
    }
  }

  lemma DisplayStepKeeps(env: Env, st: State, text: string)
    ensures Keeps(st, DisplayStep(env, st, text))
  {
    var val := Eval(env, st, text);
    LogKeeps(st, if val.Undef? then text else ToString(val), Output);
  }

  lemma ReadStepKeeps(env: Env, st: State, varName: string)
    ensures Keeps(st, ReadStep(env, st, varName))
  {
    var r := ReadStep(env, st, varName);
    if varName == [] {
      LogKeeps(st, "Aucune variable cible.", Error);
    } else if varName !in st.mem {
      LogKeeps(st, "Variable '" + varName + "' non déclarée.", Error);
    } else {
      var t := st.mem[varName].typ;
      var st1 := Suspend(env.stopAt, st);
      SuspendKeeps(env.stopAt, st);
      if st1.consumed >= |env.answers| {
        assert Keeps(st1, r);
        KeepsTrans(st, st1, r);
      } else {
        var parsed := ParseAnswer(t, env.answers[st1.consumed]);
        AnswerKeeps(st1, varName, parsed);
        KeepsTrans(st, st1, r);
      }
    }
  }

  /** Storing an answer, counting it as consumed and logging it. */
  lemma AnswerKeeps(st: State, varName: string, parsed: Value)
    ensures Keeps(st, Log(SetValue(st, varName, parsed).(consumed := st.consumed + 1),
                          "Lecture : " + varName + " = " + ToString(parsed), Info))
  {
    var st2 := SetValue(st, varName, parsed);
    SetValueKeeps(st, varName, parsed);
    var st3 := st2.(consumed := st.consumed + 1);
    assert Keeps(st2, st3);
    LogKeeps(st3, "Lecture : " + varName + " = " + ToString(parsed), Info);
    KeepsTrans(st, st2, st3);
    KeepsTrans(st, st3, Log(st3, "Lecture : " + varName + " = " + ToString(parsed), Info));
  }

  // ---------------------------------------------------------------------------
  // `_run` and the statements that nest blocks

  lemma {:induction false} ExecForestKeeps(env: Env, bs: seq<Block>, st: State)
    ensures Keeps(st, ExecForest(env, bs, st))
    decreases SizeF(bs), 2, 0
  {
    if bs != [] && !Halted(st) {
      var st1 := Visit(env, bs[0], st);
      VisitKeeps(env, bs[0], st);
      ExecForestKeeps(env, bs[1..], st1);
      KeepsTrans(st, st1, ExecForest(env, bs, st));
    }
  }

  lemma {:induction false} VisitKeeps(env: Env, b: Block, st: State)
    ensures Keeps(st, Visit(env, b, st))
    decreases Size(b), 1, 1
  {
    var st1 := Suspend(env.stopAt, st);
    SuspendKeeps(env.stopAt, st);
    var st2 := st1.(active := Some(b.id));
    assert Keeps(st1, st2);
    KeepsTrans(st, st1, st2);
    if env.stepMode {
      if !st1.abort {
        DispatchKeeps(env, b, st2);
        KeepsTrans(st, st2, Visit(env, b, st));
      }
    } else {
      var st3 := Suspend(env.stopAt, st2);
      SuspendKeeps(env.stopAt, st2);
      DispatchKeeps(env, b, st3);
      KeepsTrans(st, st2, st3);
      KeepsTrans(st, st3, Visit(env, b, st));
    }
  }

  lemma {:induction false} DispatchKeeps(env: Env, b: Block, st: State)
    ensures Keeps(st, Dispatch(env, b, st))
    decreases Size(b), 1, 0
  {
    match b.kind
    case Comment(_) =>
    case Declare(name, dataType) => DeclareStepKeeps(st, name, dataType);
    case Assign(varName, expr) => AssignStepKeeps(env, st, varName, expr);
    case Display(text) => DisplayStepKeeps(env, st, text);
    case Read(varName) => ReadStepKeeps(env, st, varName);
    case Unknown(typeName) => LogKeeps(st, "Type de bloc inconnu : " + typeName + ".", Warn);
    case _ => NestedKeeps(env, b, st);
  }

  /** The four statements that nest blocks. */
  lemma {:induction false} NestedKeeps(env: Env, b: Block, st: State)
    requires b.kind.If? || b.kind.For? || b.kind.While? || b.kind.Repeat?
    ensures Keeps(st, Dispatch(env, b, st))
    decreases Size(b), 0
  {
    match b.kind
    case If(left, op, right, thenBlocks, elseBlocks) =>
      IfBlockKeeps(env, left, op, right, thenBlocks, elseBlocks, st);
    case For(varName, from, to, step, body) => ForBlockKeeps(env, varName, from, to, step, body, st);
    case While(left, op, right, body) => WhileLoopKeeps(env, body, left, op, right, 0, st);
    case Repeat(body, left, op, right) => RepeatLoopKeeps(env, body, left, op, right, 0, st);
  }


  lemma {:induction false} IfBlockKeeps(env: Env, left: string, op: string, right: string,
                                        thenBlocks: seq<Block>, elseBlocks: seq<Block>, st: State)
    ensures Keeps(st, IfBlock(env, left, op, right, thenBlocks, elseBlocks, st))
    decreases SizeF(thenBlocks) + SizeF(elseBlocks), 4, 0
  {
    var c := CompareValues(Eval(env, st, left), op, Eval(env, st, right));
    var msg := "Condition " + ConditionText(left, op, right) + " : " + (if c then "VRAIE" else "FAUSSE") + ".";
    var st1 := Log(st, msg, if c then Success else Warn);
    LogKeeps(st, msg, if c then Success else Warn);
    if c {
      ExecForestKeeps(env, thenBlocks, st1);
    } else {
      ExecForestKeeps(env, elseBlocks, st1);
    }
    KeepsTrans(st, st1, IfBlock(env, left, op, right, thenBlocks, elseBlocks, st));
  }

  lemma {:induction false} ForBlockKeeps(env: Env, varName: string, from: string, to: string, step: string,
                                         body: seq<Block>, st: State)
    ensures Keeps(st, ForBlock(env, varName, from, to, step, body, st))
    decreases SizeF(body), 4, 0
  {
    var iter := ForBound(env, st, from);
    var st1 := LoopVariable(st, varName, iter);
    LoopVariableKeeps(st, varName, iter);
    ForLoopKeeps(env, body, varName, iter, ForBound(env, st, to), ForStep(step), 0, st1);
    KeepsTrans(st, st1, ForBlock(env, varName, from, to, step, body, st));
  }

  lemma {:induction false} ForTurnKeeps(env: Env, body: seq<Block>, varName: string, iter: Value, st: State)
    ensures Keeps(st, ForTurn(env, body, varName, iter, st))
    decreases SizeF(body), 3, 0
  {
    var st1 := SetValue(st, varName, iter);
    SetValueKeeps(st, varName, iter);
    var st2 := Log(st1, "Pour " + varName + " = " + ToString(iter), Info);
    LogKeeps(st1, "Pour " + varName + " = " + ToString(iter), Info);
    ExecForestKeeps(env, body, st2);
    KeepsTrans(st, st1, st2);
    KeepsTrans(st, st2, ForTurn(env, body, varName, iter, st));
  }

  lemma {:induction false} ForLoopKeeps(env: Env, body: seq<Block>, varName: string, iter: Value, end: Value,
                                        inc: int, guard: nat, st: State)
    ensures Keeps(st, ForLoop(env, body, varName, iter, end, inc, guard, st))
    decreases SizeF(body), 3, Cap + 1 - guard
  {
    if AtMost(iter, end) && guard < Cap && !Halted(st) {
      var st1 := ForTurn(env, body, varName, iter, st);
      ForTurnKeeps(env, body, varName, iter, st);
      ForLoopKeeps(env, body, varName, AddNumber(iter, inc), end, inc, guard + 1, st1);
      KeepsTrans(st, st1, ForLoop(env, body, varName, iter, end, inc, guard, st));
    }
  }

  lemma {:induction false} WhileLoopKeeps(env: Env, body: seq<Block>, left: string, op: string, right: string,
                                          guard: nat, st: State)
    ensures Keeps(st, WhileLoop(env, body, left, op, right, guard, st))
    decreases SizeF(body), 3, Cap + 1 - guard
  {
    if CompareValues(Eval(env, st, left), op, Eval(env, st, right)) && guard < Cap && !Halted(st) {
      var st1 := Log(st, "Tant que " + ConditionText(left, op, right) + " : VRAI", Info);
      LogKeeps(st, "Tant que " + ConditionText(left, op, right) + " : VRAI", Info);
      var st2 := ExecForest(env, body, st1);
      ExecForestKeeps(env, body, st1);
      WhileLoopKeeps(env, body, left, op, right, guard + 1, st2);
      KeepsTrans(st, st1, st2);
      KeepsTrans(st, st2, WhileLoop(env, body, left, op, right, guard, st));
    }
  }

  lemma {:induction false} RepeatLoopKeeps(env: Env, body: seq<Block>, left: string, op: string, right: string,
                                           guard: nat, st: State)
    ensures Keeps(st, RepeatLoop(env, body, left, op, right, guard, st))
    decreases SizeF(body), 3, Cap + 1 - guard
  {
    if !Halted(st) {
      var st1 := ExecForest(env, body, st);
      ExecForestKeeps(env, body, st);
      if !CompareValues(Eval(env, st1, left), op, Eval(env, st1, right)) && guard + 1 < Cap {
        RepeatLoopKeeps(env, body, left, op, right, guard + 1, st1);
        KeepsTrans(st, st1, RepeatLoop(env, body, left, op, right, guard, st));
      }
    }
  }

  /** The loop variable of a `for` survives every turn of the loop. */
  lemma ForTurnKeepsVariable(env: Env, body: seq<Block>, varName: string, iter: Value, st: State)
    requires varName in st.mem
    ensures varName in ForTurn(env, body, varName, iter, st).mem
  {
    ForTurnKeeps(env, body, varName, iter, st);
  }

  /** A whole run, in either mode and whatever the stop and the answers, ends in a state
      whose memory and key order agree. */
  lemma RunIsConsistent(env: Env, bs: seq<Block>)
    ensures Valid(ExecForest(env, bs, Fresh()))
    ensures Grows(Fresh(), ExecForest(env, bs, Fresh()))
  {
    ExecForestKeeps(env, bs, Fresh());
  }
}
