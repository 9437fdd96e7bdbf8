/**
 * What `_run` does, as functions from a run state to the run state after it.
 *
 * The run is single-threaded: the only places where anything outside it can act are its
 * suspensions (`await sleep(...)`, the wait for the next step, the wait for an answer).  The
 * only outside effect on the run is the stop button, which sets the abort flag.  The
 * environment therefore fixes, besides the host evaluator and the mode, the suspension
 * during which the stop arrives (`stopAt`, counted from 1; 0 is never reached, so 0 means
 * that nobody stops the run), and the answers the user gives to the successive reads.
 */
module Semantics {

  import opened Wrappers
  import opened JsValues
  import opened Comparator
  import opened Memory
  import opened Evaluator
  import opened Blocks

  /** The iteration bound shared by the three loops. */
  const Cap: nat := 100000

  datatype Severity = Info | Success | Error | Warn | Output | System

  datatype LogEvent = LogEvent(msg: string, severity: Severity)

  datatype Env = Env(host: Host, stepMode: bool, stopAt: nat, answers: seq<string>)

  /**
   * `names` lists the memory's keys in insertion order (the order `Object.keys` reports);
   * `consumed` counts the answers read so far; `waiting` holds the question of a read whose
   * answer never comes, after which the run makes no further progress.
   */
  datatype State = State(
    mem: map<string, Entry>,
    names: seq<string>,
    log: seq<LogEvent>,
    abort: bool,
    consumed: nat,
    waiting: Option<string>,
    ticks: nat,
    active: Option<string>)

  /** The state a run starts from: an empty memory, an empty log, no stop. */
  function Fresh(): State {
    State(map[], [], [], false, 0, None, 0, None)
  }

  /** The memory and its key order agree. */
  ghost predicate Valid(st: State) {
    (forall i, j :: 0 <= i < j < |st.names| ==> st.names[i] != st.names[j])
    && (forall k :: k in st.mem <==> k in st.names)
  }

  /** Nothing more happens in this run: it was stopped, or it waits for an answer forever. */
  predicate Halted(st: State) {
    st.abort || st.waiting.Some?
  }

  /** What any part of a run leaves in place: variables are never removed nor retyped, the
      key order and the log only grow, answers are consumed in order, and a stop is final. */
  ghost predicate Grows(s: State, t: State) {
    && s.mem.Keys <= t.mem.Keys
    && (forall k :: k in s.mem ==> t.mem[k].typ == s.mem[k].typ)
    && s.names <= t.names
    && s.log <= t.log
    && s.consumed <= t.consumed
    && s.ticks <= t.ticks
    && (s.abort ==> t.abort)
    && (s.waiting.Some? ==> t.waiting.Some?)
  }

  function Eval(env: Env, st: State, expr: string): Value {
    EvalExpr(expr, st.names, st.mem, env.host)
  }

  function Log(st: State, msg: string, severity: Severity): State {
    st.(log := st.log + [LogEvent(msg, severity)])
  }

  /** A suspension: the run yields, and the stop may arrive meanwhile. */
  function Suspend(stopAt: nat, st: State): State {
    st.(ticks := st.ticks + 1, abort := st.abort || st.ticks + 1 == stopAt)
  }

  /** A new variable: a new key, recorded last in the key order. */
  function AddVariable(st: State, name: string, e: Entry): State {
    st.(mem := st.mem[name := e], names := st.names + [name])
  }

  /** `memory[name].value = v`: the entry keeps its type.  The source only sets variables
      that exist; a missing one is left alone here so that the function is total. */
  function SetValue(st: State, name: string, v: Value): State {
    if name in st.mem then st.(mem := st.mem[name := st.mem[name].(value := v)]) else st
  }

  // ---------------------------------------------------------------------------
  // The five simple statements

  function DeclareStep(st: State, name: string, dataType: string): State
  {
    if Trim(name) == [] then Log(st, "Nom de variable manquant.", Error)
    else if name in st.mem then Log(st, "Variable '" + name + "' déjà déclarée.", Warn)
    else
      Log(AddVariable(st, name, Entry(dataType, TypeDefault(dataType))),
          "Variable '" + name + "' déclarée de type " + dataType + ".", Success)
  }

  function AssignStep(env: Env, st: State, varName: string, expr: string): State
  {
    if varName == [] then Log(st, "Aucune variable cible.", Error)
    else if varName !in st.mem then Log(st, "Variable '" + varName + "' non déclarée.", Error)
    else
      var val := Eval(env, st, expr);
      var t := st.mem[varName].typ;
      if val.Undef? then Log(st, "Expression invalide : \"" + expr + "\".", Error)
      else if t == Entier && !IsNumber(val) then
        Log(st, "Impossible d'affecter une valeur non numérique à '" + varName + "'.", Error)
      else
        var stored := if t == Entier then Trunc(val) else val;
        Log(SetValue(st, varName, stored), varName + " <- " + ToString(stored), Info)
  }

  function DisplayStep(env: Env, st: State, text: string): State
  {
    var val := Eval(env, st, text);
    Log(st, if val.Undef? then text else ToString(val), Output)
  }

  /** The value stored for the answer `raw` to a read of a variable of type `t`. */
  function ParseAnswer(t: string, raw: string): (v: Value)
    ensures t == Entier ==> v == ParseInt(raw)
    ensures t == Reel ==> v == ParseFloat(raw)
    ensures t == Booleen ==> v == Bool(LowerAscii(raw) == "vrai" || raw == "true")
    ensures t != Entier && t != Reel && t != Booleen ==> v == Str(raw)
  {
    if t == Entier then ParseInt(raw)
    else if t == Reel then ParseFloat(raw)
    else if t == Booleen then Bool(LowerAscii(raw) == "vrai" || raw == "true")
    else Str(raw)
  }

  /** The question the input dialog shows. */
  function Question(varName: string, t: string): string {
    "Entrer la valeur pour '" + varName + "' (" + t + ") :"
  }

  function ReadStep(env: Env, st: State, varName: string): State
  {
    if varName == [] then Log(st, "Aucune variable cible.", Error)
    else if varName !in st.mem then Log(st, "Variable '" + varName + "' non déclarée.", Error)
    else
      var t := st.mem[varName].typ;
      var st1 := Suspend(env.stopAt, st);
      if st1.consumed >= |env.answers| then st1.(waiting := Some(Question(varName, t)))
      else
        var parsed := ParseAnswer(t, env.answers[st1.consumed]);
        var st2 := SetValue(st1, varName, parsed).(consumed := st1.consumed + 1);
        Log(st2, "Lecture : " + varName + " = " + ToString(parsed), Info)
  }

  // ---------------------------------------------------------------------------
  // `for` bounds and step

  /** `evaluateExpr(text, memory) ?? parseInt(text, 10)`. */
  function ForBound(env: Env, st: State, text: string): Value {
    var v := Eval(env, st, text);
    if v.Undef? then ParseInt(text) else v
  }

  /** `parseInt(step, 10) || 1`: an unparseable or zero step counts as 1. */
  function ForStep(step: string): (inc: int)
    ensures inc != 0
    ensures ParseInt(step).Num? && ParseInt(step).n != 0 ==> inc == ParseInt(step).n
    ensures !(ParseInt(step).Num? && ParseInt(step).n != 0) ==> inc == 1
  {
    match ParseInt(step)
    case Num(n) => if n == 0 then 1 else n
    case _ => 1
  }

  function ConditionText(left: string, op: string, right: string): string {
    "(" + left + " " + op + " " + right + ")"
  }

  // ---------------------------------------------------------------------------
  // `_run` and the statements that nest blocks

  /** The blocks of `bs` in order, each skipped once the run is halted. */
  function ExecForest(env: Env, bs: seq<Block>, st: State): (r: State)
    ensures Halted(st) ==> r == st
    decreases SizeF(bs), 2, 0
  {
    if bs == [] || Halted(st) then st
    else ExecForest(env, bs[1..], Visit(env, bs[0], st))
  }

  /** One block: in step mode wait for the next step and re-check the stop; otherwise sleep
      the delay, mark the block active and sleep the short visual pause, without a re-check. */
  function Visit(env: Env, b: Block, st: State): (r: State)
    decreases Size(b), 1, 1
  {
    if env.stepMode then
      var st1 := Suspend(env.stopAt, st);
      if st1.abort then st1 else Dispatch(env, b, st1.(active := Some(b.id)))
    else
      var st1 := Suspend(env.stopAt, st).(active := Some(b.id));
      Dispatch(env, b, Suspend(env.stopAt, st1))
  }

  function Dispatch(env: Env, b: Block, st: State): (r: State)
    decreases Size(b), 1, 0
  {
    match b.kind
    case Comment(_) => st
    case Declare(name, dataType) => DeclareStep(st, name, dataType)
    case Assign(varName, expr) => AssignStep(env, st, varName, expr)
    case Display(text) => DisplayStep(env, st, text)
    case Read(varName) => ReadStep(env, st, varName)
    case If(left, op, right, thenBlocks, elseBlocks) => IfBlock(env, left, op, right, thenBlocks, elseBlocks, st)
    case For(varName, from, to, step, body) => ForBlock(env, varName, from, to, step, body, st)
    case While(left, op, right, body) => WhileLoop(env, body, left, op, right, 0, st)
    case Repeat(body, left, op, right) => RepeatLoop(env, body, left, op, right, 0, st)
    case Unknown(typeName) => Log(st, "Type de bloc inconnu : " + typeName + ".", Warn)
  }

  /** Log the outcome of the condition, then run exactly one of the two lists. */
  function IfBlock(env: Env, left: string, op: string, right: string,
                   thenBlocks: seq<Block>, elseBlocks: seq<Block>, st: State): (r: State)
    decreases SizeF(thenBlocks) + SizeF(elseBlocks), 4, 0
  {
    var c := CompareValues(Eval(env, st, left), op, Eval(env, st, right));
    var st1 := Log(st, "Condition " + ConditionText(left, op, right) + " : "
                       + (if c then "VRAIE" else "FAUSSE") + ".", if c then Success else Warn);
    if c then ExecForest(env, thenBlocks, st1) else ExecForest(env, elseBlocks, st1)
  }

  /** The bounds and the step are computed once; the variable is created as an `Entier`
      holding the start value when it does not exist yet. */
  function ForBlock(env: Env, varName: string, from: string, to: string, step: string,
                    body: seq<Block>, st: State): (r: State)
    decreases SizeF(body), 4, 0
  {
    var iter := ForBound(env, st, from);
    var end := ForBound(env, st, to);
    ForLoop(env, body, varName, iter, end, ForStep(step), 0, LoopVariable(st, varName, iter))
  }

  /** `memory[varName] = memory[varName] || { type: "Entier", value: iter }`. */
  function LoopVariable(st: State, varName: string, iter: Value): State
  {
    if varName in st.mem then st
    else AddVariable(st, varName, Entry(Entier, iter))
  }

  /** One turn of the `for` loop: set the variable, log its value, run the body. */
  function ForTurn(env: Env, body: seq<Block>, varName: string, iter: Value, st: State): (r: State)
    decreases SizeF(body), 3, 0
  {
    ExecForest(env, body, Log(SetValue(st, varName, iter), "Pour " + varName + " = " + ToString(iter), Info))
  }

  /** `while (iter <= end && guard++ < 100000)`: set the variable, log, run the body, step. */
  function ForLoop(env: Env, body: seq<Block>, varName: string, iter: Value, end: Value, inc: int,
                   guard: nat, st: State): (r: State)
    ensures Halted(st) ==> r == st
    decreases SizeF(body), 3, Cap + 1 - guard
  {
    if !(AtMost(iter, end) && guard < Cap) || Halted(st) then st
    else
      ForLoop(env, body, varName, AddNumber(iter, inc), end, inc, guard + 1, ForTurn(env, body, varName, iter, st))
  }

  lemma ForLoopStep(env: Env, body: seq<Block>, varName: string, iter: Value, end: Value, inc: int,
                    guard: nat, st: State)
    requires AtMost(iter, end) && guard < Cap && !Halted(st)
    ensures ForLoop(env, body, varName, iter, end, inc, guard, st)
         == ForLoop(env, body, varName, AddNumber(iter, inc), end, inc, guard + 1, ForTurn(env, body, varName, iter, st))
  {
  }

  /** Pre-test loop: evaluate the condition, log it, run the body. */
  function WhileLoop(env: Env, body: seq<Block>, left: string, op: string, right: string,
                     guard: nat, st: State): (r: State)
    ensures Halted(st) ==> r == st
    decreases SizeF(body), 3, Cap + 1 - guard
  {
    if !(CompareValues(Eval(env, st, left), op, Eval(env, st, right)) && guard < Cap) || Halted(st) then st
    else
      var st1 := Log(st, "Tant que " + ConditionText(left, op, right) + " : VRAI", Info);
      WhileLoop(env, body, left, op, right, guard + 1, ExecForest(env, body, st1))
  }

  lemma WhileLoopStep(env: Env, body: seq<Block>, left: string, op: string, right: string,
                      guard: nat, st: State)
    requires CompareValues(Eval(env, st, left), op, Eval(env, st, right)) && guard < Cap && !Halted(st)
    ensures WhileLoop(env, body, left, op, right, guard, st)
         == WhileLoop(env, body, left, op, right, guard + 1,
                      ExecForest(env, body, Log(st, "Tant que " + ConditionText(left, op, right) + " : VRAI", Info)))
  {
  }

  /** Post-test loop: run the body, then go on while the condition is false. */
  function RepeatLoop(env: Env, body: seq<Block>, left: string, op: string, right: string,
                      guard: nat, st: State): (r: State)
    ensures Halted(st) ==> r == st
    decreases SizeF(body), 3, Cap + 1 - guard
  {
    if Halted(st) then st
    else
      var st1 := ExecForest(env, body, st);
      if !CompareValues(Eval(env, st1, left), op, Eval(env, st1, right)) && guard + 1 < Cap then
        RepeatLoop(env, body, left, op, right, guard + 1, st1)
      else st1
  }
}
