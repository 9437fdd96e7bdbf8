/**
 * The editor's store: the forest being edited with its undo history, the memory and log
 * shown beside it, and the flags through which the editor and a running interpreter hand
 * control to each other (the stop flag, the pending step, the pending input dialog).
 */
module Store {

  import opened Wrappers
  import opened JsValues
  import opened Memory
  import opened Evaluator
  import opened Blocks
  import opened TreeEdits
  import opened Semantics
  import opened Interpreter

  // ---------------------------------------------------------------------------
  // The undo history

  /** The snapshots of the forest and the index of the one on screen. */
  datatype History = History(snaps: seq<seq<Block>>, idx: nat)

  predicate WellFormed(h: History) {
    h.idx < |h.snaps|
  }

  function Current(h: History): seq<Block>
    requires WellFormed(h)
  {
    h.snaps[h.idx]
  }

  predicate CanUndo(h: History) {
    h.idx > 0
  }

  predicate CanRedo(h: History) {
    h.idx + 1 < |h.snaps|
  }

  /** The history a new store and `reset` start from: one empty forest. */
  function InitialHistory(): History {
    History([[]], 0)
  }

  /** `pushHistory(next)`: the snapshots after the current one are dropped, `next` is
      appended and becomes current.  (`slice(0, idx + 1)` keeps the whole list when the
      index is past its end.) */
  function Push(h: History, next: seq<Block>): (r: History)
    ensures WellFormed(r) && Current(r) == next && !CanRedo(r)
    ensures WellFormed(h) ==> r.snaps == h.snaps[..h.idx + 1] + [next] && r.idx == h.idx + 1
  {
    var kept := if h.idx + 1 <= |h.snaps| then h.snaps[..h.idx + 1] else h.snaps;
    History(kept + [next], |kept|)
  }

  /** `undo`: one snapshot back, when there is one. */
  function Undone(h: History): History {
    if CanUndo(h) then h.(idx := h.idx - 1) else h
  }

  /** `redo`: one snapshot forward, when there is one. */
  function Redone(h: History): History {
    if CanRedo(h) then h.(idx := h.idx + 1) else h
  }

  /** Undo and redo never change the snapshots, keep the index in range, and move it by
      one exactly when there is somewhere to go. */
  lemma UndoRedoKeepWellFormed(h: History)
    requires WellFormed(h)
    ensures WellFormed(Undone(h)) && WellFormed(Redone(h))
    ensures Undone(h).snaps == h.snaps && Redone(h).snaps == h.snaps
    ensures Undone(h).idx == (if h.idx > 0 then h.idx - 1 else h.idx)
    ensures Redone(h).idx == (if h.idx < |h.snaps| - 1 then h.idx + 1 else h.idx)
  {
  }

  /** A redo right after an undo returns to the same snapshot, and the other way round. */
  lemma RedoUndoes(h: History)
    requires WellFormed(h)
    ensures CanUndo(h) ==> Redone(Undone(h)) == h
    ensures CanRedo(h) ==> Undone(Redone(h)) == h
  {
  }

  /** After an edit there is nothing to redo, and undoing it shows the forest shown before. */
  lemma UndoAfterPush(h: History, next: seq<Block>)
    requires WellFormed(h)
    ensures Redone(Push(h, next)) == Push(h, next)
    ensures WellFormed(Undone(Push(h, next))) && Current(Undone(Push(h, next))) == Current(h)
  {
    var r := Push(h, next);
    assert r.snaps[h.idx] == h.snaps[h.idx];
  }

  /** `n` undos in a row. */
  function UndoTimes(h: History, n: nat): History
    decreases n
  {
    if n == 0 then h else UndoTimes(Undone(h), n - 1)
  }

  /** Undoing repeatedly walks back one snapshot at a time and stops at the first. */
  lemma {:induction false} UndoTimesStopsAtFirst(h: History, n: nat)
    requires WellFormed(h)
    ensures UndoTimes(h, n) == h.(idx := if n <= h.idx then h.idx - n else 0)
    decreases n
  {
    if n > 0 {
      UndoTimesStopsAtFirst(Undone(h), n - 1);
    }
  }

  // ---------------------------------------------------------------------------
  // The store

  /** Everything the store holds, as one value. */
  datatype Screen = Screen(
    algoName: string,
    blocks: seq<Block>,
    history: History,
    memory: map<string, Entry>,
    logs: seq<LogEvent>,
    running: bool,
    stepping: bool,
    active: Option<string>,
    abort: bool,
    stepPending: bool,
    stepsReleased: nat,
    inputModal: Option<string>,
    inputPending: bool,
    submitted: seq<string>)

  /** The message that opens a continuous run. */
  function RunBanner(algoName: string): LogEvent {
    LogEvent("Démarrage : " + algoName, System)
  }

  /** The message that opens a step-by-step run. */
  function StepBanner(algoName: string): LogEvent {
    LogEvent("Démarrage pas à pas : " + algoName, System)
  }

  /** The message that closes a run that reached its end. */
  const Finished: LogEvent := LogEvent("Exécution terminée.", Success)

  /** The store after a run from `start` that left the interpreter in `st`: the memory
      and the log the run produced, framed by the opening and closing messages; a run
      that waits for an answer stays running with its question on screen. */
  function AfterRun(start: Screen, banner: LogEvent, st: State, stepMode: bool): Screen {
    if st.waiting.Some? then
      start.(memory := st.mem, logs := [banner] + st.log, running := true, stepping := stepMode,
             active := st.active, abort := st.abort,
             inputModal := st.waiting, inputPending := true)
    else
      start.(memory := st.mem, logs := [banner] + st.log + [Finished], running := false,
             stepping := false, active := None, abort := st.abort)
  }

  class AlgoStore {
    var algoName: string
    var blocks: seq<Block>
    /** `historyRef.current` and `histIdx.current`. */
    var history: seq<seq<Block>>
    var histIdx: nat
    var memory: map<string, Entry>
    var logs: seq<LogEvent>
    var running: bool
    var stepping: bool
    var activeBlockId: Option<string>
    /** `abortRef.current`. */
    var abort: bool
    /** Whether `stepRef.current` holds the resolver of a waiting step. */
    var stepPending: bool
    /** How many waiting steps have been released. */
    var stepsReleased: nat
    /** `inputModal`: the question of the open input dialog. */
    var inputModal: Option<string>
    /** Whether a read still waits on `inputResolveRef.current`. */
    var inputPending: bool
    /** The answers delivered to waiting reads, in order. */
    var submitted: seq<string>
    /** The counter behind `newId`. */
    const ids: IdSource

    function Shown(): Screen
      reads this
    {
      Screen(algoName, blocks, History(history, histIdx), memory, logs, running, stepping, activeBlockId,
             abort, stepPending, stepsReleased, inputModal, inputPending, submitted)
    }

    predicate Valid()
      reads this
    {
      WellFormed(History(history, histIdx))
    }

    constructor (ids: IdSource)
      ensures Valid()
      ensures this.ids == ids
      ensures Shown() == Screen("MonAlgorithme", [], InitialHistory(), map[], [], false, false, None,
                                false, false, 0, None, false, [])
    {
      algoName := "MonAlgorithme";
      blocks := [];
      history := [[]];
      histIdx := 0;
      memory := map[];
      logs := [];
      running := false;
      stepping := false;
      activeBlockId := None;
      abort := false;
      stepPending := false;
      stepsReleased := 0;
      inputModal := None;
      inputPending := false;
      submitted := [];
      this.ids := ids;
    }

    // -------------------------------------------------------------------------
    // History

    method PushHistory(next: seq<Block>)
      requires Valid()
      modifies this
      ensures Valid()
      ensures Shown() == old(Shown()).(history := Push(old(Shown()).history, next))
    {
      history := history[..histIdx + 1] + [next];
      histIdx := |history| - 1;
    }

    method Undo()
      requires Valid()
      modifies this
      ensures Valid()
      ensures var h := Undone(old(Shown()).history);
              Shown() == old(Shown()).(history := h,
                                       blocks := if old(histIdx) > 0 then Current(h) else old(blocks))
    {
      if histIdx > 0 {
        histIdx := histIdx - 1;
        blocks := history[histIdx];
      }
    }

    method Redo()
      requires Valid()
      modifies this
      ensures Valid()
      ensures var h := Redone(old(Shown()).history);
              Shown() == old(Shown()).(history := h,
                                       blocks := if old(histIdx) < |old(history)| - 1 then Current(h)
                                                 else old(blocks))
    {
      if histIdx < |history| - 1 {
        histIdx := histIdx + 1;
        blocks := history[histIdx];
      }
    }

    /** `reset`: an empty forest, memory and log, and a history holding only that forest. */
    method Reset()
      modifies this
      ensures Valid()
      ensures Shown() == old(Shown()).(blocks := [], memory := map[], logs := [],
                                       history := InitialHistory())
    {
      blocks := [];
      memory := map[];
      logs := [];
      history := [[]];
      histIdx := 0;
    }

    // -------------------------------------------------------------------------
    // Edits, each recorded in the history

    /** `addBlock(template)`: a new block at the end of the forest. */
    method AddBlock(template: Template)
      requires Valid()
      modifies this, ids
      ensures Valid()
      ensures ids.counter == old(ids.counter) + 1
      ensures var next := old(blocks) + [Block(BlockId(ids.counter), template.defaults)];
              Shown() == old(Shown()).(blocks := next, history := Push(old(Shown()).history, next))
    {
      var b := CreateBlock(ids, template);
      blocks := blocks + [b];
      PushHistory(blocks);
    }

    /** `updateBlock(id, updated)`. */
    method UpdateBlock(id: string, updated: Block)
      requires Valid()
      modifies this
      ensures Valid()
      ensures var next := ReplaceById(old(blocks), id, updated);
              Shown() == old(Shown()).(blocks := next, history := Push(old(Shown()).history, next))
    {
      blocks := ReplaceById(blocks, id, updated);
      PushHistory(blocks);
    }

    /** `deleteBlock(id)`. */
    method DeleteBlock(id: string)
      requires Valid()
      modifies this
      ensures Valid()
      ensures var next := RemoveById(old(blocks), id);
              Shown() == old(Shown()).(blocks := next, history := Push(old(Shown()).history, next))
    {
      blocks := RemoveById(blocks, id);
      PushHistory(blocks);
    }

    /** `reorderBlocks(fromIndex, toIndex)`. */
    method ReorderBlocks(from: int, to: int)
      requires Valid() && |blocks| > 0 && from < |blocks|
      modifies this
      ensures Valid()
      ensures var next := Reorder(old(blocks), from, to);
              Shown() == old(Shown()).(blocks := next, history := Push(old(Shown()).history, next))
    {
      blocks := Reorder(blocks, from, to);
      PushHistory(blocks);
    }

    // -------------------------------------------------------------------------
    // The handshake with a running interpreter

    /** What the interpreter does before a block in step mode: it parks the resolver of
        its next step in `stepRef`. */
    method AwaitStep()
      modifies this
      ensures Shown() == old(Shown()).(stepPending := true)
    {
      stepPending := true;
    }

    /** `nextStep`: releases the waiting step, if there is one, and forgets it. */
    method NextStep()
      modifies this
      ensures Shown() == if old(stepPending)
                         then old(Shown()).(stepPending := false, stepsReleased := old(stepsReleased) + 1)
                         else old(Shown())
    {
      if stepPending {
        stepPending := false;
        stepsReleased := stepsReleased + 1;
      }
    }

    /** `stop`: raises the stop flag and releases the waiting step, if there is one. */
    method Stop()
      modifies this
      ensures abort && !stepPending
      ensures Shown() == old(Shown()).(abort := true, stepPending := false,
                                       stepsReleased := old(stepsReleased) + if old(stepPending) then 1 else 0)
    {
      abort := true;
      if stepPending {
        stepsReleased := stepsReleased + 1;
        stepPending := false;
      }
    }

    /** `requestInput(question)`: opens the dialog and parks the resolver of the read. */
    method RequestInput(question: string)
      modifies this
      ensures Shown() == old(Shown()).(inputModal := Some(question), inputPending := true)
    {
      inputModal := Some(question);
      inputPending := true;
    }

    /** `submitInput(value)`: closes the dialog and hands the read its answer, the empty
        text when there is no value; a read already answered takes no second answer. */
    method SubmitInput(value: Option<string>)
      modifies this
      ensures Shown() == if old(inputPending)
                         then old(Shown()).(inputModal := None, inputPending := false,
                                            submitted := old(submitted) + [value.GetOr("")])
                         else old(Shown()).(inputModal := None)
    {
      inputModal := None;
      if inputPending {
        submitted := submitted + [value.GetOr("")];
        inputPending := false;
      }
    }

    // -------------------------------------------------------------------------
    // Runs

    /** `run`: while a run is in progress it only raises the stop flag; otherwise it runs
        the forest continuously from an empty memory and log.  The stop that may arrive
        during the run and the answers the user gives are the run's parameters. */
    method Run(host: Host, stopAt: nat, answers: seq<string>)
      modifies this
      ensures old(running) ==> Shown() == old(Shown()).(abort := true)
      ensures !old(running) ==>
                Shown() == AfterRun(old(Shown()), RunBanner(old(algoName)),
                                    ExecForest(Env(host, false, stopAt, answers), old(blocks), Fresh()),
                                    false)
    {
      if running {
        abort := true;
        return;
      }
      ghost var start := Shown();
      Begin(RunBanner(algoName), false);
      var ctx := new RunContext(host, stopAt, answers);
      ctx.Interpret(blocks);
      var st := ctx.Snapshot();
      Finish(RunBanner(algoName), st, false);
      AfterRunStartsAfresh(start, RunBanner(algoName), st, false);
    }

    /** `startStepByStep`: does nothing while a run is in progress; otherwise it runs the
        forest one block per step from an empty memory and log. */
    method StartStepByStep(host: Host, stopAt: nat, answers: seq<string>)
      modifies this
      ensures old(running) ==> Shown() == old(Shown())
      ensures !old(running) ==>
                Shown() == AfterRun(old(Shown()).(stepPending := false), StepBanner(old(algoName)),
                                    ExecForest(Env(host, true, stopAt, answers), old(blocks), Fresh()),
                                    true)
    {
      if running {
        return;
      }
      stepPending := false;
      ghost var start := Shown();
      Begin(StepBanner(algoName), true);
      var ctx := new RunContext(host, stopAt, answers);
      ctx.InterpretStepByStep(blocks);
      var st := ctx.Snapshot();
      Finish(StepBanner(algoName), st, true);
      AfterRunStartsAfresh(start, StepBanner(algoName), st, true);
    }

    /** The start of a run: the stop flag is cleared, the memory and the log are emptied
        and the opening message is logged. */
    method Begin(banner: LogEvent, stepMode: bool)
      modifies this
      ensures Shown() == old(Shown()).(abort := false, stepping := stepMode, running := true,
                                       logs := [banner], memory := map[])
    {
      abort := false;
      stepping := stepMode;
      running := true;
      logs := [banner];
      memory := map[];
    }

    /** What follows the interpreter's return: the memory is copied out, the closing
        message is logged and the run ends, unless the run still waits for an answer. */
    method Finish(banner: LogEvent, st: State, stepMode: bool)
      modifies this
      ensures Shown() == AfterRun(old(Shown()), banner, st, stepMode)
    {
      memory := st.mem;
      abort := st.abort;
      if st.waiting.Some? {
        logs := [banner] + st.log;
        Suspended(st.waiting, st.active, stepMode);
      } else {
        logs := [banner] + st.log + [Finished];
        Ended();
      }
    }

    /** A run that waits for an answer: still running, with the question on screen. */
    method Suspended(question: Option<string>, active: Option<string>, stepMode: bool)
      modifies this
      ensures Shown() == old(Shown()).(inputModal := question, inputPending := true, active := active,
                                       running := true, stepping := stepMode)
    {
      inputModal := question;
      inputPending := true;
      activeBlockId := active;
      running := true;
      stepping := stepMode;
    }

    /** A run that returned: no block is highlighted and no run is in progress. */
    method Ended()
      modifies this
      ensures Shown() == old(Shown()).(active := None, running := false, stepping := false)
    {
      activeBlockId := None;
      running := false;
      stepping := false;
    }
  }

  /** What a run leaves does not depend on the memory, log and flags it started from. */
  lemma AfterRunStartsAfresh(s: Screen, banner: LogEvent, st: State, stepMode: bool)
    ensures AfterRun(s.(abort := false, stepping := stepMode, running := true,
                        logs := [banner], memory := map[]), banner, st, stepMode)
         == AfterRun(s, banner, st, stepMode)
  {
  }
}
