# AlgoVisual interpreter and editor store, modelled in Dafny

The application is a block-based editor for French pseudocode ("algorithmes"). A program is
a forest of typed statement blocks:

- `comment`, `declare`, `assign`, `display` and `read`;
- `if`, with a then-list and an else-list;
- the three loops `for`, `while` and `repeat`, each with a body.

An interpreter walks the forest. It uses a variable memory whose entries carry a declared type
(`Entier`, `Réel`, `Booléen`, `Caractère`, `Chaîne`, `Tableau`). It appends messages to a log,
asks the user for the values of reads, and obeys a stop button. It runs in one of two modes:
continuous, with a delay before each block, or step-by-step, waiting for a "next step" before
each block. A React store keeps the forest being edited together with its undo/redo history,
and drives the runs.

The project models the following parts of that system.

- **Values and host conversions** (`JsValues`, `Comparator`, `Text`, `Evaluator`, `Memory`).
  - The JavaScript values a run can meet.
  - `String(v)`, `parseInt` and `parseFloat`.
  - The loose `<`, `<=`, `==` of `compareValues`, with `Number(s)` for texts, and the
    `iter <= end` of the `for` loop.
  - `replaceAll`, with the `$` patterns of its replacement template.
  - `evaluateExpr`: substitution of the variables longest name first, the rewriting of
    `ET`/`OU`/`NON`, then evaluation by the host.
  - `TYPE_DEFAULTS`.
- **The run** (`Semantics`, `Interpreter`).
  - `Semantics` gives `_run` as functions from a run state to the state after it.
  - `Interpreter.RunContext` is the imperative `_run`: one class whose methods update the
    memory, the key order, the log and the stop flag in place. Each method is proved to
    leave the context in exactly the state the matching `Semantics` function computes.
  - `interpret` and `interpretStepByStep` are the two entry points of `RunContext`.
- **Properties of runs** (`RunInvariants`, `RunProperties`, `Modes`).
  - Runs never remove or retype a variable, and the memory and its key order stay consistent.
  - Stop behaviour, refusal paths, reads, `if`, and the three loops with their 100000 bound.
  - With no stop pressed, the two modes compute the same memory and log.
- **Editing** (`Blocks`, `TreeEdits`, `Store`).
  - `newId`/`createBlock`.
  - `replaceById`, `removeById` and the splice of `reorderBlocks`.
  - The history of `pushHistory`/`undo`/`redo`/`reset`.
  - The `nextStep`/`stop`/`requestInput`/`submitInput` handshake.
  - `run` and `startStepByStep`, as methods of the class `Store.AlgoStore`.
- **Listing and work area** (`PseudoCode`, `WorkArea`).
  - `generatePseudoCode`.
  - `extractDeclaredVars`.
  - The index check of `handleBlockDrop`.

**What outside the run becomes a parameter.** The run environment `Semantics.Env` holds three
things:

- **The host's `Function(...)` evaluator.** It is a total function `Host` from the prepared
  text to a returned value or a throw.
- **The stop button.** It is a number `stopAt`: the stop arrives during that suspension (a
  sleep, a wait for the next step, or a wait for an answer), counted from 1, and 0 means never.
  The run state counts suspensions in `ticks`.
- **The answers the user gives to successive reads.** A read that finds no answer left shows
  its question and waits for ever. The state then records `waiting`, and nothing afterwards
  acts.

**How cancellation behaves in the code:**

- **Continuous mode does not check the stop again after its two sleeps.** A stop pressed
  during the delay still lets that block run (`RunProperties.ContinuousStopStillRunsBlock`).
  Step mode does check it again.
- **`run` logs "Exécution terminée." also after a stop** (`Store.AfterRun`).
- **`stop` releases only a waiting step, never a waiting read.** A read that is waiting stays
  waiting.

## Model

| member | source | states |
|---|---|---|
| Memory.TypeDefault | src/constants/index.js:12-19 | Each of the six data types has its default (0 for `Entier` and `Réel`, false, empty text, empty array), and exactly the names outside the table give undefined |
| JsValues.Trunc | src/utils/interpreter.js:68 | `Math.trunc` keeps a number a number, NaN stays NaN, and an integer is unchanged |
| JsValues.IntToString | src/utils/interpreter.js:70 | The decimal text of a number is never empty |
| JsValues.NatToString | src/utils/interpreter.js:70 | The decimal text of a natural number is a non-empty run of digits |
| JsValues.DigitsValueOfNatToString | src/utils/interpreter.js:70 | Reading back the digits of a natural number gives that number |
| JsValues.IntToStringInjective | src/utils/interpreter.js:70 | Two numbers with the same decimal text are equal |
| JsValues.TrimStart | src/utils/interpreter.js:86 | What is left after the leading whitespace is removed is no longer and does not start with whitespace |
| JsValues.TrimEnd | src/utils/interpreter.js:50 | What is left after the trailing whitespace is removed is no longer and does not end with whitespace |
| JsValues.Trim | src/utils/interpreter.js:50 | A trimmed text that is not empty starts and ends with a non-whitespace character |
| JsValues.TrimStartSkips | src/utils/interpreter.js:86 | `TrimStart` keeps a suffix of the text, and everything before that suffix is whitespace |
| JsValues.TrimEndSkips | src/utils/interpreter.js:50 | `TrimEnd` keeps a prefix of the text, and everything after that prefix is whitespace |
| JsValues.TrimBlank | src/utils/interpreter.js:50 | `name?.trim()` is empty exactly when every character of the name is whitespace |
| JsValues.TrimKeeps | src/components/WorkArea.jsx:9-10 | Trimming a text that starts and ends with a non-whitespace character changes nothing, so trimming twice is trimming once |
| JsValues.LowerAscii | src/utils/interpreter.js:88 | Lowering a text keeps its length |
| JsValues.LeadingDigits | src/utils/interpreter.js:86 | The prefix `parseInt` reads is all digits, is a prefix of the text, and is maximal: the next character is not a digit |
| JsValues.ParseIntOfNatToString | src/utils/interpreter.js:86 | `parseInt` of the decimal text of a natural number is that number |
| JsValues.ParseIntOfIntToString | src/components/WorkArea.jsx:33-49 | `parseInt(String(n), 10)` is `n` for every integer of the model, negative ones included. In JavaScript this holds for integers of magnitude below 1e21 that a double represents, which covers the list indices of WorkArea.jsx |
| JsValues.ToString | src/utils/index.js:21 | `String(v)`: `undefined`, `NaN`, the decimal text of a number, `true`/`false`, the text itself, and the empty text for the empty array (definition) |
| JsValues.ParseInt | src/utils/interpreter.js:86 | `parseInt(s, 10)`: leading whitespace skipped, an optional sign, then the longest run of digits, NaN when there is none (definition; `LeadingDigits`, `ParseIntOfNatToString` and `ParseIntOfIntToString` state its properties) |
| JsValues.ParseFloat | src/utils/interpreter.js:87 | `parseFloat(raw)`, truncated toward zero: leading whitespace skipped, an optional sign, then the longest prefix that is a decimal literal (digits, an optional point and digits, at least one digit in all, and an exponent only when a digit follows its `e`), NaN when there is none (definition; the `ParseFloatOf…` lemmas below state its properties) |
| JsValues.ParseFloatOfIntToString | src/utils/interpreter.js:87 | `parseFloat(String(n))` is `n` for every integer of the model, negative ones included |
| JsValues.ParseFloatTruncates | src/utils/interpreter.js:87 | The decimal text of `n`, a point and any digits reads as `n`: the fraction is dropped |
| JsValues.ParseFloatOfExponent | src/utils/interpreter.js:87 | The decimal text of `n`, `e` and the decimal text of `k` reads as `n` times ten to the `k` |
| JsValues.ParseFloatOfPointFraction | src/utils/interpreter.js:87 | A point followed by digits, with or without a minus sign, reads as 0 |
| JsValues.ParseFloatOfBareExponent | src/utils/interpreter.js:87 | An `e` or `e+` with no digit after it is not part of the number: `n` followed by it reads as `n` |
| JsValues.ParseFloatOfNoDigits | src/utils/interpreter.js:87 | A text that starts with no whitespace, sign, digit, or point followed by a digit reads as NaN |
| JsValues.ParseFloatOfThousand | src/utils/interpreter.js:87 | `parseFloat("1e3")` is 1000 |
| JsValues.ParseFloatOfHalves | src/utils/interpreter.js:87 | `parseFloat("2.5")` truncates to 2, and `".5"` and `"-.5"` to 0 |
| JsValues.AddNumber | src/utils/interpreter.js:119 | `iter += inc`: a number adds the step, a text gets the decimal text of the step appended, a boolean counts as 0 or 1, undefined and NaN give NaN, and the empty array gives the text of the step (definition) |
| JsValues.StringToNumber | src/utils/index.js:39-44 | `Number(s)` as loose comparison applies it: whitespace trimmed, the empty text 0, `0x`/`0o`/`0b` unsigned integers in either case, otherwise a signed decimal literal with an optional fraction and exponent; none stands for NaN (definition; the lemmas below state its behaviour) |
| JsValues.StringToNumberOfIntToString | src/utils/index.js:43 | The loose comparison converts the decimal text of every integer of the model back to that integer |
| JsValues.StringToNumberOfDecimal | src/utils/index.js:43 | A trimmed text that starts with a digit and has no radix prefix is read as a decimal literal |
| JsValues.StringToNumberOfExponent | src/utils/index.js:43 | The decimal text of `n` followed by `e` and the decimal text of `k` denotes `n` times ten to the `k` |
| JsValues.StringToNumberOfPointZero | src/utils/index.js:43 | The decimal text of `n` followed by `.0` denotes `n` |
| JsValues.StringToNumberOfHex | src/utils/index.js:43 | `Number("0x10")` is 16 |
| JsValues.StringToNumberOfBinary | src/utils/index.js:43 | `Number("0b101")` is 5 |
| JsValues.StringToNumberOfSignedHex | src/utils/index.js:43 | A sign before a radix prefix makes the text NaN: `Number("-0x10")` |
| JsValues.StringToNumberOfFraction | src/utils/index.js:43 | `"2.5"` converts to no integer |
| Comparator.ToNumber | src/utils/index.js:39-43 | ToNumber: undefined and NaN give NaN, booleans 0 and 1, a text `Number(s)`, the empty array 0 (definition) |
| Comparator.Less | src/utils/index.js:39-42 | The abstract relational comparison: two texts compare character by character, anything else as numbers, and the outcome is undefined when a side is NaN (definition; `CompareIntegers` and `LessAndAtLeastComplementary` state its properties) |
| Comparator.LooseEquals | src/utils/index.js:43 | Loose equality: undefined equals only undefined, two arrays are never equal, booleans count as numbers, and a number equals a text that converts to it (definition; `LooseEqualsSymmetric`, `NumberEqualsTextIff` state its properties) |
| Comparator.CompareValues | src/utils/index.js:38-46 | `compareValues` dispatches on the six operators and gives false for any other (definition; the lemmas below state its properties) |
| Comparator.UnknownOperatorIsFalse | src/utils/index.js:38-46 | An operator other than the six makes every comparison false |
| Comparator.NotEqualIsNegatedEqual | src/utils/index.js:43-44 | `!=` is exactly the negation of `==` |
| Comparator.LooseEqualsSymmetric | src/utils/index.js:43 | Loose equality is symmetric |
| Comparator.CompareIntegers | src/utils/index.js:38-44 | On two numbers the six operators are the mathematical comparisons, and so is the `<=` of the `for` loop |
| Comparator.LessAndAtLeastComplementary | src/utils/index.js:39-42 | When the order of two values is defined, exactly one of `<` and `>=` holds; when a side is NaN, neither holds |
| Comparator.NumberEqualsItsText | src/utils/index.js:43-44 | A number is loosely equal to its own decimal text, and not unequal to it |
| Comparator.LooseComparisonExamples | src/utils/index.js:43-44 | `5 == "5"` holds and `5 != 5` does not |
| Comparator.NumberEqualsTextIff | src/utils/index.js:43 | A number loosely equals a text exactly when the text converts to that number |
| Comparator.LooseEqualsNumericTexts | src/utils/index.js:43 | `16 == "0x10"`, `5 == "5.0"` and `1000 == "1e3"` hold, and `2 == "2.5"` does not |
| Comparator.StrLess | src/utils/index.js:39-42 | Two texts compare character by character, with a proper prefix first (definition; `StrLessAsymmetric` and `StrLessOfPrefix` state its properties) |
| Comparator.StrLessAsymmetric | src/utils/index.js:39-42 | The order on texts is strict: it never holds both ways, and no text is less than itself |
| Comparator.StrLessOfPrefix | src/utils/index.js:39-42 | A proper prefix comes before the longer text |
| Comparator.AtMost | src/utils/interpreter.js:113 | `iter <= end` holds when `end < iter` is false, not when it is undefined (definition; `CompareIntegers` and `AtMostOfTexts` state it) |
| Comparator.AtMostOfTexts | src/utils/interpreter.js:113 | Text bounds compare as texts: `"10" <= "9"` holds where `10 <= 9` does not; and neither side of `<=` may be NaN for it to hold |
| Text.Expand | src/utils/index.js:22 | The replacement template as `replaceAll` expands it for one match: `$$` is a dollar sign, `$&` the matched text, a dollar and a backquote the text before the match, `$'` the text after it, and every other `$` stands for itself (definition; `ExpandLiteral`, `ExpandAppend` and `ReplacementPatterns` state its behaviour) |
| Text.ExpandLiteral | src/utils/index.js:22 | A template without `$` expands to itself, whatever the match |
| Text.ExpandAppend | src/utils/index.js:22 | A prefix without `$` is copied, `$$` expands to one dollar sign and `$&` to the matched text |
| Text.ReplaceAll | src/utils/index.js:22 | `s.replaceAll(p, r)`: the empty pattern matches before every character and at the end; otherwise the text is scanned left to right and each non-overlapping occurrence is replaced by the template expanded for it (definition; the lemmas below state its properties) |
| Text.ReplaceAllLiteral | src/utils/index.js:22 | With a template without `$`, `replaceAll` is the literal replacement, which puts the template in place of each occurrence as written |
| Text.InsertEverywhere | src/utils/index.js:22 | Inserting a text before each character of another and once more at the end adds one copy per gap: `\|s\| + (\|s\| + 1) * \|r\|` characters in all |
| Text.ReplaceAllEmptyPattern | src/utils/index.js:22 | `replaceAll` with the empty pattern and a template without `$` inserts the template before each character and at the end |
| Text.AbsentWhenCharMissing | src/utils/index.js:22 | A pattern holding a character that the text lacks does not occur in it |
| Text.ReplaceAllAbsent | src/utils/index.js:22 | Replacing a pattern that does not occur leaves the text unchanged, whatever the template |
| Text.ReplaceAllSelf | src/utils/index.js:22 | Replacing a pattern without `$` by itself leaves the text unchanged |
| Text.ReplaceAllLeftmost | src/utils/index.js:22 | The first occurrence is the one replaced, by the template expanded with the text before it, the match and the text after it; the scan then resumes after the match, so the replacement is never rescanned. A template without `$` lands as written and the rest of the text is replaced on its own |
| Text.ReplaceAllAt | src/utils/index.js:22 | When the pattern's first character does not occur before an occurrence, that occurrence is the first one replaced |
| Text.ReplacementPatterns | src/utils/index.js:22 | `"$$".replaceAll("$$", "$$")` is `"$"`; `"ab".replaceAll("b", "[$&]")` is `"a[b]"`; the backquote pattern gives `"aa"` and `"ab".replaceAll("a", "$'")` gives `"bb"` |
| Evaluator.Render | src/utils/index.js:20-21 | A string value is substituted in double quotes; any other value is substituted as its `String` |
| Evaluator.Lookup | src/utils/index.js:20 | `memory[v]?.value`: the variable's value, and undefined for a name not in the memory (definition) |
| Evaluator.SortByLength | src/utils/index.js:18 | Sorting the names keeps the same names, each as often as before |
| Evaluator.SortByLengthOrder | src/utils/index.js:18 | The sort puts longer names first and, being stable, keeps the insertion order among names of the same length |
| Evaluator.Substitute | src/utils/index.js:19-23 | Each name in turn is replaced everywhere in the text by its rendered value, through `replaceAll` (definition; `SubstituteAbsent`, `SubstituteStep` and the `Prepare` lemmas state what it produces) |
| Evaluator.SubstituteStep | src/utils/index.js:19-23 | Substituting a list of names is substituting the first, then the rest in the text that results |
| Evaluator.RewriteKeywords | src/utils/index.js:25-28 | `ET`, `OU` and `NON` between spaces become `&&`, `\|\|` and `!`, in that order (definition; stated by `NoKeywordLetters`, `RewriteKeywordsAbsent` and `PrepareRewritesKeywords`) |
| Evaluator.RewriteKeywordsAbsent | src/utils/index.js:25-28 | A text without any of the three keywords is not changed by the rewriting |
| Evaluator.NoKeywordLetters | src/utils/index.js:25-28 | A text without the letters E, O and N is not changed by the rewriting |
| Evaluator.Prepare | src/utils/index.js:16-28 | The text handed to the host: the names substituted longest first, then the keywords rewritten (definition; the lemmas below state what it produces) |
| Evaluator.EvalExpr | src/utils/index.js:14-36 | The empty expression is undefined, and so is every expression on which the host throws for the prepared text; otherwise the value is what the host returns. `EvalExprOfPlainText` and the `Prepare` lemmas state what the host is given |
| Evaluator.EvalExprOfPlainText | src/utils/index.js:14-36 | An expression that contains no variable name and no keyword reaches the host exactly as written, so its value is the host's value of that text, or undefined when the host throws |
| Evaluator.PrepareSubstitutesValues | src/utils/index.js:19-23 | With numbers `a = m` and `b = n`, the expression `a + b` reaches the host as the text of `m`, then ` + `, then the text of `n` |
| Evaluator.PrepareLongestNameFirst | src/utils/index.js:18-23 | With numbers `a = m` and `ab = n`, `ab + a` reaches the host as `n + m`, whereas taking the names in insertion order would have produced `mb + m` |
| Evaluator.PrepareRewritesKeywords | src/utils/index.js:19-28 | With booleans `x` and `y`, `x ET NON y` reaches the host as `x && !y`, the values written `true` or `false` |
| Evaluator.PrepareExpandsDollarPatterns | src/utils/index.js:21-22 | A string value goes through the replacement template: a text `s` holding `u$$w` reaches the host as `"u$w"`, and one holding `u$&w` as `"usw"`, with the variable's own name in place of `$&` |
| Evaluator.EvaluateExpr | src/utils/index.js:14-36 | The substitution loop over the sorted names, followed by the keyword rewriting and the host call, computes `EvalExpr` |
| Evaluator.SubstituteAbsent | src/utils/index.js:19-23 | A text that contains no variable name reaches the keyword rewriting unchanged |
| Semantics.ParseAnswer | src/utils/interpreter.js:85-88 | An answer is read with `parseInt` for `Entier` and with `parseFloat` for `Réel`. For `Booléen` it is true exactly when the answer is "vrai" in any mix of upper and lower case, or exactly "true". Every other type keeps the raw text |
| Semantics.ForStep | src/utils/interpreter.js:110 | The step is never 0: it is the parsed step when that is a non-zero number, and 1 otherwise |
| Semantics.Suspend | src/utils/interpreter.js:35-42 | One `await`: a tick passes, and the stop arrives if it is due at that tick (definition; stated by `RunProperties.StepModeStopSkipsBlock` and `ContinuousStopStillRunsBlock`) |
| Semantics.Question | src/utils/interpreter.js:84 | The question of the input dialog names the variable and its type (definition; stated by `RunProperties.ReadWithoutAnswerWaits`) |
| Semantics.ForBound | src/utils/interpreter.js:108-109 | A bound is the value of its expression, or `parseInt` of its text when the expression has no value (definition) |
| Semantics.LoopVariable | src/utils/interpreter.js:111 | An existing loop variable is kept as it is; a missing one is created as an `Entier` holding the start value (definition; `RunInvariants.LoopVariableKeeps` states what it keeps) |
| Semantics.ForTurn | src/utils/interpreter.js:115-118 | One turn sets the variable to the current value, logs "Pour … = …" and runs the body (definition; stated by `RunProperties.ForLoopRuns` and `ForStopsAtCap`) |
| Semantics.DeclareStep | src/utils/interpreter.js:48-56 | A declaration: an error for a blank name, a warning for a duplicate, otherwise the variable added last with its type's default (definition; stated by `RunProperties.DeclareOutcome` and `RunInvariants.DeclareStepKeeps`) |
| Semantics.AssignStep | src/utils/interpreter.js:58-72 | An assignment: refused with an error when the target is missing or undeclared, the value undefined, or a non-number goes to an `Entier`; otherwise the value is stored, truncated for an `Entier` (definition; stated by `RunProperties.AssignOutcome`) |
| Semantics.DisplayStep | src/utils/interpreter.js:74-78 | A display logs the value of the text, or the raw text when it has none (definition; stated by `RunProperties.DisplayOutcome`) |
| Semantics.ReadStep | src/utils/interpreter.js:80-93 | A read: an error for a missing or undeclared variable; otherwise one suspension, and the next answer parsed by the variable's type, or a wait for ever when none is left (definition; stated by `RunProperties.ReadRefused`, `ReadConsumesOneAnswer`, `ReadWithoutAnswerWaits`) |
| Semantics.Visit | src/utils/interpreter.js:31-42 | Before a block: in step mode a wait for the next step and a stop check; otherwise the delay, the active mark and the visual pause without a check (definition; stated by `RunProperties.StepModeStopSkipsBlock` and `ContinuousStopStillRunsBlock`) |
| Semantics.Dispatch | src/utils/interpreter.js:44-147 | The switch on the block type, with a warning for an unknown type (definition; stated by `RunProperties.UnknownBlockWarnsAndContinues`) |
| Semantics.IfBlock | src/utils/interpreter.js:95-104 | An `if` logs its condition's outcome and runs the branch it selects (definition; stated by `RunProperties.IfRunsOneBranch`) |
| Semantics.ForBlock | src/utils/interpreter.js:106-122 | A `for` evaluates its bounds and its step once, makes sure the variable exists, then loops (definition; stated by `RunProperties.ForCountsUp`, `ForPastEnd`) |
| Semantics.ExecForest | src/utils/interpreter.js:30-31 | A halted run executes nothing more |
| Semantics.ForLoop | src/utils/interpreter.js:113-120 | A `for` loop that starts halted changes nothing; its turns and their bound of 100000 are stated by `RunProperties.ForTurns`, `ForLoopRuns` and `ForStopsAtCap` |
| Semantics.ForLoopStep | src/utils/interpreter.js:113-120 | While `iter <= end` holds, the run is not halted and the bound is not reached, a turn sets the variable, logs, runs the body and continues from `iter + inc` |
| Semantics.WhileLoop | src/utils/interpreter.js:127-131 | A `while` loop that starts halted changes nothing |
| Semantics.WhileLoopStep | src/utils/interpreter.js:127-131 | While the condition holds and the bound is not reached, a turn logs "Tant que … : VRAI" and then runs the body |
| Semantics.RepeatLoop | src/utils/interpreter.js:138-142 | A `repeat` loop that starts halted changes nothing |
| Interpreter.RunContext.constructor | src/hooks/useAlgoStore.js:114-119 | A run starts from an empty memory, an empty log and a cleared stop flag |
| Interpreter.RunContext.Interpret | src/utils/interpreter.js:7-12 | Continuous mode leaves the context in the state that `ExecForest` computes without step waits |
| Interpreter.RunContext.InterpretStepByStep | src/utils/interpreter.js:19-24 | Step mode leaves the context in the state that `ExecForest` computes with a wait before every block |
| Interpreter.RunContext.Run | src/utils/interpreter.js:26-31 | The loop over the blocks, which stops at the first halt, computes `ExecForest` |
| Interpreter.RunContext.Visit | src/utils/interpreter.js:31-42 | The suspensions, the stop checks and the active-block mark before a block are those of `Semantics.Visit` |
| Interpreter.RunContext.Dispatch | src/utils/interpreter.js:44-147 | The switch on the block type computes `Semantics.Dispatch` |
| Interpreter.RunContext.Declare | src/utils/interpreter.js:48-56 | The in-place declaration computes `DeclareStep` |
| Interpreter.RunContext.Assign | src/utils/interpreter.js:58-72 | The in-place assignment computes `AssignStep` |
| Interpreter.RunContext.Display | src/utils/interpreter.js:74-78 | A display computes `DisplayStep` |
| Interpreter.RunContext.Read | src/utils/interpreter.js:80-93 | The in-place read computes `ReadStep`: one suspension, one answer consumed, or a wait for ever |
| Interpreter.RunContext.IfBlock | src/utils/interpreter.js:95-104 | The `if` computes `Semantics.IfBlock` |
| Interpreter.RunContext.ForBlock | src/utils/interpreter.js:106-122 | The `for` computes `Semantics.ForBlock`: the bounds and the step once, then the loop |
| Interpreter.RunContext.Bound | src/utils/interpreter.js:108-109 | A bound is the value of its expression, or falls back to `parseInt` of its text |
| Interpreter.RunContext.ForLoop | src/utils/interpreter.js:112-120 | The `while (iter <= end && guard++ < 100000)` loop computes `Semantics.ForLoop` |
| Interpreter.RunContext.ForIteration | src/utils/interpreter.js:114-119 | One turn keeps the loop variable and advances `Semantics.ForLoop` by one step |
| Interpreter.RunContext.ForTurn | src/utils/interpreter.js:115-118 | The body of a turn computes `Semantics.ForTurn` |
| Interpreter.RunContext.WhileBlock | src/utils/interpreter.js:124-133 | The pre-test loop computes `WhileLoop` |
| Interpreter.RunContext.WhileTurn | src/utils/interpreter.js:128-130 | One turn advances `WhileLoop` by one step |
| Interpreter.RunContext.RepeatBlock | src/utils/interpreter.js:135-144 | The post-test loop computes `RepeatLoop` |
| Interpreter.RunContext.RepeatTurn | src/utils/interpreter.js:139-142 | One turn either advances `RepeatLoop` by one step or reaches its end |
| Interpreter.RunContext.Emit | src/utils/interpreter.js:54 | Logging appends one event and changes nothing else |
| Interpreter.RunContext.Yield | src/utils/interpreter.js:35-38 | A suspension counts one tick, and the stop may arrive during it |
| Interpreter.RunContext.SetValue | src/utils/interpreter.js:68 | Only the value of the variable changes, and its type is kept |
| RunInvariants.DeclareStepKeeps | src/utils/interpreter.js:48-56 | A declaration never removes or retypes a variable, grows the key order and the log, and keeps the memory and its key order in agreement |
| RunInvariants.AssignStepKeeps | src/utils/interpreter.js:58-72 | An assignment keeps every variable's type and the memory/key-order agreement |
| RunInvariants.ReadStepKeeps | src/utils/interpreter.js:80-93 | A read keeps every variable's type and consumes the answers in order |
| RunInvariants.AddVariableKeeps | src/utils/interpreter.js:52 | A new key recorded last in the key order keeps the keys distinct and in agreement with the memory |
| RunInvariants.LoopVariableKeeps | src/utils/interpreter.js:111 | `memory[v] \|\| {...}` keeps the invariant and leaves the loop variable in memory |
| RunInvariants.ExecForestKeeps | src/utils/interpreter.js:26-150 | Any part of a run keeps the invariant, and once stopped stays stopped |
| RunInvariants.ForTurnKeepsVariable | src/utils/interpreter.js:115-118 | The loop variable is still in memory after a turn, so `memory[varName].value = iter` always has a target |
| RunInvariants.RunIsConsistent | src/utils/interpreter.js:26-150 | A whole run from the empty memory ends with the memory and its key order in agreement, and only grows what it started with |
| RunProperties.ExecForestAppend | src/utils/interpreter.js:30 | Running `a + b` is running `a` and then `b` |
| RunProperties.StopSkipsTheRest | src/utils/interpreter.js:31 | Once a block halts the run, the blocks after it do nothing |
| RunProperties.StepModeStopSkipsBlock | src/utils/interpreter.js:34-36 | In step mode, a stop pressed during the wait skips the block entirely |
| RunProperties.ContinuousStopStillRunsBlock | src/utils/interpreter.js:37-42 | In continuous mode, a stop pressed during the delay does not prevent the block from running |
| RunProperties.UnknownBlockWarnsAndContinues | src/utils/interpreter.js:146-147 | A block of an unknown type logs one warning and the run goes on with the next block |
| RunProperties.DeclareOutcome | src/utils/interpreter.js:48-56 | A blank name is an error and a duplicate a warning, and neither changes the memory; otherwise the variable gets its type's default and is added last |
| RunProperties.AssignOutcome | src/utils/interpreter.js:58-72 | The assignment is refused with an error exactly when the target is missing or undeclared, the value undefined, or a non-number goes to an `Entier`; otherwise only the target changes, truncated for an `Entier` |
| RunProperties.DisplayOutcome | src/utils/interpreter.js:74-78 | A display logs the value, or the raw text when it has none, and changes nothing else |
| RunProperties.ReadRefused | src/utils/interpreter.js:82-83 | A read of a missing or undeclared variable logs one error, asks nothing and consumes nothing |
| RunProperties.ReadConsumesOneAnswer | src/utils/interpreter.js:84-91 | A read of a declared variable consumes exactly one answer, parsed by the variable's type, which it keeps |
| RunProperties.ReadWithoutAnswerWaits | src/utils/interpreter.js:84 | Without an answer the question stays on screen, memory and log stay as they were, and no later block acts |
| RunProperties.IfRunsOneBranch | src/utils/interpreter.js:97-102 | The branch that the condition does not select has no influence on the outcome |
| RunProperties.LastTurn | src/utils/interpreter.js:113-119 | The last value of a counted loop lies between the bounds and is less than one step below the end |
| RunProperties.ForCountsUp | src/utils/interpreter.js:112-120 | A `for` over integers with an empty body logs one "Pour" message per value from the start to the last turn, and leaves the variable at the last turn |
| RunProperties.ForPastEnd | src/utils/interpreter.js:113 | A `for` whose start exceeds its end runs nothing |
| RunProperties.ForOneToFive | src/utils/interpreter.js:113-119 | `for i from 1 to 5` logs "Pour i = 1" … "Pour i = 5" and leaves `i` at 5 |
| RunProperties.WhileFalseRunsNothing | src/utils/interpreter.js:127 | A `while` whose condition is false at the start runs nothing and logs nothing |
| RunProperties.WhileStopsAtCap | src/utils/interpreter.js:126-131 | A `while` whose condition holds and whose body is empty stops at the iteration bound: from iteration `guard` on it logs its message exactly `Cap − guard` times, 100000 from the start |
| RunProperties.RepeatRunsAtLeastOnce | src/utils/interpreter.js:138-142 | A `repeat` runs its body once before it looks at the condition |
| RunProperties.WhileTurns | src/utils/interpreter.js:126-131 | A `while` runs its body no more than the bound allows, and zero times exactly when it starts halted, at the bound, or with a false condition |
| RunProperties.WhileLoopRuns | src/utils/interpreter.js:126-131 | A `while` loop ends in the state of exactly `WhileTurns` turns, each logging "Tant que … : VRAI" and then running the body |
| RunProperties.WhileRoundsEmpty | src/utils/interpreter.js:128-130 | Turns of an empty body only append their message to the log, once per turn |
| RunProperties.WhileEmptyBodyLog | src/utils/interpreter.js:126-131 | With an empty body, a `while` leaves everything as it was except the log, which gains "Tant que … : VRAI" once per turn counted by `WhileTurns` |
| RunProperties.RepeatTurns | src/utils/interpreter.js:137-142 | A `repeat` runs its body at least once unless the run is halted, and never more than the bound allows |
| RunProperties.RepeatLoopRuns | src/utils/interpreter.js:137-142 | A `repeat` loop ends in the state of exactly `RepeatTurns` runs of its body |
| RunProperties.RepeatRoundsEmpty | src/utils/interpreter.js:139-140 | Turns of an empty body change nothing |
| RunProperties.RepeatEmptyBody | src/utils/interpreter.js:137-142 | With an empty body, a `repeat` leaves the state unchanged, and turns once when its condition holds and up to the bound otherwise |
| RunProperties.ForTurns | src/utils/interpreter.js:113-120 | A `for` runs its body no more than the iteration bound allows (`Cap − guard` turns from iteration `guard`), and zero times exactly when it starts halted, at the bound, or with `iter <= end` false |
| RunProperties.ForLoopRuns | src/utils/interpreter.js:113-120 | A `for` loop ends in the state of exactly `ForTurns` turns, the value stepping by the increment after each |
| RunProperties.ForStopsAtCap | src/utils/interpreter.js:113-120 | A `for` with a negative step never passes its end, so the bound stops it: with an empty body it turns `Cap − guard` times and logs one "Pour" message for each value `a`, `a + inc`, … it takes |
| Modes.DeclareSame | src/utils/interpreter.js:48-56 | A declaration does not depend on the run's tick count |
| Modes.AssignSame | src/utils/interpreter.js:58-72 | An assignment has the same effect in both modes |
| Modes.ReadSame | src/utils/interpreter.js:80-93 | A read consumes the same answer in both modes |
| Modes.ExecForestSame | src/utils/interpreter.js:30-44 | Without a stop, the two modes turn equal states into equal states, apart from the tick count |
| Modes.ForLoopSame | src/utils/interpreter.js:113-120 | Without a stop, the `for` loop takes the same turns in both modes |
| Modes.WhileLoopSame | src/utils/interpreter.js:127-131 | Without a stop, the `while` loop takes the same turns in both modes |
| Modes.RepeatLoopSame | src/utils/interpreter.js:138-142 | Without a stop, the `repeat` loop takes the same turns in both modes |
| Modes.ModesAgree | src/utils/interpreter.js:7-24 | When nobody stops the run, `interpret` and `interpretStepByStep` on the same forest and answers produce the same memory, key order and log |
| Blocks.IdSource.constructor | src/utils/index.js:3 | The id counter starts at 0 |
| Blocks.IdSource.NewId | src/utils/index.js:4 | Each call increments the counter first and returns `blk_` followed by the new value |
| Blocks.BlockIdInjective | src/utils/index.js:4 | Different counter values give different ids, so ids from one counter never repeat |
| Blocks.CreateBlock | src/utils/index.js:6-12 | A new block has a fresh id and a copy of the template's type and default props |
| TreeEdits.ReplaceById | src/hooks/useAlgoStore.js:237-248 | `replaceById`: a block with the id becomes `updated`, every other block is rebuilt with the replacement applied to its nested lists (definition; the lemmas below state its properties) |
| TreeEdits.ReplaceByIdTopLevel | src/hooks/useAlgoStore.js:237-248 | Every top-level block with the id becomes `updated`; every other keeps its id and every prop that is not a list of blocks |
| TreeEdits.ReplaceAbsentIsIdentity | src/hooks/useAlgoStore.js:237-248 | Replacing an id that occurs nowhere gives back the same forest |
| TreeEdits.ReplaceReachesEveryDepth | src/hooks/useAlgoStore.js:237-248 | When every node has an id, no node with the id is left at any depth, and no id appears that was not in the forest or in `updated` |
| TreeEdits.RemoveById | src/hooks/useAlgoStore.js:250-262 | `removeById`: blocks with the id are dropped, and the removal goes on in every nested list whose blocks carry ids (definition; the lemmas below state its properties) |
| TreeEdits.RemoveByIdTopLevel | src/hooks/useAlgoStore.js:250-252 | The top-level ids that are left are the old ones without the removed id, in their order |
| TreeEdits.RemoveByIdKeepsProps | src/hooks/useAlgoStore.js:253-261 | Each surviving top-level block keeps its scalar props |
| TreeEdits.RemoveReachesEveryDepth | src/hooks/useAlgoStore.js:250-262 | When every node has an id, the id is gone at every depth and no id is added |
| TreeEdits.NamelessListHidesNested | src/hooks/useAlgoStore.js:256 | A nested list whose blocks have no id is skipped, so a block with the id can survive below it |
| TreeEdits.AnyId | src/hooks/useAlgoStore.js:242 | `list.some(x => x?.id)`: some element of the list has a non-empty id, which is what makes a prop a list of blocks to search (definition; stated by `NamelessListHidesNested` and `AllNamedHasId`) |
| TreeEdits.AllNamedHasId | src/hooks/useAlgoStore.js:256 | A non-empty list whose nodes all have ids passes the `some(x => x?.id)` test |
| TreeEdits.SpliceStart | src/hooks/useAlgoStore.js:61-62 | `splice` counts a negative index from the end and clamps the index to the list's length |
| TreeEdits.Reorder | src/hooks/useAlgoStore.js:58-66 | `reorderBlocks`: the block at `from` is spliced out and spliced in again at `to` (definition; the lemmas below state its properties) |
| TreeEdits.ReorderMoves | src/hooks/useAlgoStore.js:58-66 | The moved block lands where the second splice starts; the other blocks keep their order, and the forest is a permutation of the old one |
| TreeEdits.ReorderUndo | src/hooks/useAlgoStore.js:58-66 | Moving a block back from `to` to `from` restores the forest |
| TreeEdits.ReorderOntoItself | src/hooks/useAlgoStore.js:58-66 | Moving a block onto its own position changes nothing |
| Store.Push | src/hooks/useAlgoStore.js:24-29 | After a push the new forest is current and there is nothing to redo; the snapshots up to the current one are kept |
| Store.UndoRedoKeepWellFormed | src/hooks/useAlgoStore.js:68-80 | Undo and redo never change the snapshots, keep the index in range, and move it by one exactly when there is somewhere to go |
| Store.RedoUndoes | src/hooks/useAlgoStore.js:68-80 | A redo right after an undo returns to the same history, and so does an undo right after a redo |
| Store.Undone | src/hooks/useAlgoStore.js:68-73 | `undo` moves back one snapshot, and does nothing at the first (definition; stated by `UndoRedoKeepWellFormed` and `UndoTimesStopsAtFirst`) |
| Store.Redone | src/hooks/useAlgoStore.js:75-80 | `redo` moves forward one snapshot, and does nothing at the last (definition; stated by `UndoRedoKeepWellFormed` and `RedoUndoes`) |
| Store.UndoAfterPush | src/hooks/useAlgoStore.js:24-29 | After an edit, redo does nothing, and an undo shows the forest that was current before the edit |
| Store.UndoTimesStopsAtFirst | src/hooks/useAlgoStore.js:68-73 | Repeated undos walk back one snapshot at a time and stop at the first |
| Store.AfterRun | src/hooks/useAlgoStore.js:128-133 | What the store shows after a run: its memory, and its log between the banner and "Exécution terminée.", or the question on screen while a read waits (definition; stated by `AfterRunStartsAfresh` and `AlgoStore.Finish`) |
| Store.AfterRunStartsAfresh | src/hooks/useAlgoStore.js:114-120 | What a run leaves does not depend on the memory, log and flags it started from |
| Store.AlgoStore.constructor | src/hooks/useAlgoStore.js:6-20 | A new store shows "MonAlgorithme", an empty forest, a history of one empty forest, and no run |
| Store.AlgoStore.PushHistory | src/hooks/useAlgoStore.js:24-29 | The store's history becomes `Push` of the old one, and nothing else changes |
| Store.AlgoStore.Undo | src/hooks/useAlgoStore.js:68-73 | The history moves back one step, and the forest shown becomes the current snapshot when there was one to go back to |
| Store.AlgoStore.Redo | src/hooks/useAlgoStore.js:75-80 | The history moves forward one step, and the forest shown becomes the current snapshot when there was one to go forward to |
| Store.AlgoStore.Reset | src/hooks/useAlgoStore.js:82-88 | The forest, memory and log are emptied, and the history is one empty forest |
| Store.AlgoStore.AddBlock | src/hooks/useAlgoStore.js:33-39 | A new block with a fresh id is appended, and the new forest is pushed on the history |
| Store.AlgoStore.UpdateBlock | src/hooks/useAlgoStore.js:41-47 | The forest becomes `ReplaceById` of the old one, and is pushed on the history |
| Store.AlgoStore.DeleteBlock | src/hooks/useAlgoStore.js:49-55 | The forest becomes `RemoveById` of the old one, and is pushed on the history |
| Store.AlgoStore.ReorderBlocks | src/hooks/useAlgoStore.js:58-66 | The forest becomes `Reorder` of the old one, and is pushed on the history |
| Store.AlgoStore.AwaitStep | src/utils/interpreter.js:35 | A run in step mode parks its resolver, and nothing else changes |
| Store.AlgoStore.NextStep | src/hooks/useAlgoStore.js:165-171 | A waiting step is released and forgotten; with no step waiting, nothing happens |
| Store.AlgoStore.Stop | src/hooks/useAlgoStore.js:174-181 | The stop flag is raised and a waiting step is released; a waiting read is not released |
| Store.AlgoStore.RequestInput | src/hooks/useAlgoStore.js:100-103 | The dialog shows the question, and a read waits for an answer |
| Store.AlgoStore.SubmitInput | src/hooks/useAlgoStore.js:105-108 | The dialog closes, and a waiting read receives the value or the empty text; a read already answered gets no second answer |
| Store.AlgoStore.Run | src/hooks/useAlgoStore.js:112-134 | During a run, `run` only raises the stop flag; otherwise the store shows the memory and log of a continuous run from an empty memory, between "Démarrage : …" and "Exécution terminée." |
| Store.AlgoStore.StartStepByStep | src/hooks/useAlgoStore.js:138-162 | During a run nothing happens; otherwise the store shows the memory and log of a step-by-step run from an empty memory, between its banner and "Exécution terminée." |
| Store.AlgoStore.Begin | src/hooks/useAlgoStore.js:114-120 | Starting a run clears the stop flag and the memory, and the log holds only the banner |
| Store.AlgoStore.Finish | src/hooks/useAlgoStore.js:128-133 | After the interpreter returns, the store shows the outcome that `AfterRun` describes |
| Store.AlgoStore.Suspended | src/hooks/useAlgoStore.js:100-103 | A run that waits for an answer stays running with its question on screen |
| Store.AlgoStore.Ended | src/hooks/useAlgoStore.js:132-133 | A run that returned leaves no block highlighted and no run in progress |
| PseudoCode.Pad | src/utils/index.js:49 | The indentation is two spaces per level |
| PseudoCode.GeneratePseudoCode | src/utils/index.js:48-97 | The loop over the blocks produces the listing `Lines` |
| PseudoCode.BlockCode | src/utils/index.js:52-94 | The `switch` of one block produces its lines `BlockLines` |
| PseudoCode.LinesAppend | src/utils/index.js:51 | The listing of two forests put together is the two listings put together |
| PseudoCode.LinesIndented | src/utils/index.js:49-91 | Every line of a listing at depth `d` starts with the indentation of depth `d` |
| PseudoCode.IfListing | src/utils/index.js:69-75 | An `if` opens with "SI (…) ALORS" and closes with "FIN SI" at its own depth |
| PseudoCode.IfElseLine | src/utils/index.js:71-74 | The "SINON" line at the block's depth appears exactly when the else-list is not empty |
| PseudoCode.LoopsClose | src/utils/index.js:77-91 | Each loop has at least two lines, and closes with "FIN POUR", "FIN TANT QUE" or "JUSQU'A (…)" |
| PseudoCode.LineCount | src/utils/index.js:48-97 | The listing has one line for each simple block, two for each loop and each `if` without an else, three for each `if` with one, and none for an unknown block |
| WorkArea.ExtractDeclaredVars | src/components/WorkArea.jsx:6-17 | The loop collects what `DeclaredVars` defines |
| WorkArea.DeclarationsOf | src/components/WorkArea.jsx:9-14 | One block contributes its own declaration, then those of its then-list, else-list and body |
| WorkArea.DeclaredVarsIsPreorder | src/components/WorkArea.jsx:6-17 | The collected declarations are those of the nodes in pre-order |
| WorkArea.DeclaredVarsShape | src/components/WorkArea.jsx:6-17 | There is one entry per declaration with a non-blank name at any depth, and every collected name is non-blank and already trimmed |
| WorkArea.DuplicatesKept | src/components/WorkArea.jsx:8-11 | Two declarations of the same name give two entries |
| WorkArea.DropRequest | src/components/WorkArea.jsx:44-53 | A drop requests a move exactly when the dragged data is non-empty, parses as an integer, and differs from the target index |
| WorkArea.DropOfDraggedBlock | src/components/WorkArea.jsx:33-53 | A block dragged from position `i` and dropped on position `t` moves exactly when `i != t` |

## Left out

- Timing is not modelled: the 500 ms delay, the 80 ms visual pause and `sleep`. Only the
  suspensions they cause are modelled, as ticks during which the stop may arrive.
- `syncMemory` is not modelled. It copies the memory to the screen, and the store takes the
  run's final memory instead. The aliasing between the copies is not modelled.
- The interleaving of the user's clicks with a running run is not modelled. The model fixes in
  advance, as `stopAt` and answers, which suspension the stop arrives in and what the user
  types. The store methods `NextStep`, `Stop` and `SubmitInput` are modelled on their own.
- Log ids are not modelled: `Date.now() + Math.random()` is a clock and randomness.
- The `catch` branch of `run` and `startStepByStep` ("Erreur : …") is not modelled. No typed
  block in the model can throw: the host evaluator's throws are already caught inside
  `evaluateExpr`.
- The host's `Function(...)` evaluation is an abstract parameter, not a JavaScript evaluator.
- Numbers: `Réel` values, `parseFloat` and `Math.trunc` work on integers, because the model
  has no floating point.
  - `JsValues.Trunc`: is the identity, because numbers are integers.
  - `JsValues.ParseFloat`: truncates the number it reads toward zero, because numbers are
    integers. It reads `Infinity`, signed or not, as NaN. An exponent beyond the range of a
    double is read exactly, not as `Infinity`. Digits finer than a double are kept before
    the truncation: `"2.99999999999999999"` reads as 2, where JavaScript rounds it to 3.
    A negative zero is 0.
  - `JsValues.ToString`: writes every digit of a number. JavaScript's `String` switches to
    exponent form from 1e21 up (`"1.5511210043330986e+25"` for 25!), and that is the
    text `Display`, the `Affectation` log and the expression substitution would show.
  - `JsValues.ParseInt`: reads a digit run exactly. JavaScript rounds a run beyond 2^53 to
    the nearest double, and `parseInt` of an exponent-form text stops at its `e`.
  - `JsValues.AddNumber`: adds exactly. JavaScript's `iter += inc` rounds to a double, so a
    counter stops growing once it reaches 2^53 and sums beyond the double range become
    `Infinity`. No number of the model ever rounds or overflows.
- Arrays other than the empty `Tableau` default are not modelled, and neither are objects.
- `null` is not a value of the model. The host's `Function(...)` can return it (for
  `x ← null`), and JavaScript then treats it unlike undefined: an assignment to a variable
  that is not an `Entier` stores it, `String(null)` is "null", and it counts as 0 in `<`.
  The model's host returns only the values listed above.
- Property lookup on the memory object follows own keys only. A name such as `toString`,
  which JavaScript finds on the prototype, is treated as undeclared.
- `Object.keys` lists integer-like keys first. The model keeps every key in insertion order.
- `Store.AlgoStore.ReorderBlocks`: requires a non-empty forest and `fromIndex` below its
  length. With an index past the end, the source's splice takes out nothing and would insert
  `undefined`, which is not a block.
- `RunProperties.ForCountsUp`: the closed form is stated for an empty body and integer bounds
  only. A body may change the variable, and the general case is covered by
  `Semantics.ForLoopStep`.
- `getPseudoCode`'s `join("\n")` is not modelled. The model keeps the listing as a sequence of
  lines.
- Persistence is not modelled (`save`, `loadFile`), nor are `clearLogs`, `setAlgoName` and
  `setExecutionDelay`.
- Rendering is not modelled: components, drag visuals, the suggestions dialog and the other
  UI-only code.
- `Comparator.StrLess`: orders characters by Unicode scalar value, where JavaScript compares
  UTF-16 code units. The two orders differ only between a character beyond U+FFFF and one
  from U+E000 to U+FFFF.
- `Evaluator.SortByLength`: measures a name in characters, where `.length` counts UTF-16 code
  units. A name with a character beyond U+FFFF is shorter here than in JavaScript, so the
  order among names can differ.
- `JsValues.StringToNumber`: gives NaN (none) for a text whose value has a fraction or is
  infinite (`2.5`, `Infinity`), because numbers are integers here. For `==` and `!=` this
  differs from JavaScript only on texts whose nearest double is an integer although their
  value is not. Digits finer than a double (`2 == "2.00000000000000001"`) and an
  underflowing exponent (`0 == "1e-400"`) are true in JavaScript and false here. The
  ordering operators are false against a text with a fraction, where JavaScript orders it.
  Large texts, even ones beyond the range of a double such as `1e400`, are read exactly,
  with no rounding and no overflow to `Infinity`.
- Case folding beyond ASCII in `toLowerCase` is not modelled. Only the comparison with "vrai"
  matters, and no other character lowers to those letters.
