/**
 * The keypad editing state of the calculator window: the expression being typed, the result shown,
 * and whether the shown result comes from a finished calculation (`isNewCalculation`). Each handler
 * is a method of `Calculator` and is specified by a function from the old state to the new one.
 * React applies state updates one after another; the model applies them in the same order.
 */
module App {
  import opened Wrappers
  import opened Text
  import opened CalculationEngine
  import opened Types
  import Memory

  /** The three state cells the handlers update. */
  datatype State = State(expression: string, result: string, isNewCalculation: bool)

  /** The keys that continue a finished calculation from its result. */
  predicate IsOperatorKey(value: string)
  {
    value in ["+", "-", "*", "/"]
  }

  /** `handleInput`. */
  function AfterInput(s: State, value: string): State
  {
    if s.isNewCalculation then
      State(if IsOperatorKey(value) then s.result + value else value, s.result, false)
    else
      State(s.expression + value, s.result, s.isNewCalculation)
  }

  /** `handleClear`. */
  function AfterClear(s: State): State
  {
    State("", "0", false)
  }

  /** `handleBackspace`: the whole state reset after a calculation, else one character dropped. */
  function AfterBackspace(s: State): State
  {
    if s.isNewCalculation then State("", "0", false)
    else
      var e := if s.expression == "" then "" else s.expression[..|s.expression| - 1];
      State(e, if e == "" then "0" else s.result, s.isNewCalculation)
  }

  /** `handlePaste` and `handleMemoryRecall`: the text replaces a finished expression, else is appended. */
  function AfterInsert(s: State, text: string): State
  {
    if s.isNewCalculation then State(text, s.result, false) else State(s.expression + text, s.result, s.isNewCalculation)
  }

  /** The effect that resets the result when the expression is empty. */
  function AfterAutoClear(s: State): State
  {
    if s.expression == "" && s.result != "0" then s.(result := "0") else s
  }

  /** `/[\d)]$/.test(expression)`: the expression ends with a digit or `)`. */
  predicate EndsWithOperand(expression: string)
  {
    expression != [] && (IsDigit(expression[|expression| - 1]) || expression[|expression| - 1] == ')')
  }

  /** The live-evaluation effect runs only on a non-blank, unfinished expression that ends with an operand. */
  predicate ShouldLiveEvaluate(s: State)
  {
    Trim(s.expression) != [] && !s.isNewCalculation && EndsWithOperand(s.expression)
  }

  /** The text shown for a caught value: `error instanceof Error ? error.message : 'Error'`. */
  function CaughtMessage(e: Exception): string
  {
    match e
    case ErrorObject(m) => m
    case NonError => "Error"
  }

  /** What `handleCalculate` shows for an outcome: the value, or the caught error's message. */
  function ShownText(outcome: Completion<string>): string
  {
    match outcome
    case Normal(v) => v
    case Thrown(e) => CaughtMessage(e)
  }

  /** `handleCalculate`: nothing on a blank expression; otherwise the result or the error, and a finished calculation. */
  function AfterCalculate(s: State, outcome: Completion<string>): State
  {
    if Trim(s.expression) == [] then s else State(s.expression, ShownText(outcome), true)
  }

  /** The live-evaluation effect: a value is shown, an error is ignored. */
  function AfterLiveEvaluate(s: State, outcome: Completion<string>): State
  {
    if ShouldLiveEvaluate(s) && outcome.Normal? then s.(result := outcome.value) else s
  }

  class Calculator {
    var expression: string
    var result: string
    var isNewCalculation: bool
    var mode: Mode
    const engine: Engine

    function Current(): State
      reads this
    {
      State(expression, result, isNewCalculation)
    }

    /** The initial state: `''`, `'0'`, not finished, standard mode, a fresh engine. */
    constructor ()
      ensures Current() == State("", "0", false) && mode == Standard && fresh(engine)
    {
      expression := "";
      result := "0";
      isNewCalculation := false;
      mode := Standard;
      engine := new Engine();
    }

    /** `handleInput`. */
    method HandleInput(value: string)
      modifies this
      ensures Current() == AfterInput(old(Current()), value) && mode == old(mode)
    {
      if isNewCalculation {
        var isOperator := value in ["+", "-", "*", "/"];
        if isOperator {
          expression := result + value;
        } else {
          expression := value;
        }
        isNewCalculation := false;
      } else {
        expression := expression + value;
      }
    }

    /** `handleExpressionChange`: typed text replaces the expression and the calculation is unfinished. */
    method HandleExpressionChange(newExpression: string)
      modifies this
      ensures Current() == State(newExpression, old(result), false) && mode == old(mode)
    {
      expression := newExpression;
      isNewCalculation := false;
    }

    /** `handleClear`. */
    method HandleClear()
      modifies this
      ensures Current() == AfterClear(old(Current())) && mode == old(mode)
    {
      expression := "";
      result := "0";
      isNewCalculation := false;
    }

    /** `handleBackspace`. */
    method HandleBackspace()
      modifies this
      ensures Current() == AfterBackspace(old(Current())) && mode == old(mode)
    {
      if isNewCalculation {
        expression := "";
        result := "0";
        isNewCalculation := false;
        return;
      }
      var newExpression := if expression == "" then "" else expression[..|expression| - 1];
      if newExpression == "" {
        result := "0";
      }
      expression := newExpression;
    }

    /**
     * `handleCalculate`: evaluates in the window's mode and returns the history entry the window
     * then hands to the database (`is_pinned` 0, stamped with `now`), or nothing when it stores none.
     */
    method HandleCalculate(backend: Backend, now: int) returns (saved: Option<HistoryEntry>)
      modifies this, engine
      ensures Current() == AfterCalculate(old(Current()), Evaluated(old(mode), old(expression), backend))
      ensures mode == old(mode)
      ensures engine.mode == if Trim(old(expression)) == [] then old(engine.mode) else mode
      ensures saved.Some? <==> Trim(old(expression)) != [] && Evaluated(old(mode), old(expression), backend).Normal?
      ensures saved.Some? ==> saved.value == HistoryEntry(None, expression, result, mode, now, 0)
    {
      if Trim(expression) == [] {
        return None;
      }
      var calculated := Run(backend);
      saved := Show(calculated, now);
    }

    /**
     * The two ends of `handleCalculate`'s `try`: a value is shown and saved; a caught error's message
     * is shown and nothing is saved. Either way the calculation is finished.
     */
    method Show(calculated: Completion<string>, now: int) returns (saved: Option<HistoryEntry>)
      modifies this
      ensures Current() == State(old(expression), ShownText(calculated), true) && mode == old(mode)
      ensures saved.Some? <==> calculated.Normal?
      ensures saved.Some? ==> saved.value == HistoryEntry(None, expression, result, mode, now, 0)
    {
      match calculated
      case Normal(v) =>
        result := v;
        isNewCalculation := true;
        saved := Some(HistoryEntry(None, expression, v, mode, now, 0));
      case Thrown(e) =>
        result := if e.ErrorObject? then e.message else "Error";
        isNewCalculation := true;
        saved := None;
    }

    /** The auto-clear effect. */
    method AutoClear()
      modifies this
      ensures Current() == AfterAutoClear(old(Current())) && mode == old(mode)
    {
      if expression == "" && result != "0" {
        result := "0";
      }
    }

    /** The live-evaluation effect: the guard is `ShouldLiveEvaluate`, and an error is swallowed. */
    method LiveEvaluate(backend: Backend)
      modifies this, engine
      ensures Current() == AfterLiveEvaluate(old(Current()), Evaluated(old(mode), old(expression), backend))
      ensures mode == old(mode)
      ensures engine.mode == if ShouldLiveEvaluate(old(Current())) then mode else old(engine.mode)
    {
      if !ShouldLiveEvaluate(Current()) {
        return;
      }
      var calculated := Run(backend);
      Adopt(calculated);
    }

    /** The end of the live-evaluation effect: a value becomes the result, an error changes nothing. */
    method Adopt(calculated: Completion<string>)
      modifies this
      ensures Current() == (if calculated.Normal? then old(Current()).(result := calculated.value) else old(Current()))
      ensures mode == old(mode)
    {
      if calculated.Normal? {
        result := calculated.value;
      }
    }

    /** `engine.evaluate(expression)` with the engine in the window's mode. */
    method Run(backend: Backend) returns (calculated: Completion<string>)
      modifies engine
      ensures calculated == Evaluated(mode, expression, backend)
      ensures engine.mode == mode
    {
      engine.SetMode(mode);
      calculated := engine.Evaluate(expression, backend);
    }

    /** `handleModeChange`: the window's mode and the engine's. */
    method HandleModeChange(newMode: Mode)
      modifies this, engine
      ensures mode == newMode && engine.mode == newMode && Current() == old(Current())
    {
      mode := newMode;
      engine.SetMode(newMode);
    }

    /** `handleHistoryClick`: the stored expression, result and mode come back, unfinished. */
    method HandleHistoryClick(entry: HistoryEntry)
      modifies this
      ensures Current() == State(entry.expression, entry.result, false) && mode == entry.mode
    {
      expression := entry.expression;
      result := entry.result;
      mode := entry.mode;
      isNewCalculation := false;
    }

    /** `handleMemoryRecall`. */
    method HandleMemoryRecall(memory: Memory.MemoryManager)
      modifies this
      ensures Current() == AfterInsert(old(Current()), memory.currentMemory) && mode == old(mode)
    {
      var value := memory.MemoryRecall();
      if isNewCalculation {
        expression := value;
        isNewCalculation := false;
      } else {
        expression := expression + value;
      }
    }

    /** `handleMemoryStore`: the shown result goes into the accumulator. */
    method HandleMemoryStore(memory: Memory.MemoryManager)
      modifies memory
      ensures memory.currentMemory == result && memory.memorySlots == old(memory.memorySlots)
    {
      memory.MemoryStore(result);
    }

    /** `handlePaste`. */
    method HandlePaste(text: string)
      modifies this
      ensures Current() == AfterInsert(old(Current()), text) && mode == old(mode)
    {
      if isNewCalculation {
        expression := text;
        isNewCalculation := false;
      } else {
        expression := expression + text;
      }
    }
  }

  // ---------------------------------------------------------------------------------------------
  // Properties of the handlers
  // ---------------------------------------------------------------------------------------------

  /** Typing always leaves the calculation unfinished; after one, an operator continues from the result. */
  lemma {:induction false} InputContinues(s: State, value: string)
    ensures !AfterInput(s, value).isNewCalculation
    ensures s.isNewCalculation && IsOperatorKey(value) ==> AfterInput(s, value).expression == s.result + value
    ensures s.isNewCalculation && !IsOperatorKey(value) ==> AfterInput(s, value).expression == value
    ensures !s.isNewCalculation ==> AfterInput(s, value).expression == s.expression + value
  {
  }

  /** While typing, backspace undoes exactly one typed character. */
  lemma {:induction false} BackspaceUndoesInput(s: State, c: char)
    requires !s.isNewCalculation
    ensures AfterBackspace(AfterInput(s, [c])).expression == s.expression
    ensures AfterBackspace(AfterInput(s, [c])).result == (if s.expression == "" then "0" else s.result)
  {
    assert (s.expression + [c])[..|s.expression|] == s.expression;
  }

  /** Backspace drops at most one character, never adds any, and after a calculation acts as clear. */
  lemma {:induction false} BackspaceShortens(s: State)
    ensures s.isNewCalculation ==> AfterBackspace(s) == AfterClear(s)
    ensures !s.isNewCalculation ==> AfterBackspace(s).expression == s.expression[..|AfterBackspace(s).expression|]
    ensures !s.isNewCalculation && s.expression != "" ==> |AfterBackspace(s).expression| == |s.expression| - 1
  {
  }

  /** An empty expression shows `0`: clear, backspace and the auto-clear effect all leave that holding. */
  lemma {:induction false} EmptyShowsZero(s: State)
    ensures AfterClear(s).expression == "" && AfterClear(s).result == "0"
    ensures AfterBackspace(s).expression == "" ==> AfterBackspace(s).result == "0"
    ensures AfterAutoClear(s).expression == "" ==> AfterAutoClear(s).result == "0"
    ensures s.expression != "" ==> AfterAutoClear(s) == s
  {
  }

  /**
   * Evaluating a non-blank expression always finishes the calculation, and the error message (or
   * the value) is what is shown; a blank one changes nothing.
   */
  lemma {:induction false} CalculateFinishes(s: State, mode: Mode, backend: Backend)
    ensures Trim(s.expression) == [] ==> AfterCalculate(s, Evaluated(mode, s.expression, backend)) == s
    ensures Trim(s.expression) != [] ==>
      var r := AfterCalculate(s, Evaluated(mode, s.expression, backend));
      r.isNewCalculation && r.expression == s.expression &&
      (Evaluated(mode, s.expression, backend).Thrown? ==>
        r.result in {UndefinedMessage, DivideMessage, SyntaxMessage, InvalidMessage})
  {
    EvaluateErrors(mode, s.expression, backend);
  }

  /** Live evaluation never finishes a calculation and never runs while an operator is the last key. */
  lemma {:induction false} LiveEvaluationGuard(s: State, outcome: Completion<string>, op: char)
    requires op in "+-*/("
    ensures AfterLiveEvaluate(s, outcome).isNewCalculation == s.isNewCalculation
    ensures AfterLiveEvaluate(s, outcome).expression == s.expression
    ensures AfterLiveEvaluate(s.(expression := s.expression + [op]), outcome) == s.(expression := s.expression + [op])
  {
    var e := s.expression + [op];
    assert e[|e| - 1] == op;
    assert !EndsWithOperand(e);
  }
}
