/** The arithmetic engine (src/logic/CalculatorLogic.java): one pending
    operator, the operand stored with it, the last result and a flag that
    asks the display to restart. */
module Logic {
  import opened Values

  /** The four fields of the engine as one value. */
  datatype EngineState = EngineState(
    currentValue: real,
    previousValue: real,
    currentOperator: string,
    resetDisplay: bool)

  /** The field initialisers, which `reset` restores. */
  const Initial := EngineState(0.0, 0.0, "", false)

  /** The result of applying pending operator `op` with stored operand
      `previous` to `operand`: the four operators, NaN for division by
      zero, and the operand itself for any other operator text. */
  function Combine(op: string, previous: real, operand: real): (r: Num)
    ensures r.NaN? <==> op == "/" && operand == 0.0
  {
    if op == "+" then Finite(previous + operand)
    else if op == "-" then Finite(previous - operand)
    else if op == "*" then Finite(previous * operand)
    else if op == "/" then (if operand == 0.0 then NaN else Finite(previous / operand))
    else Finite(operand)
  }

  /** The engine state after `calculateResult` produced `r`: the NaN path
      returns before any field is written. */
  function AfterResult(s: EngineState, r: Num): (t: EngineState)
    ensures t.previousValue == s.previousValue && t.currentOperator == s.currentOperator
    ensures r.NaN? ==> t == s
    ensures r.Finite? ==> t.currentValue == r.value && t.resetDisplay
  {
    if r.NaN? then s else s.(currentValue := r.value, resetDisplay := true)
  }

  class CalculatorLogic {
    var currentValue: real
    var previousValue: real
    var currentOperator: string
    var resetDisplay: bool

    function State(): EngineState
      reads this
    {
      EngineState(currentValue, previousValue, currentOperator, resetDisplay)
    }

    constructor ()
      ensures State() == Initial
    {
      currentValue := 0.0;
      previousValue := 0.0;
      currentOperator := "";
      resetDisplay := false;
    }

    /** Latches the operand shown on the display and the operator; an
        earlier pending operator is overwritten, not evaluated. */
    method SetOperator(operator: string, currentDisplayValue: real)
      modifies this
      ensures previousValue == currentDisplayValue && currentOperator == operator && resetDisplay
      ensures currentValue == old(currentValue)
    {
      previousValue := currentDisplayValue;
      currentOperator := operator;
      resetDisplay := true;
    }

    /** Applies the pending operator. The operator and the stored operand
        are kept, so a second call reapplies them; the NaN return for a
        division by zero leaves every field as it was. */
    method CalculateResult(currentDisplayValue: real) returns (r: Num)
      modifies this
      ensures r == Combine(old(currentOperator), old(previousValue), currentDisplayValue)
      ensures State() == AfterResult(old(State()), r)
      ensures currentOperator == old(currentOperator) && previousValue == old(previousValue)
      ensures old(currentOperator) == "+" ==> r == Finite(old(previousValue) + currentDisplayValue)
      ensures old(currentOperator) == "-" ==> r == Finite(old(previousValue) - currentDisplayValue)
      ensures old(currentOperator) == "*" ==> r == Finite(old(previousValue) * currentDisplayValue)
      ensures old(currentOperator) == "/" && currentDisplayValue != 0.0 ==> r == Finite(old(previousValue) / currentDisplayValue)
      ensures old(currentOperator) !in {"+", "-", "*", "/"} ==> r == Finite(currentDisplayValue)
      ensures r.NaN? <==> old(currentOperator) == "/" && currentDisplayValue == 0.0
      ensures r.NaN? ==> currentValue == old(currentValue) && resetDisplay == old(resetDisplay)
      ensures r.Finite? ==> currentValue == r.value && resetDisplay
    {
      if currentOperator == "+" {
        currentValue := previousValue + currentDisplayValue;
      } else if currentOperator == "-" {
        currentValue := previousValue - currentDisplayValue;
      } else if currentOperator == "*" {
        currentValue := previousValue * currentDisplayValue;
      } else if currentOperator == "/" {
        if currentDisplayValue == 0.0 {
          return NaN;
        }
        currentValue := previousValue / currentDisplayValue;
      } else {
        currentValue := currentDisplayValue;
      }
      resetDisplay := true;
      r := Finite(currentValue);
    }

    /** The square root through the library root `sqrt`, guarded so that
        a negative argument gives NaN. Reads no field. */
    function CalculateSquareRoot(value: real, sqrt: real -> real): (r: Num)
      ensures r.NaN? <==> value < 0.0
      ensures value >= 0.0 ==> r == Finite(sqrt(value))
    {
      if value < 0.0 then NaN else Finite(sqrt(value))
    }

    /** The square of `value`; never NaN and never negative. */
    function CalculateSquare(value: real): (r: real)
      ensures r >= 0.0
      ensures r == value * value
    {
      value * value
    }

    /** `percentValue` percent of the stored operand (not of the result). */
    function CalculatePercentage(percentValue: real): (r: real)
      reads this
      ensures r * 100.0 == previousValue * percentValue
    {
      previousValue * percentValue / 100.0
    }

    /** Restores the four field initialisers. */
    method Reset()
      modifies this
      ensures State() == Initial
    {
      currentValue := 0.0;
      previousValue := 0.0;
      currentOperator := "";
      resetDisplay := false;
    }
  }

  /** Pressing `=` twice: the second call applies the same operator to the
      same stored operand, now with the new display value. */
  method RepeatedResult(engine: CalculatorLogic, first: real, second: real) returns (r1: Num, r2: Num)
    modifies engine
    ensures r1 == Combine(old(engine.currentOperator), old(engine.previousValue), first)
    ensures r2 == Combine(old(engine.currentOperator), old(engine.previousValue), second)
    ensures engine.currentOperator == old(engine.currentOperator)
    ensures engine.previousValue == old(engine.previousValue)
  {
    r1 := engine.CalculateResult(first);
    r2 := engine.CalculateResult(second);
  }

  /** With `-` pending, feeding the exact result back in returns the
      operand: `a - (a - x) == x`. The display does not always do this: a
      negative result is read back without its sign. */
  lemma SubtractionReappliedAlternates(a: real, x: real)
    ensures Combine("-", a, Combine("-", a, x).value) == Finite(x)
  {
  }

  /** With `/` pending and a non-zero stored operand, feeding the exact
      quotient back in returns the divisor. */
  lemma DivisionReappliedAlternates(a: real, x: real)
    requires a != 0.0 && x != 0.0
    ensures Combine("/", a, Combine("/", a, x).value) == Finite(x)
  {
    var q := a / x;
    assert q * x == a;
    assert q != 0.0;
    assert a / q == x;
  }

  /** `setOperator("/", a)` followed by `calculateResult(b)`. */
  method DivideThenResult(engine: CalculatorLogic, a: real, b: real) returns (r: Num)
    modifies engine
    ensures b == 0.0 ==> r == NaN
    ensures b != 0.0 ==> r == Finite(a / b)
  {
    engine.SetOperator("/", a);
    r := engine.CalculateResult(b);
  }
}
