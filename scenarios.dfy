/** Whole button sequences on a fresh calculator, stated for any library
    whose parser reads the digits involved as expected. */
module Scenarios {
  import opened Values
  import opened OperatorSplit
  import Logic
  import opened UI

  /** `setOperator` then `calculatePercentage`: 50 percent of 200 is 100;
      with no operand stored the percentage is 0. */
  method PercentageOfStoredOperand() returns (fresh0: real, stored: real)
    ensures fresh0 == 0.0 && stored == 100.0
  {
    var engine := new Logic.CalculatorLogic();
    fresh0 := engine.CalculatePercentage(50.0);
    engine.SetOperator("+", 200.0);
    stored := engine.CalculatePercentage(50.0);
  }

  /** A digit label takes the default branch and an operator label the
      operator branch, and no other branch of the switch. */
  lemma LabelBranches(command: string)
    ensures IsDigitLabel(command) ==> !IsNamedLabel(command)
    ensures IsOperatorLabel(command) ==>
              command != "C" && command != "CE" && command != "=" && command != "√"
              && command != "x²" && command != "%" && command != "." && IsNamedLabel(command)
  {
  }

  /** `a op b` on a fresh calculator, for single digits `a` and `b`: the display shows all three labels, the engine holds `a` and
      the operator, and the number the next button reads is `b`. */
  method EnterBinary(ui: CalculatorUI, a: string, op: string, b: string, x: real)
    requires ui.display == "0" && ui.logic.State() == Logic.Initial
    requires IsDigitLabel(a) && IsOperatorLabel(op) && IsDigitLabel(b)
    requires ui.lib.parseDouble(a) == Some(x)
    modifies ui, ui.logic
    ensures ui.display == a + op + b && GetLastNumber(ui.display) == b
    ensures ui.logic.State() == Logic.Initial.(previousValue := x, currentOperator := op, resetDisplay := true)
  {
    assert NoOperator(a) && NoOperator(b);
    LabelBranches(a);
    LabelBranches(op);
    LabelBranches(b);
    ui.HandleButtonClick(a);
    assert ui.display == a;
    GetLastNumberWithoutOperator(a);
    ui.HandleButtonClick(op);
    assert ui.display == a + op;
    ui.HandleButtonClick(b);
    assert ui.display == a + [op[0]] + b;
    GetLastNumberAfterOperator(a, op[0], b);
  }

  /** `5 + 3 =` shows the sum. */
  method AdditionShowsSum(lib: Library) returns (shown: string)
    requires lib.parseDouble("5") == Some(5.0) && lib.parseDouble("3") == Some(3.0)
    ensures shown == lib.formatNumber(8.0)
  {
    var ui := new CalculatorUI(lib);
    EnterBinary(ui, "5", "+", "3", 5.0);
    ui.HandleButtonClick("=");
    shown := ui.display;
  }

  /** `5 + 3 = =`: the second `=` adds the stored 5 to the shown 8. */
  method RepeatedEqualsReapplies(lib: Library) returns (first: string, second: string)
    requires lib.parseDouble("5") == Some(5.0) && lib.parseDouble("3") == Some(3.0)
    requires lib.parseDouble(GetLastNumber(lib.formatNumber(8.0))) == Some(8.0)
    ensures first == lib.formatNumber(8.0) && second == lib.formatNumber(13.0)
  {
    var ui := new CalculatorUI(lib);
    EnterBinary(ui, "5", "+", "3", 5.0);
    ui.HandleButtonClick("=");
    first := ui.display;
    ui.HandleButtonClick("=");
    second := ui.display;
  }

  /** `4 / 0 =` shows the error text. */
  method DivisionByZeroShowsError(lib: Library) returns (shown: string)
    requires lib.parseDouble("4") == Some(4.0) && lib.parseDouble("0") == Some(0.0)
    ensures shown == Error
  {
    var ui := new CalculatorUI(lib);
    EnterBinary(ui, "4", "/", "0", 4.0);
    ui.HandleButtonClick("=");
    shown := ui.display;
  }

  /** A digit then `√` shows the library root of the digit's value (`9 √`
      shows the root of 9), and the error text for a negative value. */
  method SquareRootOfDigit(lib: Library, d: string, v: real) returns (shown: string)
    requires IsDigitLabel(d) && lib.parseDouble(d) == Some(v)
    ensures v >= 0.0 ==> shown == lib.formatNumber(lib.sqrt(v))
    ensures v < 0.0 ==> shown == Error
  {
    var ui := new CalculatorUI(lib);
    LabelBranches(d);
    ui.HandleButtonClick(d);
    assert ui.display == d && NoOperator(d);
    GetLastNumberWithoutOperator(d);
    ui.HandleButtonClick("√");
    shown := ui.display;
  }

  /** A point after a single digit is appended, and a second point is
      ignored. */
  lemma PointOnceAfterDigit(d: string)
    requires IsDigitLabel(d)
    ensures AppendDecimal(d) == d + "." && AppendDecimal(d + ".") == d + "."
  {
    assert NoOperator(d);
    GetLastNumberWithoutOperator(d);
    var typed := d + ".";
    assert NoOperator(typed) && typed[1] == '.';
    GetLastNumberWithoutOperator(typed);
  }

  /** A digit then `. .` (`3 . .`): the second point is ignored. */
  method SecondPointIgnored(lib: Library, d: string) returns (shown: string)
    requires IsDigitLabel(d)
    ensures shown == d + "."
  {
    var ui := new CalculatorUI(lib);
    LabelBranches(d);
    PointOnceAfterDigit(d);
    ui.HandleButtonClick(d);
    assert ui.display == d;
    ui.HandleButtonClick(".");
    assert ui.display == d + ".";
    ui.HandleButtonClick(".");
    shown := ui.display;
  }

  /** `C` after anything shows `0`, and a following `+` stores 0. */
  method ClearThenOperator(ui: CalculatorUI)
    requires ui.lib.parseDouble("0") == Some(0.0)
    modifies ui, ui.logic
    ensures ui.display == "0+"
    ensures ui.logic.previousValue == 0.0 && ui.logic.currentOperator == "+"
  {
    ui.HandleButtonClick("C");
    GetLastNumberWithoutOperator("0");
    ui.HandleButtonClick("+");
  }

  /** A point on the initial `0` is appended, not substituted. */
  lemma PointAfterZeroAppends()
    ensures AppendDecimal("0") == "0."
  {
    GetLastNumberWithoutOperator("0");
  }

  /** A point typed right after an operator that follows a decimal number
      is ignored: `12.5+` reads as `12.5`, because the split skips the empty
      fragment after the operator. */
  lemma PointAfterOperatorIgnored()
    ensures GetLastNumber("12.5+") == "12.5"
    ensures AppendDecimal("12.5+") == "12.5+"
  {
    var t := "12.5";
    GetLastNumberBeforeOperator(t, '+');
    assert t + ['+'] == "12.5+";
    assert t[2] == '.';
  }

  /** The number read from `-2` is `2`. */
  lemma LeadingMinusDropped()
    ensures GetLastNumber("-2") == "2"
  {
    GetLastNumberAfterOperator([], '-', "2");
    assert [] + ['-'] + "2" == "-2";
  }

  /** `3 - 5 =` shows a negative result. */
  method SubtractionShowsNegative(lib: Library) returns (shown: string)
    requires lib.parseDouble("3") == Some(3.0) && lib.parseDouble("5") == Some(5.0)
    ensures shown == lib.formatNumber(-2.0)
  {
    var ui := new CalculatorUI(lib);
    EnterBinary(ui, "3", "-", "5", 3.0);
    ui.HandleButtonClick("=");
    shown := ui.display;
  }

  /** `3 - 5 = =`: the second `=` reads the shown `-2` as `2`, so it shows
      3 - 2 rather than 3 - (-2). */
  method RepeatedSubtractionLosesSign(lib: Library) returns (first: string, second: string)
    requires lib.parseDouble("3") == Some(3.0) && lib.parseDouble("5") == Some(5.0)
    requires lib.formatNumber(-2.0) == "-2" && lib.parseDouble("2") == Some(2.0)
    ensures first == "-2" && second == lib.formatNumber(1.0)
  {
    var ui := new CalculatorUI(lib);
    EnterBinary(ui, "3", "-", "5", 3.0);
    ui.HandleButtonClick("=");
    first := ui.display;
    LeadingMinusDropped();
    ui.HandleButtonClick("=");
    second := ui.display;
  }

  /** An operator pressed while a negative result `-2` is shown stores its
      magnitude, because the minus sign is taken for a separator. */
  method OperatorAfterNegativeResult(ui: CalculatorUI)
    requires ui.display == "-2" && ui.lib.parseDouble("2") == Some(2.0)
    modifies ui, ui.logic
    ensures ui.display == "-2+"
    ensures ui.logic.previousValue == 2.0 && ui.logic.currentOperator == "+"
  {
    LeadingMinusDropped();
    ui.HandleButtonClick("+");
  }

  /** Pressing an editing label (`C`, `CE`, `.`, a digit, an operator)
      keeps at most one point in every number on the display. */
  method EditingLabelKeepsWellFormed(ui: CalculatorUI, command: string)
    requires WellFormedTokens(ui.display)
    requires command in {"C", "CE", "."} || IsDigitLabel(command) || IsOperatorLabel(command)
    modifies ui, ui.logic
    ensures WellFormedTokens(ui.display)
  {
    EditingKeepsWellFormed(ui.display, command);
    ui.HandleButtonClick(command);
  }
}
