# Desktop calculator: engine and display controller

This project models the two working parts of a small Swing calculator and
proves properties of them.

- **The arithmetic engine**, `CalculatorLogic` (module `Logic`). It is a class
  with four fields that its methods assign in place: `currentValue`,
  `previousValue`, `currentOperator` and `resetDisplay`.
  - `SetOperator` latches an operand together with an operator.
  - `CalculateResult` applies the pending operator. It never clears it, so
    pressing `=` again reapplies the same operator to the same stored operand.
  - A division by zero returns the NaN sentinel before any field is written.
  - `Reset` restores the field initialisers.
  - The square, square-root and percentage helpers only read the fields, so
    they are Dafny functions.
- **The display controller**, `CalculatorUI` (module `UI`). Its state is the
  display text plus the engine. `HandleButtonClick` maps a button label to a
  new display text and, for operators, `=` and the unary labels, to an engine
  call. A number that does not parse shows `Fehler` and leaves the engine
  alone.
- **`getLastNumber`** reads the number being typed. It is built on Java's
  `String.split` over the four operator characters, modelled exactly in module
  `OperatorSplit`:
  - the leading empty fragment is kept;
  - trailing empty fragments are dropped;
  - a text with no operator splits into itself.

Numbers are mathematical reals. NaN is the `NaN` variant of `Values.Num`.

The controller depends on three Java library calls. Each is a function value
in the `UI.Library` datatype, held by the controller:
- `Double.parseDouble`, which returns `None` where Java throws
  `NumberFormatException`;
- `Math.sqrt`;
- the formatting of a result that is not NaN.

Only the NaN branch of `formatResult` is fixed by the model.

Behaviours of the code that the proofs make explicit:
- `12+` reads as `12`.
- `+` reads as `+`, which then fails to parse.
- `-3` reads as `3`. A negative result therefore loses its sign when the next
  operator or `=` reads it back.
- After `12.5+`, a `.` is ignored. The split skips the empty fragment after
  the operator, so it finds the point of `12.5`.
- In the engine, feeding the exact result of `-` back in returns the
  operand, because `a - (a - x) = x`. On the display this holds only while
  the result is not negative. `3 - 5 = =` shows `-2` and then 1, not 5: the
  second `=` reads `-2` as `2`.
- No button sends `%`, so that branch of the switch is unreachable.
- `.` on the initial `0` gives `0.`. It is appended, not substituted for the
  `0`, whatever one might expect from digits. The model follows the code here.

The model also follows the code on trailing-token extraction: it is the last
*non-empty* fragment, not simply the last fragment.

Every display text produced by `C`, `CE`, `.`, a digit or an operator keeps at
most one decimal point in every number (`UI.EditingKeepsWellFormed`).

## Model

| member | source | states |
|---|---|---|
| `Logic.Combine` | src/logic/CalculatorLogic.java:21-30 | the result is NaN exactly when the pending operator is `/` and the operand is 0 |
| `Logic.AfterResult` | src/logic/CalculatorLogic.java:26-33 | the stored operand and operator are kept; after NaN nothing changes; otherwise the result is stored and the reset flag set |
| `Logic.CalculatorLogic.constructor` | src/logic/CalculatorLogic.java:7-10 | a new engine holds the initialisers 0, 0, "" and false |
| `Logic.CalculatorLogic.SetOperator` | src/logic/CalculatorLogic.java:13-17 | stores the operand and operator and sets the reset flag; `currentValue` is unchanged |
| `Logic.CalculatorLogic.CalculateResult` | src/logic/CalculatorLogic.java:20-34 | `+ - *` return and store previous op operand, with `-` as previous minus operand; `/` divides by a non-zero operand; a zero divisor gives NaN and writes no field; any other operator returns the operand; operator and stored operand are never changed |
| `Logic.CalculatorLogic.CalculateSquareRoot` | src/logic/CalculatorLogic.java:37-40 | NaN exactly for a negative argument, otherwise the library root; reads no field |
| `Logic.CalculatorLogic.CalculateSquare` | src/logic/CalculatorLogic.java:43-45 | the square, which is never negative; reads no field |
| `Logic.CalculatorLogic.CalculatePercentage` | src/logic/CalculatorLogic.java:48-50 | 100 times the result equals the stored operand times the argument; it cannot change a field |
| `Logic.CalculatorLogic.Reset` | src/logic/CalculatorLogic.java:53-58 | all four fields equal the initialisers again |
| `Logic.RepeatedResult` | src/logic/CalculatorLogic.java:20-34 | two `calculateResult` calls in a row use the same operator and the same stored operand |
| `Logic.SubtractionReappliedAlternates` | src/logic/CalculatorLogic.java:23 | with `-` pending, feeding the exact result back in returns the original operand |
| `Logic.DivisionReappliedAlternates` | src/logic/CalculatorLogic.java:25-27 | with `/` pending and non-zero values, feeding the exact quotient back in returns the divisor |
| `Logic.DivideThenResult` | src/logic/CalculatorLogic.java:25-27 | `setOperator("/", a)` then `calculateResult(b)` gives NaN when b is 0 and a / b otherwise |
| `OperatorSplit.Split` | src/ui/CalculatorUI.java:159 | Java's `split` on `+ - * /`: the text itself when there is no operator, otherwise the fragments without trailing empty ones (properties in the rows below) |
| `OperatorSplit.FragmentsRoundTrip` | src/ui/CalculatorUI.java:159 | the fragments and operator separators rebuild the original text |
| `OperatorSplit.FragmentsAllEmpty` | src/ui/CalculatorUI.java:159 | all fragments are empty if and only if the text consists of operators only |
| `OperatorSplit.FragmentsOperatorFree` | src/ui/CalculatorUI.java:159 | no fragment contains an operator character |
| `OperatorSplit.FragmentsWithoutOperator` | src/ui/CalculatorUI.java:159 | a text without operators is its own single fragment |
| `OperatorSplit.SeparatorsEmpty` | src/ui/CalculatorUI.java:159 | the split finds a separator exactly when the text holds an operator |
| `OperatorSplit.LastFragmentIsTrailingRun` | src/ui/CalculatorUI.java:159 | the last fragment is the longest operator-free suffix |
| `OperatorSplit.DropTrailingEmpty` | src/ui/CalculatorUI.java:159 | the kept parts are a prefix, end in a non-empty part, and only empty parts were dropped |
| `OperatorSplit.SplitShape` | src/ui/CalculatorUI.java:159 | an operator-free text splits into itself; otherwise every part is operator-free and the last part is non-empty |
| `UI.GetLastNumber` | src/ui/CalculatorUI.java:158-161 | the last element of the split, or the whole text when the split is empty (properties in the rows below) |
| `UI.GetLastNumberWithoutOperator` | src/ui/CalculatorUI.java:158-161 | a text without an operator is returned whole |
| `UI.GetLastNumberOfOperatorsOnly` | src/ui/CalculatorUI.java:158-161 | a text of operators only (all fragments empty) is returned whole |
| `UI.GetLastNumberIsLastToken` | src/ui/CalculatorUI.java:158-161 | otherwise the text is `before + result + after`: the result is non-empty and operator-free, `after` is operators only, and `before` is empty or ends with an operator |
| `UI.TrailingRunIsLastNumber` | src/ui/CalculatorUI.java:158-161 | a non-empty operator-free suffix is the number returned |
| `UI.GetLastNumberSkipsOperator` | src/ui/CalculatorUI.java:158-161 | appending an operator to a text that has a digit or point does not change the number read |
| `UI.GetLastNumberAfterOperator` | src/ui/CalculatorUI.java:158-161 | the operator-free text typed after an operator is the number read, whatever precedes it |
| `UI.GetLastNumberBeforeOperator` | src/ui/CalculatorUI.java:158-161 | a number followed by one operator reads back as that number |
| `UI.GetLastNumberSkipsTrailingOperatorExample` | src/ui/CalculatorUI.java:158-161 | `12+` yields `12` |
| `UI.GetLastNumberOperatorExample` | src/ui/CalculatorUI.java:158-161 | `+` yields `+` |
| `UI.GetLastNumberDropsSignExample` | src/ui/CalculatorUI.java:158-161 | `-3` yields `3` |
| `UI.FormatResult` | src/ui/CalculatorUI.java:164-165 | NaN is shown as `Fehler`; any other result as the library formatting of its value |
| `UI.ClearEntry` | src/ui/CalculatorUI.java:110-114 | the result is a prefix of the text at most one character shorter; `0` is kept |
| `UI.AppendDecimal` | src/ui/CalculatorUI.java:139-143 | the text is kept or extended by one `.`, and only when the number read has no point |
| `UI.AppendInput` | src/ui/CalculatorUI.java:144-150 | the display ends with the label, and any text other than `0` is kept in front of it |
| `UI.ButtonLabelsAreNamedOrDigits` | src/ui/CalculatorUI.java:62-68 | every button label has its own branch or is a digit, never both; `%` is not a button |
| `UI.AppendCharKeepsWellFormed` | src/ui/CalculatorUI.java:120-123 | appending an operator or a digit keeps at most one point per fragment |
| `UI.AppendDecimalKeepsWellFormed` | src/ui/CalculatorUI.java:139-143 | the `.` transition never puts a second point into a fragment |
| `UI.AppendDigitKeepsWellFormed` | src/ui/CalculatorUI.java:144-150 | the digit transition keeps at most one point per fragment |
| `UI.ClearEntryKeepsWellFormed` | src/ui/CalculatorUI.java:110-114 | the `CE` transition keeps at most one point per fragment |
| `UI.NumberTextWellFormed` | src/ui/CalculatorUI.java:108 | an operator-free text with at most one point, such as `0` or `Fehler`, is well formed |
| `UI.EditingKeepsWellFormed` | src/ui/CalculatorUI.java:104-151 | every display text `C`, `CE`, `.`, a digit or an operator can produce keeps at most one point per fragment |
| `UI.CalculatorUI.constructor` | src/ui/CalculatorUI.java:17-21 | the display shows `0` and the engine is fresh and in its initial state |
| `UI.CalculatorUI.HandleButtonClick` | src/ui/CalculatorUI.java:100-155 | `C` shows `0` and resets the engine; `CE` drops the last character unless the text is empty or `0`; `.` appends only when the number read has no point; a digit replaces a lone `0`, otherwise it is appended; an operator stores the parsed number and appends itself; `=`, `√`, `x²` and `%` show the formatted engine result; a parse failure shows `Fehler` and leaves the engine unchanged; the labels other than `C`, operators and `=` leave the engine unchanged |
| `Scenarios.PercentageOfStoredOperand` | src/logic/CalculatorLogic.java:48-50 | 50 percent with 200 stored is 100, and with nothing stored it is 0 |
| `Scenarios.LabelBranches` | src/ui/CalculatorUI.java:105-150 | a digit label reaches only the default branch; an operator label reaches only the operator branch |
| `Scenarios.EnterBinary` | src/ui/CalculatorUI.java:120-150 | pressing digit, operator, digit on a fresh calculator shows the three labels, stores the first number with the operator, and leaves the second digit as the number read |
| `Scenarios.AdditionShowsSum` | src/ui/CalculatorUI.java:115-123 | pressing `5 + 3 =` shows the formatted 8 |
| `Scenarios.RepeatedEqualsReapplies` | src/ui/CalculatorUI.java:115-119 | a second `=` after `5 + 3 =` shows the formatted 13 |
| `Scenarios.DivisionByZeroShowsError` | src/ui/CalculatorUI.java:115-118 | pressing `4 / 0 =` shows `Fehler` |
| `Scenarios.SquareRootOfDigit` | src/ui/CalculatorUI.java:124-128 | pressing a digit then `√` (such as `9 √`) shows the formatted library root of its value, or `Fehler` for a negative value |
| `Scenarios.PointOnceAfterDigit` | src/ui/CalculatorUI.java:139-143 | a point after a single digit is appended, and a second point leaves the text as it is |
| `Scenarios.SecondPointIgnored` | src/ui/CalculatorUI.java:139-143 | pressing a digit then `. .` (such as `3 . .`) leaves the digit followed by one point |
| `Scenarios.ClearThenOperator` | src/ui/CalculatorUI.java:106-109 | after `C`, whatever came before, a `+` shows `0+` and stores 0 with `+` |
| `Scenarios.PointAfterZeroAppends` | src/ui/CalculatorUI.java:139-143 | `.` on `0` gives `0.` |
| `Scenarios.PointAfterOperatorIgnored` | src/ui/CalculatorUI.java:139-143 | `12.5+` reads as `12.5`, so a `.` after it is ignored |
| `Scenarios.LeadingMinusDropped` | src/ui/CalculatorUI.java:158-161 | `-2` reads as `2` |
| `Scenarios.SubtractionShowsNegative` | src/ui/CalculatorUI.java:115-123 | pressing `3 - 5 =` shows the formatted -2 |
| `Scenarios.RepeatedSubtractionLosesSign` | src/ui/CalculatorUI.java:115-119 | with `-2` as the formatting of -2, pressing `3 - 5 = =` shows `-2` and then the formatted 1 |
| `Scenarios.OperatorAfterNegativeResult` | src/ui/CalculatorUI.java:120-123 | with `-2` shown, pressing `+` shows `-2+` and stores 2 rather than -2 |
| `Scenarios.EditingLabelKeepsWellFormed` | src/ui/CalculatorUI.java:100-155 | one press of an editing label keeps at most one point per number on the display |

## Left out

- The Swing window, layout, fonts, colours and button construction
  (`CalculatorUI.java` lines 11-97). The model keeps only the list of button
  labels. The event source is reduced to the label string passed to
  `HandleButtonClick`.
- IEEE-754 arithmetic. Values are exact reals. There is no rounding, overflow,
  infinity or negative zero, and NaN never enters a field. The NaN sentinel is
  a separate variant of `Num`.
- `Logic.CalculatorLogic.CalculateSquareRoot`: for a non-negative argument it
  states only that the library root `sqrt` is returned. `Math.sqrt` is a
  parameter, kept uninterpreted apart from the negative guard.
- `UI.FormatResult`: for a result that is not NaN it states only that the
  library formatting is used. The formatting is a parameter. This covers the
  integral test with `(long)`, `String.format("%d")`, `String.format("%.6f")`
  and the two `replaceAll` calls, which depend on decimal rounding of
  doubles.
- `Double.parseDouble`: its grammar is not modelled. It is a parameter that
  either yields a real or fails, and only that distinction drives the
  transitions.
- `UI.CalculatorUI.HandleButtonClick`: the preservation of at most one point
  per number is not in its own contract. It is proved by
  `UI.EditingKeepsWellFormed` over the same display functions, and for a
  single press by `Scenarios.EditingLabelKeepsWellFormed`.
- The `resetDisplay` flag is written but never read in the source. It is
  tracked only so that the engine's frame conditions are complete.
