/** The display controller (src/ui/CalculatorUI.java): the display text,
    the label-to-transition switch of `handleButtonClick`, the extraction
    of the trailing number and the NaN branch of `formatResult`. */
module UI {
  import opened Values
  import opened OperatorSplit
  import Logic

  /** The error text shown for NaN and for a number that does not parse. */
  const Error := "Fehler"

  /** The labels of the twenty buttons, in grid order. There is no `%`
      button, so the `%` branch of the switch cannot be reached. */
  const ButtonLabels: seq<string> :=
    ["7", "8", "9", "/", "4", "5", "6", "*", "1", "2", "3", "-",
     "0", ".", "=", "+", "C", "CE", "√", "x²"]

  /** The Java library calls the controller depends on:
      `Double.parseDouble` (None where it throws NumberFormatException),
      `Math.sqrt`, and the formatting of a result that is not NaN. */
  datatype Library = Library(
    parseDouble: string -> Option<real>,
    sqrt: real -> real,
    formatNumber: real -> string)

  predicate IsOperatorLabel(command: string)
  {
    command == "+" || command == "-" || command == "*" || command == "/"
  }

  predicate IsDigitLabel(command: string)
  {
    |command| == 1 && '0' <= command[0] <= '9'
  }

  /** The labels the switch names; every other label goes to its default
      branch, which types the label. */
  predicate IsNamedLabel(command: string)
  {
    command == "C" || command == "CE" || command == "=" || IsOperatorLabel(command)
    || command == "√" || command == "x²" || command == "%" || command == "."
  }

  /** Every button either has a branch of its own or is a digit, so the
      default branch only ever types a digit; no button sends `%`. */
  lemma ButtonLabelsAreNamedOrDigits()
    ensures forall i :: 0 <= i < |ButtonLabels| ==>
              IsNamedLabel(ButtonLabels[i]) != IsDigitLabel(ButtonLabels[i])
    ensures "%" !in ButtonLabels
  {
  }

  /** The number being typed: the last non-empty fragment of the split, or
      the whole text when the split leaves nothing. */
  function GetLastNumber(input: string): string
  {
    var parts := Split(input);
    if |parts| > 0 then parts[|parts| - 1] else input
  }

  /** The display text for a result; only the NaN branch is fixed here. */
  function FormatResult(result: Num, formatNumber: real -> string): (text: string)
    ensures result.NaN? ==> text == Error
    ensures result.Finite? ==> text == formatNumber(result.value)
  {
    match result
    case NaN => Error
    case Finite(v) => formatNumber(v)
  }

  /** `CE`: drops the last character unless the text is empty or `0`. */
  function ClearEntry(text: string): (r: string)
    ensures r <= text && |text| - 1 <= |r|
    ensures text == "0" ==> r == text
  {
    if text != [] && text != "0" then text[..|text| - 1] else text
  }

  /** `.`: appended only when the number being typed has no point yet. */
  function AppendDecimal(text: string): (r: string)
    ensures text <= r && |r| <= |text| + 1
    ensures r != text ==> r[|text|] == '.' && '.' !in GetLastNumber(text)
  {
    if '.' !in GetLastNumber(text) then text + "." else text
  }

  /** A digit (any label the switch does not name): replaces a lone `0`,
      otherwise is appended. */
  function AppendInput(text: string, command: string): (r: string)
    ensures |command| <= |r| && r[|r| - |command|..] == command
    ensures text != "0" ==> text <= r
  {
    if text == "0" then command else text + command
  }

  predicate AtMostOneDot(fragment: string)
  {
    multiset(fragment)['.'] <= 1
  }

  /** Every fragment between operators holds at most one decimal point. */
  ghost predicate WellFormedTokens(text: string)
  {
    forall k :: 0 <= k < |Fragments(text)| ==> AtMostOneDot(Fragments(text)[k])
  }

  // ---------------------------------------------------------------------
  // getLastNumber

  /** When the longest operator-free suffix is not empty it is the
      number being typed. */
  lemma TrailingRunIsLastNumber(s: string)
    requires TrailingRun(s) != []
    ensures GetLastNumber(s) == TrailingRun(s)
  {
    LastFragmentIsTrailingRun(s);
    SeparatorsEmpty(s);
    if NoOperator(s) {
      FragmentsWithoutOperator(s);
    }
  }

  /** An operator typed after a number does not change the number. */
  lemma GetLastNumberSkipsOperator(t: string, op: char)
    requires !OnlyOperators(t) && IsOperator(op)
    ensures GetLastNumber(t + [op]) == GetLastNumber(t)
  {
    SplitIgnoresTrailingOperator(t, op);
  }

  /** A number followed by an operator: the number is read back. */
  lemma GetLastNumberBeforeOperator(u: string, op: char)
    requires u != [] && NoOperator(u) && IsOperator(op)
    ensures GetLastNumber(u + [op]) == u
  {
    assert !OnlyOperators(u) by {
      assert !IsOperator(u[0]);
    }
    GetLastNumberSkipsOperator(u, op);
    GetLastNumberWithoutOperator(u);
  }

  /** Without an operator the whole text is the number. */
  lemma GetLastNumberWithoutOperator(s: string)
    requires NoOperator(s)
    ensures GetLastNumber(s) == s
  {
    SplitShape(s);
  }

  /** A text of operators only splits into nothing, so it is returned whole. */
  lemma GetLastNumberOfOperatorsOnly(s: string)
    requires OnlyOperators(s)
    ensures GetLastNumber(s) == s
  {
    FragmentsAllEmpty(s);
    SeparatorsEmpty(s);
    var kept := DropTrailingEmpty(Fragments(s));
    assert forall j :: 0 <= j < |kept| ==> kept[j] == Fragments(s)[j] == [];
  }

  /** Otherwise the result is the last non-empty run of characters between
      operators: preceded by an operator or the start of the text, and
      followed by operators only. */
  lemma {:induction false} GetLastNumberIsLastToken(s: string) returns (before: string, after: string)
    requires !OnlyOperators(s)
    ensures s == before + GetLastNumber(s) + after
    ensures GetLastNumber(s) != [] && NoOperator(GetLastNumber(s))
    ensures OnlyOperators(after)
    ensures before == [] || IsOperator(before[|before| - 1])
  {
    var init, c := s[..|s| - 1], s[|s| - 1];
    assert s == init + [c];
    if IsOperator(c) {
      OperatorsAppend(init, c);
      var a;
      before, a := GetLastNumberIsLastToken(init);
      GetLastNumberSkipsOperator(init, c);
      OperatorsAppend(a, c);
      after := a + [c];
      assert s == before + GetLastNumber(init) + after;
    } else {
      before := TrailingRunSplit(s);
      TrailingRunIsLastNumber(s);
      after := [];
    }
  }

  /** The number typed after an operator is the last number, whatever
      came before. */
  lemma GetLastNumberAfterOperator(t: string, op: char, u: string)
    requires IsOperator(op) && u != [] && NoOperator(u)
    ensures GetLastNumber(t + [op] + u) == u
  {
    TrailingRunAppend(t + [op], u);
    assert TrailingRun(t + [op]) == [];
    TrailingRunIsLastNumber(t + [op] + u);
  }

  /** A trailing operator is skipped: `12+` yields `12`. */
  lemma GetLastNumberSkipsTrailingOperatorExample()
    ensures GetLastNumber("12+") == "12"
  {
    var t := "12";
    GetLastNumberBeforeOperator(t, '+');
    assert t + ['+'] == "12+";
  }

  /** A text of operators is kept whole: `+` yields `+`. */
  lemma GetLastNumberOperatorExample()
    ensures GetLastNumber("+") == "+"
  {
    GetLastNumberOfOperatorsOnly("+");
  }

  /** A leading minus sign is lost: `-3` yields `3`. */
  lemma GetLastNumberDropsSignExample()
    ensures GetLastNumber("-3") == "3"
  {
    var u := "3";
    GetLastNumberAfterOperator([], '-', u);
    assert [] + ['-'] + u == "-3";
  }

  // ---------------------------------------------------------------------
  // Display editing keeps at most one point per number

  /** Appending a character other than a point keeps every number well
      formed. */
  lemma AppendCharKeepsWellFormed(t: string, c: char)
    requires WellFormedTokens(t) && c != '.'
    ensures WellFormedTokens(t + [c])
  {
    FragmentsAppend(t, c);
    var f, g := Fragments(t), Fragments(t + [c]);
    forall k | 0 <= k < |g| ensures AtMostOneDot(g[k]) {
      if k < |f| - 1 {
        assert g[k] == f[k];
      } else if !IsOperator(c) {
        assert g[k] == f[k] + [c];
        assert multiset(f[k] + [c]) == multiset(f[k]) + multiset{c};
      }
    }
  }

  /** `.` never puts a second point into the number being typed. */
  lemma AppendDecimalKeepsWellFormed(t: string)
    requires WellFormedTokens(t)
    ensures WellFormedTokens(AppendDecimal(t))
  {
    if '.' !in GetLastNumber(t) {
      FragmentsAppend(t, '.');
      LastFragmentIsTrailingRun(t);
      var f, g := Fragments(t), Fragments(t + ".");
      var last := f[|f| - 1];
      if last != [] {
        TrailingRunIsLastNumber(t);
      }
      assert multiset(last)['.'] == 0;
      forall k | 0 <= k < |g| ensures AtMostOneDot(g[k]) {
        if k < |f| - 1 {
          assert g[k] == f[k];
        } else {
          assert g[k] == last + ".";
          assert multiset(last + ".") == multiset(last) + multiset{'.'};
        }
      }
    }
  }

  /** A digit keeps every number well formed. */
  lemma AppendDigitKeepsWellFormed(t: string, command: string)
    requires WellFormedTokens(t) && IsDigitLabel(command)
    ensures WellFormedTokens(AppendInput(t, command))
  {
    if t == "0" {
      NumberTextWellFormed(command);
    } else {
      assert t + command == t + [command[0]];
      AppendCharKeepsWellFormed(t, command[0]);
    }
  }

  /** `CE` keeps every number well formed. */
  lemma ClearEntryKeepsWellFormed(t: string)
    requires WellFormedTokens(t)
    ensures WellFormedTokens(ClearEntry(t))
  {
    if t != [] && t != "0" {
      var init, c := t[..|t| - 1], t[|t| - 1];
      assert t == init + [c];
      FragmentsAppend(init, c);
      var f, g := Fragments(init), Fragments(t);
      forall k | 0 <= k < |f| ensures AtMostOneDot(f[k]) {
        if k < |f| - 1 || IsOperator(c) {
          assert f[k] == g[k];
        } else {
          assert g[k] == f[k] + [c];
          assert multiset(f[k] + [c]) == multiset(f[k]) + multiset{c};
        }
      }
    }
  }

  /** A one-number text with at most one point is well formed: the initial
      `0`, a typed digit and the error text among them. */
  lemma NumberTextWellFormed(s: string)
    requires NoOperator(s) && AtMostOneDot(s)
    ensures WellFormedTokens(s)
  {
    FragmentsWithoutOperator(s);
  }

  /** Every text the editing labels (`C`, `CE`, `.`, a digit, an
      operator) can leave on the display keeps at most one point per
      number, given that the text before did. */
  lemma EditingKeepsWellFormed(t: string, command: string)
    requires WellFormedTokens(t)
    ensures WellFormedTokens("0") && WellFormedTokens(Error)
    ensures WellFormedTokens(ClearEntry(t)) && WellFormedTokens(AppendDecimal(t))
    ensures IsOperatorLabel(command) ==> WellFormedTokens(t + command)
    ensures IsDigitLabel(command) ==> WellFormedTokens(AppendInput(t, command))
  {
    assert multiset("0")['.'] == 0 && multiset(Error)['.'] == 0;
    NumberTextWellFormed("0");
    NumberTextWellFormed(Error);
    ClearEntryKeepsWellFormed(t);
    AppendDecimalKeepsWellFormed(t);
    if IsOperatorLabel(command) {
      assert t + command == t + [command[0]];
      AppendCharKeepsWellFormed(t, command[0]);
    }
    if IsDigitLabel(command) {
      AppendDigitKeepsWellFormed(t, command);
    }
  }

  // ---------------------------------------------------------------------
  // The controller

  class CalculatorUI {
    var display: string
    const logic: Logic.CalculatorLogic
    const lib: Library

    constructor (lib: Library)
      ensures display == "0" && this.lib == lib
      ensures fresh(logic) && logic.State() == Logic.Initial
    {
      this.lib := lib;
      logic := new Logic.CalculatorLogic();
      display := "0";
    }

    /** One button press with label `command`. A number that does not
        parse shows the error text before the engine is called, so the
        engine is then left as it was. */
    method HandleButtonClick(command: string)
      modifies this, logic
      ensures command == "C" ==> display == "0" && logic.State() == Logic.Initial
      ensures command == "CE" ==> display == ClearEntry(old(display)) && logic.State() == old(logic.State())
      ensures command == "=" ==>
        match lib.parseDouble(GetLastNumber(old(display)))
        case None => display == Error && logic.State() == old(logic.State())
        case Some(x) =>
          var r := Logic.Combine(old(logic.currentOperator), old(logic.previousValue), x);
          display == FormatResult(r, lib.formatNumber) && logic.State() == Logic.AfterResult(old(logic.State()), r)
      ensures IsOperatorLabel(command) ==>
        match lib.parseDouble(GetLastNumber(old(display)))
        case None => display == Error && logic.State() == old(logic.State())
        case Some(v) =>
          display == old(display) + command
          && logic.State() == old(logic.State()).(previousValue := v, currentOperator := command, resetDisplay := true)
      ensures command == "√" ==>
        match lib.parseDouble(GetLastNumber(old(display)))
        case None => display == Error && logic.State() == old(logic.State())
        case Some(v) =>
          display == FormatResult(logic.CalculateSquareRoot(v, lib.sqrt), lib.formatNumber)
          && logic.State() == old(logic.State())
      ensures command == "x²" ==>
        match lib.parseDouble(GetLastNumber(old(display)))
        case None => display == Error && logic.State() == old(logic.State())
        case Some(v) =>
          display == FormatResult(Finite(v * v), lib.formatNumber) && logic.State() == old(logic.State())
      ensures command == "%" ==>
        match lib.parseDouble(GetLastNumber(old(display)))
        case None => display == Error && logic.State() == old(logic.State())
        case Some(v) =>
          display == FormatResult(Finite(old(logic.CalculatePercentage(v))), lib.formatNumber)
          && logic.State() == old(logic.State())
      ensures command == "." ==> display == AppendDecimal(old(display)) && logic.State() == old(logic.State())
      ensures !IsNamedLabel(command) ==>
        display == AppendInput(old(display), command) && logic.State() == old(logic.State())
    {
      var currentText := display;
      if command == "C" {
        logic.Reset();
        display := "0";
      } else if command == "CE" {
        if currentText != [] && currentText != "0" {
          display := currentText[..|currentText| - 1];
        }
      } else if command == "=" {
        var parsed := lib.parseDouble(GetLastNumber(currentText));
        if parsed.None? {
          display := Error;
        } else {
          var result := logic.CalculateResult(parsed.value);
          display := FormatResult(result, lib.formatNumber);
        }
      } else if IsOperatorLabel(command) {
        var parsed := lib.parseDouble(GetLastNumber(currentText));
        if parsed.None? {
          display := Error;
        } else {
          logic.SetOperator(command, parsed.value);
          display := currentText + command;
        }
      } else if command == "√" {
        var parsed := lib.parseDouble(GetLastNumber(currentText));
        if parsed.None? {
          display := Error;
        } else {
          var result := logic.CalculateSquareRoot(parsed.value, lib.sqrt);
          display := FormatResult(result, lib.formatNumber);
        }
      } else if command == "x²" {
        var parsed := lib.parseDouble(GetLastNumber(currentText));
        if parsed.None? {
          display := Error;
        } else {
          var result := logic.CalculateSquare(parsed.value);
          display := FormatResult(Finite(result), lib.formatNumber);
        }
      } else if command == "%" {
        var parsed := lib.parseDouble(GetLastNumber(currentText));
        if parsed.None? {
          display := Error;
        } else {
          var result := logic.CalculatePercentage(parsed.value);
          display := FormatResult(Finite(result), lib.formatNumber);
        }
      } else if command == "." {
        if '.' !in GetLastNumber(currentText) {
          display := currentText + ".";
        }
      } else {
        if currentText == "0" {
          display := command;
        } else {
          display := currentText + command;
        }
      }
    }
  }
}
