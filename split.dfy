/** Java's `String.split` on the character class of `+ - * /`, with the
    default limit: the text is cut at every operator character, the
    fragments between them are kept in order (a leading empty fragment
    included), trailing empty fragments are discarded, and a text with no
    operator at all splits into the one-element array holding that text. */
module OperatorSplit {

  predicate IsOperator(c: char)
  {
    c == '+' || c == '-' || c == '*' || c == '/'
  }

  predicate NoOperator(s: string)
  {
    forall i :: 0 <= i < |s| ==> !IsOperator(s[i])
  }

  predicate OnlyOperators(s: string)
  {
    forall i :: 0 <= i < |s| ==> IsOperator(s[i])
  }

  /** The operator characters of `s`, in order: the separators the split
      cuts at. */
  function Separators(s: string): (ops: string)
    ensures |ops| <= |s|
  {
    if s == [] then []
    else if IsOperator(s[|s| - 1]) then Separators(s[..|s| - 1]) + [s[|s| - 1]]
    else Separators(s[..|s| - 1])
  }

  /** Every fragment between separators, empty ones included: one more
      fragment than there are separators. */
  function Fragments(s: string): (parts: seq<string>)
    ensures |parts| == |Separators(s)| + 1
  {
    if s == [] then [[]]
    else
      var init := Fragments(s[..|s| - 1]);
      var c := s[|s| - 1];
      if IsOperator(c) then init + [[]]
      else init[..|init| - 1] + [init[|init| - 1] + [c]]
  }

  /** The longest operator-free suffix of `s`. */
  function TrailingRun(s: string): string
  {
    if s == [] || IsOperator(s[|s| - 1]) then [] else TrailingRun(s[..|s| - 1]) + [s[|s| - 1]]
  }

  /** Puts the separators back between the fragments. */
  function Interleave(parts: seq<string>, ops: string): string
    requires |parts| == |ops| + 1
  {
    if ops == [] then parts[0]
    else Interleave(parts[..|parts| - 1], ops[..|ops| - 1]) + [ops[|ops| - 1]] + parts[|parts| - 1]
  }

  /** Java's removal of trailing empty strings from the split result. */
  function DropTrailingEmpty(parts: seq<string>): (kept: seq<string>)
    ensures |kept| <= |parts| && kept == parts[..|kept|]
    ensures kept == [] || kept[|kept| - 1] != []
    ensures forall k :: |kept| <= k < |parts| ==> parts[k] == []
  {
    if parts == [] then []
    else if parts[|parts| - 1] == [] then DropTrailingEmpty(parts[..|parts| - 1])
    else parts
  }

  /** Java's `s.split` on the four operator characters. */
  function Split(s: string): seq<string>
  {
    if Separators(s) == [] then [s] else DropTrailingEmpty(Fragments(s))
  }

  /** One character more: an operator opens a new empty fragment, any
      other character extends the last one. */
  lemma FragmentsAppend(t: string, c: char)
    ensures IsOperator(c) ==> Fragments(t + [c]) == Fragments(t) + [[]]
    ensures !IsOperator(c) ==>
              Fragments(t + [c]) == Fragments(t)[..|Fragments(t)| - 1] + [Fragments(t)[|Fragments(t)| - 1] + [c]]
  {
    assert (t + [c])[..|t|] == t;
  }

  /** Operator-only and operator-free texts, one character at a time. */
  lemma OperatorsAppend(t: string, c: char)
    ensures OnlyOperators(t + [c]) <==> OnlyOperators(t) && IsOperator(c)
    ensures NoOperator(t + [c]) <==> NoOperator(t) && !IsOperator(c)
  {
    var s := t + [c];
    assert forall i :: 0 <= i < |t| ==> s[i] == t[i];
    assert s[|t|] == c;
    assert OnlyOperators(s) ==> OnlyOperators(t);
    assert NoOperator(s) ==> NoOperator(t);
  }

  /** The split finds a separator exactly when the text has an operator. */
  lemma {:induction false} SeparatorsEmpty(s: string)
    ensures Separators(s) == [] <==> NoOperator(s)
  {
    if s != [] {
      var init := s[..|s| - 1];
      assert s == init + [s[|s| - 1]];
      SeparatorsEmpty(init);
      OperatorsAppend(init, s[|s| - 1]);
    }
  }

  /** The last fragment is the longest operator-free suffix. */
  lemma {:induction false} LastFragmentIsTrailingRun(s: string)
    ensures Fragments(s)[|Fragments(s)| - 1] == TrailingRun(s)
  {
    if s != [] {
      var init, c := s[..|s| - 1], s[|s| - 1];
      assert s == init + [c];
      LastFragmentIsTrailingRun(init);
      FragmentsAppend(init, c);
    }
  }

  /** An operator-free tail is carried over to the trailing run. */
  lemma {:induction false} TrailingRunAppend(x: string, u: string)
    requires NoOperator(u)
    ensures TrailingRun(x + u) == TrailingRun(x) + u
  {
    if u != [] {
      var v, c := u[..|u| - 1], u[|u| - 1];
      assert NoOperator(v) by {
        assert forall i :: 0 <= i < |v| ==> v[i] == u[i];
      }
      assert !IsOperator(u[|u| - 1]);
      TrailingRunAppend(x, v);
      assert (x + u)[..|x + u| - 1] == x + v;
    } else {
      assert x + u == x;
    }
  }

  /** The trailing run is operator-free and starts the text or follows an
      operator. */
  lemma {:induction false} TrailingRunSplit(s: string) returns (before: string)
    ensures s == before + TrailingRun(s)
    ensures NoOperator(TrailingRun(s))
    ensures before == [] || IsOperator(before[|before| - 1])
  {
    if s == [] {
      before := [];
    } else if IsOperator(s[|s| - 1]) {
      before := s;
    } else {
      var init := s[..|s| - 1];
      before := TrailingRunSplit(init);
      assert s == init + [s[|s| - 1]];
    }
  }

  /** Every fragment is free of operators. */
  lemma {:induction false} FragmentsOperatorFree(s: string)
    ensures forall k :: 0 <= k < |Fragments(s)| ==> NoOperator(Fragments(s)[k])
  {
    if s != [] {
      var init, c := s[..|s| - 1], s[|s| - 1];
      assert s == init + [c];
      FragmentsOperatorFree(init);
      FragmentsAppend(init, c);
      var f := Fragments(init);
      if !IsOperator(c) {
        var last := f[|f| - 1];
        assert NoOperator(last + [c]) by {
          assert forall i :: 0 <= i < |last| ==> (last + [c])[i] == last[i];
        }
      }
    }
  }

  /** A text without operators is its own single fragment. */
  lemma FragmentsWithoutOperator(s: string)
    requires NoOperator(s)
    ensures Fragments(s) == [s]
  {
    SeparatorsEmpty(s);
    LastFragmentIsTrailingRun(s);
    TrailingRunAppend([], s);
    assert [] + s == s;
  }

  /** All fragments are empty exactly when the text is only operators. */
  lemma {:induction false} FragmentsAllEmpty(s: string)
    ensures OnlyOperators(s) <==> forall k :: 0 <= k < |Fragments(s)| ==> Fragments(s)[k] == []
  {
    if s != [] {
      var init, c := s[..|s| - 1], s[|s| - 1];
      assert s == init + [c];
      FragmentsAllEmpty(init);
      FragmentsAppend(init, c);
      var f := Fragments(init);
      OperatorsAppend(init, c);
      if IsOperator(c) {
        assert forall k :: 0 <= k < |f| ==> Fragments(s)[k] == f[k];
      } else {
        assert Fragments(s)[|f| - 1] == f[|f| - 1] + [c];
      }
    }
  }

  /** Cutting loses nothing: the fragments and separators rebuild the text. */
  lemma {:induction false} FragmentsRoundTrip(s: string)
    ensures Interleave(Fragments(s), Separators(s)) == s
  {
    if s != [] {
      var init, c := s[..|s| - 1], s[|s| - 1];
      assert s == init + [c];
      var f, ops := Fragments(init), Separators(init);
      FragmentsRoundTrip(init);
      FragmentsAppend(init, c);
      if IsOperator(c) {
        assert Separators(s) == ops + [c];
        assert (f + [[]])[..|f|] == f;
        assert (ops + [c])[..|ops|] == ops;
      } else {
        var g := f[..|f| - 1] + [f[|f| - 1] + [c]];
        assert Separators(s) == ops;
        if ops == [] {
          assert Interleave(g, ops) == f[0] + [c];
        } else {
          assert g[..|g| - 1] == f[..|f| - 1];
          calc {
            Interleave(g, ops);
            Interleave(f[..|f| - 1], ops[..|ops| - 1]) + [ops[|ops| - 1]] + (f[|f| - 1] + [c]);
            (Interleave(f[..|f| - 1], ops[..|ops| - 1]) + [ops[|ops| - 1]] + f[|f| - 1]) + [c];
            Interleave(f, ops) + [c];
          }
        }
      }
    }
  }

  /** A split that finds some digit or point is not empty. */
  lemma SplitNotEmpty(t: string)
    requires !OnlyOperators(t)
    ensures Split(t) != []
  {
    SeparatorsEmpty(t);
    if !NoOperator(t) {
      FragmentsAllEmpty(t);
      var f := Fragments(t);
      var k :| 0 <= k < |f| && f[k] != [];
      assert k < |DropTrailingEmpty(f)|;
    }
  }

  /** An operator typed after a text holding a digit or point leaves the
      split unchanged: it only adds an empty fragment, which is dropped. */
  lemma SplitIgnoresTrailingOperator(t: string, op: char)
    requires !OnlyOperators(t) && IsOperator(op)
    ensures Split(t + [op]) == Split(t) != []
  {
    var f := Fragments(t);
    FragmentsAppend(t, op);
    assert (f + [[]])[..|f|] == f;
    assert DropTrailingEmpty(f + [[]]) == DropTrailingEmpty(f);
    OperatorsAppend(t, op);
    SeparatorsEmpty(t + [op]);
    SeparatorsEmpty(t);
    if NoOperator(t) {
      FragmentsWithoutOperator(t);
    }
    SplitNotEmpty(t);
  }

  /** What the split returns: the text itself when it has no operator,
      otherwise operator-free fragments with no empty one at the end. */
  lemma SplitShape(s: string)
    ensures NoOperator(s) ==> Split(s) == [s]
    ensures forall k :: 0 <= k < |Split(s)| ==> NoOperator(Split(s)[k])
    ensures !NoOperator(s) ==> Split(s) == [] || Split(s)[|Split(s)| - 1] != []
  {
    SeparatorsEmpty(s);
    FragmentsOperatorFree(s);
  }
}
