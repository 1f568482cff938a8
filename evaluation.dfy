/**
  The evaluator behind the "=" key: a strictly left-to-right reduction of the
  token list with no operator precedence.  `Evaluate` is the specification of
  the loop in `calculate()`; `LeftToRight` is an independent reference
  definition over well-formed expressions, and the lemmas below tie the two
  together and pin down the sharp edges (silent stop, leading operator,
  division by zero).
 */
module Evaluation {
  import opened Wrappers
  import opened Operations

  /** The walk continues only while the next two tokens are an operation and a number. */
  predicate StartsWithStep(rest: seq<HistoryItem>)
  {
    |rest| >= 2 && rest[0].Op? && rest[1].Number?
  }

  /**
    The loop of `calculate()` from index 1 on: fold each (operation, number)
    pair into the accumulator, stop at the first position that is not such a
    pair, and fail as soon as a step fails.
   */
  function Walk(acc: real, rest: seq<HistoryItem>): (r: Result<real, CalculationError>)
    ensures !StartsWithStep(rest) ==> r == Success(acc)
    ensures r.Failure? ==> exists i :: 0 <= i < |rest| - 1 && rest[i] == Op(Divide) && rest[i + 1] == Number(0.0)
    decreases |rest|
  {
    if StartsWithStep(rest) then
      match Apply(rest[0].op, acc, rest[1].value)
      case Failure(e) => Failure(e)
      case Success(v) =>
        var r := Walk(v, rest[2..]);
        assert r.Failure? ==> exists i :: 2 <= i < |rest| - 1 && rest[i] == Op(Divide) && rest[i + 1] == Number(0.0) by {
          if r.Failure? {
            var i :| 0 <= i < |rest[2..]| - 1 && rest[2..][i] == Op(Divide) && rest[2..][i + 1] == Number(0.0);
            assert rest[i + 2] == Op(Divide) && rest[i + 3] == Number(0.0);
          }
        }
        r
    else
      Success(acc)
  }

  /**
    `calculate()`: the first token must be a number, else the result is 0;
    the remaining tokens are walked pairwise.  The list must not be empty.
   */
  function Evaluate(items: seq<HistoryItem>): (r: Result<real, CalculationError>)
    requires |items| > 0
    ensures items[0].Op? ==> r == Success(0.0)
    ensures |items| == 1 ==> r.Success?
    ensures r.Failure? ==> exists i :: 0 < i < |items| - 1 && items[i] == Op(Divide) && items[i + 1] == Number(0.0)
  {
    if items[0].Number? then
      var r := Walk(items[0].value, items[1..]);
      assert r.Failure? ==> exists i :: 0 < i < |items| - 1 && items[i] == Op(Divide) && items[i + 1] == Number(0.0) by {
        if r.Failure? {
          var i :| 0 <= i < |items[1..]| - 1 && items[1..][i] == Op(Divide) && items[1..][i + 1] == Number(0.0);
          assert items[i + 1] == Op(Divide) && items[i + 2] == Number(0.0);
        }
      }
      r
    else
      Success(0.0)
  }

  /** A run of (operation, number) pairs: exactly what the walk takes step by step. */
  predicate Pairs(s: seq<HistoryItem>)
    decreases |s|
  {
    s == [] || (StartsWithStep(s) && Pairs(s[2..]))
  }

  /** A well-formed expression: number, operation, number, ..., number. */
  predicate Alternating(e: seq<HistoryItem>)
  {
    |e| > 0 && e[0].Number? && Pairs(e[1..])
  }

  /** A non-empty run of pairs ends in a pair, and what precedes it is a run of pairs. */
  lemma {:induction false} PairsFront(s: seq<HistoryItem>)
    requires Pairs(s) && s != []
    ensures |s| >= 2 && s[|s| - 2].Op? && s[|s| - 1].Number?
    ensures Pairs(s[..|s| - 2])
    decreases |s|
  {
    var more := s[2..];
    if more != [] {
      PairsFront(more);
      assert s[..|s| - 2][2..] == more[..|more| - 2];
      assert s[|s| - 2] == more[|more| - 2] && s[|s| - 1] == more[|more| - 1];
    }
  }

  /** Appending a pair to a run of pairs gives a run of pairs. */
  lemma {:induction false} PairsSnoc(r: seq<HistoryItem>, op: Operation, b: real)
    requires Pairs(r)
    ensures Pairs(r + [Op(op), Number(b)])
    decreases |r|
  {
    var s := r + [Op(op), Number(b)];
    if r == [] {
      assert s[2..] == [];
    } else {
      PairsSnoc(r[2..], op, b);
      assert s[2..] == r[2..] + [Op(op), Number(b)];
    }
  }

  /** Dropping the last pair of a longer well-formed expression leaves a well-formed expression. */
  lemma AlternatingFront(e: seq<HistoryItem>)
    requires Alternating(e) && |e| > 1
    ensures |e| >= 3 && e[|e| - 2].Op? && e[|e| - 1].Number?
    ensures Alternating(e[..|e| - 2])
  {
    var tail := e[1..];
    PairsFront(tail);
    assert e[..|e| - 2][1..] == tail[..|tail| - 2];
    assert e[|e| - 2] == tail[|tail| - 2] && e[|e| - 1] == tail[|tail| - 1];
  }

  /** Applies one more operation to an earlier result, keeping an earlier failure. */
  function Then(r: Result<real, CalculationError>, op: Operation, b: real): Result<real, CalculationError>
  {
    match r
    case Failure(e) => Failure(e)
    case Success(v) => Apply(op, v, b)
  }

  /**
    Reference meaning of a well-formed expression, read from the right end:
    `e1 op e2 ... op en` is `(... (e1 op e2) ...) op en`.
   */
  function LeftToRight(e: seq<HistoryItem>): Result<real, CalculationError>
    requires Alternating(e)
    decreases |e|
  {
    if |e| == 1 then Success(e[0].value)
    else
      AlternatingFront(e);
      Then(LeftToRight(e[..|e| - 2]), e[|e| - 2].op, e[|e| - 1].value)
  }

  /** The number of tokens the walk takes as steps before it stops. */
  function Consumed(rest: seq<HistoryItem>): (n: nat)
    ensures n <= |rest|
    decreases |rest|
  {
    if StartsWithStep(rest) then 2 + Consumed(rest[2..]) else 0
  }

  /** The walk takes a run of pairs, and what follows it does not start with a pair. */
  lemma {:induction false} ConsumedStopsAtBreak(rest: seq<HistoryItem>)
    ensures Pairs(rest[..Consumed(rest)])
    ensures !StartsWithStep(rest[Consumed(rest)..])
    decreases |rest|
  {
    if StartsWithStep(rest) {
      var n := Consumed(rest);
      var more := rest[2..];
      ConsumedStopsAtBreak(more);
      assert rest[n..] == more[n - 2..];
      assert rest[..n][2..] == more[..n - 2];
    }
  }

  /** Extending a run of pairs by one pair applies that pair to the earlier result. */
  lemma {:induction false} WalkSnoc(acc: real, r: seq<HistoryItem>, op: Operation, b: real)
    requires Pairs(r)
    ensures Walk(acc, r + [Op(op), Number(b)]) == Then(Walk(acc, r), op, b)
    decreases |r|
  {
    var s := r + [Op(op), Number(b)];
    if r == [] {
      assert s[2..] == [];
    } else {
      assert s[..2] == r[..2];
      assert s[2..] == r[2..] + [Op(op), Number(b)];
      match Apply(r[0].op, acc, r[1].value)
      case Failure(e) =>
      case Success(v) => WalkSnoc(v, r[2..], op, b);
    }
  }

  /**
    On a well-formed expression the loop of `calculate()` computes exactly the
    left-to-right reading: no precedence, and a failing step fails the whole
    evaluation with no partial result.
   */
  lemma {:induction false} EvaluateIsLeftToRight(e: seq<HistoryItem>)
    requires Alternating(e)
    ensures Evaluate(e) == LeftToRight(e)
    decreases |e|
  {
    if |e| > 1 {
      var front := e[..|e| - 2];
      AlternatingFront(e);
      EvaluateIsLeftToRight(front);
      assert e[1..] == front[1..] + [Op(e[|e| - 2].op), Number(e[|e| - 1].value)];
      WalkSnoc(e[0].value, front[1..], e[|e| - 2].op, e[|e| - 1].value);
    }
  }

  /** Whatever follows a run of pairs is ignored when it does not start with another pair. */
  lemma {:induction false} WalkStopsAtBreak(acc: real, r: seq<HistoryItem>, tail: seq<HistoryItem>)
    requires Pairs(r)
    requires !StartsWithStep(tail)
    ensures Walk(acc, r + tail) == Walk(acc, r)
    decreases |r|
  {
    if r == [] {
      assert r + tail == tail;
    } else {
      assert (r + tail)[..2] == r[..2];
      assert (r + tail)[2..] == r[2..] + tail;
      match Apply(r[0].op, acc, r[1].value)
      case Failure(e) =>
      case Success(v) => WalkStopsAtBreak(v, r[2..], tail);
    }
  }

  /**
    The alternation breaking is not an error: a tail that does not begin with
    an (operation, number) pair, such as a trailing operator, is silently
    dropped and the result so far is returned.
   */
  lemma EvaluateIgnoresBrokenTail(e: seq<HistoryItem>, tail: seq<HistoryItem>)
    requires Alternating(e)
    requires !StartsWithStep(tail)
    ensures Evaluate(e + tail) == LeftToRight(e)
  {
    assert (e + tail)[0] == e[0];
    assert (e + tail)[1..] == e[1..] + tail;
    WalkStopsAtBreak(e[0].value, e[1..], tail);
    EvaluateIsLeftToRight(e);
  }

  /** A trailing operator with no operand after it is ignored, not an error. */
  lemma TrailingOperatorIgnored(e: seq<HistoryItem>, op: Operation)
    requires Alternating(e)
    ensures Evaluate(e + [Op(op)]) == Evaluate(e)
  {
    EvaluateIgnoresBrokenTail(e, [Op(op)]);
    EvaluateIsLeftToRight(e);
  }

  /**
    Every list that starts with a number evaluates as its longest well-formed
    prefix: the walk reads that prefix left to right and nothing after it.
   */
  lemma EvaluateReadsLongestPrefix(items: seq<HistoryItem>)
    requires |items| > 0 && items[0].Number?
    ensures var k := 1 + Consumed(items[1..]);
      && k <= |items|
      && Alternating(items[..k])
      && !StartsWithStep(items[k..])
      && Evaluate(items) == LeftToRight(items[..k])
  {
    var n := Consumed(items[1..]);
    ConsumedStopsAtBreak(items[1..]);
    var k := 1 + n;
    var body := items[1..][..n];
    assert items[..k][1..] == body;
    assert items[k..] == items[1..][n..];
    EvaluateIgnoresBrokenTail(items[..k], items[k..]);
    assert items[..k] + items[k..] == items;
  }

  /** Some operation in the expression divides by an exact zero. */
  predicate DividesByZero(e: seq<HistoryItem>)
  {
    exists i :: 0 < i < |e| - 1 && e[i] == Op(Divide) && e[i + 1] == Number(0.0)
  }

  /** A division by zero lies either before the last pair or in it. */
  lemma DividesByZeroSplit(e: seq<HistoryItem>)
    requires Alternating(e) && |e| > 1
    ensures DividesByZero(e) <==>
      DividesByZero(e[..|e| - 2]) || (e[|e| - 2] == Op(Divide) && e[|e| - 1] == Number(0.0))
  {
    var front := e[..|e| - 2];
    AlternatingFront(e);
    if DividesByZero(front) {
      var i :| 0 < i < |front| - 1 && front[i] == Op(Divide) && front[i + 1] == Number(0.0);
      assert e[i] == front[i] && e[i + 1] == front[i + 1];
    }
    if !DividesByZero(front) && !(e[|e| - 2] == Op(Divide) && e[|e| - 1] == Number(0.0)) {
      forall i | 0 < i < |e| - 1 ensures !(e[i] == Op(Divide) && e[i + 1] == Number(0.0)) {
        if i < |e| - 3 {
          assert front[i] == e[i] && front[i + 1] == e[i + 1];
        } else if i == |e| - 3 {
          assert e[i + 1].Op?;
        }
      }
    }
  }

  /**
    A well-formed expression fails to evaluate exactly when one of its
    divisions has the literal divisor zero; otherwise it yields a value.
   */
  lemma {:induction false} LeftToRightFailsIffDivisionByZero(e: seq<HistoryItem>)
    requires Alternating(e)
    ensures LeftToRight(e).Failure? <==> DividesByZero(e)
    decreases |e|
  {
    if |e| == 1 {
      assert !DividesByZero(e);
    } else {
      AlternatingFront(e);
      LeftToRightFailsIffDivisionByZero(e[..|e| - 2]);
      DividesByZeroSplit(e);
    }
  }

  /** The same, stated for the evaluator itself. */
  lemma EvaluateFailsIffDivisionByZero(e: seq<HistoryItem>)
    requires Alternating(e)
    ensures Evaluate(e).Failure? <==> DividesByZero(e)
  {
    EvaluateIsLeftToRight(e);
    LeftToRightFailsIffDivisionByZero(e);
  }

  /** A leading operation makes the whole result 0, whatever follows. */
  lemma LeadingOperationGivesZero(op: Operation, rest: seq<HistoryItem>)
    ensures Evaluate([Op(op)] + rest) == Success(0.0)
  {
  }

  /** Worked examples: one operand; no precedence; a division by zero; a trailing operator. */
  lemma Examples()
    ensures Evaluate([Number(3.0)]) == Success(3.0)
    ensures Evaluate([Number(2.0), Op(Add), Number(3.0), Op(Multiply), Number(4.0)]) == Success(20.0)
    ensures Evaluate([Number(6.0), Op(Divide), Number(0.0)]) == Failure(DividedByZero)
    ensures Evaluate([Number(5.0), Op(Add)]) == Success(5.0)
  {
  }
}
