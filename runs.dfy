/**
 * The decoding loop over a concatenation of lines: the loop over the first
 * part and then, from the state it leaves, over the second. A line's index
 * only shows in the error it causes, so the same lines are accepted or
 * refused alike wherever they stand.
 */
module DecodeRuns {
  import opened Results
  import opened TextDecoder

  /** The state a run ends in, or None when it fails, whatever line it fails on. */
  function Accepted(r: Result<Decoding, DecodeError>): (o: Option<Decoding>)
    ensures o.Some? <==> r.Ok?
    ensures o.Some? ==> r == Ok(o.value)
  {
    match r
    case Ok(d) => Some(d)
    case Err(_) => None
  }

  /** The loop over every line of `lines`, from `d`. */
  function RunAll(d: Decoding, lines: seq<Line>, g: Grammar): Result<Decoding, DecodeError>
    requires Consistent(d)
  {
    Run(d, lines, 0, |lines|, g)
  }

  /** Whether a line is accepted, and the state it leads to, do not depend on the line's index. */
  lemma StepAnyIndex(d: Decoding, line: Line, n: nat, m: nat, g: Grammar)
    requires Consistent(d)
    ensures Accepted(Step(d, line, n, g)) == Accepted(Step(d, line, m, g))
  {
  }

  /** The same lines at other indices are accepted or refused alike, and lead to the same state. */
  lemma {:induction false} RunShift(d: Decoding, xs: seq<Line>, i: nat, j: nat, ys: seq<Line>, k: nat, g: Grammar)
    requires Consistent(d) && i <= j <= |xs| && k + (j - i) <= |ys|
    requires forall t | i <= t < j :: ys[k + t - i] == xs[t]
    ensures Accepted(Run(d, ys, k, k + (j - i), g)) == Accepted(Run(d, xs, i, j, g))
    decreases j - i
  {
    if i < j {
      assert ys[k] == xs[i];
      StepAnyIndex(d, xs[i], i, k, g);
      match Step(d, xs[i], i, g)
      case Err(_) =>
      case Ok(d1) =>
        RunShift(d1, xs, i + 1, j, ys, k + 1, g);
    }
  }

  /** The loop over the first part of `a + b` is the loop over `a`. */
  lemma RunPrefix(d: Decoding, a: seq<Line>, b: seq<Line>, g: Grammar)
    requires Consistent(d)
    ensures Accepted(Run(d, a + b, 0, |a|, g)) == Accepted(RunAll(d, a, g))
  {
    forall t | 0 <= t < |a|
      ensures (a + b)[0 + t - 0] == a[t]
    {
    }
    RunShift(d, a, 0, |a|, a + b, 0, g);
  }

  /** The loop over the second part of `a + b` is the loop over `b`. */
  lemma RunSuffix(d: Decoding, a: seq<Line>, b: seq<Line>, g: Grammar)
    requires Consistent(d)
    ensures Accepted(Run(d, a + b, |a|, |a + b|, g)) == Accepted(RunAll(d, b, g))
  {
    forall t | 0 <= t < |b|
      ensures (a + b)[|a| + t - 0] == b[t]
    {
    }
    RunShift(d, b, 0, |b|, a + b, |a|, g);
  }

  /** The loop over `a + b` is the loop over `a`, then over `b` from where it left off. */
  lemma RunConcat(d: Decoding, a: seq<Line>, b: seq<Line>, g: Grammar)
    requires Consistent(d)
    ensures RunAll(d, a, g).Err? ==> RunAll(d, a + b, g).Err?
    ensures RunAll(d, a, g).Ok? ==> Accepted(RunAll(d, a + b, g)) == Accepted(RunAll(RunAll(d, a, g).value, b, g))
  {
    RunSplit(d, a + b, 0, |a|, |a + b|, g);
    RunPrefix(d, a, b, g);
    if RunAll(d, a, g).Ok? {
      RunSuffix(RunAll(d, a, g).value, a, b, g);
    }
  }

  /** Two parts accepted one after the other make their concatenation accepted. */
  lemma RunThen(d: Decoding, a: seq<Line>, b: seq<Line>, g: Grammar, d1: Decoding, d2: Decoding)
    requires Consistent(d) && RunAll(d, a, g) == Ok(d1) && RunAll(d1, b, g) == Ok(d2)
    ensures RunAll(d, a + b, g) == Ok(d2)
  {
    RunConcat(d, a, b, g);
  }

  /** A part that fails after an accepted one makes their concatenation fail. */
  lemma RunThenFail(d: Decoding, a: seq<Line>, b: seq<Line>, g: Grammar, d1: Decoding)
    requires Consistent(d) && RunAll(d, a, g) == Ok(d1) && RunAll(d1, b, g).Err?
    ensures RunAll(d, a + b, g).Err?
  {
    RunConcat(d, a, b, g);
  }

  /** A failing part makes everything after it fail too. */
  lemma RunFailThen(d: Decoding, a: seq<Line>, b: seq<Line>, g: Grammar)
    requires Consistent(d) && RunAll(d, a, g).Err?
    ensures RunAll(d, a + b, g).Err?
  {
    RunConcat(d, a, b, g);
  }

  /** The loop over one line is that line's step. */
  lemma RunOne(d: Decoding, line: Line, g: Grammar)
    requires Consistent(d)
    ensures RunAll(d, [line], g) == Step(d, line, 0, g)
  {
    assert [line][0] == line;
    match Step(d, line, 0, g)
    case Err(_) =>
    case Ok(d1) => assert Run(d1, [line], 1, 1, g) == Ok(d1);
  }
}
