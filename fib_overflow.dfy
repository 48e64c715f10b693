/**
 * The general-path loop of `fibonacci` with Go's 64-bit `int` addition, which
 * wraps around. The rest of the model uses exact addition (Fib.Extend); this
 * module shows where the two part ways and that they agree otherwise.
 */
module FibOverflow {
  import opened Wrappers
  import opened GoInt
  import opened Fib

  const TwoTo62: int := 0x4000_0000_0000_0000

  /** Fib.Extend, with the sum `result[i-1] + result[i-2]` wrapped to 64 bits. */
  function ExtendAsWritten(r: seq<int>, n: int): (s: seq<int>)
    requires |r| >= 2
    ensures |r| <= |s| && s[..|r|] == r
    decreases n + 1 - |r|
  {
    if |r| > n then r
    else
      var next := Wrap64(r[|r| - 1] + r[|r| - 2]);
      if next > n || next > MaxPregenerated then r
      else ExtendAsWritten(r + [next], n)
  }

  /** Even with wrap-around, every appended value passed the guard: at most n and MaxPregenerated. */
  lemma {:induction false} ExtendAsWrittenBounded(r: seq<int>, n: int)
    requires |r| >= 2
    ensures forall i :: |r| <= i < |ExtendAsWritten(r, n)| ==>
      InInt64(ExtendAsWritten(r, n)[i]) && ExtendAsWritten(r, n)[i] <= n && ExtendAsWritten(r, n)[i] <= MaxPregenerated
    decreases n + 1 - |r|
  {
    if |r| <= n {
      var next := Wrap64(r[|r| - 1] + r[|r| - 2]);
      if next <= n && next <= MaxPregenerated {
        var r' := r + [next];
        ExtendAsWrittenBounded(r', n);
        assert ExtendAsWritten(r, n)[|r|] == r'[|r|];
      }
    }
  }

  /**
   * Seeds 2^62 and 2^62 (both valid, non-negative Go ints) with n = 5: the
   * first sum wraps to -2^63, passes the `next > n` guard and is appended, and
   * so is the next one, -2^62. Exact addition stops at the seeds instead.
   */
  lemma OverflowAppendsNegative()
    ensures ExtendAsWritten(Seeds(TwoTo62, TwoTo62), 5) == [TwoTo62, TwoTo62, MinInt64, -TwoTo62]
    ensures GeneralPath(5, TwoTo62, TwoTo62) == [TwoTo62, TwoTo62]
    ensures FibonacciSpec(5, TwoTo62, TwoTo62) == Success([TwoTo62, TwoTo62])
  {
  }

  /** Every element lies in [0, MaxPregenerated]. */
  predicate AllSmall(r: seq<int>)
  {
    forall i :: 0 <= i < |r| ==> 0 <= r[i] <= MaxPregenerated
  }

  lemma AllSmallAppend(r: seq<int>, x: int)
    requires AllSmall(r) && 0 <= x <= MaxPregenerated
    ensures AllSmall(r + [x])
  {
  }

  /** One turn of the loop, when both operands are small: no wrap, so the same step. */
  lemma SmallStepAgrees(r: seq<int>)
    requires |r| >= 2 && AllSmall(r)
    ensures var sum := r[|r| - 1] + r[|r| - 2];
      0 <= sum && Wrap64(sum) == sum
  {
    var sum := r[|r| - 1] + r[|r| - 2];
    assert 0 <= r[|r| - 1] <= MaxPregenerated && 0 <= r[|r| - 2] <= MaxPregenerated;
    assert InInt64(sum);
  }

  lemma {:induction false} SmallValuesAgree(r: seq<int>, n: int)
    requires |r| >= 2 && AllSmall(r)
    ensures ExtendAsWritten(r, n) == Extend(r, n)
    decreases n + 1 - |r|
  {
    if |r| <= n {
      var sum := r[|r| - 1] + r[|r| - 2];
      SmallStepAgrees(r);
      if sum <= n && sum <= MaxPregenerated {
        AllSmallAppend(r, sum);
        SmallValuesAgree(r + [sum], n);
      }
    }
  }

  /**
   * When the two seeds' sum fits in a 64-bit int no later sum can overflow,
   * so the loop as written and the exact model return the same sequence.
   */
  lemma AsWrittenAgreesWithoutOverflow(n: int, startx: int, starty: int)
    requires 0 <= startx && 0 <= starty && startx + starty <= MaxInt64
    ensures ExtendAsWritten(Seeds(startx, starty), n) == GeneralPath(n, startx, starty)
  {
    var r := Seeds(startx, starty);
    assert 0 <= r[0] <= r[1] && r[0] + r[1] == startx + starty;
    if |r| <= n {
      var sum := r[1] + r[0];
      assert InInt64(sum);
      if sum <= n && sum <= MaxPregenerated {
        assert AllSmall(r + [sum]);
        SmallValuesAgree(r + [sum], n);
      }
    }
  }
}
