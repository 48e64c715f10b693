/** Properties of `fibonacci` on its three paths. */
module FibProperties {
  import opened Wrappers
  import opened Fib

  // ---------------------------------------------------------------- the table

  /** The table holds F(0) = 0, F(1) = 1, ..., F(30) = 832040. */
  lemma PregeneratedIsFibonacci()
    ensures |PregeneratedSequence| == 31
    ensures PregeneratedSequence[0] == 0 && PregeneratedSequence[1] == 1
    ensures PregeneratedSequence[30] == 832040
    ensures FollowsRecurrence(PregeneratedSequence)
    ensures forall i :: 0 <= i < |PregeneratedSequence| ==> 0 <= PregeneratedSequence[i] <= 832040
  {
  }

  /** With seed (0, 1) and n of at least 1,000,000 the whole table comes back. */
  lemma StandardSeedLargeN(n: int)
    requires n >= MaxPregenerated
    ensures FibonacciSpec(n, 0, 1) == Success(PregeneratedSequence)
  {
  }

  /**
   * With seed (0, 1) and 832040 <= n < 1,000,000 no table entry exceeds n, so
   * the range loop falls through to the general path, which rebuilds the table.
   */
  lemma StandardSeedFallThrough(n: int)
    requires 832040 <= n < MaxPregenerated
    ensures FirstAbove(n) == |PregeneratedSequence|
    ensures FibonacciSpec(n, 0, 1) == Success(PregeneratedSequence)
  {
    PregeneratedIsFibonacci();
    FirstAboveUnique(n, |PregeneratedSequence|);
    assert IsGeneralResult(n, 0, 1, PregeneratedSequence);
    GeneralPathCharacterised(n, 0, 1, PregeneratedSequence);
  }

  /**
   * For every valid n the standard seed yields the longest prefix of the table
   * whose entries are all at most n.
   */
  lemma StandardSeedIsLongestPrefix(n: int)
    requires n >= 0
    ensures FibonacciSpec(n, 0, 1).Success?
    ensures var r := FibonacciSpec(n, 0, 1).value;
      1 <= |r| <= |PregeneratedSequence| && r == PregeneratedSequence[..|r|]
      && (forall j :: 0 <= j < |r| ==> r[j] <= n)
      && (|r| < |PregeneratedSequence| ==> PregeneratedSequence[|r|] > n)
  {
    PregeneratedIsFibonacci();
    var t := PregeneratedSequence;
    if n >= MaxPregenerated {
      assert t[..|t|] == t;
    } else if FirstAbove(n) == |t| {
      StandardSeedFallThrough(n);
      assert t[..|t|] == t;
    } else {
      assert t[0] <= n;
    }
  }

  /** Below 832040 the table path answers, with fewer than 31 entries. */
  lemma StandardSeedSmallN(n: int)
    requires 0 <= n < 832040
    ensures FibonacciSpec(n, 0, 1) == Success(PregeneratedSequence[..FirstAbove(n)])
    ensures 1 <= FirstAbove(n) < |PregeneratedSequence|
  {
    PregeneratedIsFibonacci();
    assert PregeneratedSequence[0] <= n;
  }

  /** n = 0 gives [0]: the table's second entry already exceeds n. */
  lemma StandardSeedZero()
    ensures FibonacciSpec(0, 0, 1) == Success([0])
  {
    StandardSeedSmallN(0);
    FirstAboveUnique(0, 1);
    assert PregeneratedSequence[..1] == [0];
  }

  /** n = 1 gives [0, 1, 1]: both ones are within n. */
  lemma StandardSeedOne()
    ensures FibonacciSpec(1, 0, 1) == Success([0, 1, 1])
  {
    StandardSeedSmallN(1);
    FirstAboveUnique(1, 3);
    assert PregeneratedSequence[..3] == [0, 1, 1];
  }

  /** n = 30 gives the table entries up to 21: the next one, 34, exceeds n. */
  lemma StandardSeedThirty()
    ensures FibonacciSpec(30, 0, 1) == Success([0, 1, 1, 2, 3, 5, 8, 13, 21])
  {
    FirstAboveUnique(30, 9);
    var prefix := [0, 1, 1, 2, 3, 5, 8, 13, 21];
    forall i | 0 <= i < 9
      ensures PregeneratedSequence[..9][i] == prefix[i]
    {
    }
    assert PregeneratedSequence[..9] == prefix;
  }

  // -------------------------------------------------------------- general path

  /**
   * What the general path returns, described without the loop: the ordered
   * seeds, then sums of the two previous elements, each within n and
   * MaxPregenerated, no longer than the loop index allows, and stopped only
   * when the index passed n or the next sum would exceed a bound.
   */
  predicate IsGeneralResult(n: int, startx: int, starty: int, r: seq<int>)
  {
    && |r| >= 2
    && r[0] == Min(startx, starty) && r[1] == Max(startx, starty)
    && FollowsRecurrence(r)
    && (forall i :: 2 <= i < |r| ==> r[i] <= n && r[i] <= MaxPregenerated)
    && |r| <= Max(2, n + 1)
    && (|r| > n || r[|r| - 1] + r[|r| - 2] > n || r[|r| - 1] + r[|r| - 2] > MaxPregenerated)
  }

  /** The loop's invariant: a prefix of a general result that may still grow. */
  predicate IsPartialResult(n: int, startx: int, starty: int, r: seq<int>)
  {
    && |r| >= 2
    && r[0] == Min(startx, starty) && r[1] == Max(startx, starty)
    && FollowsRecurrence(r)
    && (forall i :: 2 <= i < |r| ==> r[i] <= n && r[i] <= MaxPregenerated)
    && |r| <= Max(2, n + 1)
  }

  lemma {:induction false} ExtendIsGeneralResult(n: int, startx: int, starty: int, r: seq<int>)
    requires IsPartialResult(n, startx, starty, r)
    ensures IsGeneralResult(n, startx, starty, Extend(r, n))
    decreases n + 1 - |r|
  {
    if |r| <= n {
      var next := r[|r| - 1] + r[|r| - 2];
      if next <= n && next <= MaxPregenerated {
        var r' := r + [next];
        forall i | 2 <= i < |r'|
          ensures SumAt(r', i)
        {
          if i < |r| {
            assert SumAt(r, i);
          }
        }
        assert IsPartialResult(n, startx, starty, r');
        ExtendIsGeneralResult(n, startx, starty, r');
      }
    }
  }

  lemma {:induction false} GeneralResultsAgree(n: int, startx: int, starty: int, r: seq<int>, s: seq<int>, k: nat)
    requires IsGeneralResult(n, startx, starty, r) && IsGeneralResult(n, startx, starty, s)
    requires k <= |r| && k <= |s|
    ensures r[..k] == s[..k]
  {
    if k > 2 {
      GeneralResultsAgree(n, startx, starty, r, s, k - 1);
      assert r[k - 1] == s[k - 1] by {
        assert SumAt(r, k - 1) && SumAt(s, k - 1);
        assert r[k - 2] == r[..k - 1][k - 2] == s[..k - 1][k - 2];
        assert r[k - 3] == r[..k - 1][k - 3] == s[..k - 1][k - 3];
      }
      assert r[..k] == r[..k - 1] + [r[k - 1]];
      assert s[..k] == s[..k - 1] + [s[k - 1]];
    } else {
      assert forall j :: 0 <= j < k ==> r[j] == s[j];
    }
  }

  lemma RecurrenceAt(s: seq<int>, i: int)
    requires FollowsRecurrence(s) && 2 <= i < |s|
    ensures s[i] == s[i - 1] + s[i - 2]
  {
    assert SumAt(s, i);
  }

  lemma LastTwoAgree(r: seq<int>, s: seq<int>, m: nat)
    requires 2 <= m <= |r| && m <= |s| && r[..m] == s[..m]
    ensures r[m - 1] == s[m - 1] && r[m - 2] == s[m - 2]
  {
  }

  /** At most one sequence fits the description of a general result. */
  lemma GeneralResultUnique(n: int, startx: int, starty: int, r: seq<int>, s: seq<int>)
    requires IsGeneralResult(n, startx, starty, r) && IsGeneralResult(n, startx, starty, s)
    ensures r == s
  {
    var m := Min(|r|, |s|);
    GeneralResultsAgree(n, startx, starty, r, s, m);
    LastTwoAgree(r, s, m);
    if |r| < |s| {
      RecurrenceAt(s, m);
      assert false;
    } else if |s| < |r| {
      RecurrenceAt(r, m);
      assert false;
    }
    assert r == r[..m] && s == s[..m];
  }

  /** The general path returns exactly the sequence that fits the description. */
  lemma GeneralPathCharacterised(n: int, startx: int, starty: int, r: seq<int>)
    ensures IsGeneralResult(n, startx, starty, r) <==> r == GeneralPath(n, startx, starty)
  {
    assert IsPartialResult(n, startx, starty, Seeds(startx, starty));
    ExtendIsGeneralResult(n, startx, starty, Seeds(startx, starty));
    if IsGeneralResult(n, startx, starty, r) {
      GeneralResultUnique(n, startx, starty, r, GeneralPath(n, startx, starty));
    }
  }

  /** Seeds (5, 5) with n = 10: values are capped by n, so only one sum fits. */
  lemma GeneralPathExample()
    ensures FibonacciSpec(10, 5, 5) == Success([5, 5, 10])
    ensures FibonacciSpec(100, 8, 3) == Success([3, 8, 11, 19, 30, 49, 79])
  {
    GeneralPathCharacterised(10, 5, 5, [5, 5, 10]);
    GeneralPathCharacterised(100, 8, 3, [3, 8, 11, 19, 30, 49, 79]);
  }

  /**
   * Seeds (0, 0): every sum is 0, which never exceeds a bound, so the loop runs
   * until the index passes n and the result has n + 1 zeros, however large n is.
   */
  lemma ZeroSeedsFillToN(n: int)
    requires n >= 1
    ensures FibonacciSpec(n, 0, 0) == Success(seq(n + 1, _ => 0))
  {
    var zeros := seq(n + 1, _ => 0);
    forall i | 2 <= i < |zeros|
      ensures SumAt(zeros, i)
    {
    }
    assert IsGeneralResult(n, 0, 0, zeros);
    GeneralPathCharacterised(n, 0, 0, zeros);
  }

  /** With non-negative seeds every element of the general path is non-negative. */
  lemma {:induction false} ExtendNonNegative(r: seq<int>, n: int)
    requires |r| >= 2
    requires forall i :: 0 <= i < |r| ==> r[i] >= 0
    ensures forall i :: 0 <= i < |Extend(r, n)| ==> Extend(r, n)[i] >= 0
    decreases n + 1 - |r|
  {
    if |r| <= n {
      var next := r[|r| - 1] + r[|r| - 2];
      if next <= n && next <= MaxPregenerated {
        ExtendNonNegative(r + [next], n);
      }
    }
  }

  /** Every successful result of `fibonacci` is non-negative. */
  lemma FibonacciNonNegative(n: int, startx: int, starty: int)
    requires FibonacciSpec(n, startx, starty).Success?
    ensures forall i :: 0 <= i < |FibonacciSpec(n, startx, starty).value| ==> FibonacciSpec(n, startx, starty).value[i] >= 0
  {
    PregeneratedIsFibonacci();
    ExtendNonNegative(Seeds(startx, starty), n);
  }
}
