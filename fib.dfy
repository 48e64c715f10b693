/**
 * The `fibonacci` function of api/fib/handler.go: validation, the
 * pregenerated table for the standard seed (0, 1), and the general path that
 * orders the seeds and appends sums while they stay within the bounds.
 */
module Fib {
  import opened Wrappers

  /** The first 31 Fibonacci numbers, F(0) through F(30). */
  const PregeneratedSequence: seq<int> := [0, 1, 1, 2, 3, 5, 8, 13, 21, 34, 55, 89, 144, 233, 377, 610, 987, 1597, 2584, 4181, 6765, 10946, 17711, 28657, 46368, 75025, 121393, 196418, 317811, 514229, 832040]

  /** Both the threshold for returning the whole table and the cap on generated values. */
  const MaxPregenerated: int := 1000000

  const InvalidInputMessage: string := "invalid input, n, startx, and starty must be non-negative integers"

  /** The element at index i is the sum of the two before it. */
  predicate SumAt(s: seq<int>, i: int)
    requires 2 <= i < |s|
  {
    s[i] == s[i - 1] + s[i - 2]
  }

  /** Every element from index 2 on is the sum of the two before it. */
  predicate FollowsRecurrence(s: seq<int>)
  {
    forall i :: 2 <= i < |s| ==> SumAt(s, i)
  }

  /** The two seeds, smaller first. */
  function Seeds(startx: int, starty: int): (r: seq<int>)
    ensures |r| == 2 && r[0] <= r[1]
    ensures multiset(r) == multiset{startx, starty}
  {
    if startx < starty then [startx, starty] else [starty, startx]
  }

  function Min(a: int, b: int): int { if a < b then a else b }
  function Max(a: int, b: int): int { if a < b then b else a }

  // ---------------------------------------------------------------- table path

  /** The first table index at or after i whose entry exceeds n, or the table's length. */
  function FirstAboveFrom(n: int, i: nat): (k: nat)
    requires i <= |PregeneratedSequence|
    requires forall j :: 0 <= j < i ==> PregeneratedSequence[j] <= n
    ensures i <= k <= |PregeneratedSequence|
    ensures forall j :: 0 <= j < k ==> PregeneratedSequence[j] <= n
    ensures k < |PregeneratedSequence| ==> PregeneratedSequence[k] > n
    decreases |PregeneratedSequence| - i
  {
    if i == |PregeneratedSequence| || PregeneratedSequence[i] > n then i
    else FirstAboveFrom(n, i + 1)
  }

  /** Where the range loop over the table returns: the first entry above n, if any. */
  function FirstAbove(n: int): (k: nat)
    ensures k <= |PregeneratedSequence|
    ensures forall j :: 0 <= j < k ==> PregeneratedSequence[j] <= n
    ensures k < |PregeneratedSequence| ==> PregeneratedSequence[k] > n
  {
    FirstAboveFrom(n, 0)
  }

  /** Any index that splits the table into entries <= n and a first entry > n is FirstAbove(n). */
  lemma FirstAboveUnique(n: int, k: nat)
    requires k <= |PregeneratedSequence|
    requires forall j :: 0 <= j < k ==> PregeneratedSequence[j] <= n
    requires k < |PregeneratedSequence| ==> PregeneratedSequence[k] > n
    ensures FirstAbove(n) == k
  {
  }

  // -------------------------------------------------------------- general path

  /**
   * The generating loop run from a partial result r: while the index |r| is
   * at most n, append the sum of the last two elements unless that sum
   * exceeds n or MaxPregenerated, in which case stop.
   */
  function Extend(r: seq<int>, n: int): (s: seq<int>)
    requires |r| >= 2
    ensures |r| <= |s| <= Max(|r|, n + 1)
    ensures s[..|r|] == r
    decreases n + 1 - |r|
  {
    if |r| > n then r
    else
      var next := r[|r| - 1] + r[|r| - 2];
      if next > n || next > MaxPregenerated then r
      else Extend(r + [next], n)
  }

  /** What `fibonacci` returns when it does not answer from the table. */
  function GeneralPath(n: int, startx: int, starty: int): (s: seq<int>)
    ensures 2 <= |s| <= Max(2, n + 1)
    ensures s[0] == Min(startx, starty) && s[1] == Max(startx, starty)
  {
    Extend(Seeds(startx, starty), n)
  }

  /** The whole of `fibonacci`, as a value. */
  function FibonacciSpec(n: int, startx: int, starty: int): (r: Result<seq<int>>)
    ensures r.Failure? <==> n < 0 || startx < 0 || starty < 0
    ensures r.Failure? ==> r.message == InvalidInputMessage
  {
    if n < 0 || startx < 0 || starty < 0 then Failure(InvalidInputMessage)
    else if startx == 0 && starty == 1 && n >= MaxPregenerated then Success(PregeneratedSequence)
    else if startx == 0 && starty == 1 && FirstAbove(n) < |PregeneratedSequence| then
      Success(PregeneratedSequence[..FirstAbove(n)])
    else Success(GeneralPath(n, startx, starty))
  }

  /**
   * The range loop over the table: the index of the first entry above n, at
   * which `fibonacci` returns early, or the table's length when it falls through.
   */
  method ScanTable(n: int) returns (k: nat)
    ensures k == FirstAbove(n)
  {
    k := 0;
    while k < |PregeneratedSequence|
      invariant 0 <= k <= |PregeneratedSequence|
      invariant forall j :: 0 <= j < k ==> PregeneratedSequence[j] <= n
    {
      if PregeneratedSequence[k] > n {
        break;
      }
      k := k + 1;
    }
    FirstAboveUnique(n, k);
  }

  /**
   * The general path: order the seeds, then `for i := 2; i <= n; i++` append
   * the sum of the last two elements, breaking at the first sum above a bound.
   */
  method Generate(n: int, startx: int, starty: int) returns (result: seq<int>)
    ensures result == GeneralPath(n, startx, starty)
  {
    if startx < starty {
      result := [startx, starty];
    } else {
      result := [starty, startx];
    }

    var i := 2;
    while i <= n
      invariant i == |result| >= 2
      invariant Extend(result, n) == GeneralPath(n, startx, starty)
      decreases n + 1 - i
    {
      var next := result[i - 1] + result[i - 2];
      if next > n || next > MaxPregenerated {
        break;
      }
      result := result + [next];
      i := i + 1;
    }
  }

  /** `fibonacci`: validation, the table for seed (0, 1), otherwise the general path. */
  method Fibonacci(n: int, startx: int, starty: int) returns (r: Result<seq<int>>)
    ensures r == FibonacciSpec(n, startx, starty)
  {
    if n < 0 || startx < 0 || starty < 0 {
      return Failure(InvalidInputMessage);
    }

    if startx == 0 && starty == 1 {
      if n >= MaxPregenerated {
        return Success(PregeneratedSequence);
      }
      var k := ScanTable(n);
      if k < |PregeneratedSequence| {
        return Success(PregeneratedSequence[..k]);
      }
    }

    var result := Generate(n, startx, starty);
    return Success(result);
  }
}
