/**
 * The reference Fibonacci script `tests/fib.py`: a naive recursive `fib`
 * and an array-filling `fib1` that works on a fixed buffer of 20 entries.
 * The same `fib1` program is written in sloth itself in the repository's
 * tests and benchmarks, so its result serves as an oracle for the VM.
 */
module Fib {

  /** `fib` with the convention fib(0) = fib(1) = 1 (1, 1, 2, 3, 5, ...).
      A negative argument never reaches a base case in the script; the
      model takes a `nat`. */
  function Fib(x: nat): nat
  {
    if x == 1 || x == 0 then 1 else Fib(x - 1) + Fib(x - 2)
  }

  /** Lemma: past the two seeds, each value is the sum of the two before
      it, the recurrence `fib1` fills its buffer with. */
  lemma FibRecurrence(n: nat)
    ensures Fib(0) == 1 && Fib(1) == 1
    ensures Fib(n + 2) == Fib(n + 1) + Fib(n)
  {
  }

  /** The seeded buffer `[1, 1, 0, ..., 0]` of length 20. */
  function Seed(): (arr: seq<int>)
    ensures |arr| == 20
    ensures arr[0] == 1 && arr[1] == 1
    ensures forall k :: 2 <= k < 20 ==> arr[k] == 0
  {
    [1, 1, 0, 0, 0, 0, 0, 0, 0, 0, 0, 0, 0, 0, 0, 0, 0, 0, 0, 0]
  }

  /** What a call of `fib1` produces: the returned entry, or the
      `IndexError` raised by writing past the end of the buffer. */
  datatype Fib1Outcome = Returned(value: int) | IndexError

  /** `fib1(n)`: fill `arr[i] = arr[i-1] + arr[i-2]` for `i` from 2 while
      `i < n`, then return `arr[19]`. The final buffer is returned too so
      that its contents can be stated. */
  method Fib1(n: int) returns (r: Fib1Outcome, arr: seq<int>)
    ensures |arr| == 20
    ensures n > 20 <==> r == IndexError
    ensures r.Returned? ==> r.value == arr[19]
    ensures forall k :: 2 <= k < n && k < 20 ==> arr[k] == arr[k - 1] + arr[k - 2]
    ensures arr[0] == 1 && arr[1] == 1
    ensures forall k :: 0 <= k < 20 && k >= n && k >= 2 ==> arr[k] == 0
    ensures n <= 19 ==> r == Returned(0)
  {
    arr := Seed();
    var i := 2;
    while i < n
      invariant 2 <= i
      invariant i <= 20
      invariant i <= n || i == 2
      invariant |arr| == 20
      invariant arr[0] == 1 && arr[1] == 1
      invariant forall k :: 2 <= k < i ==> arr[k] == arr[k - 1] + arr[k - 2]
      invariant forall k :: i <= k < 20 ==> arr[k] == 0
    {
      if i >= 20 {
        // `arr[20] = ...` in the script raises IndexError.
        r := IndexError;
        return;
      }
      arr := arr[i := arr[i - 1] + arr[i - 2]];
      i := i + 1;
    }
    r := Returned(arr[19]);
  }

  /** Lemma: a buffer seeded with 1, 1 and filled by the recurrence up to
      `m` holds the recursive `fib` there, so `fib1` and `fib` agree. */
  lemma {:induction false} FilledBufferIsFib(arr: seq<int>, m: nat, k: nat)
    requires m <= |arr|
    requires 2 <= |arr| && arr[0] == 1 && arr[1] == 1
    requires forall j :: 2 <= j < m ==> arr[j] == arr[j - 1] + arr[j - 2]
    requires k < m || k < 2
    ensures arr[k] == Fib(k)
  {
    if k >= 2 {
      FilledBufferIsFib(arr, m, k - 1);
      FilledBufferIsFib(arr, m, k - 2);
    }
  }

  /** The script's one active line prints `fib1(20)`, index 19 of the
      sequence 1, 1, 2, 3, ...: 6765. */
  lemma Fib1At20()
    ensures Fib(19) == 6765
  {
    assert Fib(10) == 89 by {
      assert Fib(2) == 2 && Fib(3) == 3 && Fib(4) == 5 && Fib(5) == 8;
      assert Fib(6) == 13 && Fib(7) == 21 && Fib(8) == 34 && Fib(9) == 55;
    }
    assert Fib(11) == 144 && Fib(12) == 233 && Fib(13) == 377 && Fib(14) == 610;
    assert Fib(15) == 987 && Fib(16) == 1597 && Fib(17) == 2584 && Fib(18) == 4181;
  }

  /** Lemma: any buffer `fib1(20)` can leave behind (seeds 1, 1 and the
      recurrence up to index 19) holds 6765 at index 19, the value the
      script prints. */
  lemma Fib1ReturnsAt20(arr: seq<int>)
    requires |arr| == 20 && arr[0] == 1 && arr[1] == 1
    requires forall j :: 2 <= j < 20 ==> arr[j] == arr[j - 1] + arr[j - 2]
    ensures arr[19] == 6765
  {
    FilledBufferIsFib(arr, 20, 19);
    Fib1At20();
  }
}
