/** test.c: `check_arg` with the branches `a > 10` and `a < 10`, and the
  * symbolic `main` that returns its result. */
module TestProgram {
  import opened Int32
  import opened Klee

  /** The path through `check_arg` that takes neither branch. */
  predicate FallsThrough(a: Int32)
  {
    !(a > 10) && !(a < 10)
  }

  /** `check_arg`: 0 above 10, 1 below 10; any other input reaches
    * `klee_assert(0)`, which stops the path, so the `return 0` behind it is
    * never executed. */
  function CheckArg(a: Int32): (r: Outcome)
    ensures r == Returned(0) <==> a > 10
    ensures r == Returned(1) <==> a < 10
    ensures r.AssertionFailed? <==> a == 10
  {
    if a > 10 then Returned(0)
    else if a < 10 then Returned(1)
    else AssertionFailed
  }

  /** The point after both branches, which the code guards with
    * `klee_assert(0)` as though it could not be reached, is reached exactly
    * at `a == 10`, and there the assertion fails. */
  lemma FallsThroughOnlyAtTen(a: Int32)
    ensures FallsThrough(a) <==> a == 10
    ensures FallsThrough(a) <==> CheckArg(a).AssertionFailed?
  {
  }

  /** `main` on one value of the symbolic input: it returns what `check_arg`
    * returns, a value in {0, 1} whenever the assertion holds. */
  function Main(input: Int32): (r: Outcome)
    ensures r.AssertionFailed? <==> input == 10
    ensures r.Returned? ==> r.value in {0, 1}
    ensures r.Returned? ==> (r.value == 1 <==> input < 10)
  {
    CheckArg(input)
  }
}
