/** examples/test.c: `check_arg` with the branches `a > 10` and `a <= 10`,
  * and the symbolic `main` that returns its result. */
module ExampleTestProgram {
  import opened Int32
  import opened Klee
  import TestProgram

  /** The file's own `BOOL` constants. */
  const FALSE: Int32 := 0
  const TRUE: Int32 := 1

  /** The path through `check_arg` that takes neither branch. */
  predicate ReachesFinalReturn(a: Int32)
  {
    !(a > 10) && !(a <= 10)
  }

  /** `check_arg`: `FALSE` above 10, `TRUE` up to 10. The two conditions
    * cover every `int`, so the final `return FALSE` is dead code. */
  function CheckArg(a: Int32): (r: Int32)
    ensures r == TRUE <==> a <= 10
    ensures r == FALSE <==> a > 10
  {
    if a > 10 then FALSE
    else if a <= 10 then TRUE
    else FALSE
  }

  /** No input reaches the final `return FALSE`: `check_arg` is decided by
    * its first two branches alone. */
  lemma FinalReturnUnreachable(a: Int32)
    ensures !ReachesFinalReturn(a)
    ensures CheckArg(a) == (if a > 10 then FALSE else TRUE)
  {
  }

  /** `main` on one value of the symbolic input: it never fails and returns
    * `TRUE` or `FALSE`. */
  function Main(input: Int32): (r: Outcome)
    ensures r.Returned? && r.value in {FALSE, TRUE}
    ensures r.value == TRUE <==> input <= 10
  {
    Returned(CheckArg(input))
  }

  /** The two versions of `check_arg` agree everywhere but at 10, where the
    * one in test.c fails its assertion and this one returns `TRUE`. */
  lemma AgreesWithTestProgram(a: Int32)
    ensures a != 10 ==> TestProgram.CheckArg(a) == Returned(CheckArg(a))
    ensures TestProgram.CheckArg(10).AssertionFailed? && CheckArg(10) == TRUE
  {
  }
}
