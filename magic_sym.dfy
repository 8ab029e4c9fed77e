/** examples/magic_sym.c: the symbolic driver around `magic_computation`.
  * The input that `klee_make_symbolic` leaves unconstrained is a parameter;
  * what holds for every value of it holds for every path the engine explores.
  * The file's copy of `magic_computation` is textually the same as the one in
  * examples/magic.c, so the driver calls `Magic.MagicComputation`. */
module MagicSym {
  import opened Klee
  import Magic

  /** `main` of examples/magic_sym.c on one value of the symbolic input. */
  method SymbolicMain(input: bv32) returns (outcome: Outcome)
    ensures outcome.AssertionFailed? <==> input == Magic.WinningInput
    ensures !outcome.AssertionFailed? ==> outcome == Returned(0)
  {
    var result := Magic.MagicComputation(input);
    if Magic.IsMagic(result) {
      outcome := AssertionFailed;
      return;
    }
    outcome := Returned(0);
  }
}
