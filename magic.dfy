/** examples/magic.c: `magic_computation` and its concrete driver. A C `int`,
  * the loop counter included, is modelled by its 32-bit two's-complement
  * pattern, so `1 << 31` is the pattern 0x80000000. */
module Magic {
  import Int32

  /** Whether bit `k` of `v` is set. */
  predicate Bit(v: bv32, k: bv32)
    requires k < 32
  {
    (v >> k) & 1 == 1
  }

  /** The mask of the `n` lowest bits. */
  function LowMask(n: bv32): (m: bv32)
    requires n <= 32
  {
    if n == 32 then 0xFFFF_FFFF else ((1 as bv32) << n) - 1
  }

  /** Bit `k` of the mask is set exactly when `k < n`. */
  lemma LowMaskBit(n: bv32, k: bv32)
    requires n <= 32 && k < 32
    ensures Bit(LowMask(n), k) <==> k < n
  {
  }

  /** The value of `input` after the first `n` rounds of the loop, round `i`
    * doing `input ^= 1 << i`. */
  function ToggleFold(x: bv32, n: bv32): (r: bv32)
    requires n <= 32
    ensures r >> n == x >> n
    decreases n
  {
    if n == 0 then x else ToggleFold(x, n - 1) ^ ((1 as bv32) << (n - 1))
  }

  /** One round of the loop, as a step of the fold. */
  lemma FoldNext(x: bv32, i: bv32)
    requires i < 32
    ensures ToggleFold(x, i + 1) == ToggleFold(x, i) ^ ((1 as bv32) << i)
  {
    assert (i + 1) - 1 == i;
  }

  /** Setting bit `n - 1` of the mask of the `n - 1` lowest bits. */
  lemma LowMaskStep(n: bv32)
    requires 0 < n <= 32
    ensures LowMask(n - 1) ^ ((1 as bv32) << (n - 1)) == LowMask(n)
  {
  }

  lemma XorAssociative(a: bv32, b: bv32, c: bv32)
    ensures (a ^ b) ^ c == a ^ (b ^ c)
  {
  }

  /** One more round toggles one more low bit. */
  lemma FoldStep(x: bv32, n: bv32)
    requires 0 < n <= 32
    requires ToggleFold(x, n - 1) == x ^ LowMask(n - 1)
    ensures ToggleFold(x, n) == x ^ LowMask(n)
  {
    LowMaskStep(n);
    XorAssociative(x, LowMask(n - 1), (1 as bv32) << (n - 1));
  }

  /** After `n` rounds the `n` lowest bits are toggled and no other bit is. */
  lemma {:induction false} FoldTogglesLowBits(x: bv32, n: bv32)
    requires n <= 32
    decreases n
    ensures ToggleFold(x, n) == x ^ LowMask(n)
  {
    if n == 0 {
      assert LowMask(0) == 0;
    } else {
      FoldTogglesLowBits(x, n - 1);
      FoldStep(x, n);
    }
  }

  /** Bit by bit: after `n` rounds, bit `k` of the input is complemented
    * exactly when `k < n`, and kept otherwise. */
  lemma AfterRounds(x: bv32, n: bv32, k: bv32)
    requires n <= 32 && k < 32
    ensures Bit(ToggleFold(x, n), k) <==> (Bit(x, k) != (k < n))
  {
    FoldTogglesLowBits(x, n);
    XorLowMaskBit(x, n, k);
  }

  lemma XorLowMaskBit(x: bv32, n: bv32, k: bv32)
    requires n <= 32 && k < 32
    ensures Bit(x ^ LowMask(n), k) <==> (Bit(x, k) != (k < n))
  {
    var m := LowMask(n);
    LowMaskBit(n, k);
    XorBit(x, m, k);
    assert Bit(m, k) <==> k < n;
  }

  lemma XorBit(a: bv32, b: bv32, k: bv32)
    requires k < 32
    ensures Bit(a ^ b, k) <==> (Bit(a, k) != Bit(b, k))
  {
  }

  /** The 32 rounds together complement every bit. */
  lemma FoldIsComplement(x: bv32)
    ensures ToggleFold(x, 32) == !x
  {
    FoldTogglesLowBits(x, 32);
  }

  /** `magic_computation`: 32 rounds of `input ^= 1 << i`. */
  method MagicComputation(input: bv32) returns (output: bv32)
    ensures output == ToggleFold(input, 32)
    ensures output == !input
  {
    output := input;
    var i: bv32 := 0;
    while i < 32
      invariant i <= 32
      invariant output == ToggleFold(input, i)
      decreases 32 - i
    {
      FoldNext(input, i);
      output := output ^ ((1 as bv32) << i);
      i := i + 1;
    }
    FoldIsComplement(input);
  }

  /** Running the 32 rounds twice gives back the input. */
  lemma MagicIsInvolution(x: bv32)
    ensures ToggleFold(ToggleFold(x, 32), 32) == x
  {
    FoldIsComplement(x);
    FoldIsComplement(ToggleFold(x, 32));
  }

  /** The output both drivers look for. */
  const MagicOutput: bv32 := 253

  /** The pattern of the `int` -254, the one input that yields `MagicOutput`. */
  const WinningInput: bv32 := 0xFFFF_FF02

  /** The condition both drivers branch on: has the computation produced the
    * magic output? */
  predicate IsMagic(output: bv32)
    ensures IsMagic(output) <==> !output == WinningInput
  {
    output == MagicOutput
  }

  lemma WinningInputIsMinus254()
    ensures Int32.Bits(-254) == WinningInput
  {
  }

  /** Exactly one input reaches the magic output. */
  lemma MagicOutputHasOneInput(x: bv32)
    ensures IsMagic(ToggleFold(x, 32)) <==> x == WinningInput
  {
    FoldIsComplement(x);
  }

  datatype Verdict = Win | Lose

  /** The line the driver prints for a verdict. */
  function Message(v: Verdict): (line: string)
    ensures line == "You win!\n" <==> v == Win
    ensures line == "You lose\n" <==> v == Lose
  {
    match v
    case Win => "You win!\n"
    case Lose => "You lose\n"
  }

  /** `main` of examples/magic.c, given the already parsed argument: the
    * verdict it prints and the status it exits with. */
  method ConcreteMain(input: bv32) returns (verdict: Verdict, status: int)
    ensures verdict == Win <==> input == WinningInput
    ensures Message(verdict) == (if input == WinningInput then "You win!\n" else "You lose\n")
    ensures status == 0
  {
    var output := MagicComputation(input);
    if IsMagic(output) {
      verdict := Win;
    } else {
      verdict := Lose;
    }
    status := 0;
  }
}
