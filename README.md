# KLEE demo programs: a Dafny model

The repository is a set of small C programs that drive the KLEE symbolic-execution
engine. Each program wraps a pure integer function in a driver. A concrete driver
runs the function on one parsed argument and prints a verdict. A symbolic driver
makes the input unconstrained and fails a `klee_assert` when the property breaks.
This project models those functions, their drivers and the packing macros of the
IDA type header. It then proves what the engine is expected to find.

- `Int32` (int32.dfy): the range of a C `int` and its two's-complement bit pattern.
  `Klee` (same file) holds the outcome of one explored path: a returned value, or a
  failed `klee_assert(0)`, which stops the path.
- `Magic` (magic.dfy): `magic_computation` of examples/magic.c. It is a method with
  the source's 32-round loop, as a `while`, proved against `ToggleFold`, a recursive fold
  of the same rounds. Lemmas show that the fold toggles the low bits one by one,
  that all 32 rounds give the bitwise complement, and that only the input -254
  (`0xFFFFFF02`) reaches the magic output 253. The concrete `main` becomes
  `ConcreteMain`: it returns its verdict and exit status.
- `MagicSym` (magic_sym.dfy): the symbolic `main` of examples/magic_sym.c. The
  symbolic input is a parameter. The assertion fails exactly on the input -254.
- `TestProgram` (test_program.dfy): `check_arg` of test.c, whose branches `> 10`
  and `< 10` leave `a == 10` to `klee_assert(0)`.
- `ExampleTestProgram` (example_test_program.dfy): `check_arg` of
  examples/test.c, whose branches `> 10` and `<= 10` cover every `int`.
- `IdaDefs` (ida_defs.dfy): `MAKEWORD`, `MAKELONG`, `LOWORD`, `HIWORD`, `LOBYTE`,
  `HIBYTE`, `TRUE` and `FALSE`, on `bv8`/`bv16`/`bv32`/`bv64`.

In examples/magic.c and examples/magic_sym.c, a C `int` (input, output and loop
counter) is modelled by its 32-bit two's-complement pattern (`bv32`). The source
works on bits, and the pattern is what its XORs and shifts act on. The signed
reading is needed only to name the winning input, and `WinningInputIsMinus254`
proves that -254 has the pattern `0xFFFFFF02`. `check_arg` only compares, so
there the `int` is a mathematical integer restricted to the 32-bit range.

## Model

| member | source | states |
|---|---|---|
| `Magic.ToggleFold` | examples/magic.c:5-6 | the value of `input` after the first `n` rounds of the loop; the bits from position `n` upward are still those of the input |
| `Magic.FoldTogglesLowBits` | examples/magic.c:5-6 | after `n` rounds of `input ^= 1 << i` the value is the input XOR the mask of its `n` lowest bits (proved by induction on the rounds) |
| `Magic.AfterRounds` | examples/magic.c:5-6 | after `n` rounds, bit `k` of the input is complemented exactly when `k < n` and unchanged otherwise |
| `Magic.FoldIsComplement` | examples/magic.c:3-8 | the 32 rounds together give the bitwise complement of the input |
| `Magic.MagicComputation` | examples/magic.c:3-8 | the loop runs its 32 rounds and ends; its result is the fold of those rounds and equals `!input` for every 32-bit input; examples/magic_sym.c:4-9 is the same code and is modelled by this member |
| `Magic.MagicIsInvolution` | examples/magic.c:3-8 | applying the computation twice gives back the input |
| `Magic.MagicOutputHasOneInput` | examples/magic.c:12-13 | the output equals 253 if and only if the input is `0xFFFFFF02` |
| `Magic.IsMagic` | examples/magic.c:13 | the test `output == 253` both drivers branch on (also examples/magic_sym.c:15); it holds exactly when the complement of the output is the winning input `0xFFFFFF02` |
| `Magic.Message` | examples/magic.c:14-16 | the printed line is "You win!\n" exactly for the Win verdict and "You lose\n" exactly for Lose |
| `Magic.WinningInputIsMinus254` | examples/magic.c:13 | the winning pattern `0xFFFFFF02` is the `int` -254 |
| `Magic.ConcreteMain` | examples/magic.c:10-17 | the verdict is "You win!" exactly for the input with pattern `0xFFFFFF02` (the `int` -254) and "You lose" for every other input; the exit status is 0 on both paths |
| `MagicSym.SymbolicMain` | examples/magic_sym.c:11-18 | `klee_assert(0)` is reached if and only if the input has pattern `0xFFFFFF02` (the `int` -254), so that is the only counterexample; every other input returns 0 |
| `TestProgram.CheckArg` | test.c:9-16 | returns 0 exactly for `a > 10`, 1 exactly for `a < 10`, and fails the assertion exactly for `a == 10` |
| `TestProgram.FallsThroughOnlyAtTen` | test.c:14-15 | the point after both branches, which the code guards with `klee_assert(0)` as though it could not be reached, is reached exactly at `a == 10`, and there the assertion fails |
| `TestProgram.Main` | test.c:18-22 | `main` fails the assertion only at 10; otherwise it returns the value of `check_arg`, which is in {0, 1} and is 1 exactly below 10 |
| `ExampleTestProgram.CheckArg` | examples/test.c:8-14 | returns `TRUE` exactly for `a <= 10` and `FALSE` exactly for `a > 10` |
| `ExampleTestProgram.FinalReturnUnreachable` | examples/test.c:13 | no 32-bit input reaches the final `return FALSE`: `check_arg` returns `FALSE` above 10 and `TRUE` otherwise, as its first two branches decide |
| `ExampleTestProgram.Main` | examples/test.c:16-20 | `main` never fails an assertion, always returns `TRUE` or `FALSE`, and returns `TRUE` exactly when the input is at most 10 |
| `ExampleTestProgram.AgreesWithTestProgram` | examples/test.c:8-14 | on every input other than 10 this `check_arg` returns what the one in test.c returns; at 10 that one fails its assertion and this one returns `TRUE` |
| `IdaDefs.FromByte` | src/ida_defs.h:53-58 | the `(DWORD_PTR)` cast of a `BYTE` argument: zero extension: the bits above the low 8 are clear, and the low 8 give back the byte |
| `IdaDefs.FromWord` | src/ida_defs.h:53-58 | the `(DWORD_PTR)` cast of a `WORD` argument: zero extension: the bits above the low 16 are clear, and the low 16 give back the word |
| `IdaDefs.LoByte` | src/ida_defs.h:57 | bit `k` of `LOBYTE(w)` is bit `k` of `w`, for each of its 8 bits |
| `IdaDefs.HiByte` | src/ida_defs.h:58 | bit `k` of `HIBYTE(w)` is bit `k + 8` of `w`, for each of its 8 bits |
| `IdaDefs.LoWord` | src/ida_defs.h:55 | bit `k` of `LOWORD(l)` is bit `k` of `l`, for each of its 16 bits |
| `IdaDefs.HiWord` | src/ida_defs.h:56 | bit `k` of `HIWORD(l)` is bit `k + 16` of `l`, for each of its 16 bits |
| `IdaDefs.MakeWord` | src/ida_defs.h:53 | `LOBYTE(MAKEWORD(a, b))` is the low byte of `a` and `HIBYTE(MAKEWORD(a, b))` the low byte of `b` |
| `IdaDefs.MakeLong` | src/ida_defs.h:54 | `LOWORD(MAKELONG(a, b))` is the low word of `a` and `HIWORD(MAKELONG(a, b))` the low word of `b`, even after the `LONG` is sign-extended back to `DWORD_PTR` |
| `IdaDefs.FromLong` | src/ida_defs.h:55-56 | a `LONG` converted to `DWORD_PTR` keeps its 32 bits and fills the upper half with its sign bit |
| `IdaDefs.MakeWordRoundTrip` | src/ida_defs.h:53-58 | `MAKEWORD(LOBYTE(w), HIBYTE(w))` equals `w & 0xffff` |
| `IdaDefs.MakeLongRoundTrip` | src/ida_defs.h:54-56 | `MAKELONG(LOWORD(l), HIWORD(l))` has the same pattern as the low 32 bits of `l` |
| `IdaDefs.LongRoundTrip` | src/ida_defs.h:54-56 | for a `LONG` argument, `MAKELONG(LOWORD(l), HIWORD(l))` gives back `l` exactly |

## Left out

- `klee_make_symbolic` and `klee_assert` are engine calls. The symbolic input is a parameter, and every contract holds for all its values. A failed `klee_assert(0)` is the `Klee.AssertionFailed` outcome. The engine's path exploration is not modelled.
- `atoi(argv[1])` and `printf` in examples/magic.c are I/O. `ConcreteMain` takes the already parsed `int` and returns the verdict, and `Message` gives the printed line. A missing argument is read unchecked in the source, which is undefined behaviour. The model has no error path for it: a parsed input is always present.
- The C undefined behaviour of `1 << 31` on `int` is modelled as the pattern `0x80000000`, which is what the programs rely on.
- The signed reading of a general `bv32` pattern is not modelled, because conversions between unbounded integers and bit-vectors are too costly for the solver. The only place it matters is the winning input, and that is covered by a lemma on the constant -254.
- `IdaDefs.MakeLong`: the result is the 32-bit pattern of the `LONG`, not its signed value, for the same reason.
- The macros take their argument after conversion to the 64-bit `DWORD_PTR`. The conversions modelled are from `BYTE`, `WORD` and `LONG`. Arguments of other integer types are not modelled, but `LOWORD` and `HIWORD` land in 0..65535 whatever the argument, because their results are `bv16`.
- `BYTEn` and `BYTE1`..`BYTE3` (src/ida_defs.h:60-64) read memory through a pointer cast. Their results depend on endianness and aliasing, so they are not modelled.
- The platform shims (`near`, `far`, `CONST`, `_W64`, the `__int8` and `unsigned__int8` defines), the Win32 typedefs and `FLOAT`/`PFLOAT` (src/ida_defs.h:3-48) are type aliases with no logic. The widths they fix are used directly.
- `TRUE` and `FALSE` (src/ida_defs.h:50-51, examples/test.c:4-5) are constants 1 and 0. They need no contract.
- Exit statuses are the values `main` returns. The operating system's truncation of an exit status to 8 bits does not change 0 or 1.
