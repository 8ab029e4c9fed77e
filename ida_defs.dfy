/** src/ida_defs.h: the word- and byte-packing macros. The widths are those
  * of an LP64 target, chosen here: `BYTE` is 8 bits, `WORD` 16, `DWORD_PTR`
  * (`unsigned long`) 64, and `LONG`, which the header uses but does not
  * define, a 32-bit signed integer kept here as its two's-complement pattern.
  * No macro result depends on `DWORD_PTR` being wider than 32 bits. Every macro first converts its argument to
  * `DWORD_PTR`, so the functions take that 64-bit value. */
module IdaDefs {
  const FALSE: int := 0
  const TRUE: int := 1

  /** Whether bit `k` of `v` is set. */
  predicate Bit(v: bv64, k: bv64)
    requires k < 64
  {
    (v >> k) & 1 == 1
  }

  /** An argument of type `BYTE` or `WORD` converted to `DWORD_PTR`. */
  function FromByte(b: bv8): (p: bv64)
    ensures p >> 8 == 0 && p as bv8 == b
  {
    b as bv64
  }

  function FromWord(w: bv16): (p: bv64)
    ensures p >> 16 == 0 && p as bv16 == w
  {
    w as bv64
  }

  /** A `LONG` argument converted to `DWORD_PTR`: sign extension. */
  function FromLong(l: bv32): (p: bv64)
    ensures (p & 0xFFFF_FFFF) as bv32 == l
    ensures p >> 32 == (if l & 0x8000_0000 == 0 then 0 else 0xFFFF_FFFF)
  {
    if l & 0x8000_0000 == 0 then l as bv64 else (l as bv64) | 0xFFFF_FFFF_0000_0000
  }

  /** `LOBYTE(w)`: bits 0..7 of the argument. */
  function LoByte(w: bv64): (b: bv8)
    ensures forall k: bv64 :: k < 8 ==> (Bit(FromByte(b), k) <==> Bit(w, k))
  {
    var b := (w & 0xFF) as bv8;
    assert forall k: bv64 :: k < 8 ==> (Bit(FromByte(b), k) <==> Bit(w, k)) by {
      forall k: bv64 | k < 8 ensures Bit(FromByte(b), k) <==> Bit(w, k) {
        LoByteBit(w, k);
      }
    }
    b
  }

  lemma LoByteBit(w: bv64, k: bv64)
    requires k < 8
    ensures Bit(FromByte((w & 0xFF) as bv8), k) <==> Bit(w, k)
  {
  }

  /** `HIBYTE(w)`: bits 8..15 of the argument. */
  function HiByte(w: bv64): (b: bv8)
    ensures forall k: bv64 :: k < 8 ==> (Bit(FromByte(b), k) <==> Bit(w, k + 8))
  {
    var b := ((w >> 8) & 0xFF) as bv8;
    assert forall k: bv64 :: k < 8 ==> (Bit(FromByte(b), k) <==> Bit(w, k + 8)) by {
      forall k: bv64 | k < 8 ensures Bit(FromByte(b), k) <==> Bit(w, k + 8) {
        HiByteBit(w, k);
      }
    }
    b
  }

  lemma HiByteBit(w: bv64, k: bv64)
    requires k < 8
    ensures Bit(FromByte(((w >> 8) & 0xFF) as bv8), k) <==> Bit(w, k + 8)
  {
  }

  /** `LOWORD(l)`: bits 0..15 of the argument. */
  function LoWord(l: bv64): (w: bv16)
    ensures forall k: bv64 :: k < 16 ==> (Bit(FromWord(w), k) <==> Bit(l, k))
  {
    var w := (l & 0xFFFF) as bv16;
    assert forall k: bv64 :: k < 16 ==> (Bit(FromWord(w), k) <==> Bit(l, k)) by {
      forall k: bv64 | k < 16 ensures Bit(FromWord(w), k) <==> Bit(l, k) {
        LoWordBit(l, k);
      }
    }
    w
  }

  lemma LoWordBit(l: bv64, k: bv64)
    requires k < 16
    ensures Bit(FromWord((l & 0xFFFF) as bv16), k) <==> Bit(l, k)
  {
  }

  /** `HIWORD(l)`: bits 16..31 of the argument. */
  function HiWord(l: bv64): (w: bv16)
    ensures forall k: bv64 :: k < 16 ==> (Bit(FromWord(w), k) <==> Bit(l, k + 16))
  {
    var w := ((l >> 16) & 0xFFFF) as bv16;
    assert forall k: bv64 :: k < 16 ==> (Bit(FromWord(w), k) <==> Bit(l, k + 16)) by {
      forall k: bv64 | k < 16 ensures Bit(FromWord(w), k) <==> Bit(l, k + 16) {
        HiWordBit(l, k);
      }
    }
    w
  }

  lemma HiWordBit(l: bv64, k: bv64)
    requires k < 16
    ensures Bit(FromWord(((l >> 16) & 0xFFFF) as bv16), k) <==> Bit(l, k + 16)
  {
  }

  /** `MAKEWORD(a, b)`: the low byte of `a` below the low byte of `b`. */
  function MakeWord(a: bv64, b: bv64): (w: bv16)
    ensures LoByte(FromWord(w)) == LoByte(a)
    ensures HiByte(FromWord(w)) == LoByte(b)
  {
    ((a & 0xFF) as bv8) as bv16 | ((((b & 0xFF) as bv8) as bv16) << 8)
  }

  /** `MAKELONG(a, b)`: the low word of `a` below the low word of `b`, cast
    * to `LONG`. */
  function MakeLong(a: bv64, b: bv64): (l: bv32)
    ensures LoWord(FromLong(l)) == LoWord(a)
    ensures HiWord(FromLong(l)) == LoWord(b)
  {
    ((((a & 0xFFFF) as bv16) as bv64 | ((((b & 0xFFFF) as bv16) as bv64) << 16)) & 0xFFFF_FFFF) as bv32
  }

  /** Splitting a value into its two low bytes and packing them again gives
    * back its low 16 bits. */
  lemma MakeWordRoundTrip(w: bv64)
    ensures FromWord(MakeWord(FromByte(LoByte(w)), FromByte(HiByte(w)))) == w & 0xFFFF
  {
  }

  /** Splitting a value into its two low words and packing them again gives
    * back its low 32 bits. */
  lemma MakeLongRoundTrip(l: bv64)
    ensures MakeLong(FromWord(LoWord(l)), FromWord(HiWord(l))) == (l & 0xFFFF_FFFF) as bv32
  {
  }

  /** For a `LONG` argument the round trip is exact, sign bits included. */
  lemma LongRoundTrip(l: bv32)
    ensures MakeLong(FromWord(LoWord(FromLong(l))), FromWord(HiWord(FromLong(l)))) == l
  {
  }
}
