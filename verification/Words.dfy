/** Fixed-width machine words, the truncating casts between them, and bitwise AND. */
module Words {

  type u8 = x: int | 0 <= x < 0x100
  type u16 = x: int | 0 <= x < 0x1_0000
  type u32 = x: int | 0 <= x < 0x1_0000_0000
  type u64 = x: int | 0 <= x < 0x1_0000_0000_0000_0000
  type i32 = x: int | -0x8000_0000 <= x < 0x8000_0000
  type i64 = x: int | -0x8000_0000_0000_0000 <= x < 0x8000_0000_0000_0000

  /** `x as u8`, `x as u16`, `x as u32`: keep the low bits of the two's complement form. */
  function AsU8(x: int): u8 { x % 0x100 }

  function AsU16(x: int): u16 { x % 0x1_0000 }

  function AsU32(x: int): u32 { x % 0x1_0000_0000 }

  /** A 32-bit word read as a signed number. */
  function Signed32(x: u32): i32 {
    if x < 0x8000_0000 then x else x - 0x1_0000_0000
  }

  /** Bit `i` of `x`. */
  predicate Bit(x: nat, i: nat) {
    if i == 0 then x % 2 == 1 else Bit(x / 2, i - 1)
  }

  function BitAnd(a: nat, b: nat): (r: nat)
    ensures r <= a
  {
    if a == 0 || b == 0 then 0
    else 2 * BitAnd(a / 2, b / 2) + if a % 2 == 1 && b % 2 == 1 then 1 else 0
  }

  lemma {:induction false} ZeroHasNoBits(i: nat)
    ensures !Bit(0, i)
  {
    if i > 0 { ZeroHasNoBits(i - 1); }
  }

  /** The bits of a conjunction are the common bits. */
  lemma {:induction false} BitAndBits(a: nat, b: nat, i: nat)
    ensures Bit(BitAnd(a, b), i) <==> Bit(a, i) && Bit(b, i)
  {
    if a == 0 || b == 0 {
      ZeroHasNoBits(i);
    } else if i > 0 {
      assert BitAnd(a, b) / 2 == BitAnd(a / 2, b / 2);
      BitAndBits(a / 2, b / 2, i - 1);
    }
  }

  /** A number other than zero has a bit; the lemma returns its position. */
  lemma {:induction false} SomeBit(x: nat) returns (i: nat)
    requires x != 0
    ensures Bit(x, i)
  {
    if x % 2 == 1 {
      i := 0;
    } else {
      var j := SomeBit(x / 2);
      i := j + 1;
    }
  }

  /** `a & b` is non-zero exactly when the two words share a bit. */
  lemma {:induction false} BitAndMeets(a: nat, b: nat)
    ensures BitAnd(a, b) != 0 <==> exists i: nat :: Bit(a, i) && Bit(b, i)
  {
    if BitAnd(a, b) != 0 {
      var i := SomeBit(BitAnd(a, b));
      BitAndBits(a, b, i);
    } else {
      forall i: nat ensures !(Bit(a, i) && Bit(b, i)) {
        BitAndBits(a, b, i);
        ZeroHasNoBits(i);
      }
    }
  }

  lemma BitAndOdd(a: nat, h: nat, b: nat, k: nat, m: nat)
    requires a == 2 * h + b && b < 2 && k == 2 * m + 1
    ensures BitAnd(a, k) == 2 * BitAnd(h, m) + b
  {
    assert a / 2 == h && k / 2 == m;
    if h == 0 { assert BitAnd(h, m) == 0; }
  }

  lemma RemainderUnique(a: nat, q: nat, r: nat)
    requires a == 16 * q + r && r < 16
    ensures a % 16 == r
  {
  }

  /** `a & 0xF` is the remainder modulo 16. */
  lemma BitAndLowNibble(a: nat)
    ensures BitAnd(a, 0xF) == a % 16
  {
    var h1, b0 := a / 2, a % 2;
    var h2, b1 := h1 / 2, h1 % 2;
    var h3, b2 := h2 / 2, h2 % 2;
    var h4, b3 := h3 / 2, h3 % 2;
    RemainderUnique(a, h4, 8 * b3 + 4 * b2 + 2 * b1 + b0);
    BitAndOdd(a, h1, b0, 15, 7);
    BitAndOdd(h1, h2, b1, 7, 3);
    BitAndOdd(h2, h3, b2, 3, 1);
    BitAndOdd(h3, h4, b3, 1, 0);
  }

  /** `x << k` without loss. */
  function Shl(x: nat, k: nat): nat { if k == 0 then x else 2 * Shl(x, k - 1) }

  lemma {:induction false} ShiftedBits(x: nat, k: nat, i: nat)
    ensures Bit(Shl(x, k), i) <==> i >= k && Bit(x, i - k)
  {
    if k > 0 && i > 0 { ShiftedBits(x, k - 1, i - 1); }
  }

  lemma {:induction false} HighBitsClear(x: nat, n: nat, i: nat)
    requires x < Shl(1, n) && n <= i
    ensures !Bit(x, i)
  {
    if n == 0 {
      ZeroHasNoBits(i);
    } else {
      HighBitsClear(x / 2, n - 1, i - 1);
    }
  }
}
