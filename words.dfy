/** Unsigned 8-bit and 32-bit integers and the three operations ChaCha20 is
    built from: addition modulo 2^32 (Rust's wrapping_add), exclusive-or, and
    rotation to the left (Rust's rotate_left). Values are integers in range;
    the operations are defined arithmetically, bit by bit where needed. */
module Words {

  type Byte = x: int | 0 <= x < 0x100
  type Word = x: int | 0 <= x < 0x1_0000_0000

  /** 2 to the power n. */
  function Pow2(n: nat): (p: nat)
    ensures p >= 1
  {
    if n == 0 then 1 else 2 * Pow2(n - 1)
  }

  lemma Pow2Values()
    ensures Pow2(8) == 0x100 && Pow2(32) == 0x1_0000_0000
  {
    assert Pow2(4) == 16;
    assert Pow2(8) == 256;
    assert Pow2(12) == 0x1000;
    assert Pow2(16) == 0x1_0000;
    assert Pow2(20) == 0x10_0000;
    assert Pow2(24) == 0x100_0000;
    assert Pow2(28) == 0x1000_0000;
  }

  // ---------------------------------------------------------------------------
  // Exclusive-or
  // ---------------------------------------------------------------------------

  /** Bitwise exclusive-or of two naturals: the lowest bit is the parity of
      the two lowest bits, the rest is the exclusive-or of the halves. */
  function Xor(x: nat, y: nat): nat
    decreases x + y
  {
    if x == 0 then y
    else if y == 0 then x
    else 2 * Xor(x / 2, y / 2) + (x + y) % 2
  }

  /** The bit-by-bit characterisation of Xor, including the cases where one
      operand is zero. */
  lemma XorBits(x: nat, y: nat)
    ensures Xor(x, y) / 2 == Xor(x / 2, y / 2)
    ensures Xor(x, y) % 2 == (x + y) % 2
  {
    if x == 0 {
      assert Xor(x / 2, y / 2) == y / 2;
    } else if y == 0 {
      assert Xor(x / 2, y / 2) == x / 2;
    }
  }

  /** The exclusive-or of two n-bit numbers has at most n bits. */
  lemma {:induction false} XorBound(x: nat, y: nat, n: nat)
    requires x < Pow2(n) && y < Pow2(n)
    ensures Xor(x, y) < Pow2(n)
  {
    if x != 0 && y != 0 {
      XorBound(x / 2, y / 2, n - 1);
    }
  }

  /** Exclusive-or with the same value twice gives back the original. */
  lemma {:induction false} XorCancel(x: nat, y: nat)
    ensures Xor(Xor(x, y), y) == x
    decreases x + y
  {
    if x + y > 0 {
      var z := Xor(x, y);
      XorBits(x, y);
      XorBits(z, y);
      XorCancel(x / 2, y / 2);
      var w := Xor(z, y);
      assert w / 2 == x / 2;
      ParityCancel(x, y, z);
      SameBits(w, x);
    }
  }

  lemma ParityCancel(x: nat, y: nat, z: nat)
    requires z % 2 == (x + y) % 2
    ensures (z + y) % 2 == x % 2
  {
  }

  /** A natural is determined by its half and its lowest bit. */
  lemma SameBits(a: nat, b: nat)
    requires a / 2 == b / 2 && a % 2 == b % 2
    ensures a == b
  {
  }

  /** Exclusive-or does not depend on the order of its operands. */
  lemma {:induction false} XorCommutes(x: nat, y: nat)
    ensures Xor(x, y) == Xor(y, x)
    decreases x + y
  {
    if x != 0 && y != 0 {
      XorCommutes(x / 2, y / 2);
    }
  }

  /** u8 ^ u8: the exclusive-or of two bytes is a byte (XorBound). */
  function ByteXor(x: Byte, y: Byte): Byte
  {
    Pow2Values();
    XorBound(x, y, 8);
    Xor(x, y)
  }

  /** u32 ^ u32: the exclusive-or of two words is a word (XorBound). */
  function WordXor(x: Word, y: Word): Word
  {
    Pow2Values();
    XorBound(x, y, 32);
    Xor(x, y)
  }

  // ---------------------------------------------------------------------------
  // Addition and rotation
  // ---------------------------------------------------------------------------

  /** Addition modulo 2^32 (wrapping_add on u32). */
  function WrappingAdd(x: Word, y: Word): Word
  {
    (x + y) % 0x1_0000_0000
  }

  /** wrapping_add is the plain sum when that fits in 32 bits, and the sum
      less 2^32 when it does not. */
  lemma WrappingAddCases(x: Word, y: Word)
    ensures x + y < 0x1_0000_0000 ==> WrappingAdd(x, y) == x + y
    ensures x + y >= 0x1_0000_0000 ==> WrappingAdd(x, y) == x + y - 0x1_0000_0000
  {
  }

  /** Rotation by one bit: every bit moves one place up and the top bit
      comes round to the bottom. */
  function RotateLeft1(x: Word): Word
  {
    (2 * x) % 0x1_0000_0000 + x / 0x8000_0000
  }

  /** Rotation by n bits to the left (rotate_left on u32). */
  function RotateLeft(x: Word, n: nat): Word
    decreases n
  {
    if n == 0 then x else RotateLeft(RotateLeft1(x), n - 1)
  }

  /** Subtraction modulo 2^32 (wrapping_sub on u32), the inverse of WrappingAdd. */
  function WrappingSub(x: Word, y: Word): Word
  {
    (x - y) % 0x1_0000_0000
  }

  lemma WrappingAddSub(x: Word, y: Word)
    ensures WrappingSub(WrappingAdd(x, y), y) == x
  {
    if x + y >= 0x1_0000_0000 {
      assert WrappingAdd(x, y) == x + y - 0x1_0000_0000;
    }
  }

  /** Rotation by one bit to the right: the lowest bit comes round to the top. */
  function RotateRight1(x: Word): Word
  {
    x / 2 + (x % 2) * 0x8000_0000
  }

  lemma RotateLeft1Right1(x: Word)
    ensures RotateLeft1(RotateRight1(x)) == x
  {
    var y: int := RotateRight1(x);
    var b: int := x % 2;
    assert 2 * y == x - b + b * 0x1_0000_0000;
    assert (2 * y) % 0x1_0000_0000 == x - b;
    assert y / 0x8000_0000 == b;
  }

  /** Rotation by n bits to the right (rotate_right on u32). */
  function RotateRight(x: Word, n: nat): Word
    decreases n
  {
    if n == 0 then x else RotateRight1(RotateRight(x, n - 1))
  }

  lemma RotateRight1Left1(x: Word)
    ensures RotateRight1(RotateLeft1(x)) == x
  {
    var hi: int := x / 0x8000_0000;
    var lo: int := x % 0x8000_0000;
    assert x == hi * 0x8000_0000 + lo && (hi == 0 || hi == 1);
    assert (2 * x) % 0x1_0000_0000 == 2 * lo;
  }

  /** Rotating left by n bits and then right by n bits gives back the word. */
  lemma {:induction false} RotateRightLeft(x: Word, n: nat)
    ensures RotateRight(RotateLeft(x, n), n) == x
    decreases n
  {
    if n > 0 {
      RotateRightLeft(RotateLeft1(x), n - 1);
      RotateRight1Left1(x);
    }
  }

  /** Rotating right by n bits and then left by n bits gives back the word. */
  lemma {:induction false} RotateLeftRight(x: Word, n: nat)
    ensures RotateLeft(RotateRight(x, n), n) == x
  {
    if n > 0 {
      var z := RotateRight(x, n - 1);
      RotateLeft1Right1(z);
      RotateLeftRight(x, n - 1);
    }
  }

  /** Pow2 turns sums into products. */
  lemma {:induction false} Pow2Add(m: nat, n: nat)
    ensures Pow2(m + n) == Pow2(m) * Pow2(n)
  {
    if m > 0 {
      Pow2Add(m - 1, n);
    }
  }

  /** Quotient and remainder are the only q and r with x == q * d + r and 0 <= r < d. */
  lemma DivModUnique(x: int, d: int, q: int, r: int)
    requires d > 0 && 0 <= r < d && x == q * d + r
    ensures x / d == q && x % d == r
  {
    var q0 := x / d;
    var r0 := x % d;
    assert (q - q0) * d == r0 - r;
    if q > q0 {
      MulAtLeast(q - q0, d);
    } else if q < q0 {
      MulAtLeast(q0 - q, d);
    }
  }

  lemma MulAtLeast(a: int, d: int)
    requires a >= 1 && d > 0
    ensures a * d >= d
  {
  }

  /** Rotating by one more bit is one more one-bit rotation of the result. */
  lemma {:induction false} RotateLeftSucc(x: Word, n: nat)
    ensures RotateLeft(x, n + 1) == RotateLeft1(RotateLeft(x, n))
    decreases n
  {
    if n > 0 {
      RotateLeftSucc(RotateLeft1(x), n - 1);
    }
  }

  /** rotate_left(n) for n up to 32 is (x << n) | (x >> (32 - n)): the low
      32 - n bits move up n places and the top n bits come round to the
      bottom. */
  lemma {:induction false} RotateLeftValue(x: Word, n: nat)
    requires n <= 32
    ensures RotateLeft(x, n) == (x % Pow2(32 - n)) * Pow2(n) + x / Pow2(32 - n)
  {
    Pow2Values();
    if n == 0 {
      assert x % Pow2(32) == x && x / Pow2(32) == 0;
    } else {
      RotateLeftValue(x, n - 1);
      RotateLeftSucc(x, n - 1);
      Pow2Add(n - 1, 32 - n + 1);
      assert n - 1 + (32 - n + 1) == 32;
      assert Pow2(32 - (n - 1)) == 2 * Pow2(32 - n);
      RotateLeft1Value(x, Pow2(n - 1), Pow2(32 - n), RotateLeft(x, n - 1));
    }
  }

  /** The induction step of RotateLeftValue: with p * 2q == 2^32, one more
      one-bit rotation of y == (x % 2q) * p + x / 2q is (x % q) * 2p + x / q. */
  lemma RotateLeft1Value(x: Word, p: nat, q: nat, y: Word)
    requires p >= 1 && q >= 1 && p * (2 * q) == 0x1_0000_0000
    requires y == (x % (2 * q)) * p + x / (2 * q)
    ensures RotateLeft1(y) == (x % q) * (2 * p) + x / q
  {
    var lo := x % (2 * q);
    var hi := x / (2 * q);
    DivModFacts(x, 2 * q);
    MulComm3(hi, 2, q);
    assert 0 <= hi < p by {
      if hi >= p {
        MulLe(p, hi, 2 * q);
      } else if hi < 0 {
        MulLe(hi, -1, 2 * q);
      }
    }
    var t := lo / q;
    var lo' := lo % q;
    DivModFacts(lo, q);
    assert t == 0 || t == 1 by {
      if t >= 2 {
        MulLe(2, t, q);
      } else if t < 0 {
        MulLe(t, -1, q);
      }
    }
    MulDistrib(2 * hi, t, q);
    DivModUnique(x, q, 2 * hi + t, lo');
    var m := q * p;
    MulComm3(p, 2, q);
    var a := lo' * p;
    MulLe(lo', q - 1, p);
    MulLe(0, lo', p);
    MulDistrib(q, -1, p);
    MulDistrib(t * q, lo', p);
    MulComm3(t, q, p);
    assert m == 0x8000_0000 && 0 <= a <= m - p;
    assert y == t * m + a + hi;
    RotateLeft1Split(y, t, a, hi, p);
    MulComm3(lo', 2, p);
  }

  lemma DivModFacts(x: int, d: int)
    requires d > 0
    ensures x == (x / d) * d + x % d && 0 <= x % d < d
  {
  }

  lemma MulDistrib(a: int, b: int, c: int)
    ensures (a + b) * c == a * c + b * c
  {
  }

  /** (a * b) * c == a * (b * c), with the factors b and c also swapped. */
  lemma MulComm3(a: int, b: int, c: int)
    ensures (a * b) * c == a * (b * c) && a * (b * c) == a * (c * b) && (a * b) * c == b * (a * c)
  {
  }

  /** The arithmetic of RotateLeft1Value once the products are named:
      y == t * 2^31 + a + hi with a + hi below 2^31. */
  lemma RotateLeft1Split(y: Word, t: int, a: int, hi: int, p: int)
    requires (t == 0 || t == 1) && 0 <= a <= 0x8000_0000 - p && 0 <= hi < p
    requires y == t * 0x8000_0000 + a + hi
    ensures RotateLeft1(y) == 2 * a + 2 * hi + t
  {
    DivModUnique(y, 0x8000_0000, t, a + hi);
    DivModUnique(2 * y, 0x1_0000_0000, t, 2 * a + 2 * hi);
  }

  lemma MulLe(a: int, b: int, c: nat)
    requires a <= b
    ensures a * c <= b * c
  {
  }
}
