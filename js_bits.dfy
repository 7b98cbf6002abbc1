/** JavaScript's 32-bit integer operators, as far as the serial element's
    mask `data & ((1 << bitWidth) - 1)` needs them. The operands of `<<`
    and `&` are converted to signed 32-bit integers, a shift count is taken
    modulo 32, and the result of either operator is a signed 32-bit
    integer; the `- 1` in between is ordinary number arithmetic. */
module JsBits {

  const TWO_31: int := 0x8000_0000
  const TWO_32: int := 0x1_0000_0000

  function Pow2(k: nat): (r: nat)
    ensures r >= 1
  {
    if k == 0 then 1 else 2 * Pow2(k - 1)
  }

  /** The conversion JavaScript applies to an operand before a bitwise
      operator, read as an unsigned 32-bit pattern. */
  function ToUint32(x: int): nat
  {
    x % TWO_32
  }

  /** The same conversion read as a signed 32-bit integer. */
  function ToInt32(x: int): int
  {
    var m := x % TWO_32;
    if m >= TWO_31 then m - TWO_32 else m
  }

  /** `a << b` for a non-negative shift count `b`. */
  function ShiftLeft(a: int, b: nat): int
  {
    ToInt32(ToInt32(a) * Pow2(b % 32))
  }

  /** Bitwise AND of two non-negative integers, bit by bit from the lowest. */
  function AndBits(a: nat, b: nat): nat
    decreases a
  {
    if a == 0 || b == 0 then 0
    else 2 * AndBits(a / 2, b / 2) + (if a % 2 == 1 && b % 2 == 1 then 1 else 0)
  }

  /** `a & b`: AND of the two 32-bit patterns, read back as a signed integer. */
  function BitAnd(a: int, b: int): int
  {
    ToInt32(AndBits(ToUint32(a), ToUint32(b)))
  }

  /** `data & ((1 << width) - 1)`, exactly as JavaScript evaluates it. */
  function JsMask(data: int, width: nat): int
  {
    BitAnd(data, ShiftLeft(1, width) - 1)
  }

  lemma MulAtLeast(d: int, k: int)
    requires d > 0 && k >= 1
    ensures d * k >= d
  {
  }

  /** Euclidean division has only one remainder. */
  lemma ModUnique(a: int, d: int, q: int, r: int)
    requires d > 0 && 0 <= r < d && a == d * q + r
    ensures a % d == r
  {
    var q0, r0 := a / d, a % d;
    assert a == d * q0 + r0;
    var k := q - q0;
    assert d * q - d * q0 == d * k;
    if k >= 1 {
      MulAtLeast(d, k);
    } else if k <= -1 {
      MulAtLeast(d, -k);
    }
  }

  /** Splitting off the lowest bit of a remainder modulo an even number. */
  lemma ModHalving(a: nat, p: nat)
    requires p >= 1
    ensures a % (2 * p) == 2 * ((a / 2) % p) + a % 2
  {
    var h := a / 2;
    var q, u := h / p, h % p;
    assert h == p * q + u;
    assert 2 * (p * q) == (2 * p) * q;
    assert a == (2 * p) * q + (2 * u + a % 2);
    ModUnique(a, 2 * p, q, 2 * u + a % 2);
  }

  lemma AndBitsOdd(a: nat, m: nat)
    requires a > 0 && m % 2 == 1
    ensures AndBits(a, m) == 2 * AndBits(a / 2, m / 2) + a % 2
  {
  }

  /** AND with a run of `s` low one-bits keeps exactly the `s` low bits. */
  lemma {:induction false} AndBitsLowMask(a: nat, s: nat)
    ensures AndBits(a, Pow2(s) - 1) == a % Pow2(s)
  {
    if s == 0 {
      assert Pow2(s) == 1;
    } else if a == 0 {
      assert AndBits(a, Pow2(s) - 1) == 0;
    } else {
      var p := Pow2(s - 1);
      var m := 2 * p - 1;
      assert Pow2(s) == 2 * p;
      assert m / 2 == p - 1 && m % 2 == 1;
      AndBitsOdd(a, m);
      AndBitsLowMask(a / 2, s - 1);
      ModHalving(a, p);
      calc {
        AndBits(a, Pow2(s) - 1);
        AndBits(a, m);
        2 * AndBits(a / 2, p - 1) + a % 2;
        2 * ((a / 2) % p) + a % 2;
        a % (2 * p);
      }
    }
  }

  lemma {:induction false} Pow2Monotone(j: nat, k: nat)
    requires j <= k
    ensures Pow2(j) <= Pow2(k)
  {
    if j < k {
      Pow2Monotone(j, k - 1);
    }
  }

  lemma {:induction false} Pow2Add(j: nat, k: nat)
    ensures Pow2(j + k) == Pow2(j) * Pow2(k)
  {
    if k > 0 {
      Pow2Add(j, k - 1);
      assert Pow2(j + k) == 2 * Pow2(j + k - 1);
    }
  }

  lemma Pow2Values()
    ensures Pow2(8) == 256 && Pow2(30) == 0x4000_0000 && Pow2(31) == TWO_31
  {
    assert Pow2(10) == 1024;
    Pow2Add(10, 10);
    Pow2Add(20, 10);
  }

  lemma {:induction false} AndBitsAtMost(a: nat, b: nat)
    ensures AndBits(a, b) <= a
  {
    if a != 0 && b != 0 {
      AndBitsAtMost(a / 2, b / 2);
    }
  }

  /** `(1 << s) - 1` read as a 32-bit pattern is 2^s - 1, for every count
      0..31; at 31 the sign bit that `1 << 31` produces is cleared again
      by the `- 1`. */
  lemma LowOnesPattern(width: nat)
    ensures ToUint32(ShiftLeft(1, width) - 1) == Pow2(width % 32) - 1
  {
    var s := width % 32;
    Pow2Values();
    var p := Pow2(s);
    if s <= 30 {
      Pow2Monotone(s, 30);
      assert ToInt32(1) == 1;
      assert ToInt32(p) == p;
    } else {
      assert ToInt32(TWO_31) == -TWO_31;
    }
  }

  lemma SmallConversions(x: int)
    requires 0 <= x < TWO_31
    ensures ToUint32(x) == x && ToInt32(x) == x
  {
  }

  lemma AndByteWithLowOnes(data: int, x: int, s: nat)
    requires 0 <= data < 256 && ToUint32(x) == Pow2(s) - 1
    ensures BitAnd(data, x) == data % Pow2(s)
  {
    var bits := AndBits(data, Pow2(s) - 1);
    SmallConversions(data);
    AndBitsAtMost(data, Pow2(s) - 1);
    SmallConversions(bits);
    assert BitAnd(data, x) == bits;
    AndBitsLowMask(data, s);
  }

  /** For a byte, the JavaScript mask keeps the low `width % 32` bits. */
  lemma MaskIsMod(data: int, width: nat)
    requires 0 <= data < 256
    ensures JsMask(data, width) == data % Pow2(width % 32)
  {
    LowOnesPattern(width);
    AndByteWithLowOnes(data, ShiftLeft(1, width) - 1, width % 32);
  }

  /** For the widths 1 to 31 the stored value is the byte modulo 2^width,
      below 2^width, and from width 8 on the byte itself. */
  lemma MaskWithinWidth(data: int, width: nat)
    requires 0 <= data < 256 && 1 <= width <= 31
    ensures JsMask(data, width) == data % Pow2(width)
    ensures 0 <= JsMask(data, width) < Pow2(width)
    ensures width >= 8 ==> JsMask(data, width) == data
  {
    assert width % 32 == width;
    MaskIsMod(data, width);
    if width >= 8 {
      Pow2Values();
      Pow2Monotone(8, width);
      ModUnique(data, Pow2(width), 0, data);
    }
  }

  /** In JavaScript `1 << 32` is 1, so at width 32 the mask is 0 and every
      byte is stored as 0. */
  lemma MaskAtWidth32(data: int)
    requires 0 <= data < 256
    ensures JsMask(data, 32) == 0
  {
    MaskIsMod(data, 32);
  }
}
