/**
 * Fixed-width machine integers, bitwise AND on naturals, and big-endian
 * byte strings: the arithmetic the counter encoding and the dynamic
 * truncation are built from.
 */
module Bits {

  /** Swift's `UInt8`, one element of a `Data` value. */
  type Byte = x: nat | x < 0x100

  /** Swift's `UInt32`. */
  type UInt32 = x: nat | x < 0x1_0000_0000

  /** Swift's `UInt64`. */
  type UInt64 = x: nat | x < 0x1_0000_0000_0000_0000

  /** Swift's `Int` on a 64-bit platform. */
  type Int64 = x: int | -0x8000_0000_0000_0000 <= x < 0x8000_0000_0000_0000

  function Pow2(k: nat): (r: nat)
    ensures r >= 1
  {
    if k == 0 then 1 else 2 * Pow2(k - 1)
  }

  function Pow256(k: nat): (r: nat)
    ensures r >= 1
  {
    if k == 0 then 1 else 256 * Pow256(k - 1)
  }

  /**
   * The `&` operator on unsigned integers: bit i of the result is set
   * exactly when bit i is set in both operands.
   */
  function BitAnd(a: nat, b: nat): (r: nat)
    ensures r <= a && r <= b
    decreases a
  {
    if a == 0 || b == 0 then 0
    else 2 * BitAnd(a / 2, b / 2) + (if a % 2 == 1 && b % 2 == 1 then 1 else 0)
  }

  /** Splitting a remainder modulo m * p into its low digit in base m and the rest. */
  lemma ModSplit(x: nat, m: nat, p: nat)
    requires m >= 1 && p >= 1
    ensures x % (m * p) == m * ((x / m) % p) + x % m
  {
    var q, r := x / m, x % m;
    var a, b := q / p, q % p;
    Compose(x, m, p, q, r, a, b);
    ModUnique(x, m * p, a, m * b + r);
  }

  /** Two Euclidean divisions in a row are one division by the product. */
  lemma Compose(x: nat, m: nat, p: nat, q: nat, r: nat, a: nat, b: nat)
    requires x == m * q + r && r < m && q == p * a + b && b < p
    ensures x == (m * p) * a + (m * b + r) && m * b + r < m * p
  {
    MulDistrib(m, p, a, b);
    MulStep(m, b, p);
  }

  lemma ModUnique(x: nat, n: nat, a: nat, c: nat)
    requires n >= 1 && c < n && x == n * a + c
    ensures x % n == c && x / n == a
  {
    var q, r := x / n, x % n;
    assert x == n * q + r && r < n;
    if q > a {
      MulStep(n, a, q);
      assert false;
    } else if q < a {
      MulStep(n, q, a);
      assert false;
    }
  }

  lemma MulStep(n: nat, a: nat, b: nat)
    requires a < b
    ensures n * a + n <= n * b
  {
    var d := b - a - 1;
    assert n * b == n * a + n * d + n;
    assert n * d >= 0;
  }

  lemma MulDistrib(m: nat, p: nat, a: nat, b: nat)
    ensures m * (p * a + b) == (m * p) * a + m * b
  {
  }

  /** x % n is what is left of x after taking out a multiple of n. */
  lemma ModRemainder(x: nat, n: nat)
    requires n >= 1
    ensures x % n <= x && (x - x % n) % n == 0
    ensures x < n ==> x % n == x
  {
    ModUnique(x - x % n, n, x / n, 0);
    if x < n {
      ModUnique(x, n, 0, x);
    }
  }

  /** Masking with 2^k - 1 keeps exactly the k low-order bits. */
  lemma BitAndLowMask(x: nat, k: nat)
    ensures BitAnd(x, Pow2(k) - 1) == x % Pow2(k)
  {
    BitAndIsLowBits(x, k);
    LowBitsIsMod(x, k);
  }

  /** The k low-order bits of x, taken one at a time from the bottom. */
  function LowBits(x: nat, k: nat): (r: nat)
  {
    if k == 0 || x == 0 then 0 else 2 * LowBits(x / 2, k - 1) + x % 2
  }

  lemma {:induction false} BitAndIsLowBits(x: nat, k: nat)
    ensures BitAnd(x, Pow2(k) - 1) == LowBits(x, k)
  {
    if k > 0 && x > 0 {
      var q := Pow2(k);
      assert (q - 1) / 2 == Pow2(k - 1) - 1 && (q - 1) % 2 == 1;
      BitAndOddMask(x, q - 1);
      BitAndIsLowBits(x / 2, k - 1);
    }
  }

  lemma {:induction false} LowBitsIsMod(x: nat, k: nat)
    ensures LowBits(x, k) == x % Pow2(k)
  {
    if k == 0 {
      ModUnique(x, 1, x, 0);
    } else if x == 0 {
      ModUnique(0, Pow2(k), 0, 0);
    } else {
      var p := Pow2(k - 1);
      LowBitsIsMod(x / 2, k - 1);
      ModSplit(x, 2, p);
      assert Pow2(k) == 2 * p;
    }
  }

  /** One step of `&` against a mask whose low bit is set. */
  lemma BitAndOddMask(x: nat, mask: nat)
    requires x > 0 && mask % 2 == 1
    ensures BitAnd(x, mask) == 2 * BitAnd(x / 2, mask / 2) + x % 2
  {
  }

  lemma {:induction false} Pow2Add(a: nat, b: nat)
    ensures Pow2(a + b) == Pow2(a) * Pow2(b)
  {
    if a > 0 {
      var x, y := Pow2(a - 1), Pow2(b);
      Pow2Add(a - 1, b);
      DoubleProduct(x, y);
    }
  }

  lemma DoubleProduct(x: nat, y: nat)
    ensures (2 * x) * y == 2 * (x * y)
  {
  }

  /** The mask 0x7FFF_FFFF is 2^31 - 1. */
  lemma Pow2ThirtyOne()
    ensures Pow2(31) == 0x8000_0000
  {
    assert Pow2(8) == 0x100 by {
      Pow2Add(4, 4);
    }
    assert Pow2(16) == 0x1_0000 by {
      Pow2Add(8, 8);
    }
    assert Pow2(24) == 0x100_0000 by {
      Pow2Add(16, 8);
    }
    Pow2Add(24, 7);
  }

  /** The value of a byte string read most-significant byte first. */
  function BeValue(s: seq<Byte>): (r: nat)
    ensures r < Pow256(|s|)
  {
    if s == [] then 0
    else
      var r0 := BeValue(s[..|s| - 1]);
      assert r0 * 256 <= (Pow256(|s| - 1) - 1) * 256;
      r0 * 256 + s[|s| - 1]
  }

  /** The `width` low-order bytes of n, most significant first. */
  function BeBytes(n: nat, width: nat): (s: seq<Byte>)
    ensures |s| == width
  {
    if width == 0 then [] else BeBytes(n / 256, width - 1) + [n % 256]
  }

  lemma DivDiv(n: nat, a: nat, b: nat)
    requires a >= 1 && b >= 1
    ensures n / a / b == n / (a * b)
  {
    var q := n / a;
    var x, y := q / b, q % b;
    assert n == (a * b) * x + (a * y + n % a) by {
      assert n == a * q + n % a;
      assert q == b * x + y;
      MulDistrib(a, b, x, y);
    }
    assert a * y + n % a < a * b by {
      MulStep(a, y, b);
    }
    ModUnique(n, a * b, x, a * y + n % a);
  }

  /** Byte i of the encoding is digit 7 - i (for width 8) of n in base 256. */
  lemma {:induction false} BeBytesAt(n: nat, width: nat, i: nat)
    requires i < width
    ensures BeBytes(n, width)[i] == (n / Pow256(width - 1 - i)) % 256
  {
    if i < width - 1 {
      BeBytesAt(n / 256, width - 1, i);
      DivDiv(n, 256, Pow256(width - 2 - i));
    }
  }

  /** Encoding then decoding keeps the value modulo 256^width. */
  lemma {:induction false} BeValueOfBytes(n: nat, width: nat)
    ensures BeValue(BeBytes(n, width)) == n % Pow256(width)
  {
    if width > 0 {
      var s := BeBytes(n, width);
      assert s[..width - 1] == BeBytes(n / 256, width - 1);
      BeValueOfBytes(n / 256, width - 1);
      ModSplit(n, 256, Pow256(width - 1));
    }
  }

  /** Decoding then re-encoding at the same width gives back the bytes. */
  lemma {:induction false} BeBytesOfValue(s: seq<Byte>)
    ensures BeBytes(BeValue(s), |s|) == s
  {
    if s != [] {
      var pre, v := s[..|s| - 1], BeValue(s);
      ModUnique(v, 256, BeValue(pre), s[|s| - 1]);
      BeBytesOfValue(pre);
      assert s == pre + [s[|s| - 1]];
    }
  }

  /** Reading a + b is reading a, shifted past the bytes of b, plus reading b. */
  lemma {:induction false} BeValueAppend(a: seq<Byte>, b: seq<Byte>)
    ensures BeValue(a + b) == BeValue(a) * Pow256(|b|) + BeValue(b)
  {
    if b == [] {
      assert a + b == a;
    } else {
      var pre := b[..|b| - 1];
      assert (a + b)[..|a + b| - 1] == a + pre;
      BeValueAppend(a, pre);
      ShiftByte(BeValue(a), Pow256(|pre|), BeValue(pre));
    }
  }

  /** Prepending a byte adds it at the top. */
  lemma BeValueCons(b: Byte, t: seq<Byte>)
    ensures BeValue([b] + t) == b * Pow256(|t|) + BeValue(t)
  {
    assert BeValue([b]) == b by {
      assert [b][..0] == [];
    }
    BeValueAppend([b], t);
  }

  lemma ShiftByte(x: nat, p: nat, y: nat)
    ensures (x * p + y) * 256 == x * (256 * p) + y * 256
  {
  }

  lemma MulAtLeast(x: nat, p: nat)
    requires p >= 1
    ensures x <= x * p
  {
    MulStep(x, 0, p);
  }

  /** Appending a byte shifts the value left by eight bits. */
  lemma BeValueSnoc(s: seq<Byte>, b: Byte)
    ensures BeValue(s + [b]) == BeValue(s) * 256 + b
  {
    assert (s + [b])[..|s|] == s;
  }
}
