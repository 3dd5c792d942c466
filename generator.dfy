/**
 * `TOTPGenerator`: the configuration (time step, digit count) and the
 * derivation steps of HOTP (RFC 4226) and TOTP (RFC 6238): the counter for
 * a time, the keyed hash, dynamic truncation and the decimal modulus.
 */
module TotpGenerator {
  import opened Bits
  import opened Decimal
  import opened TotpKey
  import opened TotpCounter

  /** Both fields are Swift `Int`s that the initialiser stores unchecked. */
  datatype Generator = Generator(timeStep: Int64, digit: Int64)

  const StandardTimeStep: Int64 := 30
  const StandardDigit: Int64 := 6

  /** `init(timeStep:digit:)`, with the standard values as defaults. */
  function Init(timeStep: Int64 := StandardTimeStep, digit: Int64 := StandardDigit): (g: Generator)
    ensures g.timeStep == timeStep && g.digit == digit
  {
    Generator(timeStep, digit)
  }

  /** `standard`. */
  const Standard: Generator := Init()

  /**
   * The standard generator steps every 30 seconds and shows 6 digits, so
   * its counter never divides by zero and its digit mask is 10^6.
   */
  lemma StandardConfiguration()
    ensures Standard.timeStep == 30 && Standard.digit == 6
    ensures 0 < Standard.timeStep && 0 <= Standard.digit <= 9
    ensures DigitMaskOf(Standard) == 1000000
  {
  }

  /** `counter(for:)`: the number of whole time steps up to `seconds`. */
  function CounterFor(generator: Generator, seconds: UInt64): (c: Counter)
    requires 0 < generator.timeStep
    ensures |c.data| == 8 && BeValue(c.data) < UInt64Bound
    ensures Value(c) == seconds / generator.timeStep
  {
    FromTime(seconds, generator.timeStep)
  }

  /** The message `makeValue` hashes is the 8-byte big-endian step count. */
  lemma CounterForBytes(generator: Generator, seconds: UInt64)
    requires 0 < generator.timeStep
    ensures CounterFor(generator, seconds).data == BeBytes(seconds / generator.timeStep, 8)
  {
    var c := CounterFor(generator, seconds);
    FromIntegerOfValue(c);
  }

  /** The output of HMAC-SHA1: 20 bytes. */
  type Digest = s: seq<Byte> | |s| == 20 witness seq(20, _ => 0)

  /**
   * HMAC-SHA1 from the crypto library, given the key bytes and the
   * message bytes. The model takes it as a parameter and assumes nothing
   * about it beyond the digest length.
   */
  type HmacSha1 = (seq<Byte>, seq<Byte>) -> Digest

  /** `hashedAuthenticationCode(for:key:)`. */
  function HashedAuthenticationCode(message: seq<Byte>, key: Key, hmac: HmacSha1): (d: Digest)
    ensures |d| == 20
    ensures d == hmac(key.rawValue, message)
  {
    hmac(key.rawValue, message)
  }

  /** `targetOffsetOfHashedAuthenticationCode`: the low nibble of the last byte. */
  function TargetOffset(code: seq<Byte>): (offset: Byte)
    requires 0 < |code|
    ensures offset < 16
    ensures offset == code[|code| - 1] % 16
  {
    BitAndLowMask(code[|code| - 1], 4);
    BitAnd(code[|code| - 1], 0x0F)
  }

  /**
   * `targetCodePartOfHashedAuthenticationCode`: the four bytes at `offset`
   * loaded as a `UInt32` and converted from big-endian.
   */
  function TargetCodePart(code: seq<Byte>, offset: Byte): (part: UInt32)
    requires offset as int + 4 <= |code|
    ensures part == BeValue(code[offset..offset + 4])
  {
    var w := code[offset..offset + 4];
    assert w == [w[0]] + [w[1]] + [w[2]] + [w[3]];
    BeValueSnoc([], w[0]);
    BeValueSnoc([w[0]], w[1]);
    BeValueSnoc([w[0], w[1]], w[2]);
    BeValueSnoc([w[0], w[1], w[2]], w[3]);
    (code[offset] as nat) * 0x100_0000 + (code[offset + 1] as nat) * 0x1_0000
      + (code[offset + 2] as nat) * 0x100 + code[offset + 3]
  }

  /** The four bytes loaded are exactly the 4-byte big-endian encoding of the part. */
  lemma TargetCodePartBytes(code: seq<Byte>, offset: Byte)
    requires offset as int + 4 <= |code|
    ensures BeBytes(TargetCodePart(code, offset), 4) == code[offset..offset + 4]
  {
    BeBytesOfValue(code[offset..offset + 4]);
  }

  /** The load in TargetCodePart stays inside any digest of 19 bytes or more. */
  lemma TargetInBounds(code: seq<Byte>)
    requires 19 <= |code|
    ensures TargetOffset(code) as int + 4 <= |code|
  {
  }

  /**
   * `truncatingHashedAuthenticationCode`: dynamic truncation as in section
   * 5.3 of RFC 4226. The source's precondition demands a non-empty code;
   * the load it performs demands four bytes from the offset on.
   */
  function Truncate(code: seq<Byte>): (r: UInt32)
    requires 0 < |code| && TargetOffset(code) as int + 4 <= |code|
    ensures r < 0x8000_0000
    ensures r == TargetCodePart(code, TargetOffset(code)) % 0x8000_0000
  {
    var part := TargetCodePart(code, TargetOffset(code));
    BitAndLowMask(part, 31);
    Pow2ThirtyOne();
    BitAnd(part, 0x7FFF_FFFF)
  }

  /**
   * Truncation is the big-endian reading of the four selected bytes with
   * bit 7 of the first one cleared.
   */
  lemma TruncateClearsTopBit(code: seq<Byte>)
    requires 0 < |code| && TargetOffset(code) as int + 4 <= |code|
    ensures var o := TargetOffset(code);
      Truncate(code) == BeValue([code[o] % 0x80] + code[o + 1..o + 4])
  {
    var o := TargetOffset(code);
    var w := code[o..o + 4];
    TopByteMasked(w);
    assert w[0] == code[o] && w[1..] == code[o + 1..o + 4];
  }

  /** Clearing bit 31 of a 4-byte big-endian word clears bit 7 of its first byte. */
  lemma TopByteMasked(w: seq<Byte>)
    requires |w| == 4
    ensures BeValue(w) % 0x8000_0000 == BeValue([w[0] % 0x80] + w[1..])
  {
    var b, rest := w[0], w[1..];
    var low := BeValue(rest);
    assert w == [b] + rest;
    TopByteValue(b, rest);
    TopByteValue(b % 0x80, rest);
    var full := b as nat * 0x100_0000 + low;
    assert BeValue(w) == full;
    ClearTopBit(b, low);
    assert full % 0x8000_0000 == (b as nat % 0x80) * 0x100_0000 + low;
  }

  /** A 4-byte word is its first byte times 2^24 plus the other three. */
  lemma TopByteValue(b: Byte, rest: seq<Byte>)
    requires |rest| == 3
    ensures BeValue(rest) < 0x100_0000
    ensures BeValue([b] + rest) == b as nat * 0x100_0000 + BeValue(rest)
  {
    assert Pow256(3) == 0x100_0000;
    BeValueCons(b, rest);
  }

  lemma ClearTopBit(b: nat, low: nat)
    requires b < 0x100 && low < 0x100_0000
    ensures (b * 0x100_0000 + low) % 0x8000_0000 == (b % 0x80) * 0x100_0000 + low
  {
    var hi := b / 0x80;
    assert b * 0x100_0000 + low == hi * 0x8000_0000 + ((b % 0x80) * 0x100_0000 + low);
    ModUnique(b * 0x100_0000 + low, 0x8000_0000, hi, (b % 0x80) * 0x100_0000 + low);
  }

  /** The fold `reduce(into:_:)` with `*=`: acc times every factor in turn. */
  function Product(acc: nat, factors: seq<nat>): (r: nat)
    decreases |factors|
  {
    if factors == [] then acc else Product(acc * factors[0], factors[1..])
  }

  lemma {:induction false} ProductOfTens(acc: nat, n: nat)
    ensures Product(acc, seq(n, _ => 10)) == acc * Pow10(n)
    decreases n
  {
    if n > 0 {
      assert seq(n, _ => 10)[1..] == seq(n - 1, _ => 10);
      ProductOfTens(acc * 10, n - 1);
    }
  }

  /**
   * `digitMask(for:)`: 1 multiplied by 10, `digit` times, in `UInt32`.
   * `Array(repeating:count:)` traps on a negative count and the product
   * traps once it passes `UInt32.max`, which happens from 10 digits on
   * (MaskOverflowsFromTenDigits).
   */
  function DigitMask(digit: Int64): (mask: UInt32)
    requires 0 <= digit <= 9
    ensures mask == Pow10(digit)
  {
    ProductOfTens(1, digit as nat);
    Pow10Mono(digit as nat, 9);
    Product(1, seq(digit, _ => 10))
  }

  /** 10^d does not fit a `UInt32` once d reaches 10. */
  lemma MaskOverflowsFromTenDigits(d: nat)
    requires 10 <= d
    ensures 0x1_0000_0000 <= Pow10(d)
  {
    Pow10Mono(10, d);
  }

  /** The instance property `digitMask`. */
  function DigitMaskOf(generator: Generator): (mask: UInt32)
    requires 0 <= generator.digit <= 9
    ensures mask == Pow10(generator.digit)
  {
    DigitMask(generator.digit)
  }
}
