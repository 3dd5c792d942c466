/**
 * `TOTPCounter`: the moving factor of HOTP held as the bytes that are
 * hashed, eight big-endian bytes when it is built from an integer.
 */
module TotpCounter {
  import opened Bits
  import opened Decimal

  /** `init(data:)` stores the bytes as given, whatever their number. */
  datatype Counter = Counter(data: seq<Byte>)

  const UInt64Bound: nat := 0x1_0000_0000_0000_0000

  /** `MemoryLayout<UInt64>.size`. */
  const CounterSize: nat := 8

  lemma EightBytesBound()
    ensures Pow256(8) == UInt64Bound
  {
  }

  lemma {:induction false} BeBytesDigits(n: nat, width: nat)
    ensures forall i :: 0 <= i < width ==> BeBytes(n, width)[i] == (n / Pow256(width - 1 - i)) % 256
  {
    forall i | 0 <= i < width
      ensures BeBytes(n, width)[i] == (n / Pow256(width - 1 - i)) % 256
    {
      BeBytesAt(n, width, i);
    }
  }

  /** `init(_: UInt64)`: the integer's memory image after `bigEndian`. */
  function FromInteger(n: UInt64): (c: Counter)
    ensures |c.data| == 8
    ensures BeValue(c.data) == n
  {
    BeValueOfBytes(n, CounterSize);
    EightBytesBound();
    ModRemainder(n, Pow256(CounterSize));
    Counter(BeBytes(n, CounterSize))
  }

  /** Byte i of the counter is base-256 digit 7 - i of n: most significant first. */
  lemma FromIntegerBytes(n: UInt64)
    ensures forall i :: 0 <= i < 8 ==> FromInteger(n).data[i] == (n / Pow256(7 - i)) % 256
  {
    BeBytesDigits(n, CounterSize);
  }

  /**
   * `init(_: TimeInterval, timeStep:)` with the interval already cut to
   * whole seconds: the number of whole time steps elapsed.
   */
  function FromTime(seconds: UInt64, timeStep: Int64): (c: Counter)
    requires 0 < timeStep
    ensures |c.data| == 8 && BeValue(c.data) < UInt64Bound
    ensures Value(c) * timeStep <= seconds < (Value(c) + 1) * timeStep
  {
    var steps := seconds / timeStep;
    DivBounds(seconds, timeStep);
    ValueOfFromInteger(steps);
    FromInteger(steps)
  }

  /** Integer division rounds down: x / d is the number of whole d's in x. */
  lemma DivBounds(x: nat, d: nat)
    requires d > 0
    ensures (x / d) * d <= x < (x / d + 1) * d
    ensures x / d <= x
  {
    var q, r := x / d, x % d;
    assert x == q * d + r;
    assert (q + 1) * d == q * d + d;
    MulAtLeast(q, d);
  }

  /** `init(integerLiteral:)`. */
  function FromIntegerLiteral(n: UInt64): (c: Counter)
    ensures |c.data| == 8 && BeValue(c.data) < UInt64Bound
    ensures Value(c) == n
  {
    FromInteger(n)
  }

  /** The left fold behind `value`: each byte in turn, acc * 0x100 + byte. */
  function FoldBytes(acc: nat, s: seq<Byte>): (r: nat)
    decreases |s|
  {
    if s == [] then acc else FoldBytes(acc * 0x100 + s[0], s[1..])
  }

  /** Folding from an accumulator reads the bytes big-endian below it. */
  lemma {:induction false} FoldBytesValue(acc: nat, s: seq<Byte>)
    ensures FoldBytes(acc, s) == acc * Pow256(|s|) + BeValue(s)
    decreases |s|
  {
    if s != [] {
      var t := s[1..];
      FoldBytesValue(acc * 0x100 + s[0], t);
      assert s == [s[0]] + t;
      BeValueCons(s[0], t);
      ShiftAccumulator(acc, s[0], Pow256(|t|));
    }
  }

  lemma ShiftAccumulator(acc: nat, b: nat, p: nat)
    ensures (acc * 0x100 + b) * p == acc * (256 * p) + b * p
  {
  }

  /**
   * `value`. The fold traps on `UInt64` overflow; since its running value
   * never decreases (FoldNeverExceedsFinal), it traps exactly when the
   * final value is 2^64 or more.
   */
  function Value(c: Counter): (v: UInt64)
    requires BeValue(c.data) < UInt64Bound
    ensures v == BeValue(c.data)
    ensures |c.data| <= 8 ==> v < Pow256(|c.data|)
  {
    FoldBytesValue(0, c.data);
    FoldBytes(0, c.data)
  }

  /** After k bytes the fold's running value is at most its final value. */
  lemma FoldNeverExceedsFinal(s: seq<Byte>, k: nat)
    requires k <= |s|
    ensures FoldBytes(0, s[..k]) <= FoldBytes(0, s)
  {
    var pre, post := s[..k], s[k..];
    FoldBytesValue(0, pre);
    FoldBytesValue(0, s);
    assert BeValue(s) == BeValue(pre) * Pow256(|post|) + BeValue(post) by {
      assert s == pre + post;
      BeValueAppend(pre, post);
    }
    MulAtLeast(BeValue(pre), Pow256(|post|));
  }

  lemma {:induction false} Pow256Mono(a: nat, b: nat)
    requires a <= b
    ensures Pow256(a) <= Pow256(b)
  {
    if a < b {
      Pow256Mono(a, b - 1);
    }
  }

  /** `value` never traps on a counter of at most eight bytes. */
  lemma ValueDefinedUpToEightBytes(c: Counter)
    requires |c.data| <= 8
    ensures BeValue(c.data) < UInt64Bound
  {
    Pow256Mono(|c.data|, 8);
  }

  /** Building from an integer and reading `value` gives the integer back. */
  lemma ValueOfFromInteger(n: UInt64)
    ensures Value(FromInteger(n)) == n
  {
  }

  /** Every eight-byte counter is the one built from its own `value`. */
  lemma FromIntegerOfValue(c: Counter)
    requires |c.data| == 8
    ensures BeValue(c.data) < UInt64Bound
    ensures FromInteger(Value(c)) == c
  {
    EightBytesBound();
    BeBytesOfValue(c.data);
  }

  /** `==`: byte-wise comparison of `data`. */
  function Equal(a: Counter, b: Counter): (r: bool)
    ensures r <==> a == b
  {
    a.data == b.data
  }

  /** Two counters built from integers are equal exactly when the integers are. */
  lemma FromIntegerEqualIff(m: UInt64, n: UInt64)
    ensures Equal(FromInteger(m), FromInteger(n)) <==> m == n
  {
    ValueOfFromInteger(m);
    ValueOfFromInteger(n);
  }

  /** `description`: `value` as a decimal numeral. */
  function Description(c: Counter): (s: string)
    requires BeValue(c.data) < UInt64Bound
    ensures 1 <= |s| && AllDigits(s) && Parse(s) == Value(c)
    ensures s[0] == '0' ==> s == "0"
  {
    ParseNumeral(Value(c));
    Numeral(Value(c))
  }
}
