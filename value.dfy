/**
 * `TOTPValue`: a truncated code together with the digit count it is shown
 * with, and its display forms. The reduction modulo 10^digit is applied
 * when the value is read, never stored.
 */
module TotpValue {
  import opened Bits
  import opened Decimal
  import opened TotpKey
  import opened TotpCounter
  import opened TotpGenerator

  datatype Value = Value(code: UInt32, digit: Int64)

  /** `init(truncatedCode:using:)`: the code as given, the generator's digit count. */
  function FromTruncatedCode(code: UInt32, generator: Generator): (v: Value)
    ensures v.code == code && v.digit == generator.digit
  {
    Value(code, generator.digit)
  }

  /**
   * `makeValue(for:secretKey:)` of `TOTPGenerator`, placed here because it
   * builds a Value: the counter for the time, its HMAC under the key, and
   * dynamic truncation of the digest. The message hashed is the 8-byte
   * big-endian number of whole time steps, as section 4.2 of RFC 6238
   * prescribes.
   */
  function MakeValue(generator: Generator, seconds: UInt64, secretKey: Key, hmac: HmacSha1): (v: Value)
    requires 0 < generator.timeStep
    ensures v.digit == generator.digit
    ensures v.code < 0x8000_0000
    ensures v.code == Truncate(hmac(secretKey.rawValue, BeBytes(seconds / generator.timeStep, 8)))
  {
    var counter := CounterFor(generator, seconds);
    CounterForBytes(generator, seconds);
    var digest := HashedAuthenticationCode(counter.data, secretKey, hmac);
    TargetInBounds(digest);
    FromTruncatedCode(Truncate(digest), generator)
  }

  /** `init(for:secretKey:using:)`, the generator defaulting to `standard`. */
  function ValueFor(seconds: UInt64, secretKey: Key, hmac: HmacSha1, generator: Generator := Standard): (v: Value)
    requires 0 < generator.timeStep
    ensures v.digit == generator.digit && v.code < 0x8000_0000
    ensures v.code == Truncate(hmac(secretKey.rawValue, BeBytes(seconds / generator.timeStep, 8)))
  {
    MakeValue(generator, seconds, secretKey, hmac)
  }

  /**
   * `maskedCode`: the code modulo `digitMask(for: digit)`, which traps
   * unless 0 <= digit <= 9.
   */
  function MaskedCode(v: Value): (m: UInt32)
    requires 0 <= v.digit <= 9
    ensures m < Pow10(v.digit) && m <= v.code
    ensures v.code < Pow10(v.digit) ==> m == v.code
  {
    var mask := DigitMask(v.digit);
    ModRemainder(v.code, mask);
    v.code % mask
  }

  /** The masked code differs from the code by a whole multiple of 10^digit. */
  lemma MaskedCodeCongruent(v: Value)
    requires 0 <= v.digit <= 9
    ensures (v.code - MaskedCode(v)) % Pow10(v.digit) == 0
  {
    var n := Pow10(v.digit);
    assert MaskedCode(v) == v.code % n;
    ModRemainder(v.code, n);
  }

  /**
   * `description`: `String(format: "%0<digit>d", maskedCode)`, the masked
   * code in decimal, zero-padded on the left to `digit` characters. With
   * digit 0 the format is plain `%d` and the masked code is 0.
   */
  function Description(v: Value): (s: string)
    requires 0 <= v.digit <= 9
    ensures AllDigits(s) && Parse(s) == MaskedCode(v)
    ensures 1 <= v.digit ==> |s| == v.digit as int
    ensures v.digit == 0 ==> s == "0"
  {
    var m := MaskedCode(v);
    PaddedNumeral(m, v.digit as nat);
    PadLeft(Numeral(m), v.digit as nat, '0')
  }

  /** What `map` makes of one character: preceded by the separator when its offset is a positive multiple of 3. */
  function Piece(offset: nat, c: char, separator: string): (p: string)
  {
    if offset != 0 && offset % 3 == 0 then separator + [c] else [c]
  }

  /** `enumerated().map { … }` over the characters of s. */
  function Pieces(s: string, separator: string): (ps: seq<string>)
    ensures |ps| == |s|
    ensures forall i :: 0 <= i < |s| ==> ps[i] == Piece(i, s[i], separator)
  {
    seq(|s|, i requires 0 <= i < |s| => Piece(i, s[i], separator))
  }

  /** `joined()`. */
  function Joined(ps: seq<string>): (s: string)
  {
    if ps == [] then [] else ps[0] + Joined(ps[1..])
  }

  /**
   * The grouping the display intends, defined independently of the
   * character-by-character pipeline: runs of three characters from the
   * left, the separator between runs, the last run possibly shorter.
   */
  function GroupsOfThree(s: string, separator: string): (r: string)
  {
    if |s| <= 3 then s else s[..3] + separator + GroupsOfThree(s[3..], separator)
  }

  /** The default separator of `prettyDescription`. */
  const DefaultSeparator: string := " "

  /**
   * `prettyDescription(withSeparator:)`. It groups `String(maskedCode,
   * radix: 10)`, the numeral WITHOUT the zero padding of `description`.
   */
  function PrettyDescription(v: Value, separator: string): (s: string)
    requires 0 <= v.digit <= 9
    ensures s == GroupsOfThree(Numeral(MaskedCode(v)), separator)
    ensures NoDigits(separator) ==> Digits(s) == Numeral(MaskedCode(v))
  {
    var n := Numeral(MaskedCode(v));
    JoinedPiecesGroups(n, separator);
    GroupsOfThreeDigits(n, separator);
    Joined(Pieces(n, separator))
  }

  /**
   * `prettyDescription` without arguments: the grouping with a single
   * space between runs, whose digits are the unpadded numeral.
   */
  function DefaultPrettyDescription(v: Value): (s: string)
    requires 0 <= v.digit <= 9
    ensures s == GroupsOfThree(Numeral(MaskedCode(v)), DefaultSeparator)
    ensures Digits(s) == Numeral(MaskedCode(v))
  {
    assert NoDigits(DefaultSeparator) by { assert DefaultSeparator[0] == ' '; }
    PrettyDescription(v, DefaultSeparator)
  }

  /**
   * The grouped form of an L-digit masked code is L digits plus one
   * separator per full run of three after the first, and starts with the
   * leading digit.
   */
  lemma PrettyDescriptionLength(v: Value, separator: string)
    requires 0 <= v.digit <= 9
    ensures var n := |Numeral(MaskedCode(v))|;
      |PrettyDescription(v, separator)| == n + (n - 1) / 3 * |separator|
    ensures PrettyDescription(v, separator)[0] == Numeral(MaskedCode(v))[0]
  {
    GroupsOfThreeLength(Numeral(MaskedCode(v)), separator);
  }

  predicate NoDigits(separator: string) {
    forall i :: 0 <= i < |separator| ==> !IsDigit(separator[i])
  }

  lemma {:induction false} JoinedAppend(a: seq<string>, b: seq<string>)
    ensures Joined(a + b) == Joined(a) + Joined(b)
  {
    if a == [] {
      assert a + b == b;
    } else {
      var ab := a + b;
      assert ab[0] == a[0] && ab[1..] == a[1..] + b;
      JoinedFirst(ab);
      JoinedFirst(a);
      JoinedAppend(a[1..], b);
    }
  }

  /** Pieces of a string shorter than four characters are its characters. */
  lemma JoinedPiecesShort(s: string, separator: string)
    requires |s| <= 3
    ensures Joined(Pieces(s, separator)) == s
  {
    var ps := Pieces(s, separator);
    if |s| == 0 {
    } else if |s| == 1 {
      assert ps == [[s[0]]];
      assert ps[1..] == [];
    } else if |s| == 2 {
      assert ps == [[s[0]], [s[1]]];
      assert ps[1..] == [[s[1]]] && ps[1..][1..] == [];
      assert Joined(ps[1..]) == [s[1]];
      assert s == [s[0]] + [s[1]];
    } else {
      assert ps == [[s[0]], [s[1]], [s[2]]];
      assert ps[1..] == [[s[1]], [s[2]]] && ps[1..][1..] == [[s[2]]] && ps[1..][1..][1..] == [];
      assert Joined(ps[1..][1..]) == [s[2]];
      assert Joined(ps[1..]) == [s[1]] + [s[2]];
      assert s == [s[0]] + [s[1]] + [s[2]];
    }
  }

  /** The character pipeline computes exactly the runs-of-three grouping. */
  lemma {:induction false} JoinedPiecesGroups(s: string, separator: string)
    ensures Joined(Pieces(s, separator)) == GroupsOfThree(s, separator)
    decreases |s|
  {
    if |s| <= 3 {
      JoinedPiecesShort(s, separator);
    } else {
      var t := s[3..];
      var head := Pieces(s[..3], separator) + [separator + [t[0]]];
      var pt := Pieces(t, separator);
      var tail := pt[1..];
      PiecesAfterThree(s, separator);
      assert Pieces(s, separator) == head + tail;
      JoinedAppend(head, tail);
      JoinedHead(s[..3], separator, t[0]);
      JoinedFirst(pt);
      assert pt[0] == [t[0]];
      JoinedPiecesGroups(t, separator);
      calc {
        Joined(Pieces(s, separator));
        Joined(head) + Joined(tail);
        s[..3] + separator + [t[0]] + Joined(tail);
        s[..3] + separator + ([t[0]] + Joined(tail));
        s[..3] + separator + Joined(pt);
        GroupsOfThree(s, separator);
      }
    }
  }

  /** Past the first run, the pieces are those of the rest shifted by three. */
  lemma PiecesAfterThree(s: string, separator: string)
    requires |s| > 3
    ensures Pieces(s, separator)
      == Pieces(s[..3], separator) + [separator + [s[3]]] + Pieces(s[3..], separator)[1..]
  {
    var t := s[3..];
    var tail := Pieces(t, separator)[1..];
    forall j | 0 <= j < |t| - 1
      ensures Pieces(s, separator)[4 + j] == tail[j]
    {
      assert (4 + j) % 3 == (1 + j) % 3;
    }
  }

  lemma JoinedHead(s: string, separator: string, c: char)
    requires |s| == 3
    ensures Joined(Pieces(s, separator) + [separator + [c]]) == s + separator + [c]
  {
    JoinedAppend(Pieces(s, separator), [separator + [c]]);
    JoinedPiecesShort(s, separator);
    assert [separator + [c]][1..] == [];
  }

  lemma JoinedFirst(ps: seq<string>)
    requires ps != []
    ensures Joined(ps) == ps[0] + Joined(ps[1..])
  {
  }

  /** A grouped numeral of n characters carries (n - 1) / 3 separators. */
  lemma {:induction false} GroupsOfThreeLength(s: string, separator: string)
    requires 1 <= |s|
    ensures |GroupsOfThree(s, separator)| == |s| + (|s| - 1) / 3 * |separator|
    ensures GroupsOfThree(s, separator)[0] == s[0]
    decreases |s|
  {
    if |s| > 3 {
      GroupsOfThreeLength(s[3..], separator);
      assert (|s| - 1) / 3 == (|s| - 4) / 3 + 1;
      assert ((|s| - 4) / 3 + 1) * |separator| == (|s| - 4) / 3 * |separator| + |separator|;
    }
  }

  /** Dropping the (digit-free) separators from the grouping gives back the digits. */
  lemma {:induction false} GroupsOfThreeDigits(s: string, separator: string)
    requires AllDigits(s)
    ensures NoDigits(separator) ==> Digits(GroupsOfThree(s, separator)) == s
    decreases |s|
  {
    if !NoDigits(separator) {
    } else if |s| <= 3 {
      DigitsOfDigits(s);
    } else {
      GroupsOfThreeDigits(s[3..], separator);
      DigitsAppend(s[..3] + separator, GroupsOfThree(s[3..], separator));
      DigitsAppend(s[..3], separator);
      DigitsOfDigits(s[..3]);
      DigitsOfNonDigits(separator);
      assert s[..3] + s[3..] == s;
    }
  }

  /**
   * The grouped form read without its separators equals `description`
   * exactly when no zero padding was needed: for one digit always,
   * otherwise when the masked code has `digit` decimal places.
   */
  lemma PrettyMatchesDescriptionIff(v: Value, separator: string)
    requires 1 <= v.digit <= 9 && NoDigits(separator)
    ensures Digits(PrettyDescription(v, separator)) == Description(v)
      <==> v.digit == 1 || Pow10(v.digit - 1) <= MaskedCode(v)
  {
    PaddingDecides(v, Digits(PrettyDescription(v, separator)));
  }

  /** The unpadded numeral of the masked code equals `description` exactly when no padding is needed. */
  lemma PaddingDecides(v: Value, unpadded: string)
    requires 1 <= v.digit <= 9 && unpadded == Numeral(MaskedCode(v))
    ensures unpadded == Description(v) <==> v.digit == 1 || Pow10(v.digit - 1) <= MaskedCode(v)
  {
    var m, d := MaskedCode(v), v.digit as nat;
    assert Description(v) == PadLeft(Numeral(m), d, '0');
    PaddingNeededIff(m, d);
  }

  /**
   * The grouping applied to the padded `description`, as the display
   * evidently intends (see the finding in README.md).
   */
  function PaddedPrettyDescription(v: Value, separator: string := DefaultSeparator): (s: string)
    requires 0 <= v.digit <= 9
    ensures s == GroupsOfThree(Description(v), separator)
    ensures 1 <= v.digit ==> |s| == v.digit as int + (v.digit as int - 1) / 3 * |separator|
    ensures NoDigits(separator) ==> Digits(s) == Description(v)
  {
    var d := Description(v);
    JoinedPiecesGroups(d, separator);
    assert 1 <= v.digit ==> |GroupsOfThree(d, separator)| == |d| + (|d| - 1) / 3 * |separator| by {
      if 1 <= v.digit {
        GroupsOfThreeLength(d, separator);
      }
    }
    GroupsOfThreeDigits(d, separator);
    Joined(Pieces(d, separator))
  }

  /**
   * A six-digit code whose masked value has five places: `description`
   * pads it, the grouped form does not.
   */
  lemma PrettyDescriptionDropsPadding()
    ensures Description(Value(82583, 6)) == "082583"
    ensures DefaultPrettyDescription(Value(82583, 6)) == "825 83"
    ensures Digits(DefaultPrettyDescription(Value(82583, 6))) != Description(Value(82583, 6))
    ensures PaddedPrettyDescription(Value(82583, 6)) == "082 583"
  {
    var v := Value(82583, 6);
    MaskedOf82583();
    DescriptionOf82583();
    assert "82583"[..3] == "825" && "82583"[3..] == "83";
    assert GroupsOfThree("82583", " ") == "825 83";
    assert "082583"[..3] == "082" && "082583"[3..] == "583";
    assert GroupsOfThree("082583", " ") == "082 583";
    PrettyMatchesDescriptionIff(v, " ");
  }

  lemma MaskedOf82583()
    ensures MaskedCode(Value(82583, 6)) == 82583
    ensures Numeral(MaskedCode(Value(82583, 6))) == "82583"
  {
    assert Pow10(6) == 1000000;
  }

  lemma DescriptionOf82583()
    ensures Description(Value(82583, 6)) == "082583"
  {
    MaskedOf82583();
    assert PadLeft("82583", 6, '0') == "0" + "82583";
  }
}
