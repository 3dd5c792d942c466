/**
 * Concrete vectors: the HOTP test values of Appendix D of RFC 4226 and the
 * TOTP scenario of the repository's tests, checked against the model with
 * the digests taken as given (SHA-1 itself is not modelled).
 */
module TotpVectors {
  import opened Bits
  import opened Decimal
  import opened TotpKey
  import TotpCounter
  import opened TotpGenerator
  import opened TotpValue

  /** The ASCII bytes of the RFC 4226 test secret "12345678901234567890". */
  const Rfc4226Secret: Key := Key([0x31, 0x32, 0x33, 0x34, 0x35, 0x36, 0x37, 0x38, 0x39, 0x30,
                                   0x31, 0x32, 0x33, 0x34, 0x35, 0x36, 0x37, 0x38, 0x39, 0x30])

  /** Truncation of a 20-byte digest whose offset nibble is `o`. */
  lemma TruncatesTo(d: seq<Byte>, o: nat, t: nat)
    requires |d| == 20 && o < 16 && d[19] % 16 == o
    requires ((d[o] as nat) * 0x100_0000 + (d[o + 1] as nat) * 0x1_0000 + (d[o + 2] as nat) * 0x100 + d[o + 3])
      % 0x8000_0000 == t
    ensures Truncate(d) == t
  {
    assert TargetOffset(d) == o;
    var part := TargetCodePart(d, o as Byte);
    assert part == (d[o] as nat) * 0x100_0000 + (d[o + 1] as nat) * 0x1_0000 + (d[o + 2] as nat) * 0x100 + d[o + 3];
  }

  /** HMAC-SHA1 of counter 0 under the test secret. */
  const Rfc4226Digest0: seq<Byte> := [0xcc, 0x93, 0xcf, 0x18, 0x50, 0x8d, 0x94, 0x93, 0x4c, 0x64,
                                       0xb6, 0x5d, 0x8b, 0xa7, 0x66, 0x7f, 0xb7, 0xcd, 0xe4, 0xb0]

  /** Counter 0: offset 0, truncated 1284755224 (0x4c93cf18). */
  lemma Rfc4226Truncation0()
    ensures |Rfc4226Digest0| == 20
    ensures Truncate(Rfc4226Digest0) == 1284755224
  {
    TruncatesTo(Rfc4226Digest0, 0, 1284755224);
  }

  /** Counter 0: HOTP value "755224". */
  lemma Rfc4226Hotp0()
    ensures Description(FromTruncatedCode(1284755224, Standard)) == "755224"
  {
    assert Pow10(6) == 1000000;
    assert MaskedCode(Value(1284755224, 6)) == 755224;
    assert Numeral(755224) == "755224";
  }

  /** HMAC-SHA1 of counter 1 under the test secret. */
  const Rfc4226Digest1: seq<Byte> := [0x75, 0xa4, 0x8a, 0x19, 0xd4, 0xcb, 0xe1, 0x00, 0x64, 0x4e,
                                       0x8a, 0xc1, 0x39, 0x7e, 0xea, 0x74, 0x7a, 0x2d, 0x33, 0xab]

  /** Counter 1: offset 11, truncated 1094287082 (0x41397eea). */
  lemma Rfc4226Truncation1()
    ensures |Rfc4226Digest1| == 20
    ensures Truncate(Rfc4226Digest1) == 1094287082
  {
    TruncatesTo(Rfc4226Digest1, 11, 1094287082);
  }

  /** Counter 1: HOTP value "287082". */
  lemma Rfc4226Hotp1()
    ensures Description(FromTruncatedCode(1094287082, Standard)) == "287082"
  {
    assert Pow10(6) == 1000000;
    assert MaskedCode(Value(1094287082, 6)) == 287082;
    assert Numeral(287082) == "287082";
  }

  /** HMAC-SHA1 of counter 2 under the test secret. */
  const Rfc4226Digest2: seq<Byte> := [0x0b, 0xac, 0xb7, 0xfa, 0x08, 0x2f, 0xef, 0x30, 0x78, 0x22,
                                       0x11, 0x93, 0x8b, 0xc1, 0xc5, 0xe7, 0x04, 0x16, 0xff, 0x44]

  /** Counter 2: offset 4, truncated 137359152 (0x82fef30). */
  lemma Rfc4226Truncation2()
    ensures |Rfc4226Digest2| == 20
    ensures Truncate(Rfc4226Digest2) == 137359152
  {
    TruncatesTo(Rfc4226Digest2, 4, 137359152);
  }

  /** Counter 2: HOTP value "359152". */
  lemma Rfc4226Hotp2()
    ensures Description(FromTruncatedCode(137359152, Standard)) == "359152"
  {
    assert Pow10(6) == 1000000;
    assert MaskedCode(Value(137359152, 6)) == 359152;
    assert Numeral(359152) == "359152";
  }

  /** HMAC-SHA1 of counter 3 under the test secret. */
  const Rfc4226Digest3: seq<Byte> := [0x66, 0xc2, 0x82, 0x27, 0xd0, 0x3a, 0x2d, 0x55, 0x29, 0x26,
                                       0x2f, 0xf0, 0x16, 0xa1, 0xe6, 0xef, 0x76, 0x55, 0x7e, 0xce]

  /** Counter 3: offset 14, truncated 1726969429 (0x66ef7655). */
  lemma Rfc4226Truncation3()
    ensures |Rfc4226Digest3| == 20
    ensures Truncate(Rfc4226Digest3) == 1726969429
  {
    TruncatesTo(Rfc4226Digest3, 14, 1726969429);
  }

  /** Counter 3: HOTP value "969429". */
  lemma Rfc4226Hotp3()
    ensures Description(FromTruncatedCode(1726969429, Standard)) == "969429"
  {
    assert Pow10(6) == 1000000;
    assert MaskedCode(Value(1726969429, 6)) == 969429;
    assert Numeral(969429) == "969429";
  }

  /** HMAC-SHA1 of counter 4 under the test secret. */
  const Rfc4226Digest4: seq<Byte> := [0xa9, 0x04, 0xc9, 0x00, 0xa6, 0x4b, 0x35, 0x90, 0x98, 0x74,
                                       0xb3, 0x3e, 0x61, 0xc5, 0x93, 0x8a, 0x8e, 0x15, 0xed, 0x1c]

  /** Counter 4: offset 12, truncated 1640338314 (0x61c5938a). */
  lemma Rfc4226Truncation4()
    ensures |Rfc4226Digest4| == 20
    ensures Truncate(Rfc4226Digest4) == 1640338314
  {
    TruncatesTo(Rfc4226Digest4, 12, 1640338314);
  }

  /** Counter 4: HOTP value "338314". */
  lemma Rfc4226Hotp4()
    ensures Description(FromTruncatedCode(1640338314, Standard)) == "338314"
  {
    assert Pow10(6) == 1000000;
    assert MaskedCode(Value(1640338314, 6)) == 338314;
    assert Numeral(338314) == "338314";
  }

  /** HMAC-SHA1 of counter 5 under the test secret. */
  const Rfc4226Digest5: seq<Byte> := [0xa3, 0x7e, 0x78, 0x3d, 0x7b, 0x72, 0x33, 0xc0, 0x83, 0xd4,
                                       0xf6, 0x29, 0x26, 0xc7, 0xa2, 0x5f, 0x23, 0x8d, 0x03, 0x16]

  /** Counter 5: offset 6, truncated 868254676 (0x33c083d4). */
  lemma Rfc4226Truncation5()
    ensures |Rfc4226Digest5| == 20
    ensures Truncate(Rfc4226Digest5) == 868254676
  {
    TruncatesTo(Rfc4226Digest5, 6, 868254676);
  }

  /** Counter 5: HOTP value "254676". */
  lemma Rfc4226Hotp5()
    ensures Description(FromTruncatedCode(868254676, Standard)) == "254676"
  {
    assert Pow10(6) == 1000000;
    assert MaskedCode(Value(868254676, 6)) == 254676;
    assert Numeral(254676) == "254676";
  }

  /** HMAC-SHA1 of counter 6 under the test secret. */
  const Rfc4226Digest6: seq<Byte> := [0xbc, 0x9c, 0xd2, 0x85, 0x61, 0x04, 0x2c, 0x83, 0xf2, 0x19,
                                       0x32, 0x4d, 0x3c, 0x60, 0x72, 0x56, 0xc0, 0x32, 0x72, 0xae]

  /** Counter 6: offset 14, truncated 1918287922 (0x7256c032). */
  lemma Rfc4226Truncation6()
    ensures |Rfc4226Digest6| == 20
    ensures Truncate(Rfc4226Digest6) == 1918287922
  {
    TruncatesTo(Rfc4226Digest6, 14, 1918287922);
  }

  /** Counter 6: HOTP value "287922". */
  lemma Rfc4226Hotp6()
    ensures Description(FromTruncatedCode(1918287922, Standard)) == "287922"
  {
    assert Pow10(6) == 1000000;
    assert MaskedCode(Value(1918287922, 6)) == 287922;
    assert Numeral(287922) == "287922";
  }

  /** HMAC-SHA1 of counter 7 under the test secret. */
  const Rfc4226Digest7: seq<Byte> := [0xa4, 0xfb, 0x96, 0x0c, 0x0b, 0xc0, 0x6e, 0x1e, 0xab, 0xb8,
                                       0x04, 0xe5, 0xb3, 0x97, 0xcd, 0xc4, 0xb4, 0x55, 0x96, 0xfa]

  /** Counter 7: offset 10, truncated 82162583 (0x4e5b397). */
  lemma Rfc4226Truncation7()
    ensures |Rfc4226Digest7| == 20
    ensures Truncate(Rfc4226Digest7) == 82162583
  {
    TruncatesTo(Rfc4226Digest7, 10, 82162583);
  }

  /** Counter 7: HOTP value "162583". */
  lemma Rfc4226Hotp7()
    ensures Description(FromTruncatedCode(82162583, Standard)) == "162583"
  {
    assert Pow10(6) == 1000000;
    assert MaskedCode(Value(82162583, 6)) == 162583;
    assert Numeral(162583) == "162583";
  }

  /** HMAC-SHA1 of counter 8 under the test secret. */
  const Rfc4226Digest8: seq<Byte> := [0x1b, 0x3c, 0x89, 0xf6, 0x5e, 0x6c, 0x9e, 0x88, 0x30, 0x12,
                                       0x05, 0x28, 0x23, 0x44, 0x3f, 0x04, 0x8b, 0x43, 0x32, 0xdb]

  /** Counter 8: offset 11, truncated 673399871 (0x2823443f). */
  lemma Rfc4226Truncation8()
    ensures |Rfc4226Digest8| == 20
    ensures Truncate(Rfc4226Digest8) == 673399871
  {
    TruncatesTo(Rfc4226Digest8, 11, 673399871);
  }

  /** Counter 8: HOTP value "399871". */
  lemma Rfc4226Hotp8()
    ensures Description(FromTruncatedCode(673399871, Standard)) == "399871"
  {
    assert Pow10(6) == 1000000;
    assert MaskedCode(Value(673399871, 6)) == 399871;
    assert Numeral(399871) == "399871";
  }

  /** HMAC-SHA1 of counter 9 under the test secret. */
  const Rfc4226Digest9: seq<Byte> := [0x16, 0x37, 0x40, 0x98, 0x09, 0xa6, 0x79, 0xdc, 0x69, 0x82,
                                       0x07, 0x31, 0x0c, 0x8c, 0x7f, 0xc0, 0x72, 0x90, 0xd9, 0xe5]

  /** Counter 9: offset 5, truncated 645520489 (0x2679dc69). */
  lemma Rfc4226Truncation9()
    ensures |Rfc4226Digest9| == 20
    ensures Truncate(Rfc4226Digest9) == 645520489
  {
    TruncatesTo(Rfc4226Digest9, 5, 645520489);
  }

  /** Counter 9: HOTP value "520489". */
  lemma Rfc4226Hotp9()
    ensures Description(FromTruncatedCode(645520489, Standard)) == "520489"
  {
    assert Pow10(6) == 1000000;
    assert MaskedCode(Value(645520489, 6)) == 520489;
    assert Numeral(520489) == "520489";
  }

  const Rfc4226Digests: seq<seq<Byte>> :=
    [Rfc4226Digest0, Rfc4226Digest1, Rfc4226Digest2, Rfc4226Digest3, Rfc4226Digest4,
     Rfc4226Digest5, Rfc4226Digest6, Rfc4226Digest7, Rfc4226Digest8, Rfc4226Digest9]

  const Rfc4226Truncated: seq<nat> :=
    [1284755224, 1094287082, 137359152, 1726969429, 1640338314,
     868254676, 1918287922, 82162583, 673399871, 645520489]

  const Rfc4226Hotp: seq<string> :=
    ["755224", "287082", "359152", "969429", "338314",
     "254676", "287922", "162583", "399871", "520489"]

  /**
   * The loop of the RFC 4226 sample test: for any HMAC-SHA1 that yields the
   * digests of Appendix D, counter `count` reads back as itself and
   * truncates and formats to the published values.
   */
  lemma Rfc4226Sample(hmac: HmacSha1, count: nat)
    requires count < 10
    requires hmac(Rfc4226Secret.rawValue, TotpCounter.FromInteger(count).data) == Rfc4226Digests[count]
    ensures TotpCounter.Value(TotpCounter.FromInteger(count)) == count
    ensures Truncate(HashedAuthenticationCode(TotpCounter.FromInteger(count).data, Rfc4226Secret, hmac))
      == Rfc4226Truncated[count]
    ensures Description(FromTruncatedCode(Rfc4226Truncated[count], Standard)) == Rfc4226Hotp[count]
  {
    if count < 5 {
      Rfc4226SampleFirstHalf(hmac, count);
    } else {
      Rfc4226SampleSecondHalf(hmac, count);
    }
  }

  lemma Rfc4226SampleFirstHalf(hmac: HmacSha1, count: nat)
    requires count < 5
    requires hmac(Rfc4226Secret.rawValue, TotpCounter.FromInteger(count).data) == Rfc4226Digests[count]
    ensures TotpCounter.Value(TotpCounter.FromInteger(count)) == count
    ensures Truncate(HashedAuthenticationCode(TotpCounter.FromInteger(count).data, Rfc4226Secret, hmac))
      == Rfc4226Truncated[count]
    ensures Description(FromTruncatedCode(Rfc4226Truncated[count], Standard)) == Rfc4226Hotp[count]
  {
    TotpCounter.ValueOfFromInteger(count);
    if count == 0 {
      assert Rfc4226Digests[0] == Rfc4226Digest0;
      assert Rfc4226Truncated[0] == 1284755224 && Rfc4226Hotp[0] == "755224";
      Rfc4226Truncation0();
      Rfc4226Hotp0();
    } else if count == 1 {
      assert Rfc4226Digests[1] == Rfc4226Digest1;
      assert Rfc4226Truncated[1] == 1094287082 && Rfc4226Hotp[1] == "287082";
      Rfc4226Truncation1();
      Rfc4226Hotp1();
    } else if count == 2 {
      assert Rfc4226Digests[2] == Rfc4226Digest2;
      assert Rfc4226Truncated[2] == 137359152 && Rfc4226Hotp[2] == "359152";
      Rfc4226Truncation2();
      Rfc4226Hotp2();
    } else if count == 3 {
      assert Rfc4226Digests[3] == Rfc4226Digest3;
      assert Rfc4226Truncated[3] == 1726969429 && Rfc4226Hotp[3] == "969429";
      Rfc4226Truncation3();
      Rfc4226Hotp3();
    } else {
      assert Rfc4226Digests[4] == Rfc4226Digest4;
      assert Rfc4226Truncated[4] == 1640338314 && Rfc4226Hotp[4] == "338314";
      Rfc4226Truncation4();
      Rfc4226Hotp4();
    }
  }

  lemma Rfc4226SampleSecondHalf(hmac: HmacSha1, count: nat)
    requires 5 <= count < 10
    requires hmac(Rfc4226Secret.rawValue, TotpCounter.FromInteger(count).data) == Rfc4226Digests[count]
    ensures TotpCounter.Value(TotpCounter.FromInteger(count)) == count
    ensures Truncate(HashedAuthenticationCode(TotpCounter.FromInteger(count).data, Rfc4226Secret, hmac))
      == Rfc4226Truncated[count]
    ensures Description(FromTruncatedCode(Rfc4226Truncated[count], Standard)) == Rfc4226Hotp[count]
  {
    TotpCounter.ValueOfFromInteger(count);
    if count == 5 {
      assert Rfc4226Digests[5] == Rfc4226Digest5;
      assert Rfc4226Truncated[5] == 868254676 && Rfc4226Hotp[5] == "254676";
      Rfc4226Truncation5();
      Rfc4226Hotp5();
    } else if count == 6 {
      assert Rfc4226Digests[6] == Rfc4226Digest6;
      assert Rfc4226Truncated[6] == 1918287922 && Rfc4226Hotp[6] == "287922";
      Rfc4226Truncation6();
      Rfc4226Hotp6();
    } else if count == 7 {
      assert Rfc4226Digests[7] == Rfc4226Digest7;
      assert Rfc4226Truncated[7] == 82162583 && Rfc4226Hotp[7] == "162583";
      Rfc4226Truncation7();
      Rfc4226Hotp7();
    } else if count == 8 {
      assert Rfc4226Digests[8] == Rfc4226Digest8;
      assert Rfc4226Truncated[8] == 673399871 && Rfc4226Hotp[8] == "399871";
      Rfc4226Truncation8();
      Rfc4226Hotp8();
    } else {
      assert Rfc4226Digests[9] == Rfc4226Digest9;
      assert Rfc4226Truncated[9] == 645520489 && Rfc4226Hotp[9] == "520489";
      Rfc4226Truncation9();
      Rfc4226Hotp9();
    }
  }

  /** The digest the repository's generator test expects for its key and time. */
  const GeneratorTestDigest: Digest := [0xcd, 0x9c, 0xd4, 0xdd, 0x72, 0xd1, 0xc6, 0x81, 0x1a, 0x5d,
                                          0x2e, 0xa1, 0x16, 0x3c, 0x4c, 0x22, 0x14, 0x71, 0xff, 0x28]

  /** The generator test, counter: 1710867940 seconds in steps of 30 is counter 57028931. */
  lemma GeneratorTestCounter()
    ensures TotpCounter.Value(CounterFor(Standard, 1710867940)) == 57028931
    ensures TotpCounter.Equal(CounterFor(Standard, 1710867940), TotpCounter.FromIntegerLiteral(57028931))
  {
    assert 1710867940 / 30 == 57028931;
    TotpCounter.FromIntegerOfValue(CounterFor(Standard, 1710867940));
  }

  /** The generator test, truncation: offset 8, code part 0x1a5d2ea1, truncated code 442314401. */
  lemma GeneratorTestTruncation()
    ensures TargetOffset(GeneratorTestDigest) == 8
    ensures TargetCodePart(GeneratorTestDigest, 8) == 0x1a5d2ea1
    ensures Truncate(GeneratorTestDigest) == 442314401
  {
    var d := GeneratorTestDigest;
    assert d[8] == 0x1a && d[9] == 0x5d && d[10] == 0x2e && d[11] == 0xa1;
    TruncatesTo(d, 8, 442314401);
  }

  /** The generator test, formatting: digit mask 10^6, "314401" and "314 401". */
  lemma GeneratorTestFormatting()
    ensures DigitMaskOf(Standard) == 1000000
    ensures Description(FromTruncatedCode(442314401, Standard)) == "314401"
    ensures DefaultPrettyDescription(FromTruncatedCode(442314401, Standard)) == "314 401"
  {
    StandardConfiguration();
    var v := FromTruncatedCode(442314401, Standard);
    assert v == Value(442314401, 6);
    assert MaskedCode(v) == 314401 by {
      assert Pow10(6) == 1000000;
    }
    assert Numeral(314401) == "314401";
    assert Description(v) == "314401" by {
      assert PadLeft("314401", 6, '0') == "314401";
    }
    assert GroupsOfThree("314401", " ") == "314 401" by {
      assert "314401"[..3] == "314" && "314401"[3..] == "401";
    }
  }

  /**
   * `makeValue` end to end: whatever the key, an HMAC-SHA1 that maps it and
   * the counter bytes of 57028931 to the test digest gives "314401".
   */
  lemma MakeValueTest(key: Key, hmac: HmacSha1)
    requires hmac(key.rawValue, BeBytes(57028931, 8)) == GeneratorTestDigest
    ensures MakeValue(Standard, 1710867940, key, hmac).code == 442314401
    ensures Description(MakeValue(Standard, 1710867940, key, hmac)) == "314401"
    ensures DefaultPrettyDescription(MakeValue(Standard, 1710867940, key, hmac)) == "314 401"
  {
    StandardConfiguration();
    var v := MakeValue(Standard, 1710867940, key, hmac);
    assert 1710867940 / Standard.timeStep == 57028931;
    assert v.code == Truncate(GeneratorTestDigest);
    GeneratorTestTruncation();
    assert v == FromTruncatedCode(442314401, Standard);
    GeneratorTestFormatting();
  }
}
