# TOTP derivation core, modelled in Dafny

This project models the one-time-password core of the Swift `TOTP` package:
how a counter is encoded, how an HMAC-SHA1 digest is reduced to a
short decimal code, and how that code is shown. It covers three source files.

- `TOTPCounter` (module `TotpCounter`, `counter.dfy`): an immutable byte
  string. Built from a `UInt64` it holds the 8 big-endian bytes of the
  integer. Built from a time it holds the number of whole time steps
  elapsed. Its `value` is a most-significant-first fold.
- `TOTPGenerator` (module `TotpGenerator`, `generator.dfy`): a time step
  and a digit count (defaults 30 and 6), the counter for a time, dynamic
  truncation (section 5.3 of RFC 4226) and the digit mask `10^digit`.
- `TOTPValue` (module `TotpValue`, `value.dfy`): a truncated code and a
  digit count. `maskedCode` reduces the code modulo `10^digit` when read.
  `description` zero-pads the masked code. `prettyDescription` inserts a
  separator before every character whose offset is a positive multiple
  of 3. `makeValue` of the generator lives in this module too, because a
  generator produces a value and a value needs the generator's digit mask,
  and Dafny modules cannot import each other in a cycle.

Supporting modules:

- `Bits` (`bits.dfy`) holds the fixed-width integer types, `&` on
  naturals with the low-mask law `x & (2^k - 1) == x % 2^k`, and
  big-endian encoding and decoding with their round-trip lemmas.
- `Decimal` (`decimal.dfy`) holds the decimal numeral Swift prints for
  `String(n)`, its parse, and zero padding.
- `TotpKey` (`key.dfy`) holds the secret's raw bytes.
- `TotpVectors` (`vectors.dfy`) checks the model against the published
  HOTP vectors of RFC 4226 (Appendix D) and the repository's TOTP
  scenario.

HMAC-SHA1 is a parameter of type `HmacSha1`. It is any total function from
key bytes and message bytes to a 20-byte digest. The vector lemmas
therefore say: for any HMAC-SHA1 that yields the published digest,
truncation and formatting give the published code.

Swift traps are the model's preconditions:
- division by a zero or negative time step;
- `bytes.last!` on an empty digest;
- the `precondition` in truncation;
- a load past the end of the digest. `loadUnaligned(fromByteOffset:as:)`
  checks its bounds only in debug builds; an optimised build reads out of
  bounds unchecked, and the model excludes that case as well;
- `UInt64` overflow in `value`;
- `UInt32` overflow or a negative count in `digitMask(for:)`.

`TOTPGenerator.init` checks nothing, so a generator with any `Int` fields
can be built (`TotpGenerator.Init`). Only the operations that would trap
demand a positive step or a digit count in 0..9. With digit 0, `%00d` is
plain `%d` and the masked code is 0, so `description` is "0".

`hashedAuthenticationCode(for:key:)` is `TotpGenerator.HashedAuthenticationCode`.
It applies the HMAC parameter with the key's raw bytes as the key and the
message as the data. `init(code:digit:)` is the constructor `TotpValue.Value`.
The no-argument `prettyDescription` is `TotpValue.DefaultPrettyDescription`,
which uses `TotpValue.DefaultSeparator`, a single space.

`prettyDescription` groups from the left, so an 8-digit code is shown
`XXX XXX XX`. It groups the unpadded numeral, so without its separators
it is not always `description` (see Findings).

## Model

| member | source | states |
|---|---|---|
| TotpCounter.FromInteger | Sources/TOTP/TOTPCounter.swift:23-28 | exactly 8 bytes whose big-endian reading is n |
| TotpCounter.FromIntegerBytes | Sources/TOTP/TOTPCounter.swift:23-28 | byte i of the counter built from n is (n / 256^(7-i)) % 256: most significant byte first |
| TotpCounter.FromTime | Sources/TOTP/TOTPCounter.swift:35-38 | for a positive step, the counter has 8 bytes and its value v satisfies v*step <= seconds < (v+1)*step (whole steps elapsed) |
| TotpCounter.FromIntegerLiteral | Sources/TOTP/TOTPCounter.swift:74-76 | the literal initialiser gives an 8-byte counter whose value is the literal |
| TotpCounter.Value | Sources/TOTP/TOTPCounter.swift:45-47 | the fold acc*0x100 + byte equals the big-endian reading of the bytes; below 256^|data| for at most 8 bytes; defined exactly when that reading is below 2^64 |
| TotpCounter.FoldNeverExceedsFinal | Sources/TOTP/TOTPCounter.swift:45-47 | the running value of the fold after any prefix never exceeds the final one, so the fold overflows UInt64 exactly when its result would |
| TotpCounter.ValueDefinedUpToEightBytes | Sources/TOTP/TOTPCounter.swift:15-18 | a counter stored through init(data:) with at most 8 bytes always has a value |
| TotpCounter.ValueOfFromInteger | Sources/TOTP/TOTPCounter.swift:45-47 | round trip: the value of the counter built from n is n, for every n < 2^64 |
| TotpCounter.FromIntegerOfValue | Sources/TOTP/TOTPCounter.swift:23-28 | round trip the other way: every 8-byte counter is the counter built from its own value |
| TotpCounter.Equal | Sources/TOTP/TOTPCounter.swift:50-56 | byte-wise comparison of data holds exactly when the two counters are the same value |
| TotpCounter.FromIntegerEqualIff | Sources/TOTP/TOTPCounter.swift:52-55 | two counters built from integers are == exactly when the integers are equal |
| TotpCounter.Description | Sources/TOTP/TOTPCounter.swift:60-62 | a string of decimal digits that parses back to the value, with no leading zero unless it is "0" |
| TotpGenerator.Init | Sources/TOTP/TOTPGenerator.swift:17-21 | stores the time step and digit count as given (defaults 30 and 6) for every Int64 pair, with no check |
| TotpGenerator.HashedAuthenticationCode | Sources/TOTP/TOTPGenerator.swift:48-54 | the HMAC parameter keyed with the key's raw bytes over the message; nothing beyond that and the 20-byte digest type, since SHA-1 is not modelled |
| TotpGenerator.StandardConfiguration | Sources/TOTP/TOTPGenerator.swift:26-29 | the standard generator has time step 30 and 6 digits, both inside the ranges the counter and mask need, and digit mask 1000000 |
| TotpGenerator.CounterFor | Sources/TOTP/TOTPGenerator.swift:31-33 | for a positive time step: an 8-byte counter whose value is seconds / timeStep |
| TotpGenerator.CounterForBytes | Sources/TOTP/TOTPGenerator.swift:31-33 | for a positive time step, the counter's bytes are the 8-byte big-endian encoding of seconds / timeStep |
| TotpGenerator.TargetOffset | Sources/TOTP/TOTPGenerator.swift:65-70 | for a non-empty digest: the offset is the last byte mod 16, hence below 16 |
| TotpGenerator.TargetCodePart | Sources/TOTP/TOTPGenerator.swift:72-77 | the big-endian reading of the 4 bytes at the offset |
| TotpGenerator.TargetCodePartBytes | Sources/TOTP/TOTPGenerator.swift:72-77 | the 4 bytes at the offset are exactly the 4-byte big-endian encoding of the code part |
| TotpGenerator.TargetInBounds | Sources/TOTP/TOTPGenerator.swift:72-77 | for any digest of at least 19 bytes (HMAC-SHA1 gives 20) the 4-byte load stays in bounds |
| TotpGenerator.Truncate | Sources/TOTP/TOTPGenerator.swift:56-63 | the code part with bit 31 cleared: below 2^31 and equal to the code part mod 2^31 |
| TotpGenerator.TruncateClearsTopBit | Sources/TOTP/TOTPGenerator.swift:56-63 | truncation equals the RFC 4226 section 5.3 form: the first selected byte & 0x7f, then the next three bytes, read big-endian |
| TotpGenerator.DigitMask | Sources/TOTP/TOTPGenerator.swift:83-85 | for 0 <= digit <= 9 the product of digit tens equals 10^digit and fits UInt32 |
| TotpGenerator.MaskOverflowsFromTenDigits | Sources/TOTP/TOTPGenerator.swift:83-85 | from 10 digits on, 10^digit exceeds UInt32, so the fold traps: the digit bound is exact |
| TotpGenerator.DigitMaskOf | Sources/TOTP/TOTPGenerator.swift:79-81 | the digitMask property is 10^digit of the generator |
| TotpValue.FromTruncatedCode | Sources/TOTP/TOTPValue.swift:22-25 | the code is stored without reduction and the digit count is the generator's |
| TotpValue.MakeValue | Sources/TOTP/TOTPGenerator.swift:35-43 | the value carries the generator's digit count and a code below 2^31 that is the truncation of the HMAC of the 8-byte big-endian encoding of seconds / timeStep (RFC 6238 section 4.2) |
| TotpValue.ValueFor | Sources/TOTP/TOTPValue.swift:30-33 | the value makeValue gives for the given (by default standard) generator: its digit count, and the code that is the truncation of the HMAC of the 8-byte big-endian encoding of seconds / timeStep, below 2^31 |
| TotpValue.MaskedCode | Sources/TOTP/TOTPValue.swift:35-37 | for 0 <= digit <= 9: below 10^digit, at most the code, and the code itself when already below 10^digit |
| TotpValue.MaskedCodeCongruent | Sources/TOTP/TOTPValue.swift:35-37 | the code and maskedCode differ by a multiple of 10^digit |
| TotpValue.Description | Sources/TOTP/TOTPValue.swift:68-70 | decimal digits only, parsing back to maskedCode; exactly digit characters for 1..9 digits (zero-padded); "0" for digit 0 |
| TotpValue.PrettyDescription | Sources/TOTP/TOTPValue.swift:43-63 | equals the unpadded numeral of maskedCode cut into runs of three from the left with the separator between them; with a digit-free separator, dropping separators gives the unpadded numeral |
| TotpValue.DefaultPrettyDescription | Sources/TOTP/TOTPValue.swift:39-41 | the runs-of-three grouping of the unpadded numeral of maskedCode with a single space between runs; dropping the spaces gives that numeral |
| TotpValue.PrettyDescriptionLength | Sources/TOTP/TOTPValue.swift:43-63 | for an L-digit numeral of maskedCode: length L + (L-1)/3 * |separator|, starting with the numeral's first digit |
| TotpValue.JoinedPiecesGroups | Sources/TOTP/TOTPValue.swift:45-62 | the enumerated/map/joined pipeline (separator before each positive offset that is a multiple of 3) is the runs-of-three grouping |
| TotpValue.GroupsOfThreeLength | Sources/TOTP/TOTPValue.swift:47-62 | a string of L >= 1 characters receives (L-1)/3 separators and keeps its first character first |
| TotpValue.GroupsOfThreeDigits | Sources/TOTP/TOTPValue.swift:45-62 | with a digit-free separator, the digits of the grouping are the grouped digit string |
| TotpValue.PrettyMatchesDescriptionIff | Sources/TOTP/TOTPValue.swift:45 | dropping separators from prettyDescription gives description exactly when digit is 1 or maskedCode >= 10^(digit-1), i.e. when no zero padding was needed |
| TotpValue.PaddingDecides | Sources/TOTP/TOTPValue.swift:68-70 | the unpadded numeral of maskedCode equals description exactly when digit is 1 or maskedCode >= 10^(digit-1) |
| TotpValue.PaddedPrettyDescription | Sources/TOTP/TOTPValue.swift:43-63 | corrected grouping of the padded description: with a digit-free separator its digits are description; length digit + (digit-1)/3 * |separator| |
| TotpValue.PrettyDescriptionDropsPadding | Sources/TOTP/TOTPValue.swift:45 | code 82583 with 6 digits: description "082583", prettyDescription "825 83", whose digits differ from description; the corrected form gives "082 583" |
| TotpVectors.Rfc4226Truncation0 | Tests/TOTPTests/TOTPTests.swift:53 | the RFC 4226 Appendix D digest of counter 0 truncates to 1284755224 |
| TotpVectors.Rfc4226Hotp0 | Tests/TOTPTests/TOTPTests.swift:66 | truncated code 1284755224 with the standard generator is described as "755224" |
| TotpVectors.Rfc4226Truncation1 | Tests/TOTPTests/TOTPTests.swift:54 | the RFC 4226 Appendix D digest of counter 1 truncates to 1094287082 |
| TotpVectors.Rfc4226Hotp1 | Tests/TOTPTests/TOTPTests.swift:67 | truncated code 1094287082 with the standard generator is described as "287082" |
| TotpVectors.Rfc4226Truncation2 | Tests/TOTPTests/TOTPTests.swift:55 | the RFC 4226 Appendix D digest of counter 2 truncates to 137359152 |
| TotpVectors.Rfc4226Hotp2 | Tests/TOTPTests/TOTPTests.swift:68 | truncated code 137359152 with the standard generator is described as "359152" |
| TotpVectors.Rfc4226Truncation3 | Tests/TOTPTests/TOTPTests.swift:56 | the RFC 4226 Appendix D digest of counter 3 truncates to 1726969429 |
| TotpVectors.Rfc4226Hotp3 | Tests/TOTPTests/TOTPTests.swift:69 | truncated code 1726969429 with the standard generator is described as "969429" |
| TotpVectors.Rfc4226Truncation4 | Tests/TOTPTests/TOTPTests.swift:57 | the RFC 4226 Appendix D digest of counter 4 truncates to 1640338314 |
| TotpVectors.Rfc4226Hotp4 | Tests/TOTPTests/TOTPTests.swift:70 | truncated code 1640338314 with the standard generator is described as "338314" |
| TotpVectors.Rfc4226Truncation5 | Tests/TOTPTests/TOTPTests.swift:58 | the RFC 4226 Appendix D digest of counter 5 truncates to 868254676 |
| TotpVectors.Rfc4226Hotp5 | Tests/TOTPTests/TOTPTests.swift:71 | truncated code 868254676 with the standard generator is described as "254676" |
| TotpVectors.Rfc4226Truncation6 | Tests/TOTPTests/TOTPTests.swift:59 | the RFC 4226 Appendix D digest of counter 6 truncates to 1918287922 |
| TotpVectors.Rfc4226Hotp6 | Tests/TOTPTests/TOTPTests.swift:72 | truncated code 1918287922 with the standard generator is described as "287922" |
| TotpVectors.Rfc4226Truncation7 | Tests/TOTPTests/TOTPTests.swift:60 | the RFC 4226 Appendix D digest of counter 7 truncates to 82162583 |
| TotpVectors.Rfc4226Hotp7 | Tests/TOTPTests/TOTPTests.swift:73 | truncated code 82162583 with the standard generator is described as "162583" |
| TotpVectors.Rfc4226Truncation8 | Tests/TOTPTests/TOTPTests.swift:61 | the RFC 4226 Appendix D digest of counter 8 truncates to 673399871 |
| TotpVectors.Rfc4226Hotp8 | Tests/TOTPTests/TOTPTests.swift:74 | truncated code 673399871 with the standard generator is described as "399871" |
| TotpVectors.Rfc4226Truncation9 | Tests/TOTPTests/TOTPTests.swift:62 | the RFC 4226 Appendix D digest of counter 9 truncates to 645520489 |
| TotpVectors.Rfc4226Hotp9 | Tests/TOTPTests/TOTPTests.swift:75 | truncated code 645520489 with the standard generator is described as "520489" |
| TotpVectors.Rfc4226Sample | Tests/TOTPTests/TOTPTests.swift:78-91 | for counters 0..9 and any HMAC-SHA1 yielding the Appendix D digests: the counter reads back as itself, truncation and description give the published values |
| TotpVectors.GeneratorTestCounter | Tests/TOTPTests/TOTPTests.swift:110 | at 1710867940 s the standard counter is 57028931 and == the literal counter 57028931 |
| TotpVectors.GeneratorTestTruncation | Tests/TOTPTests/TOTPTests.swift:111-115 | digest cd9c…ff28 gives offset 8, code part 0x1a5d2ea1 and truncated code 442314401 |
| TotpVectors.GeneratorTestFormatting | Tests/TOTPTests/TOTPTests.swift:114-116 | digit mask 1000000; code 442314401 is described as "314401"; it is also pretty-printed as "314 401", the value line 133 expects |
| TotpVectors.MakeValueTest | Tests/TOTPTests/TOTPTests.swift:124-133 | makeValue at 1710867940 s with an HMAC-SHA1 giving the test digest yields code 442314401, "314401" and "314 401" |

## Left out

- HMAC-SHA1 (swift-crypto, `TOTPGenerator.swift:48-54`) is a foreign library call. It is the parameter `HmacSha1` and is assumed to return 20 bytes, nothing more.
- `TOTPKey.swift` is not part of this model beyond the raw bytes of a key: its text and base32 constructors and `base32EncodedString` rely on `String.data(using:)` and an external base32 codec whose code is not available.
- `Date` and `TimeInterval` are floating point. Time is modelled as whole seconds since 1970 that fit a `UInt64`, already truncated. The trap of `UInt64(timeInterval)` on negative or huge intervals is therefore not modelled. `init(_ date: Date, timeStep:)` and `counter(for:)` both reduce to `TotpCounter.FromTime`.
- `init(_ value: some BinaryInteger)` is `init(_: UInt64)` after a conversion that traps outside 0..2^64-1. `TotpCounter.FromInteger` takes the already-converted `UInt64`.
- `loadUnaligned(...).bigEndian` is modelled as a big-endian read of the four bytes. That is its result on every host byte order.
- The `DataProtocol` / `ContiguousBytes` conformance of `TOTPCounter` only delegates to `data`. `debugDescription`, `Sendable`, `Codable` and `Hashable` conformances are not modelled either.
- `String(format:)` is specified by its result, the numeral left-padded with '0' to the width. The printf engine is not modelled.
- `TotpValue.MakeValue` states the code as the truncation of the HMAC of the 8-byte counter. It does not state a decimal result, because the digest is unknown without SHA-1. The vector lemmas state decimal results for the published digests.

## Findings

| source | as written | input that shows it | evidently intended | confidence | as-written member | corrected member |
|---|---|---|---|---|---|---|
| Sources/TOTP/TOTPValue.swift:45 | `prettyDescription` groups `String(maskedCode, radix: 10)`, the numeral without the zero padding of `description` | code 82583, digit 6: `description` is "082583" but `prettyDescription` is "825 83" | the grouped form of `description`, "082 583", so that removing separators gives `description` | not executed; medium | TotpValue.PrettyDescriptionDropsPadding | TotpValue.PaddedPrettyDescription |
