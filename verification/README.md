# DataBox bit packing, in Dafny

This project models the two bit-level components of the DataBox demo library and
proves what they promise.

- **`BitPacker`** stores `count` unsigned entries of `bitLength` bits each, without
  padding, in a byte array of `(bitLength * count + 7) / 8` bytes. Entry `i` takes
  stream bits `i * bitLength .. i * bitLength + bitLength - 1`. Bit `b` of byte `k`
  is stream bit `8 * k + b`, so the stream is least-significant-bit first.
- **`BitData`** is a 4-byte struct holding a value of 1 to 24 bits together with its
  width. Its two fields overlap: `_value` is the whole little-endian word, and
  `_bitLength` is byte 3 of that same word.

The modules follow the source:

- `Bits` covers the C# integer ranges and bitwise `&`, `|`, `~`. It also has
  `1u << n` with the count masked to 5 bits, and the bit stream of a byte
  sequence. Shifts, masks and concatenation are digit-by-digit recursions, related
  to `/`, `%` and `+` by lemmas.
- `Errors` has one constructor per exception the code throws, and a `Result` type.
- `Packing` is `BitPacker` as a value. It has the constructor, `SetValue`,
  `GetValue`, `GetRawData` and `FromRawData`, with the write and read loops as
  recursive functions (`SetBits`, `GetBits`). Its lemmas are the packer's laws:
  get after set, the frame condition, the clear tail, overwrite, commutation, and
  the raw-bytes round trip.
- `PackerImpl` is the class as the source writes it: a byte array and the two
  bit-by-bit loops with the source's own index arithmetic. Each method is proved
  equal to its `Packing` counterpart.
- `BitDataType` is `BitData` over its single 32-bit word. `BitLength` is byte 3 of
  the word. The getter masks the word, and the setter keeps every bit above the
  width, the width byte included.
- `Decimal` prints a natural number in decimal, for `ToString`.
- `Scenarios` covers the console demo (five 12-bit values, the printed bytes
  `BC-3A-12-FF-0F-0F-FF-00`, the rebuild from raw bytes), the 2 × 11-bit layout of
  the class comment, and the unit tests of `BitData`.

Width ranges, and one place where a comment and the code disagree:

- The packer admits widths 8 to 32 (DataBox/BitPacker.cs:27-28).
- `BitData` admits widths 1 to 24 (DataBox/type/BitData.cs:31-32).
- The class comment of the packer counts 16 more bits for the width and count (38
  bits for two 11-bit values). The array holds only the 22 data bits in 3 bytes, and
  so does the model, which follows the code.

## Model

| member | source | states |
|---|---|---|
| Packing.New | DataBox/BitPacker.cs:26-36 | succeeds exactly when the width is 8..32 and the count fits a byte; a bad width is reported before a bad count; on success the shape is the one asked for and every byte of the buffer is zero |
| Packing.SlotInBounds | DataBox/BitPacker.cs:33-35 | every entry's bits end within `bitLength * count`, which fits in the `(bits + 7) / 8` bytes allocated |
| Packing.SlotsDisjoint | DataBox/BitPacker.cs:50-52 | the bit ranges of two different entries do not overlap |
| Packing.NewReadsZero | DataBox/BitPacker.cs:33-35 | every entry of a freshly created packer reads 0 |
| Packing.NewTailClear | DataBox/BitPacker.cs:33-35 | a freshly created packer has every bit after the last entry clear |
| Packing.SetBitsEffect | DataBox/BitPacker.cs:55-67 | after the write loop's first `k` iterations, each stream bit it covered holds the matching bit of the value, and every other stream bit is unchanged |
| Packing.SetBitsKeepsOtherBytes | DataBox/BitPacker.cs:55-67 | the write loop leaves every byte that holds none of its bits unchanged |
| Packing.GetBitsBit | DataBox/BitPacker.cs:85-94 | bit `j` of what the read loop assembles is stream bit `start + j` for `j < k`, and 0 from `k` up |
| Packing.GetSetBits | DataBox/BitPacker.cs:55-94 | reading back the bits the write loop wrote gives the value, when it fits the width |
| Packing.GetBitsSplit | DataBox/BitPacker.cs:85-94 | a read of `a + b` bits is the read of the first `a` bits, with the read of the next `b` bits placed above it |
| Packing.SetValue | DataBox/BitPacker.cs:43-68 | succeeds exactly when the index is in range and the value fits the width (every value fits at width 32); an index error is reported before a value error; shape and validity are kept |
| Packing.SetValueStreamBit | DataBox/BitPacker.cs:50-67 | after a successful set, each stream bit of the entry's slot holds the matching bit of the value, and every stream bit outside the slot is unchanged |
| Packing.SetValueKeepsOtherBytes | DataBox/BitPacker.cs:55-67 | a set leaves every byte that shares no bit with the entry's slot unchanged |
| Packing.GetValue | DataBox/BitPacker.cs:75-97 | succeeds exactly when the index is in range, otherwise reports an index error; the result fits the width |
| Packing.StreamBitIsEntryBit | DataBox/BitPacker.cs:80-94 | bit `offset` of entry `index` is stream bit `index * bitLength + offset` |
| Packing.GetAfterSet | DataBox/BitPacker.cs:43-97 | reading an entry right after a successful set returns the value set |
| Packing.GetAfterSetOther | DataBox/BitPacker.cs:43-97 | a set does not change what any other entry reads, including entries that share a byte with it |
| Packing.SetValueKeepsTailClear | DataBox/BitPacker.cs:55-67 | a set keeps the bits after the last entry clear |
| Packing.SetWhatGetReturns | DataBox/BitPacker.cs:43-97 | writing back the value an entry reads leaves the packer unchanged |
| Packing.SetOverwrites | DataBox/BitPacker.cs:43-68 | two sets of the same entry amount to the second one alone |
| Packing.SetValueWritesSlot | DataBox/BitPacker.cs:50-67 | a successful set keeps the buffer's length and replaces exactly the entry's slot of the stream by the value's bits |
| Packing.WritesCommute | DataBox/BitPacker.cs:55-67 | two such slot writes to disjoint slots give the same buffer in either order |
| Packing.SetCommutes | DataBox/BitPacker.cs:43-68 | sets of two different entries can be made in either order |
| Packing.ValuesDetermineData | DataBox/BitPacker.cs:75-97 | two packers of the same shape with clear tails are equal exactly when every entry reads the same in both |
| Packing.GetRawData | DataBox/BitPacker.cs:102-105 | the raw bytes of a valid packer are exactly `(bitLength * count + 7) / 8` long |
| Packing.FromRawData | DataBox/BitPacker.cs:114-121 | succeeds exactly when width and count fit a byte, the width is 8..32 and the byte count is `(bitLength * count + 7) / 8`; the three failures are distinguished in the source's order; on success the raw data is the input |
| Packing.RawRoundTrip | DataBox/BitPacker.cs:102-121 | rebuilding a packer from its own raw bytes and shape gives the same packer |
| PackerImpl.BitPacker.Create | DataBox/BitPacker.cs:26-36 | the constructor's checks and zero-filled buffer give exactly `Packing.New` |
| PackerImpl.WriteStep | DataBox/BitPacker.cs:57-66 | one write iteration, at the byte `bytePosition + (bitOffset + i) / 8` and bit `(bitOffset + i) % 8` the source computes, is one more step of `Packing.SetBits` |
| PackerImpl.ReadStep | DataBox/BitPacker.cs:87-93 | one read iteration, testing the byte and bit the source computes and ORing in `1u << i` when that bit is set, is one more step of `Packing.GetBits` |
| PackerImpl.BitPacker.SetValue | DataBox/BitPacker.cs:43-68 | the method's checks and bit-by-bit loop leave the buffer as `Packing.SetValue` says, and a failed call leaves it untouched |
| PackerImpl.BitPacker.GetValue | DataBox/BitPacker.cs:75-97 | the method's bit-by-bit loop returns exactly `Packing.GetValue` |
| PackerImpl.BitPacker.GetRawData | DataBox/BitPacker.cs:102-105 | the method returns the packer's own buffer, whose contents are `Packing.GetRawData` |
| PackerImpl.BitPacker.FromRawData | DataBox/BitPacker.cs:114-121 | the method's checks and copy give exactly `Packing.FromRawData` |
| Bits.MaskedShiftCount | DataBox/BitPacker.cs:47 | the count `1u << n` shifts by is below 32, is `n` itself below 32, and is 0 for a count of 32 |
| BitDataType.BitLength | DataBox/type/BitData.cs:21-22 | the width is the top byte of the word, `_value / 2^24` |
| BitDataType.StoreBitLength | DataBox/type/BitData.cs:18-22 | writing `_bitLength` sets byte 3 of the word, so `BitLength` reads the new width, and keeps bytes 0..2 |
| BitDataType.Value | DataBox/type/BitData.cs:94 | the getter's result is below `1u << _bitLength`, with the shift count masked as C# does |
| BitDataType.Assemble | DataBox/type/BitData.cs:37-38 | storing a value that fits its width, then the width, gives a word that reads back both and has nothing else set |
| BitDataType.New | DataBox/type/BitData.cs:29-39 | fails exactly on a width outside 1..24 (checked first) or a value at or above `2^width`; on success it reads back the value and width given |
| BitDataType.FromByte | DataBox/type/BitData.cs:46-50 | reads back the byte, at width 8 |
| BitDataType.FromUShort | DataBox/type/BitData.cs:56-60 | reads back the `ushort`, at width 16 |
| BitDataType.UncheckedToUInt | DataBox/type/BitData.cs:73 | `unchecked((uint)v)` agrees with `v` modulo `2^32` |
| BitDataType.FromShort | DataBox/type/BitData.cs:67-75 | fails exactly on a negative value with `check` on; otherwise it reads back the value's low 16 bits at width 16, and its word has nothing else set exactly when the value is not negative |
| BitDataType.ShortWord | DataBox/type/BitData.cs:73-74 | the sign-extended word with byte 3 replaced by 16 reads the low 16 bits at width 16, and has nothing else set exactly when the value is not negative |
| BitDataType.FromInt | DataBox/type/BitData.cs:81-87 | succeeds exactly on `[0, 2^24)` and then reads back the value at width 24 |
| BitDataType.SetValue | DataBox/type/BitData.cs:95-105 | fails exactly when the new value is at or above `1u << _bitLength`; otherwise the width is kept and the value reads back |
| BitDataType.MergeLowBit | DataBox/type/BitData.cs:103 | bit by bit, the setter's word takes the bits below the width from the new value and keeps the old word's bits from the width up to bit 31 |
| BitDataType.SetValueKeepsHighBits | DataBox/type/BitData.cs:100-103 | the setter never changes a bit of the word at or above the width, so the width byte survives |
| BitDataType.SetValueOfValue | DataBox/type/BitData.cs:94-105 | writing back the value the getter returns leaves the `BitData` unchanged |
| BitDataType.SetValueTwice | DataBox/type/BitData.cs:95-105 | two writes through the setter amount to the second one alone |
| BitDataType.SetValueKeepsCanonical | DataBox/type/BitData.cs:95-105 | a word holding only the value and the width still holds only the value and the width after a write |
| BitDataType.Equals | DataBox/type/BitData.cs:164 | two `BitData` are equal exactly when their words are equal (the width being part of the word) |
| BitDataType.NotEquals | DataBox/type/BitData.cs:191 | `!=` holds exactly when the two differ |
| BitDataType.EqualsObject | DataBox/type/BitData.cs:161 | `Equals(object)` holds only for a boxed `BitData` equal to this one |
| BitDataType.CanonicalEquality | DataBox/type/BitData.cs:164 | between values built by the checked constructors, equality is equality of value and width |
| BitDataType.ShortSignExtensionBreaksEquality | DataBox/type/BitData.cs:67-75 | a negative `short` with `check` off reads like the `ushort` with the same 16 bits, yet the two are not equal |
| BitDataType.FromShortMasked | DataBox/type/BitData.cs:67-75 | the `short` constructor with the sign extension masked off is the `ushort` constructor on the low 16 bits |
| BitDataType.ShortMaskedKeepsEquality | DataBox/type/BitData.cs:67-75 | with the masking, equality with any checked `BitData` is again equality of value and width |
| BitDataType.ShortMaskedAgreesWhenChecked | DataBox/type/BitData.cs:67-75 | with `check` on, the masked constructor and the constructor as written agree on every input |
| BitDataType.ToUInt | DataBox/type/BitData.cs:128 | the conversion to `uint` is below `1u << _bitLength` |
| BitDataType.FromByteImplicit | DataBox/type/BitData.cs:134 | a byte converted in converts back to itself, at width 8 |
| BitDataType.FromUShortImplicit | DataBox/type/BitData.cs:140 | a `ushort` converted in converts back to itself, at width 16 |
| BitDataType.FromShortImplicit | DataBox/type/BitData.cs:146 | a `short` converts in exactly when it is not negative, and then converts back to itself at width 16 |
| BitDataType.FromUIntExplicit | DataBox/type/BitData.cs:152 | a `uint` converts in exactly when it is below `2^24`, and then converts back to itself at width 24 |
| BitDataType.FromIntExplicit | DataBox/type/BitData.cs:158 | an `int` converts in exactly on `[0, 2^24)`, and then converts back to itself at width 24 |
| BitDataType.ToString | DataBox/type/BitData.cs:175 | the text is `Value: `, digits that parse to the value, `, BitLength: `, and digits to the end that parse to the width |
| BitDataType.ToStringDeterminesReading | DataBox/type/BitData.cs:175 | two `BitData` with the same text read the same value at the same width |
| Decimal.FormatIsCanonical | DataBox/type/BitData.cs:175 | a printed number is a non-empty digit string that starts with `0` only for zero |
| Decimal.ParseFormat | DataBox/type/BitData.cs:175 | reading the printed digits back gives the number |
| Decimal.FormatInjective | DataBox/type/BitData.cs:175 | different numbers print differently |
| Scenarios.DocLayout | DataBox/BitPacker.cs:10-12 | two 11-bit entries take 3 bytes; the second starts at bit 11, so its first bit is in byte 1 and its last in byte 2, and the last 2 bits of byte 2 are unused |
| Scenarios.DemoRawReads | DataBox/Program.cs:35-44 | a 12-bit, 5-entry packer over the printed bytes `BC-3A-12-FF-0F-0F-FF-00` reads `0xABC, 0x123, 0xFFF, 0x0F0, 0x0FF` and has a clear tail |
| Scenarios.ExtendReads | DataBox/Program.cs:22-26 | writing value `n` to entry `n` keeps entries `0..n-1` and makes entry `n` read it |
| Scenarios.WriteEntries | DataBox/Program.cs:22-26 | the demo's writes, in order, leave every written entry reading its value and the tail clear |
| Scenarios.ReadEntries | DataBox/Program.cs:29-33 | the demo's read loop returns what every entry reads |
| Scenarios.Demo | DataBox/Program.cs:15-46 | the demo reads back its five values, exports exactly the bytes `BC-3A-12-FF-0F-0F-FF-00`, and the packer rebuilt from them reads the same five values |
| Scenarios.ConstructorCase | UnitTest/DataBoxTest.cs:13-18 | `BitData(15, 4)` reads 15 at width 4 |
| Scenarios.ConstructorValueRefused | UnitTest/DataBoxTest.cs:21-24 | `BitData(16, 4)` is refused with a value error |
| Scenarios.ConstructorWidthRefused | UnitTest/DataBoxTest.cs:27-31 | widths 0 and 25 are refused with a width error |
| Scenarios.ByteCase | UnitTest/DataBoxTest.cs:34-40 | byte 200 reads 200 at width 8 |
| Scenarios.UShortCase | UnitTest/DataBoxTest.cs:44-50 | `ushort` 60000 reads 60000 at width 16 |
| Scenarios.ShortCase | UnitTest/DataBoxTest.cs:53-59 | `short` 30000 reads 30000 at width 16 |
| Scenarios.ShortRefused | UnitTest/DataBoxTest.cs:62-66 | `short` -30000 is refused |
| Scenarios.IntCase | UnitTest/DataBoxTest.cs:69-75 | `int` 5000000 reads 5000000 at width 24 |
| Scenarios.IntRefused | UnitTest/DataBoxTest.cs:78-82 | `int` 20000000 is refused |
| Scenarios.SetterCase | UnitTest/DataBoxTest.cs:85-92 | setting 9 on `BitData(15, 4)` reads 9 |
| Scenarios.SetterRefused | UnitTest/DataBoxTest.cs:95-99 | setting 16 on `BitData(15, 4)` is refused |
| Scenarios.ToUIntCase | UnitTest/DataBoxTest.cs:102-107 | `BitData(100, 8)` converts to 100 |
| Scenarios.ImplicitCases | UnitTest/DataBoxTest.cs:110-126 | byte 50 converts in at width 8, and `ushort` 40000 at width 16 |
| Scenarios.ImplicitShortRefused | UnitTest/DataBoxTest.cs:129-137 | `short` -10000 is refused on conversion |
| Scenarios.ExplicitUIntCases | UnitTest/DataBoxTest.cs:140-156 | `uint` 1000000 converts in at width 24, and 20000000 is refused |
| Scenarios.ExplicitIntCases | UnitTest/DataBoxTest.cs:159-175 | `int` 5000000 converts in at width 24, and 20000000 is refused |
| Scenarios.EqualCase | UnitTest/DataBoxTest.cs:178-184 | two `BitData(15, 4)` are equal by `Equals` and `==`, and not by `!=` |
| Scenarios.UnequalCase | UnitTest/DataBoxTest.cs:187-193 | `BitData(15, 4)` and `BitData(9, 4)` are unequal by `Equals` and `==`, and by `!=` |
| Scenarios.ToStringCase | UnitTest/DataBoxTest.cs:228-233 | `BitData(15, 4)` prints as `Value: 15, BitLength: 4` |

## Left out

- `GetHashCode`: `HashCode.Combine` is seeded per process, so its values are not
  modelled. The unit test expecting different hashes for different values is not
  guaranteed by the code.
- `GetRawData` returns the internal array itself, so a caller can change the packer
  through it. `PackerImpl.BitPacker.GetRawData` returns that array, but the
  functional model reads only its contents.
- Exception messages and the exact exception classes are dropped. Each exception is
  an `Errors.Error` constructor.
- `Convert.ToByte` is modelled only as an overflow error for values outside 0..255.
  Its rounding and parsing of other types do not arise here.
- Console output of the demo is left out. `Scenarios.Demo` returns the values and
  bytes the demo prints.
- The `BitData` struct's boxing and the `is BitData` test of `Equals(object)` are
  represented by the `Object` datatype (`Null`, a boxed `BitData`, any other object).
- `ToString`'s decimal text follows the invariant-culture formatting of an unsigned
  integer. No culture-specific digits or group separators are modelled.
- DataBox/BitData.cs, the older union-style `BitData`, and
  DataBox/type/GenericsDataBox.cs, a reflection placeholder, are not part of this
  model. The demo's `BitDataTest` in DataBox/Program.cs targets the older type and is
  left out with it.
- `BitData`'s layout assumes a little-endian machine. `[FieldOffset(3)]` puts
  `_bitLength` on byte 3 of `_value`, and that byte holds bits 24..31 of the word
  only on little-endian hardware. The model fixes the width byte as bits 24..31; the
  big-endian layout is not modelled.
- `FromRawData` with a null `rawData` throws `NullReferenceException` once the
  constructor's checks pass. The model's byte sequences are never null, so that case
  is not modelled.
- The packer's width field is a `byte` and its count a `byte`. The model keeps them
  as natural numbers bounded by the constructor's checks, so no truncation arises.

## Findings

| source | as written | input that shows it | evidently intended | confidence | as-written member | corrected member |
|---|---|---|---|---|---|---|
| DataBox/type/BitData.cs:67-75 | `new BitData(short, check: false)` stores the sign-extended `unchecked((uint)value)` unmasked; only byte 3 is then overwritten by the width, so bits 16..23 of the word stay set | `new BitData((short)-1, false)` against `new BitData((ushort)0xFFFF)`: both read 65535 at width 16, but `Equals` and `==` say they differ | mask the stored word to the low 16 bits, as the checked constructor masks to its width, so equal readings compare equal | medium, not executed | BitDataType.ShortSignExtensionBreaksEquality | BitDataType.FromShortMasked |
