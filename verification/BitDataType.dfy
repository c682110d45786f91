/** `BitData`: a value of 1 to 24 bits tagged with its width, stored in one 4-byte
    struct whose fields overlap. `_value` is the whole little-endian word and
    `_bitLength` is its byte 3, so the width is the top byte of the word and every
    write to one field is seen through the other. The model keeps exactly that word. */
module BitDataType {
  import opened Bits
  import opened Errors
  import opened Decimal

  /** The struct's single 32-bit word. `BitData(0)` is the zero-initialised default. */
  datatype BitData = BitData(raw: uint32)

  /** `BitLength`: reads `_bitLength`, which is byte 3 of the word, `raw >> 24`. */
  function BitLength(d: BitData): (r: uint8)
    ensures r == d.raw / 0x100_0000
  {
    Pow2Constants();
    ShrBounded(d.raw, 24, 8);
    ShrIsDiv(d.raw, 24);
    Shr(d.raw, 24)
  }

  /** Writing `_bitLength = len`: byte 3 of the word becomes `len`, bytes 0..2 stay. */
  function StoreBitLength(w: uint32, len: uint8): (r: uint32)
    ensures BitLength(BitData(r)) == len && Low(r, 24) == Low(w, 24)
  {
    Pow2Constants();
    ConcatBounded(Low(w, 24), len, 24, 8);
    ShrConcat(Low(w, 24), len, 24);
    LowConcat(Low(w, 24), len, 24);
    LowOfLow(w, 24, 24);
    Concat(Low(w, 24), len, 24)
  }

  /** The shift count of `1u << _bitLength`, masked as C# masks it. */
  function ShiftCount(d: BitData): (n: nat)
    ensures n < 32 && (BitLength(d) < 32 ==> n == BitLength(d))
  {
    MaskedShiftCount(BitLength(d))
  }

  /** The `Value` getter: `_value & ((1u << _bitLength) - 1)`. */
  function Value(d: BitData): (r: uint32)
    ensures r < Pow2(ShiftCount(d))
  {
    Pow2Constants();
    AndBounded(d.raw, LowMask(ShiftCount(d)), 32);
    AndBounded(LowMask(ShiftCount(d)), d.raw, ShiftCount(d));
    And(d.raw, LowMask(ShiftCount(d)))
  }

  /** The invariant every constructor is meant to establish: the width is at most 24
      and the word holds nothing but the value below bit 24 and the width in byte 3,
      `raw == Value | (BitLength << 24)`. */
  predicate Canonical(d: BitData) {
    BitLength(d) <= 24 && d.raw == Concat(Value(d), BitLength(d), 24)
  }

  /** After `_value = w; _bitLength = len;`, the low `k <= 24` bits of the word are those
      of `w`. */
  lemma MaskedWord(w: uint32, len: uint8, k: nat)
    requires k <= 24
    ensures And(StoreBitLength(w, len), LowMask(k)) == Low(w, k)
  {
    var x := StoreBitLength(w, len);
    forall j: nat
      ensures Bit(And(x, LowMask(k)), j) == Bit(Low(w, k), j)
    {
      AndBit(x, LowMask(k), j);
      LowMaskBit(k, j);
      ConcatBit(Low(w, 24), len, 24, j);
      LowBit(w, 24, j);
      LowBit(w, k, j);
    }
    BitExtensionality(And(x, LowMask(k)), Low(w, k));
  }

  /** The word a constructor leaves after `_value = lo; _bitLength = len;` when `lo`
      fits in `len` bits: the value reads back as `lo` and the width as `len`. */
  lemma Assemble(lo: uint32, len: uint8)
    requires len <= 24 && lo < Pow2(len)
    ensures var d := BitData(StoreBitLength(lo, len));
            BitLength(d) == len && Value(d) == lo && Canonical(d)
  {
    Pow2Monotone(len, 24);
    var d := BitData(StoreBitLength(lo, len));
    assert ShiftCount(d) == len;
    MaskedWord(lo, len, len);
    LowOfFitting(lo, len);
    LowOfFitting(lo, 24);
    assert Value(d) == lo;
  }

  // ---------------------------------------------------------------------------
  // Constructors.

  /** `new BitData(value, bitLength)`: the width must be 1..24, the value must fit it;
      the value is masked to the width and the width stored in byte 3. */
  function New(value: uint32, bitLength: uint8): (r: Result<BitData>)
    ensures r.Ok? <==> 1 <= bitLength <= 24 && value < Pow2(bitLength)
    ensures !(1 <= bitLength <= 24) ==> r == Err(BitLengthOutOfRange)
    ensures 1 <= bitLength <= 24 && value >= Pow2(bitLength) ==> r == Err(ValueOutOfRange)
    ensures r.Ok? ==> Value(r.value) == value && BitLength(r.value) == bitLength && Canonical(r.value)
  {
    if bitLength > 24 || bitLength < 1 then Err(BitLengthOutOfRange)
    else if value >= Pow2(bitLength) then Err(ValueOutOfRange)
    else
      MaskFitting(value, bitLength);
      Assemble(value, bitLength);
      Ok(BitData(StoreBitLength(And(value, LowMask(bitLength)), bitLength)))
  }

  /** Masking a value that already fits its width changes nothing. */
  lemma MaskFitting(value: nat, k: nat)
    requires value < Pow2(k)
    ensures And(value, LowMask(k)) == value
  {
    AndLowMaskIsLow(value, k);
    LowOfFitting(value, k);
  }

  /** `new BitData(byte)`: width 8, no check. */
  function FromByte(value: uint8): (r: BitData)
    ensures Value(r) == value && BitLength(r) == 8 && Canonical(r)
  {
    Pow2Constants();
    Pow2Monotone(8, 24);
    Assemble(value, 8);
    BitData(StoreBitLength(value, 8))
  }

  /** `new BitData(ushort)`: width 16, no check. */
  function FromUShort(value: uint16): (r: BitData)
    ensures Value(r) == value && BitLength(r) == 16 && Canonical(r)
  {
    Pow2Constants();
    Assemble(value, 16);
    BitData(StoreBitLength(value, 16))
  }

  /** `unchecked((uint)v)`: two's-complement reinterpretation of a signed 32-bit value. */
  function UncheckedToUInt(v: int32): (r: uint32)
    ensures r % 0x1_0000_0000 == v % 0x1_0000_0000
  {
    if v < 0 then v + 0x1_0000_0000 else v
  }

  /** `new BitData(short, check)` as written: a negative value is rejected only when
      `check` holds; otherwise its sign-extended word is stored unmasked and only
      byte 3 is overwritten by the width, so bits 16..23 stay set. */
  function FromShort(value: int16, check: bool): (r: Result<BitData>)
    ensures r.Ok? <==> !check || value >= 0
    ensures r.Err? ==> r.error == ValueOutOfRange
    ensures r.Ok? ==> BitLength(r.value) == 16 && Value(r.value) == value % 0x1_0000
    ensures r.Ok? ==> (Canonical(r.value) <==> value >= 0)
  {
    if check && value < 0 then Err(ValueOutOfRange)
    else
      var d := BitData(StoreBitLength(UncheckedToUInt(value), 16));
      ShortWord(value);
      Ok(d)
  }

  lemma ShortWord(value: int16)
    ensures var d := BitData(StoreBitLength(UncheckedToUInt(value), 16));
            BitLength(d) == 16 && Value(d) == value % 0x1_0000 && (Canonical(d) <==> value >= 0)
  {
    Pow2Constants();
    var w := UncheckedToUInt(value);
    var d := BitData(StoreBitLength(w, 16));
    assert ShiftCount(d) == 16;
    MaskedWord(w, 16, 16);
    LowIsMod(w, 16);
    LowIsMod(w, 24);
    ShortResidues(value);
    if Canonical(d) {
      LowConcat(Low(w, 16), 16, 24);
      LowOfLow(w, 16, 24);
      LowOfLow(w, 24, 24);
    }
  }

  /** The sign-extended word of a `short` agrees with it modulo `2^16`; its low three
      bytes equal its low two exactly when it is not negative. */
  lemma ShortResidues(value: int16)
    ensures UncheckedToUInt(value) % 0x1_0000 == value % 0x1_0000
    ensures UncheckedToUInt(value) % 0x100_0000 == UncheckedToUInt(value) % 0x1_0000 <==> value >= 0
  {
  }

  /** `new BitData(short, check)` with the sign extension masked off to 16 bits, as the
      struct's documentation (positive values, widths up to 24) intends. */
  function FromShortMasked(value: int16, check: bool): (r: Result<BitData>)
    ensures r.Ok? <==> !check || value >= 0
    ensures r.Err? ==> r.error == ValueOutOfRange
    ensures r.Ok? ==> r.value == FromUShort(value % 0x1_0000) && Canonical(r.value)
  {
    if check && value < 0 then Err(ValueOutOfRange)
    else
      MaskShort(value);
      Ok(BitData(StoreBitLength(And(UncheckedToUInt(value), LowMask(16)), 16)))
  }

  /** Masking the sign-extended word of a `short` to 16 bits leaves its residue. */
  lemma MaskShort(value: int16)
    ensures And(UncheckedToUInt(value), LowMask(16)) == value % 0x1_0000
  {
    Pow2Constants();
    AndLowMaskIsLow(UncheckedToUInt(value), 16);
    LowIsMod(UncheckedToUInt(value), 16);
    ShortResidues(value);
  }

  /** `new BitData(int)`: the value must lie in `[0, 2^24)`; width 24. */
  function FromInt(value: int32): (r: Result<BitData>)
    ensures r.Ok? <==> 0 <= value < 0x100_0000
    ensures r.Err? ==> r.error == ValueOutOfRange
    ensures r.Ok? ==> Value(r.value) == value && BitLength(r.value) == 24 && Canonical(r.value)
  {
    if value < 0 || value >= 0x100_0000 then Err(ValueOutOfRange)
    else
      Pow2Constants();
      Assemble(value, 24);
      Ok(BitData(StoreBitLength(value, 24)))
  }

  // ---------------------------------------------------------------------------
  // The `Value` setter.

  /** The word the `Value` setter writes: `(_value & ~mask) | (value & mask)` with
      `mask = (1u << _bitLength) - 1`. */
  function MergeLow(d: BitData, value: uint32): (r: uint32)
  {
    var k := ShiftCount(d);
    Pow2Constants();
    Pow2Monotone(k, 32);
    AndBounded(d.raw, Not(LowMask(k), 32), 32);
    AndBounded(value, LowMask(k), 32);
    OrBounded(And(d.raw, Not(LowMask(k), 32)), And(value, LowMask(k)), 32);
    Or(And(d.raw, Not(LowMask(k), 32)), And(value, LowMask(k)))
  }

  /** Bit by bit, the setter takes the bits below the shift count from the new value
      and keeps every bit of the old word from the shift count up to bit 31. */
  lemma MergeLowBit(d: BitData, value: uint32, j: nat)
    ensures Bit(MergeLow(d, value), j)
         == if j < ShiftCount(d) then Bit(value, j) else j < 32 && Bit(d.raw, j)
  {
    var k := ShiftCount(d);
    Pow2Monotone(k, 32);
    OrBit(And(d.raw, Not(LowMask(k), 32)), And(value, LowMask(k)), j);
    AndBit(d.raw, Not(LowMask(k), 32), j);
    AndBit(value, LowMask(k), j);
    NotBit(LowMask(k), 32, j);
    LowMaskBit(k, j);
  }

  /** A word below `2^32` has no bit from 32 up. */
  lemma WordBits(d: BitData, j: nat)
    requires j >= 32
    ensures !Bit(d.raw, j)
  {
    Pow2Constants();
    BoundedHighClear(d.raw, 32, j);
  }

  /** The `Value` setter: rejects a value at or above `1u << _bitLength`, otherwise
      replaces the bits below the width and keeps the rest of the word. */
  function SetValue(d: BitData, value: uint32): (r: Result<BitData>)
    ensures r.Ok? <==> value < Pow2(ShiftCount(d))
    ensures r.Err? ==> r.error == ValueOutOfRange
    ensures r.Ok? && BitLength(d) <= 24 ==> BitLength(r.value) == BitLength(d) && Value(r.value) == value
  {
    if value >= Pow2(ShiftCount(d)) then Err(ValueOutOfRange)
    else
      MergeLowReads(d, value);
      Ok(BitData(MergeLow(d, value)))
  }

  /** For a width of at most 24 the setter's word keeps the width and reads back as
      the value written. */
  lemma MergeLowReads(d: BitData, value: uint32)
    requires value < Pow2(ShiftCount(d))
    ensures BitLength(d) <= 24 ==> BitLength(BitData(MergeLow(d, value))) == BitLength(d)
    ensures BitLength(d) <= 24 ==> Value(BitData(MergeLow(d, value))) == value
  {
    if BitLength(d) <= 24 {
      MergeLowReadsNarrow(d, value);
    }
  }

  lemma MergeLowReadsNarrow(d: BitData, value: uint32)
    requires BitLength(d) <= 24 && value < Pow2(ShiftCount(d))
    ensures BitLength(BitData(MergeLow(d, value))) == BitLength(d)
    ensures Value(BitData(MergeLow(d, value))) == value
  {
    Pow2Constants();
    var m := BitData(MergeLow(d, value));
    var k := ShiftCount(d);
    forall j: nat
      ensures Bit(Shr(m.raw, 24), j) == Bit(Shr(d.raw, 24), j)
    {
      ShrBit(m.raw, 24, j);
      ShrBit(d.raw, 24, j);
      MergeLowBit(d, value, j + 24);
      if j + 24 >= 32 {
        WordBits(d, j + 24);
      }
    }
    BitExtensionality(Shr(m.raw, 24), Shr(d.raw, 24));
    assert ShiftCount(m) == k;
    forall j: nat
      ensures Bit(Value(m), j) == Bit(value, j)
    {
      AndBit(m.raw, LowMask(k), j);
      LowMaskBit(k, j);
      MergeLowBit(d, value, j);
      if j >= k {
        BoundedHighClear(value, k, j);
      }
    }
    BitExtensionality(Value(m), value);
  }

  /** The setter keeps every bit of the word from the width up: the high bytes and the
      width itself. */
  lemma SetValueKeepsHighBits(d: BitData, value: uint32, j: nat)
    requires SetValue(d, value).Ok? && j >= ShiftCount(d)
    ensures Bit(SetValue(d, value).value.raw, j) == Bit(d.raw, j)
  {
    MergeLowBit(d, value, j);
    if j >= 32 {
      WordBits(d, j);
    }
  }

  /** Writing back the value a `BitData` reads changes nothing. */
  lemma SetValueOfValue(d: BitData)
    ensures SetValue(d, Value(d)) == Ok(d)
  {
    var k := ShiftCount(d);
    forall j: nat
      ensures Bit(MergeLow(d, Value(d)), j) == Bit(d.raw, j)
    {
      MergeLowBit(d, Value(d), j);
      AndBit(d.raw, LowMask(k), j);
      LowMaskBit(k, j);
      if j >= 32 {
        WordBits(d, j);
      }
    }
    BitExtensionality(MergeLow(d, Value(d)), d.raw);
  }

  /** A second write through the setter overrides the first. */
  lemma SetValueTwice(d: BitData, a: uint32, b: uint32)
    requires BitLength(d) <= 24 && SetValue(d, a).Ok?
    ensures SetValue(SetValue(d, a).value, b) == SetValue(d, b)
  {
    var da := SetValue(d, a).value;
    assert ShiftCount(da) == ShiftCount(d);
    if SetValue(d, b).Ok? {
      forall j: nat
        ensures Bit(MergeLow(da, b), j) == Bit(MergeLow(d, b), j)
      {
        MergeLowBit(da, b, j);
        MergeLowBit(d, b, j);
        MergeLowBit(d, a, j);
      }
      BitExtensionality(MergeLow(da, b), MergeLow(d, b));
    }
  }

  /** The setter keeps a canonical `BitData` canonical. */
  lemma SetValueKeepsCanonical(d: BitData, value: uint32)
    requires Canonical(d) && SetValue(d, value).Ok?
    ensures Canonical(SetValue(d, value).value)
  {
    var r := SetValue(d, value).value;
    var k := ShiftCount(d);
    forall j: nat
      ensures Bit(r.raw, j) == Bit(Concat(value, BitLength(d), 24), j)
    {
      MergeLowBit(d, value, j);
      ConcatBit(value, BitLength(d), 24, j);
      ConcatBit(Value(d), BitLength(d), 24, j);
      if j >= k {
        BoundedHighClear(value, k, j);
        BoundedHighClear(Value(d), k, j);
      }
      if j >= 32 {
        WordBits(d, j);
      }
    }
    BitExtensionality(r.raw, Concat(value, BitLength(d), 24));
  }

  // ---------------------------------------------------------------------------
  // Equality.

  /** `Equals(BitData other)`, `==`: the same `_value` word and the same `_bitLength`. */
  function Equals(a: BitData, b: BitData): (r: bool)
    ensures r <==> a == b
  {
    a.raw == b.raw && BitLength(a) == BitLength(b)
  }

  /** `!=`: the negation of `==`. */
  function NotEquals(a: BitData, b: BitData): (r: bool)
    ensures r <==> a != b
  {
    !Equals(a, b)
  }

  /** The argument of `Equals(object?)`: null, a boxed `BitData`, or any other object. */
  datatype Object = Null | Boxed(data: BitData) | OtherObject

  /** `Equals(object? obj)`: true only for a boxed `BitData` equal to this one. */
  function EqualsObject(a: BitData, obj: Object): (r: bool)
    ensures r <==> obj == Boxed(a)
  {
    obj.Boxed? && Equals(a, obj.data)
  }

  /** Between canonical values, equality is equality of the value and the width. */
  lemma CanonicalEquality(a: BitData, b: BitData)
    requires Canonical(a) && Canonical(b)
    ensures Equals(a, b) <==> Value(a) == Value(b) && BitLength(a) == BitLength(b)
  {
  }

  /** The `short` constructor with `check` off stores a negative value so that it reads
      exactly like the `ushort` constructor given the same 16 bits, yet the two are
      not equal: the sign extension left bits 16..23 of the word set. */
  lemma ShortSignExtensionBreaksEquality(value: int16)
    requires value < 0
    ensures var s := FromShort(value, false).value;
            var u := FromUShort(value + 0x1_0000);
            Value(s) == Value(u) && BitLength(s) == BitLength(u) && !Equals(s, u)
  {
    var s := FromShort(value, false).value;
    var u := FromUShort(value + 0x1_0000);
    NegativeShort(value);
    assert Value(s) == value + 0x1_0000 && !Canonical(s) && Canonical(u);
  }

  lemma NegativeShort(value: int16)
    requires value < 0
    ensures value % 0x1_0000 == value + 0x1_0000
  {
  }

  lemma NonNegativeShort(value: int16)
    ensures value >= 0 ==> UncheckedToUInt(value) == value && value % 0x1_0000 == value
  {
  }

  /** With the sign extension masked off, the `short` constructor agrees with the
      `ushort` one, so its equality is equality of value and width again. */
  lemma ShortMaskedKeepsEquality(value: int16, check: bool, other: BitData)
    requires FromShortMasked(value, check).Ok? && Canonical(other)
    ensures var s := FromShortMasked(value, check).value;
            Equals(s, other) <==> Value(s) == Value(other) && BitLength(s) == BitLength(other)
  {
    CanonicalEquality(FromShortMasked(value, check).value, other);
  }

  /** Where the source's own check is on, the masked constructor is the one as written. */
  lemma ShortMaskedAgreesWhenChecked(value: int16)
    ensures FromShortMasked(value, true) == FromShort(value, true)
  {
    if value >= 0 {
      Pow2Constants();
      NonNegativeShort(value);
      MaskFitting(value, 16);
    }
  }

  // ---------------------------------------------------------------------------
  // Conversion operators.

  /** `implicit operator uint(BitData)`: the value. */
  function ToUInt(d: BitData): (r: uint32)
    ensures r < Pow2(ShiftCount(d))
  {
    Value(d)
  }

  /** `implicit operator BitData(byte)`: the byte constructor; the value converts back. */
  function FromByteImplicit(value: uint8): (r: BitData)
    ensures ToUInt(r) == value && BitLength(r) == 8
  {
    FromByte(value)
  }

  /** `implicit operator BitData(ushort)`: the `ushort` constructor; the value converts back. */
  function FromUShortImplicit(value: uint16): (r: BitData)
    ensures ToUInt(r) == value && BitLength(r) == 16
  {
    FromUShort(value)
  }

  /** `implicit operator BitData(short)`: the `short` constructor as written, with
      its default `check = true`, so negative values are rejected. */
  function FromShortImplicit(value: int16): (r: Result<BitData>)
    ensures r.Ok? <==> value >= 0
    ensures r.Err? ==> r.error == ValueOutOfRange
    ensures r.Ok? ==> ToUInt(r.value) == value && BitLength(r.value) == 16
  {
    NonNegativeShort(value);
    FromShort(value, true)
  }

  /** `explicit operator BitData(uint)`: the checked constructor at width 24. */
  function FromUIntExplicit(value: uint32): (r: Result<BitData>)
    ensures r.Ok? <==> value < 0x100_0000
    ensures r.Err? ==> r.error == ValueOutOfRange
    ensures r.Ok? ==> ToUInt(r.value) == value && BitLength(r.value) == 24
  {
    Pow2Constants();
    New(value, 24)
  }

  /** `explicit operator BitData(int)`: the `int` constructor. */
  function FromIntExplicit(value: int32): (r: Result<BitData>)
    ensures r.Ok? <==> 0 <= value < 0x100_0000
    ensures r.Err? ==> r.error == ValueOutOfRange
    ensures r.Ok? ==> ToUInt(r.value) == value && BitLength(r.value) == 24
  {
    FromInt(value)
  }

  // ---------------------------------------------------------------------------
  // Text.

  /** `s` reads as `Value: v, BitLength: w`: the first label, a run of digits that
      parses to `v`, the second label, and digits to the end that parse to `w`. */
  predicate ReadsAs(s: string, v: nat, w: nat) {
    |s| >= 7 && s[..7] == "Value: " && ReadsFrom(s[7..], v, w)
  }

  /** The text after the first label: the digits of `v`, then the rest of the text. */
  predicate ReadsFrom(u: string, v: nat, w: nat) {
    var n := LeadingDigits(u);
    1 <= n <= |u| && AllDigits(u[..n]) && Parse(u[..n]) == v && ReadsWidth(u[n..], w)
  }

  /** The text from the second label on: the label, then the digits of `w` to the end. */
  predicate ReadsWidth(t: string, w: nat) {
    |t| > 13 && t[..13] == ", BitLength: " && AllDigits(t[13..]) && Parse(t[13..]) == w
  }

  /** `ToString()`: `"Value: {Value}, BitLength: {BitLength}"`, both in decimal. */
  function ToString(d: BitData): (r: string)
    ensures ReadsAs(r, Value(d), BitLength(d))
  {
    var x, y := Format(Value(d)), Format(BitLength(d));
    TextReads(x, y, Value(d), BitLength(d));
    "Value: " + x + ", BitLength: " + y
  }

  lemma TextReads(x: string, y: string, v: nat, w: nat)
    requires x == Format(v) && y == Format(w)
    ensures ReadsAs("Value: " + x + ", BitLength: " + y, v, w)
  {
    var t := ", BitLength: " + y;
    WidthText(y, w, t);
    ValueText(x, t, v, w);
    assert "Value: " + x + ", BitLength: " + y == "Value: " + (x + t);
  }

  lemma WidthText(y: string, w: nat, t: string)
    requires y == Format(w) && t == ", BitLength: " + y
    ensures ReadsWidth(t, w)
  {
    ParseFormat(w);
    FormatIsCanonical(w);
    assert t[..13] == ", BitLength: " && t[13..] == y;
  }

  lemma ValueText(x: string, t: string, v: nat, w: nat)
    requires x == Format(v) && ReadsWidth(t, w)
    ensures ReadsFrom(x + t, v, w)
  {
    ParseFormat(v);
    FormatIsCanonical(v);
    LeadingDigitsOfFormat(x, t);
    assert (x + t)[..|x|] == x && (x + t)[|x|..] == t;
  }

  /** The text names the value and the width unambiguously: two `BitData` with the
      same text read the same value at the same width. It follows from `ToString`'s
      contract, since a text reads as one value and one width only. */
  lemma ToStringDeterminesReading(a: BitData, b: BitData)
    requires ToString(a) == ToString(b)
    ensures Value(a) == Value(b) && BitLength(a) == BitLength(b)
  {
  }
}
