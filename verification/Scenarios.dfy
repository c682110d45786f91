/** The concrete cases the repository exercises: the console demo that packs five
    12-bit values, the two 11-bit layout of the class comment, and the unit tests of
    `BitData`, each stated over the model. */
module Scenarios {
  import opened Bits
  import opened Errors
  import Packing
  import PackerImpl
  import BitDataType
  import Decimal

  /** The five values the demo stores, in order. */
  const DemoValues: seq<uint32> := [0xABC, 0x123, 0xFFF, 0x0F0, 0x0FF]

  /** The eight bytes the demo prints, `BC-3A-12-FF-0F-0F-FF-00`: value 0 fills byte 0
      and the low half of byte 1, value 1 the high half of byte 1 and byte 2, and so
      on; the last half byte is the clear tail. */
  const DemoRaw: seq<uint8> := [0xBC, 0x3A, 0x12, 0xFF, 0x0F, 0x0F, 0xFF, 0x00]

  /** A read of `k` bits that stays inside byte `b`, from its bit `o`, yields the field
      it covers, which is below `2^k`. */
  lemma ReadInByte(data: seq<uint8>, b: nat, o: nat, k: nat, v: nat, start: nat)
    requires b < |data| && o + k <= 8 && Field(data[b], o, k) == v && start == 8 * b + o
    ensures Packing.GetBits(data, start, k) == v && v < Pow2(k)
  {
    Packing.GetBitsInByte(data, b, o, k);
    LowBounded(Shr(data[b], o), k);
  }

  /** A read that starts at bit `o` of byte `b`, runs to the end of that byte and takes
      `k2` more bits from the next byte: the low part `lo` from byte `b`, the high
      part `hi` from byte `b + 1`, shifted up by `k1`. */
  lemma TwoBytes(data: seq<uint8>, start: nat, b: nat, o: nat, k1: nat, k2: nat, lo: nat, hi: nat, scale: nat)
    requires b + 1 < |data| && o + k1 == 8 && k2 <= 8 && start == 8 * b + o
    requires Field(data[b], o, k1) == lo && Field(data[b + 1], 0, k2) == hi && Pow2(k1) == scale
    ensures Packing.GetBits(data, start, k1 + k2) == lo + hi * scale
  {
    var mid := 8 * (b + 1);
    ReadInByte(data, b, o, k1, lo, start);
    ReadInByte(data, b + 1, 0, k2, hi, mid);
    ReadParts(data, start, mid, k1, k2, lo, hi);
    JoinFields(Packing.GetBits(data, start, k1 + k2), lo, hi, k1, scale);
  }

  /** A read made of two adjacent reads whose results are known. */
  lemma ReadParts(data: seq<uint8>, start: nat, mid: nat, a: nat, b: nat, lo: nat, hi: nat)
    requires mid == start + a && mid + b <= 8 * |data|
    requires Packing.GetBits(data, start, a) == lo && Packing.GetBits(data, mid, b) == hi
    ensures Packing.GetBits(data, start, a + b) == Concat(lo, hi, a)
  {
    Packing.GetBitsSplit(data, start, a, b);
  }

  /** A value built from a `k`-bit low part and a high part is their weighted sum. */
  lemma JoinFields(x: nat, lo: nat, hi: nat, k: nat, scale: nat)
    requires x == Concat(lo, hi, k) && lo < Pow2(k) && Pow2(k) == scale
    ensures x == lo + hi * scale
  {
    ConcatIsSum(lo, hi, k);
  }

  /** The three fields the demo layout uses: a whole byte and its two halves. */
  lemma ByteFields(x: uint8)
    ensures Field(x, 0, 8) == x && Field(x, 0, 4) == x % 16 && Field(x, 4, 4) == x / 16
  {
    assert Pow2(4) == 16 && Pow2(8) == 256;
    LowOfFitting(x, 8);
    LowIsMod(x, 4);
    ShrIsDiv(x, 4);
    LowOfFitting(x / 16, 4);
  }

  /** A 12-bit entry that starts on a byte boundary: all of byte `b` (`lo`) and the
      low half of byte `b + 1` (`hi`). */
  lemma EvenSlot(data: seq<uint8>, index: nat, b: nat, lo: nat, hi: nat)
    requires b + 1 < |data| && index * 12 == 8 * b
    requires data[b] as nat == lo && (data[b + 1] as nat) % 16 == hi
    ensures Packing.GetBits(data, index * 12, 12) == lo + hi * 256
  {
    ByteFields(data[b]);
    ByteFields(data[b + 1]);
    assert Pow2(8) == 256;
    TwoBytes(data, index * 12, b, 0, 8, 4, lo, hi, 256);
  }

  /** A 12-bit entry that starts in the middle of byte `b`: its high half (`lo`) and
      all of byte `b + 1` (`hi`). */
  lemma OddSlot(data: seq<uint8>, index: nat, b: nat, lo: nat, hi: nat)
    requires b + 1 < |data| && index * 12 == 8 * b + 4
    requires (data[b] as nat) / 16 == lo && data[b + 1] as nat == hi
    ensures Packing.GetBits(data, index * 12, 12) == lo + hi * 16
  {
    ByteFields(data[b]);
    ByteFields(data[b + 1]);
    assert Pow2(4) == 16;
    TwoBytes(data, index * 12, b, 4, 4, 8, lo, hi, 16);
  }

  /** The 12 bits of entry `index` in the printed bytes are the demo value. The
      positions stay symbolic so that the read is not evaluated bit by bit. */
  lemma DemoRawEntry(data: seq<uint8>, index: nat)
    requires data == DemoRaw && index < 5
    ensures Packing.GetBits(data, index * 12, 12) == DemoValues[index]
  {
    if index == 0 {
      EvenSlot(data, index, index, 0xBC, 0xA);
    } else if index == 1 {
      OddSlot(data, index, index, 0x3, 0x12);
    } else if index == 2 {
      EvenSlot(data, index, index + 1, 0xFF, 0xF);
    } else if index == 3 {
      OddSlot(data, index, index + 1, 0x0, 0x0F);
    } else {
      EvenSlot(data, index, index + 2, 0xFF, 0x0);
    }
  }

  /** The packer holding the printed bytes reads the five demo values and has a
      clear tail. */
  lemma DemoRawReads(q: Packing.Packer)
    requires q == Packing.Packer(12, 5, DemoRaw)
    ensures q.Valid() && q.TailClear() && ReadsFirst(q, DemoValues, 5)
  {
    forall index | 0 <= index < 5
      ensures Packing.GetValue(q, index) == Ok(DemoValues[index])
    {
      DemoRawEntry(q.data, index);
    }
    forall p | 60 <= p < 64
      ensures !StreamBit(q.data, p)
    {
      ZeroBit(p % 8);
    }
  }

  /** Entries `0 .. n-1` of `p` read `v[0] .. v[n-1]`. */
  predicate ReadsFirst(p: Packing.Packer, v: seq<uint32>, n: nat)
    requires p.Valid() && n <= |v|
  {
    forall k :: 0 <= k < n ==> Packing.GetValue(p, k) == Ok(v[k])
  }

  /** Writing `v[n]` to entry `n` extends the read-back prefix by one entry. */
  lemma ExtendReads(p: Packing.Packer, q: Packing.Packer, v: seq<uint32>, n: nat)
    requires p.Valid() && n < |v| && ReadsFirst(p, v, n)
    requires Packing.SetValue(p, n, v[n]) == Ok(q)
    ensures q.Valid() && q.bitLength == p.bitLength && q.count == p.count
    ensures ReadsFirst(q, v, n + 1)
  {
    forall k | 0 <= k < n
      ensures Packing.GetValue(q, k) == Ok(v[k])
    {
      Packing.GetAfterSetOther(p, n, v[n], k);
    }
    Packing.GetAfterSet(p, n, v[n]);
  }

  /** Writes `vs[i]` to entry `i` for every `i`, in order, as the demo does. */
  method WriteEntries(packer: PackerImpl.BitPacker, vs: seq<uint32>)
    requires packer.Valid() && packer.Model().TailClear() && |vs| <= packer.count
    requires forall k :: 0 <= k < |vs| ==> Fits(vs[k], packer.bitLength)
    modifies packer.data
    ensures packer.Valid() && packer.Model().TailClear() && ReadsFirst(packer.Model(), vs, |vs|)
  {
    for i := 0 to |vs|
      invariant packer.Valid() && packer.Model().TailClear()
      invariant ReadsFirst(packer.Model(), vs, i)
    {
      ghost var before := packer.Model();
      var s := packer.SetValue(i, vs[i]);
      ExtendReads(before, packer.Model(), vs, i);
      Packing.SetValueKeepsTailClear(before, i, vs[i]);
    }
  }

  /** Reads every entry in order, as the demo's two printing loops do. */
  method ReadEntries(packer: PackerImpl.BitPacker) returns (vs: seq<uint32>)
    requires packer.Valid()
    ensures |vs| == packer.count && ReadsFirst(packer.Model(), vs, packer.count)
  {
    vs := [];
    for i := 0 to packer.count
      invariant |vs| == i
      invariant forall k :: 0 <= k < i ==> Packing.GetValue(packer.Model(), k) == Ok(vs[k])
    {
      var v := packer.GetValue(i);
      vs := vs + [v.value];
    }
  }

  /** The console demo: a 12-bit, 5-entry packer receives the five values, reads them
      back, exports its raw bytes `BC-3A-12-FF-0F-0F-FF-00` and is rebuilt from them; the rebuilt packer
      reads the same five values. No step throws. */
  method Demo() returns (values: seq<uint32>, raw: seq<uint8>, rebuilt: seq<uint32>)
    ensures values == DemoValues
    ensures raw == DemoRaw
    ensures rebuilt == DemoValues
  {
    var created := PackerImpl.BitPacker.Create(12, 5);
    var packer := created.value;
    Packing.NewTailClear(12, 5);
    assert Pow2(12) == 0x1000;
    WriteEntries(packer, DemoValues);
    ghost var p5 := packer.Model();
    DemoRawReads(Packing.Packer(12, 5, DemoRaw));
    Packing.ValuesDetermineData(p5, Packing.Packer(12, 5, DemoRaw));
    values := ReadEntries(packer);
    SameReads(p5, values, DemoValues);

    var rawData := packer.GetRawData();
    raw := rawData[..];
    var fromRaw := PackerImpl.BitPacker.FromRawData(rawData, 12, 5);
    Packing.RawRoundTrip(p5);
    var packerFromRaw := fromRaw.value;
    rebuilt := ReadEntries(packerFromRaw);
    SameReads(p5, rebuilt, DemoValues);
  }

  /** Two lists of what every entry of one packer reads are the same list. */
  lemma SameReads(p: Packing.Packer, a: seq<uint32>, b: seq<uint32>)
    requires p.Valid() && |a| == |b| == p.count && ReadsFirst(p, a, p.count) && ReadsFirst(p, b, p.count)
    ensures a == b
  {
    forall k | 0 <= k < |a|
      ensures a[k] == b[k]
    {
      assert Packing.GetValue(p, k) == Ok(a[k]);
    }
  }

  /** The class comment's layout: two 11-bit entries take 22 bits, so 3 bytes, the
      second entry straddling bytes 1 and 2 and the last 2 bits of byte 2 unused. */
  lemma DocLayout()
    ensures Packing.New(11, 2).Ok? && |Packing.New(11, 2).value.data| == 3
    ensures Packing.SlotStart(Packing.New(11, 2).value, 1) == 11
    ensures Packing.SlotStart(Packing.New(11, 2).value, 1) / 8 == 1
    ensures (Packing.SlotStart(Packing.New(11, 2).value, 1) + 10) / 8 == 2
    ensures 8 * |Packing.New(11, 2).value.data| - 2 * 11 == 2
  {
  }

  // ---------------------------------------------------------------------------
  // The unit tests of `BitData`.

  // The inputs of each case are parameters fixed by its precondition, so that the
  // cases follow from the general contracts rather than from evaluating the bodies.

  /** `new BitData(15, 4)` reads 15 at width 4. */
  lemma ConstructorCase(v: uint32, w: uint8)
    requires v == 15 && w == 4
    ensures BitDataType.New(v, w).Ok?
    ensures BitDataType.Value(BitDataType.New(v, w).value) == 15
    ensures BitDataType.BitLength(BitDataType.New(v, w).value) == 4
  {
    assert Pow2(4) == 16;
  }

  /** 16 does not fit in 4 bits. */
  lemma ConstructorValueRefused(v: uint32, w: uint8)
    requires v == 16 && w == 4
    ensures BitDataType.New(v, w) == Err(ValueOutOfRange)
  {
    assert Pow2(4) == 16;
  }

  /** Widths 0 and 25 are refused. */
  lemma ConstructorWidthRefused(narrow: uint8, wide: uint8)
    requires narrow == 0 && wide == 25
    ensures BitDataType.New(1, narrow) == Err(BitLengthOutOfRange)
    ensures BitDataType.New(1, wide) == Err(BitLengthOutOfRange)
  {
  }

  /** Byte 200 reads 200 at width 8. */
  lemma ByteCase(b: uint8)
    requires b == 200
    ensures BitDataType.Value(BitDataType.FromByte(b)) == 200
    ensures BitDataType.BitLength(BitDataType.FromByte(b)) == 8
  {
  }

  /** Ushort 60000 reads 60000 at width 16. */
  lemma UShortCase(u: uint16)
    requires u == 60000
    ensures BitDataType.Value(BitDataType.FromUShort(u)) == 60000
    ensures BitDataType.BitLength(BitDataType.FromUShort(u)) == 16
  {
  }

  /** Short 30000 reads 30000 at width 16. */
  lemma ShortCase(s: int16)
    requires s == 30000
    ensures BitDataType.FromShort(s, true).Ok?
    ensures BitDataType.Value(BitDataType.FromShort(s, true).value) == 30000
    ensures BitDataType.BitLength(BitDataType.FromShort(s, true).value) == 16
  {
    BitDataType.NonNegativeShort(s);
  }

  /** Short -30000 is refused. */
  lemma ShortRefused(s: int16)
    requires s == -30000
    ensures BitDataType.FromShort(s, true) == Err(ValueOutOfRange)
  {
  }

  /** Int 5000000 reads 5000000 at width 24. */
  lemma IntCase(i: int32)
    requires i == 5000000
    ensures BitDataType.FromInt(i).Ok?
    ensures BitDataType.Value(BitDataType.FromInt(i).value) == 5000000
    ensures BitDataType.BitLength(BitDataType.FromInt(i).value) == 24
  {
  }

  /** Int 20000000 is refused. */
  lemma IntRefused(i: int32)
    requires i == 20000000
    ensures BitDataType.FromInt(i) == Err(ValueOutOfRange)
  {
  }

  /** Setting 9 on `BitData(15, 4)` reads 9. */
  lemma SetterCase(v: uint32, w: uint8, next: uint32)
    requires v == 15 && w == 4 && next == 9
    ensures BitDataType.New(v, w).Ok?
    ensures BitDataType.SetValue(BitDataType.New(v, w).value, next).Ok?
    ensures BitDataType.Value(BitDataType.SetValue(BitDataType.New(v, w).value, next).value) == 9
  {
    assert Pow2(4) == 16;
    var d := BitDataType.New(v, w).value;
    assert BitDataType.ShiftCount(d) == 4;
  }

  /** Setting 16 on `BitData(15, 4)` is refused. */
  lemma SetterRefused(v: uint32, w: uint8, next: uint32)
    requires v == 15 && w == 4 && next == 16
    ensures BitDataType.New(v, w).Ok?
    ensures BitDataType.SetValue(BitDataType.New(v, w).value, next) == Err(ValueOutOfRange)
  {
    assert Pow2(4) == 16;
    var d := BitDataType.New(v, w).value;
    assert BitDataType.ShiftCount(d) == 4;
  }

  /** `BitData(100, 8)` converts to 100. */
  lemma ToUIntCase(v: uint32, w: uint8)
    requires v == 100 && w == 8
    ensures BitDataType.New(v, w).Ok? && BitDataType.ToUInt(BitDataType.New(v, w).value) == 100
  {
    assert Pow2(8) == 256;
  }

  /** Byte 50 converts in at width 8 and ushort 40000 at width 16. */
  lemma ImplicitCases(b: uint8, u: uint16)
    requires b == 50 && u == 40000
    ensures BitDataType.Value(BitDataType.FromByteImplicit(b)) == 50
    ensures BitDataType.BitLength(BitDataType.FromByteImplicit(b)) == 8
    ensures BitDataType.Value(BitDataType.FromUShortImplicit(u)) == 40000
    ensures BitDataType.BitLength(BitDataType.FromUShortImplicit(u)) == 16
  {
  }

  /** Short -10000 is refused on the way in. */
  lemma ImplicitShortRefused(s: int16)
    requires s == -10000
    ensures BitDataType.FromShortImplicit(s) == Err(ValueOutOfRange)
  {
  }

  /** Explicit uint 1000000 converts in at width 24; 20000000 is refused. */
  lemma ExplicitUIntCases(x: uint32, big: uint32)
    requires x == 1000000 && big == 20000000
    ensures BitDataType.FromUIntExplicit(x).Ok?
    ensures BitDataType.Value(BitDataType.FromUIntExplicit(x).value) == 1000000
    ensures BitDataType.BitLength(BitDataType.FromUIntExplicit(x).value) == 24
    ensures BitDataType.FromUIntExplicit(big) == Err(ValueOutOfRange)
  {
  }

  /** Explicit int 5000000 converts in at width 24; 20000000 is refused. */
  lemma ExplicitIntCases(i: int32, big: int32)
    requires i == 5000000 && big == 20000000
    ensures BitDataType.FromIntExplicit(i).Ok?
    ensures BitDataType.Value(BitDataType.FromIntExplicit(i).value) == 5000000
    ensures BitDataType.BitLength(BitDataType.FromIntExplicit(i).value) == 24
    ensures BitDataType.FromIntExplicit(big) == Err(ValueOutOfRange)
  {
  }

  /** Two `BitData(15, 4)` are equal, by `==`, `!=` and `Equals`. */
  lemma EqualCase(v: uint32, w: uint8)
    requires v == 15 && w == 4
    ensures BitDataType.New(v, w).Ok?
    ensures BitDataType.Equals(BitDataType.New(v, w).value, BitDataType.New(v, w).value)
    ensures !BitDataType.NotEquals(BitDataType.New(v, w).value, BitDataType.New(v, w).value)
  {
    assert Pow2(4) == 16;
  }

  /** `BitData(15, 4)` and `BitData(9, 4)` differ, by `==`, `!=` and `Equals`. */
  lemma UnequalCase(a: uint32, b: uint32, w: uint8)
    requires a == 15 && b == 9 && w == 4
    ensures BitDataType.New(a, w).Ok? && BitDataType.New(b, w).Ok?
    ensures !BitDataType.Equals(BitDataType.New(a, w).value, BitDataType.New(b, w).value)
    ensures BitDataType.NotEquals(BitDataType.New(a, w).value, BitDataType.New(b, w).value)
  {
    assert Pow2(4) == 16;
    var x, y := BitDataType.New(a, w), BitDataType.New(b, w);
    assert x.Ok? && y.Ok?;
    assert BitDataType.Value(x.value) == 15 && BitDataType.Value(y.value) == 9;
    assert x.value != y.value;
  }

  /** A `BitData` reading 15 at width 4 prints as `Value: 15, BitLength: 4`. */
  lemma FifteenAtFourText(d: BitDataType.BitData)
    requires BitDataType.Value(d) == 15 && BitDataType.BitLength(d) == 4
    ensures BitDataType.ToString(d) == "Value: 15, BitLength: 4"
  {
    Decimal.FormatTwoDigits(BitDataType.Value(d));
    Decimal.FormatOneDigit(BitDataType.BitLength(d));
    assert Decimal.Format(BitDataType.Value(d)) == "15";
    assert Decimal.Format(BitDataType.BitLength(d)) == "4";
    assert "Value: " + "15" + ", BitLength: " + "4" == "Value: 15, BitLength: 4";
  }

  /** `BitData(15, 4)` prints as `Value: 15, BitLength: 4`. */
  lemma ToStringCase(v: uint32, w: uint8)
    requires v == 15 && w == 4
    ensures BitDataType.New(v, w).Ok?
    ensures BitDataType.ToString(BitDataType.New(v, w).value) == "Value: 15, BitLength: 4"
  {
    assert Pow2(4) == 16;
    FifteenAtFourText(BitDataType.New(v, w).value);
  }
}
