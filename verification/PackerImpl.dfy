/** `BitPacker` as the mutable class the source declares: a byte array and the two
    bit-by-bit loops, with the source's own index arithmetic. Each operation is
    shown to do what the reference functions of module Packing do. */
module PackerImpl {
  import opened Bits
  import opened Errors
  import Packing

  /** The stream position `start + i`, split the way the loops split it: the byte and
      bit of `start` first, then the carry of `bitOffset + i` into later bytes. */
  lemma SplitPosition(start: nat, i: nat)
    ensures start / 8 + (start % 8 + i) / 8 == (start + i) / 8
    ensures (start % 8 + i) % 8 == (start + i) % 8
  {
  }

  /** One iteration of the write loop, at the byte and bit the source computes, is one
      more step of `Packing.SetBits`. */
  lemma WriteStep(before: seq<uint8>, cur: seq<uint8>, start: nat, v: nat, i: nat, byteIx: nat, bitIx: nat)
    requires start + i < 8 * |before| && cur == Packing.SetBits(before, start, v, i)
    requires byteIx == start / 8 + (start % 8 + i) / 8 && bitIx == (start % 8 + i) % 8
    ensures byteIx < |cur| && bitIx < 8
    ensures cur[byteIx := WriteByteBit(cur[byteIx], bitIx, Bit(v, i))] == Packing.SetBits(before, start, v, i + 1)
  {
    SplitPosition(start, i);
  }

  /** One iteration of the read loop, at the byte and bit the source computes, is one
      more step of `Packing.GetBits`. */
  lemma ReadStep(data: seq<uint8>, start: nat, i: nat, byteIx: nat, bitIx: nat)
    requires start + i < 8 * |data|
    requires byteIx == start / 8 + (start % 8 + i) / 8 && bitIx == (start % 8 + i) % 8
    ensures byteIx < |data| && bitIx < 8
    ensures Packing.GetBits(data, start, i + 1) ==
              if And(data[byteIx], Pow2(bitIx)) != 0 then Or(Packing.GetBits(data, start, i), Pow2(i))
              else Packing.GetBits(data, start, i)
  {
    SplitPosition(start, i);
    AndPow2(data[byteIx], bitIx);
  }

  class BitPacker {
    const bitLength: nat
    const count: nat
    /** The backing buffer; `GetRawData` hands out this very array. */
    const data: array<uint8>

    /** Not an operation of the source: the bare field assignment that backs `Create`
        and `FromRawData`, which establish `Valid()` and own the array they pass. */
    constructor Init(bitLength: nat, count: nat, data: array<uint8>)
      ensures this.bitLength == bitLength && this.count == count && this.data == data
    {
      this.bitLength := bitLength;
      this.count := count;
      this.data := data;
    }

    /** The packer as a value. */
    ghost function Model(): Packing.Packer
      reads data
    {
      Packing.Packer(bitLength, count, data[..])
    }

    ghost predicate Valid()
      reads data
    {
      Model().Valid()
    }

    /** `new BitPacker(bitLength, count)`: a zero-filled buffer of `(bitLength * count + 7) / 8`
        bytes, or the exception `Packing.New` names. */
    static method Create(bitLength: int, count: int) returns (r: Result<BitPacker>)
      ensures r.Ok? ==> fresh(r.value.data) && r.value.Valid()
      ensures Packing.New(bitLength, count) == if r.Ok? then Ok(r.value.Model()) else Err(r.error)
    {
      if bitLength < 8 || bitLength > 32 {
        return Err(BitLengthOutOfRange);
      }
      if count < 0 || count > 255 {
        return Err(ByteOverflow);
      }
      var totalBits := bitLength * count;
      var totalBytes := (totalBits + 7) / 8;
      var buffer := new uint8[totalBytes](_ => 0);
      var packer := new BitPacker.Init(bitLength, count, buffer);
      assert packer.Model().data == Packing.New(bitLength, count).value.data;
      return Ok(packer);
    }

    /** `SetValue(index, value)`: the checks throw before anything is written; the
        loop then writes bit `i` of the value at byte `bytePosition + (bitOffset + i) / 8`,
        bit `(bitOffset + i) % 8`. The buffer ends as `Packing.SetValue` says. */
    method SetValue(index: int, value: uint32) returns (r: Result<()>)
      requires Valid()
      modifies data
      ensures Valid()
      ensures r.Ok? ==> Packing.SetValue(old(Model()), index, value) == Ok(Model())
      ensures r.Err? ==> Packing.SetValue(old(Model()), index, value) == Err(r.error)
      ensures r.Err? ==> data[..] == old(data[..])
    {
      ghost var p := Model();
      if index < 0 || index >= count {
        assert Packing.SetValue(p, index, value) == Err(IndexOutOfRange);
        return Err(IndexOutOfRange);
      }
      if value >= ShiftLeftOne(bitLength) && bitLength < 32 {
        assert Packing.SetValue(p, index, value) == Err(ValueOutOfRange);
        return Err(ValueOutOfRange);
      }
      var bitPosition := index * bitLength;
      var bytePosition := bitPosition / 8;
      var bitOffset := bitPosition % 8;
      Packing.SlotInBounds(p, index);
      for i := 0 to bitLength
        invariant data[..] == Packing.SetBits(p.data, bitPosition, value, i)
      {
        var currentBit := bitOffset + i;
        var currentByte := bytePosition + currentBit / 8;
        var currentBitInByte := currentBit % 8;
        WriteStep(p.data, data[..], bitPosition, value, i, currentByte, currentBitInByte);
        AndPow2(value, i);
        var bitValue := And(value, Pow2(i)) != 0;
        data[currentByte] := WriteByteBit(data[currentByte], currentBitInByte, bitValue);
      }
      assert Packing.SetValue(p, index, value) == Ok(Model());
      return Ok(());
    }

    /** `GetValue(index)`: the loop ORs `1u << i` into the result for every set bit of
        the slot, reading byte and bit with the same arithmetic as `SetValue`. The
        result is exactly `Packing.GetValue`. */
    method GetValue(index: int) returns (r: Result<uint32>)
      requires Valid()
      ensures r == Packing.GetValue(Model(), index)
    {
      ghost var p := Model();
      if index < 0 || index >= count {
        return Err(IndexOutOfRange);
      }
      var bitPosition := index * bitLength;
      var bytePosition := bitPosition / 8;
      var bitOffset := bitPosition % 8;
      var value: nat := 0;
      Packing.SlotInBounds(p, index);
      for i := 0 to bitLength
        invariant value == Packing.GetBits(p.data, bitPosition, i)
      {
        var currentBit := bitOffset + i;
        var currentByte := bytePosition + currentBit / 8;
        var currentBitInByte := currentBit % 8;
        ReadStep(p.data, bitPosition, i, currentByte, currentBitInByte);
        var bitValue := And(data[currentByte], Pow2(currentBitInByte)) != 0;
        if bitValue {
          value := Or(value, Pow2(i));
        }
      }
      assert Packing.GetValue(p, index) == Ok(value);
      return Ok(value);
    }

    /** `GetRawData()`: the internal buffer itself, not a copy. */
    method GetRawData() returns (r: array<uint8>)
      ensures r == data && r[..] == Packing.GetRawData(Model())
    {
      return data;
    }

    /** `FromRawData(rawData, bitLength, count)`: a new packer whose buffer is a copy of
        `raw`, or the exception `Packing.FromRawData` names. */
    static method FromRawData(raw: array<uint8>, bitLength: int, count: int) returns (r: Result<BitPacker>)
      ensures r.Ok? ==> fresh(r.value.data) && r.value.Valid()
      ensures Packing.FromRawData(raw[..], bitLength, count) == if r.Ok? then Ok(r.value.Model()) else Err(r.error)
    {
      if bitLength < 0 || bitLength > 255 || count < 0 || count > 255 {
        return Err(ByteOverflow);
      }
      var created := Create(bitLength, count);
      if created.Err? {
        return Err(created.error);
      }
      var packer := created.value;
      if raw.Length != packer.data.Length {
        return Err(LengthMismatch);
      }
      forall k | 0 <= k < raw.Length {
        packer.data[k] := raw[k];
      }
      assert packer.data[..] == raw[..];
      return Ok(packer);
    }
  }
}
