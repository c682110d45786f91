/** The packed array of `BitPacker`, as a value: a fixed shape (`bitLength` bits per
    entry, `count` entries) over a byte buffer with no padding. Entry `i` occupies
    stream bits `[i * bitLength, i * bitLength + bitLength)` and its bit `j` is stream
    bit `i * bitLength + j`. The functions here are the reference behaviour; the
    class in module PackerImpl runs the same bit-by-bit loops over an array. */
module Packing {
  import opened Bits
  import opened Errors

  /** A packer: its shape and its backing bytes. */
  datatype Packer = Packer(bitLength: nat, count: nat, data: seq<uint8>) {

    /** What the constructor establishes and no operation breaks: an admitted width,
        a count that fits in a byte, and a buffer of exactly `(bitLength * count + 7) / 8` bytes. */
    predicate Valid() {
      8 <= bitLength <= 32 && count <= 255 && |data| == ByteCount(bitLength * count)
    }

    /** The bits past the last entry, in the final byte, are all clear. */
    predicate TailClear()
      requires Valid()
    {
      forall q :: bitLength * count <= q < 8 * |data| ==> !StreamBit(data, q)
    }
  }

  /** The first stream bit of entry `index`: `index * bitLength`. */
  function SlotStart(p: Packer, index: nat): nat {
    index * p.bitLength
  }

  lemma MulMonotone(a: nat, b: nat, c: nat)
    requires a <= b
    ensures a * c <= b * c
  {
  }

  /** Every entry lies inside the stream, before the tail. */
  lemma SlotInBounds(p: Packer, index: nat)
    requires p.Valid() && index < p.count
    ensures SlotStart(p, index) + p.bitLength <= p.bitLength * p.count <= 8 * |p.data|
  {
    MulMonotone(index + 1, p.count, p.bitLength);
  }

  /** The slots of two different entries do not overlap. */
  lemma SlotsDisjoint(p: Packer, i: nat, j: nat)
    requires i != j
    ensures SlotStart(p, i) + p.bitLength <= SlotStart(p, j) || SlotStart(p, j) + p.bitLength <= SlotStart(p, i)
  {
    if i < j {
      MulMonotone(i + 1, j, p.bitLength);
    } else {
      MulMonotone(j + 1, i, p.bitLength);
    }
  }

  /** Every stream bit before the tail belongs to a slot: entry `q / bitLength`, at
      offset `q % bitLength`. */
  lemma SlotOf(p: Packer, q: nat) returns (index: nat, offset: nat)
    requires p.Valid() && q < p.bitLength * p.count
    ensures index < p.count && offset < p.bitLength && SlotStart(p, index) + offset == q
  {
    index, offset := Divide(q, p.bitLength, p.count);
  }

  /** `q / w` and `q % w` for a `q` below `w * n`. */
  lemma Divide(q: nat, w: nat, n: nat) returns (i: nat, off: nat)
    requires 0 < w && q < w * n
    ensures i < n && off < w && i * w + off == q
  {
    i, off := q / w, q % w;
    if i >= n {
      MulMonotone(n, i, w);
      assert false;
    }
  }

  // ---------------------------------------------------------------------------
  // The two bit-by-bit loops of the source, as recursive functions over the
  // number of iterations done.

  /** The buffer after the first `k` iterations of the write loop: iteration `i` copies
      bit `i` of `v` into stream bit `start + i`. */
  function SetBits(data: seq<uint8>, start: nat, v: nat, k: nat): (r: seq<uint8>)
    requires start + k <= 8 * |data|
    ensures |r| == |data|
    decreases k
  {
    if k == 0 then data
    else WriteBit(SetBits(data, start, v, k - 1), start + k - 1, Bit(v, k - 1))
  }

  /** The word after the first `k` iterations of the read loop: iteration `i` sets
      bit `i` (`value |= 1u << i`) when stream bit `start + i` is set. It never
      exceeds `k` bits. */
  function GetBits(data: seq<uint8>, start: nat, k: nat): (r: nat)
    requires start + k <= 8 * |data|
    ensures r < Pow2(k)
    decreases k
  {
    if k == 0 then 0
    else
      var prev := GetBits(data, start, k - 1);
      if StreamBit(data, start + k - 1) then
        OrBounded(prev, Pow2(k - 1), k);
        Or(prev, Pow2(k - 1))
      else prev
  }

  /** The write loop puts bit `q - start` of `v` at every stream position `q` it covers
      and leaves every other stream bit as it was. */
  lemma {:induction false} SetBitsEffect(data: seq<uint8>, start: nat, v: nat, k: nat, q: nat)
    requires start + k <= 8 * |data| && q < 8 * |data|
    ensures StreamBit(SetBits(data, start, v, k), q)
         == if start <= q < start + k then Bit(v, q - start) else StreamBit(data, q)
    decreases k
  {
    if k > 0 {
      var prev := SetBits(data, start, v, k - 1);
      SetBitsEffect(data, start, v, k - 1, q);
      WriteBitEffect(prev, start + k - 1, Bit(v, k - 1), q);
    }
  }

  /** The write loop touches no byte outside the bytes its bits live in. */
  lemma {:induction false} SetBitsKeepsOtherBytes(data: seq<uint8>, start: nat, v: nat, k: nat, b: nat)
    requires start + k <= 8 * |data| && b < |data|
    requires 8 * b + 8 <= start || start + k <= 8 * b
    ensures SetBits(data, start, v, k)[b] == data[b]
    decreases k
  {
    if k > 0 {
      SetBitsKeepsOtherBytes(data, start, v, k - 1, b);
      WriteBitKeepsOtherBytes(SetBits(data, start, v, k - 1), start + k - 1, Bit(v, k - 1), b);
    }
  }

  /** Bit `j` of what the read loop assembles is stream bit `start + j` for `j < k`,
      and clear from `k` up. */
  lemma {:induction false} GetBitsBit(data: seq<uint8>, start: nat, k: nat, j: nat)
    requires start + k <= 8 * |data|
    ensures Bit(GetBits(data, start, k), j) == (j < k && StreamBit(data, start + j))
    decreases k
  {
    if k == 0 {
      ZeroBit(j);
    } else {
      GetBitsBit(data, start, k - 1, j);
      if StreamBit(data, start + k - 1) {
        OrBit(GetBits(data, start, k - 1), Pow2(k - 1), j);
        Pow2Bit(k - 1, j);
      }
    }
  }

  /** The read loop depends only on the stream bits it visits. */
  lemma {:induction false} GetBitsCongruent(a: seq<uint8>, b: seq<uint8>, start: nat, k: nat)
    requires start + k <= 8 * |a| && start + k <= 8 * |b|
    requires forall q :: start <= q < start + k ==> StreamBit(a, q) == StreamBit(b, q)
    ensures GetBits(a, start, k) == GetBits(b, start, k)
    decreases k
  {
    if k > 0 {
      GetBitsCongruent(a, b, start, k - 1);
    }
  }

  /** Reading back what the write loop wrote gives the low `k` bits of the value. */
  lemma GetSetBits(data: seq<uint8>, start: nat, v: nat, k: nat)
    requires start + k <= 8 * |data| && Fits(v, k)
    ensures GetBits(SetBits(data, start, v, k), start, k) == v
  {
    var r := SetBits(data, start, v, k);
    forall j: nat
      ensures Bit(GetBits(r, start, k), j) == Bit(v, j)
    {
      GetBitsBit(r, start, k, j);
      if j < k {
        SetBitsEffect(data, start, v, k, start + j);
      } else {
        BoundedHighClear(v, k, j);
      }
    }
    BitExtensionality(GetBits(r, start, k), v);
  }

  /** A read of `a + b` bits is the read of the first `a` bits with the read of the
      next `b` bits above it. */
  lemma GetBitsSplit(data: seq<uint8>, start: nat, a: nat, b: nat)
    requires start + a + b <= 8 * |data|
    ensures GetBits(data, start, a + b) == Concat(GetBits(data, start, a), GetBits(data, start + a, b), a)
  {
    var whole, joined := GetBits(data, start, a + b), Concat(GetBits(data, start, a), GetBits(data, start + a, b), a);
    forall j: nat
      ensures Bit(whole, j) == Bit(joined, j)
    {
      GetBitsSplitBit(data, start, a, b, j);
    }
    BitExtensionality(whole, joined);
  }

  /** `GetBitsBit` with the stream position named. */
  lemma GetBitsBitAt(data: seq<uint8>, start: nat, k: nat, j: nat, q: nat)
    requires start + k <= 8 * |data| && q == start + j
    ensures Bit(GetBits(data, start, k), j) == (j < k && StreamBit(data, q))
  {
    GetBitsBit(data, start, k, j);
  }

  /** One digit of `GetBitsSplit`. */
  lemma GetBitsSplitBit(data: seq<uint8>, start: nat, a: nat, b: nat, j: nat)
    requires start + a + b <= 8 * |data|
    ensures Bit(GetBits(data, start, a + b), j) == Bit(Concat(GetBits(data, start, a), GetBits(data, start + a, b), a), j)
  {
    var lo, hi := GetBits(data, start, a), GetBits(data, start + a, b);
    GetBitsBit(data, start, a + b, j);
    ConcatBit(lo, hi, a, j);
    if j < a {
      GetBitsBit(data, start, a, j);
    } else {
      GetBitsBitAt(data, start + a, b, j - a, start + j);
    }
  }

  /** Stream bit `q = 8 * b + c` is bit `c` of byte `b`. */
  lemma BytePosition(q: nat, b: nat, c: nat)
    requires c < 8 && q == 8 * b + c
    ensures q / 8 == b && q % 8 == c
  {
  }

  /** A read that stays inside byte `b`, from its bit `o`, is that byte shifted right by
      `o` and cut to `k` bits. */
  lemma GetBitsInByte(data: seq<uint8>, b: nat, o: nat, k: nat)
    requires b < |data| && o + k <= 8
    ensures GetBits(data, 8 * b + o, k) == Field(data[b], o, k)
  {
    forall j: nat
      ensures Bit(GetBits(data, 8 * b + o, k), j) == Bit(Field(data[b], o, k), j)
    {
      GetBitsBit(data, 8 * b + o, k, j);
      FieldBit(data[b], o, k, j);
      if j < k {
        BytePosition(8 * b + o + j, b, o + j);
      }
    }
    BitExtensionality(GetBits(data, 8 * b + o, k), Field(data[b], o, k));
  }

  // ---------------------------------------------------------------------------
  // The public operations.

  /** `new BitPacker(bitLength, count)`: checks the width first, then converts the
      count to a byte, then allocates a zero-filled buffer of
      `(bitLength * count + 7) / 8` bytes. */
  function New(bitLength: int, count: int): (r: Result<Packer>)
    ensures r.Ok? <==> 8 <= bitLength <= 32 && 0 <= count <= 255
    ensures !(8 <= bitLength <= 32) ==> r == Err(BitLengthOutOfRange)
    ensures 8 <= bitLength <= 32 && !(0 <= count <= 255) ==> r == Err(ByteOverflow)
    ensures r.Ok? ==> r.value.Valid() && r.value.bitLength == bitLength && r.value.count == count
    ensures r.Ok? ==> forall k :: 0 <= k < |r.value.data| ==> r.value.data[k] == 0
  {
    if bitLength < 8 || bitLength > 32 then Err(BitLengthOutOfRange)
    else if count < 0 || count > 255 then Err(ByteOverflow)
    else Ok(Packer(bitLength, count, seq(ByteCount(bitLength * count), _ => 0)))
  }

  /** `SetValue(index, value)`: the index check, then the range check (skipped at width
      32), and only then the write loop over the entry's slot. */
  function SetValue(p: Packer, index: int, value: uint32): (r: Result<Packer>)
    requires p.Valid()
    ensures r.Ok? <==> 0 <= index < p.count && Fits(value, p.bitLength)
    ensures !(0 <= index < p.count) ==> r == Err(IndexOutOfRange)
    ensures 0 <= index < p.count && !Fits(value, p.bitLength) ==> r == Err(ValueOutOfRange)
    ensures r.Ok? ==> r.value.Valid() && r.value.bitLength == p.bitLength && r.value.count == p.count
  {
    if index < 0 || index >= p.count then Err(IndexOutOfRange)
    else if value >= ShiftLeftOne(p.bitLength) && p.bitLength < 32 then Err(ValueOutOfRange)
    else
      Pow2Constants();
      SlotInBounds(p, index);
      Ok(p.(data := SetBits(p.data, SlotStart(p, index), value, p.bitLength)))
  }

  /** `GetValue(index)`: the index check, then the read loop over the entry's slot. */
  function GetValue(p: Packer, index: int): (r: Result<uint32>)
    requires p.Valid()
    ensures r.Ok? <==> 0 <= index < p.count
    ensures r.Err? ==> r.error == IndexOutOfRange
    ensures r.Ok? ==> Fits(r.value, p.bitLength)
  {
    if index < 0 || index >= p.count then Err(IndexOutOfRange)
    else
      Pow2Constants();
      SlotInBounds(p, index);
      Pow2Monotone(p.bitLength, 32);
      Ok(GetBits(p.data, SlotStart(p, index), p.bitLength))
  }

  /** `GetRawData()`: the backing bytes. */
  function GetRawData(p: Packer): (r: seq<uint8>)
    ensures p.Valid() ==> |r| == (p.bitLength * p.count + 7) / 8
  {
    p.data
  }

  /** `FromRawData(rawData, bitLength, count)`: both numbers go through `Convert.ToByte`,
      then the constructor runs its own checks, then the length must match exactly,
      and the bytes are copied in as they are. */
  function FromRawData(raw: seq<uint8>, bitLength: int, count: int): (r: Result<Packer>)
    ensures r.Ok? <==> 8 <= bitLength <= 32 && 0 <= count <= 255 && |raw| == ByteCount(bitLength * count)
    ensures !(0 <= bitLength <= 255 && 0 <= count <= 255) ==> r == Err(ByteOverflow)
    ensures 0 <= count <= 255 && 0 <= bitLength <= 255 && !(8 <= bitLength <= 32) ==> r == Err(BitLengthOutOfRange)
    ensures 8 <= bitLength <= 32 && 0 <= count <= 255 && |raw| != ByteCount(bitLength * count) ==> r == Err(LengthMismatch)
    ensures r.Ok? ==> r.value.Valid() && r.value.bitLength == bitLength && r.value.count == count
    ensures r.Ok? ==> GetRawData(r.value) == raw
  {
    if bitLength < 0 || bitLength > 255 || count < 0 || count > 255 then Err(ByteOverflow)
    else
      match New(bitLength, count)
      case Err(e) => Err(e)
      case Ok(empty) =>
        if |raw| != |empty.data| then Err(LengthMismatch)
        else Ok(empty.(data := raw))
  }

  // ---------------------------------------------------------------------------
  // Properties of the operations.

  /** Every entry of a fresh packer reads as zero. */
  lemma NewReadsZero(bitLength: int, count: int, index: int)
    requires New(bitLength, count).Ok? && 0 <= index < count
    ensures GetValue(New(bitLength, count).value, index) == Ok(0)
  {
    var p := New(bitLength, count).value;
    SlotInBounds(p, index);
    forall j: nat
      ensures Bit(GetBits(p.data, SlotStart(p, index), p.bitLength), j) == Bit(0, j)
    {
      GetBitsBit(p.data, SlotStart(p, index), p.bitLength, j);
      ZeroBit(j);
      if j < p.bitLength {
        ZeroBit((SlotStart(p, index) + j) % 8);
      }
    }
    BitExtensionality(GetBits(p.data, SlotStart(p, index), p.bitLength), 0);
  }

  /** A fresh packer has a clear tail. */
  lemma NewTailClear(bitLength: int, count: int)
    requires New(bitLength, count).Ok?
    ensures New(bitLength, count).value.TailClear()
  {
    var p := New(bitLength, count).value;
    forall q | p.bitLength * p.count <= q < 8 * |p.data|
      ensures !StreamBit(p.data, q)
    {
      ZeroBit(q % 8);
    }
  }

  /** A successful `SetValue` writes bit `q - start` of the value to every stream bit `q`
      of the entry's slot and leaves every other stream bit as it was. */
  lemma SetValueStreamBit(p: Packer, index: int, value: uint32, q: nat)
    requires p.Valid() && SetValue(p, index, value).Ok? && q < 8 * |p.data|
    ensures StreamBit(SetValue(p, index, value).value.data, q)
         == if SlotStart(p, index) <= q < SlotStart(p, index) + p.bitLength
            then Bit(value, q - SlotStart(p, index))
            else StreamBit(p.data, q)
  {
    SlotInBounds(p, index);
    SetBitsEffect(p.data, SlotStart(p, index), value, p.bitLength, q);
  }

  /** `SetValue` leaves every byte outside the entry's slot as it was. */
  lemma SetValueKeepsOtherBytes(p: Packer, index: int, value: uint32, b: nat)
    requires p.Valid() && SetValue(p, index, value).Ok? && b < |p.data|
    requires 8 * b + 8 <= SlotStart(p, index) || SlotStart(p, index) + p.bitLength <= 8 * b
    ensures SetValue(p, index, value).value.data[b] == p.data[b]
  {
    SlotInBounds(p, index);
    SetBitsKeepsOtherBytes(p.data, SlotStart(p, index), value, p.bitLength, b);
  }

  /** Reading an entry right after setting it gives the value set. */
  lemma GetAfterSet(p: Packer, index: int, value: uint32)
    requires p.Valid() && SetValue(p, index, value).Ok?
    ensures GetValue(SetValue(p, index, value).value, index) == Ok(value)
  {
    SlotInBounds(p, index);
    GetSetBits(p.data, SlotStart(p, index), value, p.bitLength);
  }

  /** Setting one entry does not change what any other entry reads. */
  lemma GetAfterSetOther(p: Packer, index: int, value: uint32, other: int)
    requires p.Valid() && SetValue(p, index, value).Ok? && other != index
    ensures GetValue(SetValue(p, index, value).value, other) == GetValue(p, other)
  {
    if 0 <= other < p.count {
      var r := SetValue(p, index, value).value;
      SlotInBounds(p, other);
      SlotsDisjoint(p, index, other);
      forall q | SlotStart(p, other) <= q < SlotStart(p, other) + p.bitLength
        ensures StreamBit(r.data, q) == StreamBit(p.data, q)
      {
        SetValueStreamBit(p, index, value, q);
      }
      GetBitsCongruent(r.data, p.data, SlotStart(p, other), p.bitLength);
    }
  }

  /** `SetValue` keeps the tail clear. */
  lemma SetValueKeepsTailClear(p: Packer, index: int, value: uint32)
    requires p.Valid() && p.TailClear() && SetValue(p, index, value).Ok?
    ensures SetValue(p, index, value).value.TailClear()
  {
    var r := SetValue(p, index, value).value;
    SlotInBounds(p, index);
    forall q | p.bitLength * p.count <= q < 8 * |r.data|
      ensures !StreamBit(r.data, q)
    {
      SetValueStreamBit(p, index, value, q);
    }
  }

  /** Writing back the value an entry reads changes nothing. */
  lemma SetWhatGetReturns(p: Packer, index: int)
    requires p.Valid() && GetValue(p, index).Ok?
    ensures SetValue(p, index, GetValue(p, index).value) == Ok(p)
  {
    var v := GetValue(p, index).value;
    var r := SetValue(p, index, v).value;
    SlotInBounds(p, index);
    forall q | 0 <= q < 8 * |p.data|
      ensures StreamBit(r.data, q) == StreamBit(p.data, q)
    {
      SetValueStreamBit(p, index, v, q);
      if SlotStart(p, index) <= q < SlotStart(p, index) + p.bitLength {
        GetBitsBit(p.data, SlotStart(p, index), p.bitLength, q - SlotStart(p, index));
      }
    }
    StreamExtensionality(r.data, p.data);
  }

  /** A second `SetValue` on the same entry overrides the first. */
  lemma SetOverwrites(p: Packer, index: int, a: uint32, b: uint32)
    requires p.Valid() && SetValue(p, index, a).Ok? && SetValue(p, index, b).Ok?
    ensures SetValue(SetValue(p, index, a).value, index, b) == SetValue(p, index, b)
  {
    var pa := SetValue(p, index, a).value;
    var rab := SetValue(pa, index, b).value;
    var rb := SetValue(p, index, b).value;
    forall q | 0 <= q < 8 * |p.data|
      ensures StreamBit(rab.data, q) == StreamBit(rb.data, q)
    {
      SetValueStreamBit(pa, index, b, q);
      SetValueStreamBit(p, index, a, q);
      SetValueStreamBit(p, index, b, q);
    }
    StreamExtensionality(rab.data, rb.data);
  }

  /** `d'` is `d` with the `w` stream bits from `start` replaced by the bits of `v`. */
  ghost predicate WritesSlot(d: seq<uint8>, d': seq<uint8>, start: nat, w: nat, v: nat) {
    |d'| == |d| &&
    forall q :: 0 <= q < 8 * |d| ==>
      StreamBit(d', q) == if start <= q < start + w then Bit(v, q - start) else StreamBit(d, q)
  }

  lemma SetValueWritesSlot(p: Packer, index: int, value: uint32)
    requires p.Valid() && SetValue(p, index, value).Ok?
    ensures WritesSlot(p.data, SetValue(p, index, value).value.data, SlotStart(p, index), p.bitLength, value)
  {
    forall q | 0 <= q < 8 * |p.data|
      ensures StreamBit(SetValue(p, index, value).value.data, q)
           == if SlotStart(p, index) <= q < SlotStart(p, index) + p.bitLength
              then Bit(value, q - SlotStart(p, index))
              else StreamBit(p.data, q)
    {
      SetValueStreamBit(p, index, value, q);
    }
  }

  /** Writes to two disjoint slots commute, bit by bit: each stream bit lies in the
      first slot, in the second, or in neither. */
  lemma {:induction false} WritesCommute(d: seq<uint8>, da: seq<uint8>, db: seq<uint8>, dab: seq<uint8>, dba: seq<uint8>,
                                         si: nat, sj: nat, w: nat, a: nat, b: nat)
    requires si + w <= sj || sj + w <= si
    requires WritesSlot(d, da, si, w, a) && WritesSlot(d, db, sj, w, b)
    requires WritesSlot(da, dab, sj, w, b) && WritesSlot(db, dba, si, w, a)
    ensures dab == dba
  {
    forall q | 0 <= q < 8 * |dab|
      ensures StreamBit(dab, q) == StreamBit(dba, q)
    {
      if si <= q < si + w {
        assert StreamBit(dab, q) == StreamBit(da, q);
      } else if sj <= q < sj + w {
        assert StreamBit(dba, q) == StreamBit(db, q);
      } else {
        assert StreamBit(dab, q) == StreamBit(da, q) == StreamBit(d, q);
      }
    }
    StreamExtensionality(dab, dba);
  }

  /** `SetValue` on two different entries commutes. */
  lemma SetCommutes(p: Packer, i: int, a: uint32, j: int, b: uint32)
    requires p.Valid() && i != j && SetValue(p, i, a).Ok? && SetValue(p, j, b).Ok?
    ensures SetValue(SetValue(p, i, a).value, j, b) == SetValue(SetValue(p, j, b).value, i, a)
  {
    var pa := SetValue(p, i, a).value;
    var pb := SetValue(p, j, b).value;
    SlotsDisjoint(p, i, j);
    SetValueWritesSlot(p, i, a);
    SetValueWritesSlot(p, j, b);
    SetValueWritesSlot(pa, j, b);
    SetValueWritesSlot(pb, i, a);
    WritesCommute(p.data, pa.data, pb.data, SetValue(pa, j, b).value.data, SetValue(pb, i, a).value.data,
                  SlotStart(p, i), SlotStart(p, j), p.bitLength, a, b);
  }

  /** Rebuilding a packer from its own raw bytes and shape gives the same packer. */
  lemma RawRoundTrip(p: Packer)
    requires p.Valid()
    ensures FromRawData(GetRawData(p), p.bitLength, p.count) == Ok(p)
  {
  }

  /** Bit `offset` of entry `index` is the stream bit at that offset in its slot. */
  lemma StreamBitIsEntryBit(p: Packer, index: nat, offset: nat)
    requires p.Valid() && index < p.count && offset < p.bitLength
    ensures SlotStart(p, index) + offset < 8 * |p.data| && GetValue(p, index).Ok?
    ensures StreamBit(p.data, SlotStart(p, index) + offset) == Bit(GetValue(p, index).value, offset)
  {
    SlotInBounds(p, index);
    GetBitsBit(p.data, SlotStart(p, index), p.bitLength, offset);
  }

  /** Two packers of one shape with clear tails are equal exactly when every entry
      reads the same. */
  lemma ValuesDetermineData(p: Packer, p': Packer)
    requires p.Valid() && p'.Valid() && p.TailClear() && p'.TailClear()
    requires p.bitLength == p'.bitLength && p.count == p'.count
    ensures (forall i :: 0 <= i < p.count ==> GetValue(p, i) == GetValue(p', i)) <==> p == p'
  {
    if forall i :: 0 <= i < p.count ==> GetValue(p, i) == GetValue(p', i) {
      forall q | 0 <= q < 8 * |p.data|
        ensures StreamBit(p.data, q) == StreamBit(p'.data, q)
      {
        if q < p.bitLength * p.count {
          var index, offset := SlotOf(p, q);
          StreamBitIsEntryBit(p, index, offset);
          StreamBitIsEntryBit(p', index, offset);
        }
      }
      StreamExtensionality(p.data, p'.data);
    }
  }
}
