/** Bit-level vocabulary shared by the tagged scalar and the packed array. C# words
    are modelled as natural numbers in their range, and the bit operators the code
    uses (`&`, `|`, `~`, `1u << n`) as functions on binary digits, each characterised
    bit by bit. */
module Bits {

  /** C# `byte`, `ushort`, `short`, `int` and `uint` as ranges of mathematical integers. */
  type uint8 = x: int | 0 <= x < 0x100
  type uint16 = x: int | 0 <= x < 0x1_0000
  type int16 = x: int | -0x8000 <= x < 0x8000
  type int32 = x: int | -0x8000_0000 <= x < 0x8000_0000
  type uint32 = x: int | 0 <= x < 0x1_0000_0000

  /** `2^k`: the value of `1u << k` for `k < 32`. */
  function Pow2(k: nat): (r: nat)
    ensures r >= 1
  {
    if k == 0 then 1 else 2 * Pow2(k - 1)
  }

  lemma Pow2Constants()
    ensures Pow2(8) == 0x100 && Pow2(16) == 0x1_0000 && Pow2(24) == 0x100_0000 && Pow2(32) == 0x1_0000_0000
  {
  }

  /** Binary digit `j` of `v`: the test `(v & (1u << j)) != 0`. */
  predicate Bit(v: nat, j: nat)
    decreases j
  {
    if j == 0 then v % 2 == 1 else Bit(v / 2, j - 1)
  }

  /** Bitwise `a & b`. */
  function And(a: nat, b: nat): nat
    decreases a
  {
    if a == 0 || b == 0 then 0
    else 2 * And(a / 2, b / 2) + (if a % 2 == 1 && b % 2 == 1 then 1 else 0)
  }

  /** Bitwise `a | b`. */
  function Or(a: nat, b: nat): nat
    decreases a + b
  {
    if a == 0 then b
    else if b == 0 then a
    else 2 * Or(a / 2, b / 2) + (if a % 2 == 1 || b % 2 == 1 then 1 else 0)
  }

  /** Bitwise `~x` in a `width`-bit word. */
  function Not(x: nat, width: nat): nat
    requires x < Pow2(width)
  {
    Pow2(width) - 1 - x
  }

  /** The count C# shifts a 32-bit word by: the low 5 bits of the count it is given. */
  function MaskedShiftCount(n: nat): (r: nat)
    ensures r < 32
    ensures n < 32 ==> r == n
    ensures n == 32 ==> r == 0
  {
    n % 32
  }

  /** `1u << n` on a 32-bit word, with the count masked, so a count of 32 shifts by
      nothing. */
  function ShiftLeftOne(n: nat): (r: nat)
    ensures n < 32 ==> r == Pow2(n)
    ensures n == 32 ==> r == 1
  {
    Pow2(MaskedShiftCount(n))
  }

  /** The word whose low `k` bits are set: `(1u << k) - 1`. */
  function LowMask(k: nat): nat {
    Pow2(k) - 1
  }

  /** No bit of zero is set. */
  lemma {:induction false} ZeroBit(j: nat)
    ensures !Bit(0, j)
  {
    if j > 0 {
      ZeroBit(j - 1);
    }
  }

  /** Bit `j` of `a & b` is set exactly when both bits `j` are. */
  lemma {:induction false} AndBit(a: nat, b: nat, j: nat)
    ensures Bit(And(a, b), j) == (Bit(a, j) && Bit(b, j))
    decreases j
  {
    if a == 0 || b == 0 {
      ZeroBit(j);
    } else if j > 0 {
      AndBit(a / 2, b / 2, j - 1);
    }
  }

  /** Bit `j` of `a | b` is set exactly when either bit `j` is. */
  lemma {:induction false} OrBit(a: nat, b: nat, j: nat)
    ensures Bit(Or(a, b), j) == (Bit(a, j) || Bit(b, j))
    decreases j
  {
    if a == 0 {
      ZeroBit(j);
    } else if b == 0 {
      ZeroBit(j);
    } else if j > 0 {
      OrBit(a / 2, b / 2, j - 1);
    }
  }

  /** `1u << i` has bit `i` set and no other. */
  lemma {:induction false} Pow2Bit(i: nat, j: nat)
    ensures Bit(Pow2(i), j) == (i == j)
    decreases i
  {
    if i == 0 {
      if j > 0 {
        ZeroBit(j - 1);
      }
    } else if j > 0 {
      Pow2Bit(i - 1, j - 1);
    }
  }

  /** `(1u << k) - 1` has exactly the bits below `k` set. */
  lemma {:induction false} LowMaskBit(k: nat, j: nat)
    ensures Bit(LowMask(k), j) == (j < k)
    decreases k
  {
    if k == 0 {
      ZeroBit(j);
    } else if j > 0 {
      LowMaskBit(k - 1, j - 1);
    }
  }

  /** `~x` in a `width`-bit word has exactly the bits below `width` that `x` lacks. */
  lemma {:induction false} NotBit(x: nat, width: nat, j: nat)
    requires x < Pow2(width)
    ensures Bit(Not(x, width), j) == (j < width && !Bit(x, j))
    decreases width
  {
    if width == 0 {
      ZeroBit(j);
    } else if j > 0 {
      NotBit(x / 2, width - 1, j - 1);
    }
  }

  /** `x & (1u << i)` is `1u << i` when bit `i` of `x` is set and zero otherwise, so
      the source's test `(x & (1u << i)) != 0` reads bit `i`. */
  lemma AndPow2(x: nat, i: nat)
    ensures And(x, Pow2(i)) == if Bit(x, i) then Pow2(i) else 0
  {
    forall j: nat
      ensures Bit(And(x, Pow2(i)), j) == Bit(if Bit(x, i) then Pow2(i) else 0, j)
    {
      AndBit(x, Pow2(i), j);
      Pow2Bit(i, j);
      ZeroBit(j);
    }
    BitExtensionality(And(x, Pow2(i)), if Bit(x, i) then Pow2(i) else 0);
  }

  /** A number is determined by its binary digits. */
  lemma {:induction false} BitExtensionality(a: nat, b: nat)
    requires forall j: nat :: Bit(a, j) == Bit(b, j)
    ensures a == b
    decreases a + b
  {
    assert Bit(a, 0) == Bit(b, 0);
    if a != 0 || b != 0 {
      forall j: nat
        ensures Bit(a / 2, j) == Bit(b / 2, j)
      {
        assert Bit(a, j + 1) == Bit(b, j + 1);
      }
      BitExtensionality(a / 2, b / 2);
    }
  }

  /** A value below `2^n` has no set bit at `n` or above. */
  lemma {:induction false} BoundedHighClear(v: nat, n: nat, j: nat)
    requires v < Pow2(n) && n <= j
    ensures !Bit(v, j)
    decreases n
  {
    if n == 0 {
      ZeroBit(j);
    } else {
      BoundedHighClear(v / 2, n - 1, j - 1);
    }
  }

  /** A value with no set bit at `n` or above is below `2^n`. */
  lemma {:induction false} HighClearBounded(v: nat, n: nat)
    requires forall j: nat :: n <= j ==> !Bit(v, j)
    ensures v < Pow2(n)
    decreases n
  {
    if n == 0 {
      forall j: nat
        ensures Bit(v, j) == Bit(0, j)
      {
        ZeroBit(j);
      }
      BitExtensionality(v, 0);
    } else {
      forall j: nat | n - 1 <= j
        ensures !Bit(v / 2, j)
      {
        assert !Bit(v, j + 1);
      }
      HighClearBounded(v / 2, n - 1);
    }
  }

  /** Both operands below `2^n` keep `a | b` below `2^n`. */
  lemma OrBounded(a: nat, b: nat, n: nat)
    requires a < Pow2(n) && b < Pow2(n)
    ensures Or(a, b) < Pow2(n)
  {
    forall j: nat | n <= j
      ensures !Bit(Or(a, b), j)
    {
      OrBit(a, b, j);
      BoundedHighClear(a, n, j);
      BoundedHighClear(b, n, j);
    }
    HighClearBounded(Or(a, b), n);
  }

  /** One operand below `2^n` keeps `a & b` below `2^n`. */
  lemma AndBounded(a: nat, b: nat, n: nat)
    requires a < Pow2(n)
    ensures And(a, b) < Pow2(n) && And(b, a) < Pow2(n)
  {
    forall j: nat | n <= j
      ensures !Bit(And(a, b), j) && !Bit(And(b, a), j)
    {
      AndBit(a, b, j);
      AndBit(b, a, j);
      BoundedHighClear(a, n, j);
    }
    HighClearBounded(And(a, b), n);
    HighClearBounded(And(b, a), n);
  }

  // ---------------------------------------------------------------------------
  // Shifts, masks and concatenation as digit-by-digit recursions, so that their bit
  // lemmas need only halving; the links to `/` and `%` by `2^n` are proved once.

  /** `lo` with `hi` placed above its low `n` bits: `(lo & ((1u << n) - 1)) | (hi << n)`. */
  function Concat(lo: nat, hi: nat, n: nat): nat
    decreases n
  {
    if n == 0 then hi else 2 * Concat(lo / 2, hi, n - 1) + lo % 2
  }

  /** The low `n` bits of `x`: `x & ((1u << n) - 1)`. */
  function Low(x: nat, n: nat): nat
    decreases n
  {
    if n == 0 then 0 else 2 * Low(x / 2, n - 1) + x % 2
  }

  /** `x >> n`. */
  function Shr(x: nat, n: nat): nat
    decreases n
  {
    if n == 0 then x else Shr(x / 2, n - 1)
  }

  /** The `k`-bit field of `x` from bit `o`: `(x >> o) & ((1u << k) - 1)`. */
  function Field(x: nat, o: nat, k: nat): nat {
    Low(Shr(x, o), k)
  }

  lemma Halves(c: nat, b: nat)
    requires b < 2
    ensures (2 * c + b) / 2 == c && (2 * c + b) % 2 == b
  {
  }

  /** The low `n` bits of a concatenation come from `lo`, the rest from `hi`. */
  lemma {:induction false} ConcatBit(lo: nat, hi: nat, n: nat, j: nat)
    ensures Bit(Concat(lo, hi, n), j) == if j < n then Bit(lo, j) else Bit(hi, j - n)
    decreases n
  {
    if n > 0 {
      Halves(Concat(lo / 2, hi, n - 1), lo % 2);
      if j > 0 {
        ConcatBit(lo / 2, hi, n - 1, j - 1);
      }
    }
  }

  /** `Low(x, n)` keeps the bits of `x` below `n`. */
  lemma {:induction false} LowBit(x: nat, n: nat, j: nat)
    ensures Bit(Low(x, n), j) == (j < n && Bit(x, j))
    decreases n
  {
    if n == 0 {
      ZeroBit(j);
    } else {
      Halves(Low(x / 2, n - 1), x % 2);
      if j > 0 {
        LowBit(x / 2, n - 1, j - 1);
      }
    }
  }

  /** `Shr(x, n)` moves the bits of `x` down by `n`. */
  lemma {:induction false} ShrBit(x: nat, n: nat, j: nat)
    ensures Bit(Shr(x, n), j) == Bit(x, j + n)
    decreases n
  {
    if n > 0 {
      ShrBit(x / 2, n - 1, j);
    }
  }

  /** A field holds bits `o .. o+k-1` of `x`. */
  lemma FieldBit(x: nat, o: nat, k: nat, j: nat)
    ensures Bit(Field(x, o, k), j) == (j < k && Bit(x, j + o))
  {
    LowBit(Shr(x, o), k, j);
    ShrBit(x, o, j);
  }

  lemma MulAtLeast(k: int, d: nat)
    requires k >= 1
    ensures k * d >= d
  {
  }

  /** Division with remainder has one answer. */
  lemma DivModUnique(x: nat, d: nat, a: nat, b: nat)
    requires 0 <= b < d && x == a * d + b
    ensures x / d == a && x % d == b
  {
    var a', b' := x / d, x % d;
    assert x == a' * d + b' && 0 <= b' < d;
    assert (a - a') * d == b' - b;
    if a > a' {
      MulAtLeast(a - a', d);
      assert false;
    } else if a < a' {
      MulAtLeast(a' - a, d);
      assert false;
    }
  }

  /** Dividing by `2 * P` is halving and then dividing by `P`. */
  lemma DivModDouble(x: nat, p: nat)
    requires p > 0
    ensures x / (2 * p) == x / 2 / p && x % (2 * p) == 2 * (x / 2 % p) + x % 2
  {
    var q, r := x / 2, x % 2;
    var a, b := q / p, q % p;
    assert q == a * p + b;
    assert x == a * (2 * p) + (2 * b + r);
    DivModUnique(x, 2 * p, a, 2 * b + r);
  }

  /** `Low(x, n)` is `x` modulo `2^n`. */
  lemma {:induction false} LowIsMod(x: nat, n: nat)
    ensures Low(x, n) == x % Pow2(n)
    decreases n
  {
    if n > 0 {
      LowIsMod(x / 2, n - 1);
      DivModDouble(x, Pow2(n - 1));
    }
  }

  /** `Shr(x, n)` is `x` divided by `2^n`. */
  lemma {:induction false} ShrIsDiv(x: nat, n: nat)
    ensures Shr(x, n) == x / Pow2(n)
    decreases n
  {
    if n > 0 {
      ShrIsDiv(x / 2, n - 1);
      DivModDouble(x, Pow2(n - 1));
    }
  }

  /** When `lo` fits in `n` bits the concatenation is `lo + hi * 2^n`. */
  lemma {:induction false} ConcatIsSum(lo: nat, hi: nat, n: nat)
    requires lo < Pow2(n)
    ensures Concat(lo, hi, n) == lo + hi * Pow2(n)
    decreases n
  {
    if n > 0 {
      ConcatIsSum(lo / 2, hi, n - 1);
      assert hi * Pow2(n) == 2 * (hi * Pow2(n - 1));
    }
  }

  /** Shifting a concatenation down by `n` leaves its high part. */
  lemma ShrConcat(lo: nat, hi: nat, n: nat)
    ensures Shr(Concat(lo, hi, n), n) == hi
  {
    forall j: nat
      ensures Bit(Shr(Concat(lo, hi, n), n), j) == Bit(hi, j)
    {
      ShrBit(Concat(lo, hi, n), n, j);
      ConcatBit(lo, hi, n, j + n);
    }
    BitExtensionality(Shr(Concat(lo, hi, n), n), hi);
  }

  /** The low `n` bits of a concatenation are the low `n` bits of its low part. */
  lemma LowConcat(lo: nat, hi: nat, n: nat)
    ensures Low(Concat(lo, hi, n), n) == Low(lo, n)
  {
    forall j: nat
      ensures Bit(Low(Concat(lo, hi, n), n), j) == Bit(Low(lo, n), j)
    {
      LowBit(Concat(lo, hi, n), n, j);
      LowBit(lo, n, j);
      ConcatBit(lo, hi, n, j);
    }
    BitExtensionality(Low(Concat(lo, hi, n), n), Low(lo, n));
  }

  /** Taking the low bits twice keeps the narrower of the two. */
  lemma LowOfLow(x: nat, n: nat, m: nat)
    ensures Low(Low(x, n), m) == Low(x, if n < m then n else m)
  {
    var k := if n < m then n else m;
    forall j: nat
      ensures Bit(Low(Low(x, n), m), j) == Bit(Low(x, k), j)
    {
      LowBit(Low(x, n), m, j);
      LowBit(x, n, j);
      LowBit(x, k, j);
    }
    BitExtensionality(Low(Low(x, n), m), Low(x, k));
  }

  /** A concatenation of `lo` with an `m`-bit `hi` above bit `n` fits in `n + m` bits. */
  lemma ConcatBounded(lo: nat, hi: nat, n: nat, m: nat)
    requires hi < Pow2(m)
    ensures Concat(lo, hi, n) < Pow2(n + m)
  {
    forall j: nat | j >= n + m
      ensures !Bit(Concat(lo, hi, n), j)
    {
      ConcatBit(lo, hi, n, j);
      BoundedHighClear(hi, m, j - n);
    }
    HighClearBounded(Concat(lo, hi, n), n + m);
  }

  /** A value below `2^(n + m)` shifted down by `n` is below `2^m`. */
  lemma ShrBounded(x: nat, n: nat, m: nat)
    requires x < Pow2(n + m)
    ensures Shr(x, n) < Pow2(m)
  {
    forall j: nat | j >= m
      ensures !Bit(Shr(x, n), j)
    {
      ShrBit(x, n, j);
      BoundedHighClear(x, n + m, j + n);
    }
    HighClearBounded(Shr(x, n), m);
  }

  /** The low `n` bits of a value fit in `n` bits. */
  lemma {:induction false} LowBounded(x: nat, n: nat)
    ensures Low(x, n) < Pow2(n)
    decreases n
  {
    if n > 0 {
      LowBounded(x / 2, n - 1);
    }
  }

  /** A value that fits in `n` bits is its own low `n` bits. */
  lemma LowOfFitting(x: nat, n: nat)
    requires x < Pow2(n)
    ensures Low(x, n) == x
  {
    forall j: nat
      ensures Bit(Low(x, n), j) == Bit(x, j)
    {
      LowBit(x, n, j);
      if j >= n {
        BoundedHighClear(x, n, j);
      }
    }
    BitExtensionality(Low(x, n), x);
  }

  /** `x & ((1u << k) - 1)` is the low `k` bits of `x`. */
  lemma AndLowMaskIsLow(x: nat, k: nat)
    ensures And(x, LowMask(k)) == Low(x, k)
  {
    forall j: nat
      ensures Bit(And(x, LowMask(k)), j) == Bit(Low(x, k), j)
    {
      AndBit(x, LowMask(k), j);
      LowMaskBit(k, j);
      LowBit(x, k, j);
    }
    BitExtensionality(And(x, LowMask(k)), Low(x, k));
  }

  /** The range test both components apply before storing a value of width `w`: the
      value must be below `1u << w`. */
  predicate Fits(v: nat, w: nat) {
    v < Pow2(w)
  }

  // ---------------------------------------------------------------------------
  // The LSB-first bit stream: bit `b` of byte `k` is stream bit `8k + b`.

  /** Bytes needed for `bits` bits, rounded up: `(bits + 7) / 8`. */
  function ByteCount(bits: nat): (n: nat)
    ensures 8 * n >= bits && 8 * n < bits + 8
  {
    (bits + 7) / 8
  }

  /** Stream bit `p` of `data`: bit `p % 8` of byte `p / 8`. */
  predicate StreamBit(data: seq<uint8>, p: nat)
    requires p < 8 * |data|
  {
    Bit(data[p / 8], p % 8)
  }

  /** Sets or clears bit `b` of byte `x`, as `x |= (byte)(1 << b)` or `x &= (byte)~(1 << b)`. */
  function WriteByteBit(x: uint8, b: nat, one: bool): uint8
    requires b < 8
  {
    Pow2Constants();
    Pow2Monotone(b, 8);
    if one then
      OrBounded(x, Pow2(b), 8);
      Or(x, Pow2(b))
    else
      AndBounded(x, Not(Pow2(b), 8), 8);
      And(x, Not(Pow2(b), 8))
  }

  /** `2^k` grows with `k`. */
  lemma {:induction false} Pow2Monotone(a: nat, b: nat)
    requires a <= b
    ensures Pow2(a) <= Pow2(b)
    ensures a < b ==> Pow2(a) < Pow2(b)
    decreases b
  {
    if a < b {
      Pow2Monotone(a, b - 1);
    }
  }

  /** Writing bit `b` makes it `one` and keeps every other bit. */
  lemma WriteByteBitEffect(x: uint8, b: nat, one: bool, c: nat)
    requires b < 8
    ensures Bit(WriteByteBit(x, b, one), c) == if c == b then one else Bit(x, c)
  {
    Pow2Constants();
    Pow2Monotone(b, 8);
    Pow2Bit(b, c);
    if one {
      OrBit(x, Pow2(b), c);
    } else {
      AndBit(x, Not(Pow2(b), 8), c);
      NotBit(Pow2(b), 8, c);
      if c >= 8 {
        BoundedHighClear(x, 8, c);
      }
    }
  }

  /** Sets or clears stream bit `p` in its containing byte. */
  function WriteBit(data: seq<uint8>, p: nat, one: bool): (r: seq<uint8>)
    requires p < 8 * |data|
    ensures |r| == |data|
  {
    data[p / 8 := WriteByteBit(data[p / 8], p % 8, one)]
  }

  /** Writing stream bit `p` changes no byte but the one holding it. */
  lemma WriteBitKeepsOtherBytes(data: seq<uint8>, p: nat, one: bool, k: nat)
    requires p < 8 * |data| && k < |data| && k != p / 8
    ensures WriteBit(data, p, one)[k] == data[k]
  {
  }

  /** Writing stream bit `p` makes it `one` and keeps every other stream bit. */
  lemma WriteBitEffect(data: seq<uint8>, p: nat, one: bool, q: nat)
    requires p < 8 * |data| && q < 8 * |data|
    ensures StreamBit(WriteBit(data, p, one), q) == if q == p then one else StreamBit(data, q)
  {
    if q / 8 == p / 8 {
      WriteByteBitEffect(data[p / 8], p % 8, one, q % 8);
    }
  }

  /** Two byte sequences of one length that agree on every stream bit are equal. */
  lemma StreamExtensionality(a: seq<uint8>, b: seq<uint8>)
    requires |a| == |b|
    requires forall q :: 0 <= q < 8 * |a| ==> StreamBit(a, q) == StreamBit(b, q)
    ensures a == b
  {
    Pow2Constants();
    forall k | 0 <= k < |a|
      ensures a[k] == b[k]
    {
      forall c: nat
        ensures Bit(a[k], c) == Bit(b[k], c)
      {
        if c < 8 {
          var q := 8 * k + c;
          assert q / 8 == k && q % 8 == c;
          assert StreamBit(a, q) == StreamBit(b, q);
        } else {
          BoundedHighClear(a[k], 8, c);
          BoundedHighClear(b[k], 8, c);
        }
      }
      BitExtensionality(a[k], b[k]);
    }
  }
}
