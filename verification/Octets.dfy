/** Eight-bit bytes and packed bit arrays: bit p of a byte sequence is bit p % 8 of byte p / 8. */
module Octets {
  import opened Bytes

  const ALL_ONES: Octet := 0xFF

  function Mask(j: nat): Octet
    requires j < 8
  {
    (1 as Octet) << j
  }

  predicate Bit(b: Octet, j: nat)
    requires j < 8
  {
    b & Mask(j) != 0
  }

  lemma MaskTable()
    ensures Mask(0) == 1 && Mask(1) == 2 && Mask(2) == 4 && Mask(3) == 8
    ensures Mask(4) == 16 && Mask(5) == 32 && Mask(6) == 64 && Mask(7) == 128
  {}

  /** b' is b with bit j given the value v. */
  ghost predicate OnlyBit(b: Octet, b': Octet, j: nat, v: bool)
    requires j < 8
  {
    forall k: nat :: k < 8 ==> Bit(b', k) == if k == j then v else Bit(b, k)
  }

  lemma MaskBit(j: nat, k: nat)
    requires j < 8 && k < 8
    ensures Bit(Mask(j), k) == (k == j)
  {
    MaskTable();
  }

  lemma SetOneBit(b: Octet, j: nat)
    requires j < 8
    ensures OnlyBit(b, b | Mask(j), j, true)
  {
    forall k: nat | k < 8
      ensures Bit(b | Mask(j), k) == (k == j || Bit(b, k))
    {
      MaskBit(j, k);
      OrBit(b, Mask(j), k);
    }
  }

  lemma ClearOneBit(b: Octet, j: nat)
    requires j < 8
    ensures OnlyBit(b, b & !Mask(j), j, false)
  {
    forall k: nat | k < 8
      ensures Bit(b & !Mask(j), k) == (k != j && Bit(b, k))
    {
      MaskBit(j, k);
      NotBit(Mask(j), k);
      AndBit(b, !Mask(j), k);
    }
  }

  lemma FlipOneBit(b: Octet, j: nat)
    requires j < 8
    ensures OnlyBit(b, b ^ Mask(j), j, !Bit(b, j))
  {
    forall k: nat | k < 8
      ensures Bit(b ^ Mask(j), k) == (Bit(b, k) != (k == j))
    {
      MaskBit(j, k);
      XorBit(b, Mask(j), k);
    }
  }

  /** The byte with exactly its n lowest bits set. */
  function LowMask(n: nat): Octet
    requires n <= 8
  {
    if n == 8 then ALL_ONES else Mask(n) - 1
  }

  lemma LowMaskBit(n: nat, k: nat)
    requires n <= 8 && k < 8
    ensures Bit(LowMask(n), k) == (k < n)
  {
    MaskTable();
  }

  lemma AndBit(a: Octet, b: Octet, k: nat)
    requires k < 8
    ensures Bit(a & b, k) == (Bit(a, k) && Bit(b, k))
  {
    MaskTable();
  }

  /** Masking keeps the lowest bits. */
  lemma MaskedBit(b: Octet, n: nat, k: nat)
    requires n <= 8 && k < 8
    ensures Bit(b & LowMask(n), k) == (k < n && Bit(b, k))
  {
    AndBit(b, LowMask(n), k);
    LowMaskBit(n, k);
  }

  lemma OrBit(a: Octet, b: Octet, k: nat)
    requires k < 8
    ensures Bit(a | b, k) == (Bit(a, k) || Bit(b, k))
  {
    MaskTable();
  }

  lemma XorBit(a: Octet, b: Octet, k: nat)
    requires k < 8
    ensures Bit(a ^ b, k) == (Bit(a, k) != Bit(b, k))
  {
    OneMask(a, k);
    OneMask(b, k);
    XorUnderMask(a, b, Mask(k));
  }

  lemma OneMask(a: Octet, k: nat)
    requires k < 8
    ensures Mask(k) != 0 && (a & Mask(k) == 0 || a & Mask(k) == Mask(k))
  {
    MaskTable();
  }

  lemma XorUnderMask(a: Octet, b: Octet, m: Octet)
    requires m != 0 && (a & m == 0 || a & m == m) && (b & m == 0 || b & m == m)
    ensures ((a ^ b) & m != 0) == ((a & m != 0) != (b & m != 0))
  {}

  lemma NotBit(a: Octet, k: nat)
    requires k < 8
    ensures Bit(!a, k) == !Bit(a, k)
  {
    MaskTable();
  }

  lemma ConstantBits(k: nat)
    requires k < 8
    ensures !Bit(0, k) && Bit(ALL_ONES, k)
  {
    MaskTable();
  }

  /** A byte is its eight bits. */
  lemma SameBits(a: Octet, b: Octet)
    requires forall k: nat :: k < 8 ==> Bit(a, k) == Bit(b, k)
    ensures a == b
  {
    MaskTable();
    assert Bit(a, 0) == Bit(b, 0) && Bit(a, 1) == Bit(b, 1) && Bit(a, 2) == Bit(b, 2) && Bit(a, 3) == Bit(b, 3);
    assert Bit(a, 4) == Bit(b, 4) && Bit(a, 5) == Bit(b, 5) && Bit(a, 6) == Bit(b, 6) && Bit(a, 7) == Bit(b, 7);
  }

  // ---------------------------------------------------------------- packed bits

  /** Bytes needed for n bits. */
  function Words(n: nat): nat {
    (n + 7) / 8
  }

  predicate At(d: seq<Octet>, p: nat)
    requires p < 8 * |d|
  {
    Bit(d[p / 8], p % 8)
  }

  /** A position inside byte i. */
  lemma InByte(i: nat, p: nat)
    requires 8 * i <= p < 8 * i + 8
    ensures p / 8 == i && p % 8 == p - 8 * i
  {}

  lemma AtByte(d: seq<Octet>, i: nat, p: nat)
    requires i < |d| && 8 * i <= p < 8 * i + 8
    ensures At(d, p) == Bit(d[i], p - 8 * i)
  {
    InByte(i, p);
  }

  /** n bits packed into d, every bit beyond them zero. */
  ghost predicate Packs(d: seq<Octet>, n: nat) {
    |d| == Words(n) && forall p: nat :: n <= p < 8 * |d| ==> !At(d, p)
  }

  /** The packed bits as booleans. */
  ghost function View(d: seq<Octet>, n: nat): (bits: seq<bool>)
    requires n <= 8 * |d|
    ensures |bits| == n && forall p: nat :: p < n ==> bits[p] == At(d, p)
  {
    seq(n, p requires 0 <= p < n => At(d, p))
  }

  /** Packed arrays of the same bits are equal: the padding adds no freedom. */
  lemma ViewDetermines(a: seq<Octet>, b: seq<Octet>, n: nat)
    requires Packs(a, n) && Packs(b, n)
    ensures View(a, n) == View(b, n) <==> a == b
  {
    forall i: nat | View(a, n) == View(b, n) && i < |a|
      ensures a[i] == b[i]
    {
      forall k: nat | k < 8
        ensures Bit(a[i], k) == Bit(b[i], k)
      {
        assert At(a, 8 * i + k) == Bit(a[i], k) && At(b, 8 * i + k) == Bit(b[i], k);
        if 8 * i + k < n {
          assert View(a, n)[8 * i + k] == View(b, n)[8 * i + k];
        }
      }
      SameBits(a[i], b[i]);
    }
  }

  // ---------------------------------------------------------------- compiler builtins

  /** __builtin_popcount on a byte. */
  function PopCount(b: Octet): (n: nat) {
    BitCount(b, 8)
  }

  function BitCount(b: Octet, k: nat): (n: nat)
    requires k <= 8
  {
    if k == 0 then 0 else BitCount(b, k - 1) + (if Bit(b, k - 1) then 1 else 0)
  }

  /** __builtin_ctz: the lowest set bit of a non-zero byte. */
  function TrailingZeros(b: Octet): (j: nat)
    requires b != 0
    ensures j < 8 && Bit(b, j) && forall k: nat :: k < j ==> !Bit(b, k)
  {
    NonZeroHasBit(b);
    LowestFrom(b, 0)
  }

  function LowestFrom(b: Octet, j: nat): (r: nat)
    requires exists k: nat :: j <= k < 8 && Bit(b, k)
    ensures j <= r < 8 && Bit(b, r) && forall k: nat :: j <= k < r ==> !Bit(b, k)
    decreases 8 - j
  {
    if Bit(b, j) then j else LowestFrom(b, j + 1)
  }

  lemma NonZeroHasBit(b: Octet)
    requires b != 0
    ensures exists k: nat :: k < 8 && Bit(b, k)
  {
    if forall k: nat :: k < 8 ==> !Bit(b, k) {
      forall k: nat | k < 8
        ensures Bit(b, k) == Bit(0, k)
      {
        ConstantBits(k);
      }
      SameBits(b, 0);
    }
  }
}
