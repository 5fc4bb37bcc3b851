/** A fixed-size bit vector packed into bytes, with byte-at-a-time fast paths.  Its abstract
    value is the sequence of its bits; the padding of the last byte is always zero. */
module BitVectors {
  import opened Bytes
  import opened Arithmetic
  import opened Octets

  // ---------------------------------------------------------------- specification

  /** The bits [lo, hi) set to v, all others as they were. */
  function Filled(bits: seq<bool>, lo: nat, hi: nat, v: bool): (r: seq<bool>) {
    seq(|bits|, p requires 0 <= p < |bits| => if lo <= p < hi then v else bits[p])
  }

  /** The n lowest bits of a value, lowest first. */
  function ToBits(value: nat, n: nat): (bits: seq<bool>)
    ensures |bits| == n
  {
    if n == 0 then [] else [value % 2 == 1] + ToBits(value / 2, n - 1)
  }

  /** The number whose bits these are, lowest first. */
  function Number(bits: seq<bool>): nat {
    if bits == [] then 0 else (if bits[0] then 1 else 0) + 2 * Number(bits[1..])
  }

  function Pow2(n: nat): (p: nat)
    ensures p > 0
  {
    if n == 0 then 1 else 2 * Pow2(n - 1)
  }

  function Spliced(bits: seq<bool>, offset: nat, field: seq<bool>): (r: seq<bool>)
    requires offset + |field| <= |bits|
  {
    bits[..offset] + field + bits[offset + |field|..]
  }

  function CountTrue(bits: seq<bool>): nat {
    if bits == [] then 0 else CountTrue(bits[..|bits| - 1]) + (if bits[|bits| - 1] then 1 else 0)
  }

  /** r is the first position at or after `from` whose bit is v, or the length when there is none. */
  ghost predicate FirstAt(bits: seq<bool>, from: nat, v: bool, r: nat) {
    && r <= |bits|
    && (r < |bits| ==> from <= r && bits[r] == v)
    && (forall p :: from <= p < r ==> bits[p] != v)
  }

  // ---------------------------------------------------------------- lemmas

  lemma {:induction false} NumberOfToBits(value: nat, n: nat)
    ensures Number(ToBits(value, n)) == value % Pow2(n)
  {
    if n > 0 {
      NumberOfToBits(value / 2, n - 1);
      DivDiv(value, 2, Pow2(n - 1));
      assert ToBits(value, n)[1..] == ToBits(value / 2, n - 1);
    }
  }

  lemma {:induction false} NumberConcat(a: seq<bool>, b: seq<bool>)
    ensures Number(a + b) == Number(a) + Pow2(|a|) * Number(b)
  {
    if a == [] {
      assert a + b == b;
    } else {
      NumberConcat(a[1..], b);
      assert (a + b)[1..] == a[1..] + b;
      assert 2 * (Pow2(|a| - 1) * Number(b)) == Pow2(|a|) * Number(b);
    }
  }

  lemma {:induction false} NumberSnoc(bits: seq<bool>, b: bool)
    ensures Number(bits + [b]) == Number(bits) + (if b then Pow2(|bits|) else 0)
  {
    if bits != [] {
      NumberSnoc(bits[1..], b);
      assert (bits + [b])[1..] == bits[1..] + [b];
    }
  }

  lemma {:induction false} NumberBound(bits: seq<bool>)
    ensures Number(bits) < Pow2(|bits|)
  {
    if bits != [] {
      NumberBound(bits[1..]);
    }
  }

  /** The field at offset, as far as it has been read. */
  function FieldNumber(bits: seq<bool>, offset: nat, i: nat): (r: nat)
    requires offset + i <= |bits|
  {
    Number(bits[offset..offset + i])
  }

  lemma FieldNumberNext(bits: seq<bool>, offset: nat, i: nat)
    requires offset + i < |bits|
    ensures FieldNumber(bits, offset, i + 1) == FieldNumber(bits, offset, i) + (if bits[offset + i] then Pow2(i) else 0)
  {
    assert bits[offset..offset + (i + 1)] == bits[offset..offset + i] + [bits[offset + i]];
    NumberSnoc(bits[offset..offset + i], bits[offset + i]);
  }

  lemma {:induction false} NumberDetermines(a: seq<bool>, b: seq<bool>)
    requires |a| == |b| && Number(a) == Number(b)
    ensures a == b
  {
    if a != [] {
      NumberDetermines(a[1..], b[1..]);
    }
  }

  lemma {:induction false} ToBitsAt(value: nat, n: nat, i: nat)
    requires i < n
    ensures ToBits(value, n)[i] == ((value / Pow2(i)) % 2 == 1)
  {
    if i > 0 {
      ToBitsAt(value / 2, n - 1, i - 1);
      DivDiv(value, 2, Pow2(i - 1));
    }
  }

  lemma {:induction false} CountOfConcat(a: seq<bool>, b: seq<bool>)
    ensures CountTrue(a + b) == CountTrue(a) + CountTrue(b)
  {
    if b == [] {
      assert a + b == a;
    } else {
      CountOfConcat(a, b[..|b| - 1]);
      assert (a + b)[..|a + b| - 1] == a + b[..|b| - 1];
    }
  }

  lemma {:induction false} NoneCounted(bits: seq<bool>)
    requires forall p :: 0 <= p < |bits| ==> !bits[p]
    ensures CountTrue(bits) == 0
  {
    if bits != [] {
      NoneCounted(bits[..|bits| - 1]);
    }
  }

  lemma CountOneMoreBit(bits: seq<bool>, lo: nat, hi: nat)
    requires lo <= hi < |bits|
    ensures CountTrue(bits[lo..hi + 1]) == CountTrue(bits[lo..hi]) + (if bits[hi] then 1 else 0)
  {
    assert bits[lo..hi + 1][..hi - lo] == bits[lo..hi];
  }

  lemma BitOfView(d: seq<Octet>, bits: seq<bool>, i: nat, k: nat, p: nat)
    requires i < |d| && k < 8 && p == 8 * i + k && bits == View(d, 8 * |d|)
    ensures p < |bits| && bits[p] == Bit(d[i], k)
  {
    AtByte(d, i, p);
  }

  /** A byte's population count is the count of its eight bits. */
  lemma {:induction false} BitCountIsCount(b: Octet, bits: seq<bool>, lo: nat, k: nat)
    requires k <= 8 && lo + k <= |bits| && forall j: nat :: j < k ==> bits[lo + j] == Bit(b, j)
    ensures BitCount(b, k) == CountTrue(bits[lo..lo + k])
  {
    if k > 0 {
      BitCountIsCount(b, bits, lo, k - 1);
      CountOneMoreBit(bits, lo, lo + (k - 1));
    }
  }

  lemma ByteOfView(d: seq<Octet>, bits: seq<bool>, i: nat, lo: nat)
    requires i < |d| && lo == 8 * i && bits == View(d, 8 * |d|)
    ensures lo + 8 <= |bits| && forall j: nat :: j < 8 ==> bits[lo + j] == Bit(d[i], j)
  {
    forall j: nat | j < 8
      ensures lo + j < |bits| && bits[lo + j] == Bit(d[i], j)
    {
      BitOfView(d, bits, i, j, lo + j);
    }
  }

  lemma CountSplit(bits: seq<bool>, lo: nat, hi: nat)
    requires lo <= hi <= |bits|
    ensures CountTrue(bits[..hi]) == CountTrue(bits[..lo]) + CountTrue(bits[lo..hi])
  {
    assert bits[..hi] == bits[..lo] + bits[lo..hi];
    CountOfConcat(bits[..lo], bits[lo..hi]);
  }

  lemma CountOneMoreByte(d: seq<Octet>, bits: seq<bool>, i: nat)
    requires i < |d| && bits == View(d, 8 * |d|)
    ensures 8 * (i + 1) <= |bits|
    ensures CountTrue(bits[..8 * (i + 1)]) == CountTrue(bits[..8 * i]) + PopCount(d[i])
  {
    ByteOfView(d, bits, i, 8 * i);
    BitCountIsCount(d[i], bits, 8 * i, 8);
    CountSplit(bits, 8 * i, 8 * i + 8);
  }

  /** The set bits of n packed bits are the set bits of all bytes. */
  lemma CountIgnoresPadding(d: seq<Octet>, n: nat)
    requires Packs(d, n)
    ensures CountTrue(View(d, n)) == CountTrue(View(d, 8 * |d|))
  {
    var v := View(d, 8 * |d|);
    assert v == View(d, n) + v[n..];
    CountOfConcat(View(d, n), v[n..]);
    NoneCounted(v[n..]);
  }

  lemma CountOfAllBytes(d: seq<Octet>, all: seq<bool>, n: nat)
    requires Packs(d, n) && all == View(d, 8 * |d|)
    ensures CountTrue(all[..8 * |d|]) == CountTrue(View(d, n))
  {
    assert all[..8 * |d|] == all;
    CountIgnoresPadding(d, n);
  }

  lemma FilledMore(bits: seq<bool>, lo: nat, mid: nat, hi: nat, v: bool)
    requires lo <= mid <= hi
    ensures Filled(Filled(bits, lo, mid, v), mid, hi, v) == Filled(bits, lo, hi, v)
  {}

  lemma FilledRest(bits: seq<bool>, lo: nat, mid: nat, hi: nat, v: bool)
    requires lo <= mid && (mid <= hi || mid == lo)
    ensures Filled(Filled(bits, lo, mid, v), mid, hi, v) == Filled(bits, lo, hi, v)
  {}

  lemma SplicedAt(was: seq<bool>, offset: nat, field: seq<bool>, bits: seq<bool>)
    requires offset + |field| <= |was| == |bits|
    requires forall p :: 0 <= p < |bits| ==>
               bits[p] == if offset <= p < offset + |field| then field[p - offset] else was[p]
    ensures bits == Spliced(was, offset, field)
  {}

  /** A vector's bits and the sums over positions inside it stay below 2^64. */
  const MAX_BITS: nat := U64 - 16

  // ---------------------------------------------------------------- the class

  class BitVector {
    const size: nat
    const data: array<Octet>

    ghost predicate Valid()
      reads data
    {
      0 < size <= MAX_BITS && Packs(data[..], size)
    }

    ghost function Bits(): (bits: seq<bool>)
      requires data.Length == Words(size)
      reads data
      ensures |bits| == size
    {
      View(data[..], size)
    }

    constructor (n: nat)
      requires 0 < n <= MAX_BITS
      ensures Valid() && fresh(data) && size == n
      ensures Bits() == seq(n, _ => false)
    {
      size := n;
      data := new Octet[Words(n)](_ => 0);
      new;
      ZeroBytes(data[..]);
    }

    ghost predicate Shaped()
      reads data
    {
      0 < size <= MAX_BITS && data.Length == Words(size)
    }

    method Test(pos: nat) returns (b: bool)
      requires Shaped() && pos < 8 * data.Length
      ensures b == At(data[..], pos)
      ensures Valid() ==> b == (pos < size && Bits()[pos])
    {
      b := Bit(data[pos / 8], pos % 8);
      assert b == At(data[..], pos);
    }

    /** A position in the padding is accepted, and spoils it. */
    method Set(pos: nat)
      requires Shaped() && pos < 8 * data.Length
      modifies data
      ensures OneBit(old(data[..]), data[..], pos, true)
      ensures old(Valid()) ==> (Valid() <==> pos < size)
      ensures old(Valid()) && pos < size ==> Bits() == old(Bits())[pos := true]
    {
      ghost var was := data[..];
      data[pos / 8] := data[pos / 8] | Mask(pos % 8);
      assert data[..] == was[pos / 8 := data[pos / 8]];
      SetOneBit(was[pos / 8], pos % 8);
      OneBitChanged(was, data[..], pos, true, size);
    }

    method Reset(pos: nat)
      requires Shaped() && pos < 8 * data.Length
      modifies data
      ensures OneBit(old(data[..]), data[..], pos, false)
      ensures old(Valid()) ==> Valid()
      ensures old(Valid()) ==> Bits() == if pos < size then old(Bits())[pos := false] else old(Bits())
    {
      ghost var was := data[..];
      data[pos / 8] := data[pos / 8] & !Mask(pos % 8);
      assert data[..] == was[pos / 8 := data[pos / 8]];
      ClearOneBit(was[pos / 8], pos % 8);
      OneBitChanged(was, data[..], pos, false, size);
    }

    /** A position in the padding is accepted, and spoils it. */
    method Flip(pos: nat)
      requires Shaped() && pos < 8 * data.Length
      modifies data
      ensures OneBit(old(data[..]), data[..], pos, !old(At(data[..], pos)))
      ensures old(Valid()) ==> (Valid() <==> pos < size)
      ensures old(Valid()) && pos < size ==> Bits() == old(Bits())[pos := !old(Bits())[pos]]
    {
      ghost var was, v := data[..], !At(data[..], pos);
      FlipOneBit(data[pos / 8], pos % 8);
      assert v == !Bit(data[pos / 8], pos % 8);
      data[pos / 8] := data[pos / 8] ^ Mask(pos % 8);
      assert OnlyBit(was[pos / 8], data[pos / 8], pos % 8, v);
      OneBitChanged(was, data[..], pos, v, size);
    }

    /** Clears the bits beyond the size. */
    method TrimLastByte()
      requires Shaped()
      modifies data
      ensures Valid() && Bits() == old(Bits())
    {
      ghost var was := data[..];
      var last := data.Length - 1;
      if size % 8 != 0 {
        data[last] := data[last] & LowMask(size % 8);
        assert data[..] == was[last := was[last] & LowMask(size % 8)];
      }
      Trimmed(was, data[..], size);
    }

    method SetAll()
      requires Valid()
      modifies data
      ensures Valid() && Bits() == Filled(old(Bits()), 0, size, true)
    {
      forall i | 0 <= i < data.Length {
        data[i] := ALL_ONES;
      }
      OneBytes(data[..]);
      TrimLastByte();
    }

    method ClearAll()
      requires Shaped()
      modifies data
      ensures Valid() && Bits() == Filled(old(Bits()), 0, size, false)
    {
      forall i | 0 <= i < data.Length {
        data[i] := 0;
      }
      ZeroBytes(data[..]);
    }

    method ClearBits(offset: nat, n: nat)
      requires Valid() && offset + n <= size
      modifies data
      ensures Valid() && Bits() == Filled(old(Bits()), offset, offset + n, false)
    {
      var i := 0;
      while i < n
        invariant i <= n && Valid()
        invariant Bits() == Filled(old(Bits()), offset, offset + i, false)
      {
        Reset(offset + i);
        i := i + 1;
      }
    }

    /** The n lowest bits of value replace the field at offset; nothing else changes. */
    method SetBits(value: nat, offset: nat, n: nat)
      requires Valid() && offset + n <= size
      modifies data
      ensures Valid() && Bits() == Spliced(old(Bits()), offset, ToBits(value, n))
    {
      ghost var field := ToBits(value, n);
      ClearBits(offset, n);
      var i := 0;
      while i < n
        invariant i <= n && Valid()
        invariant forall p :: 0 <= p < size ==>
          Bits()[p] == if offset <= p < offset + i then field[p - offset]
                       else if offset + i <= p < offset + n then false else old(Bits())[p]
      {
        ToBitsAt(value, n, i);
        if (value / Pow2(i)) % 2 == 1 {
          Set(offset + i);
        }
        i := i + 1;
      }
      SplicedAt(old(Bits()), offset, field, Bits());
    }

    /** The number packed into the field at offset. */
    method GetBits(offset: nat, n: nat) returns (r: nat)
      requires Valid() && offset + n <= size && n <= 64
      ensures r == Number(Bits()[offset..offset + n]) && r < Pow2(n)
    {
      ghost var bits := Bits();
      r := 0;
      var i := 0;
      while i < n
        invariant i <= n && r == FieldNumber(bits, offset, i)
      {
        var b := Test(offset + i);
        FieldNumberNext(bits, offset, i);
        if b {
          r := r + Pow2(i);
        }
        i := i + 1;
      }
      NumberBound(bits[offset..offset + n]);
    }

    method Count() returns (count: nat)
      requires Valid()
      ensures count == CountTrue(Bits())
    {
      ghost var all := View(data[..], 8 * data.Length);
      count := 0;
      var i := 0;
      while i < data.Length
        invariant i <= data.Length && count == CountTrue(all[..8 * i])
      {
        CountOneMoreByte(data[..], all, i);
        count := count + PopCount(data[i]);
        i := i + 1;
      }
      CountOfAllBytes(data[..], all, size);
      if size % 8 != 0 {
        var beyond := data[data.Length - 1] & !LowMask(size % 8);
        PaddingOfLastByte(data[..], size, beyond);
        count := count - PopCount(beyond);
      }
    }

    method None() returns (r: bool)
      requires Valid()
      ensures r <==> forall p :: 0 <= p < size ==> !Bits()[p]
    {
      var i := 0;
      while i < data.Length
        invariant i <= data.Length
        invariant forall p: nat :: p < 8 * i ==> !At(data[..], p)
      {
        if data[i] != 0 {
          NonZeroByte(data[..], i, size);
          assert Bits()[8 * i + TrailingZeros(data[i])];
          return false;
        }
        ZeroByte(data[..], i);
        i := i + 1;
      }
      return true;
    }

    method All() returns (r: bool)
      requires Valid()
      ensures r <==> forall p :: 0 <= p < size ==> Bits()[p]
    {
      var last := data.Length - 1;
      var i := 0;
      while i < last
        invariant i <= last
        invariant forall p: nat :: p < 8 * i ==> At(data[..], p)
      {
        if data[i] != ALL_ONES {
          EightBits(data[i]);
          ghost var c := ClearBitOf(data[i], 8);
          assert !Bits()[8 * i + c];
          return false;
        }
        WholeByteSet(data[..], i);
        i := i + 1;
      }
      var used := if size % 8 == 0 then 8 else size % 8;
      r := data[last] & LowMask(used) == LowMask(used);
      AllDecidedByLastByte(data[..], size, used, data[last]);
      assert forall p :: 0 <= p < size ==> Bits()[p] == View(data[..], size)[p];
    }

    method FindFirst() returns (r: nat)
      requires Valid()
      ensures FirstAt(Bits(), 0, true, r)
    {
      var i := 0;
      while i < data.Length
        invariant i <= data.Length
        invariant forall p: nat :: p < 8 * i ==> !At(data[..], p)
      {
        if data[i] != 0 {
          NonZeroByte(data[..], i, size);
          return 8 * i + TrailingZeros(data[i]);
        }
        ZeroByte(data[..], i);
        i := i + 1;
      }
      return size;
    }

    method FindFirstZero() returns (r: nat)
      requires Valid()
      ensures FirstAt(Bits(), 0, false, r)
    {
      var last := data.Length - 1;
      var i := 0;
      while i < last
        invariant i <= last
        invariant forall p: nat :: p < 8 * i ==> At(data[..], p)
      {
        if data[i] != ALL_ONES {
          ZeroFoundInWhole(data[..], i, size);
          r := 8 * i + TrailingZeros(!data[i]);
          return;
        }
        WholeByteSet(data[..], i);
        i := i + 1;
      }
      r := ZeroInLastByte();
    }

    /** The masked test on the last byte; its first clear bit, or the size when there is none. */
    method ZeroInLastByte() returns (r: nat)
      requires Valid() && forall p: nat :: p < 8 * (data.Length - 1) ==> At(data[..], p)
      ensures FirstAt(Bits(), 0, false, r)
    {
      var last := data.Length - 1;
      var used := if size % 8 == 0 then 8 else size % 8;
      LastByte(data[..], size, used);
      if data[last] & LowMask(used) != LowMask(used) {
        ghost var hit := ZeroFound(data[..], last, size, used);
        return 8 * last + TrailingZeros(!data[last]);
      }
      NoZeroFound(data[..], size, used);
      return size;
    }

    /** The first set bit at or after pos. */
    method FindNext(pos: nat) returns (r: nat)
      requires Valid()
      ensures FirstAt(Bits(), pos, true, r)
    {
      if pos >= size {
        return size;
      }
      var byte := data[pos / 8] >> (pos % 8);
      if byte != 0 {
        FoundInShifted(data[..], pos, byte, size);
        return pos + TrailingZeros(byte);
      }
      ShiftedByte(data[..], pos, byte);
      var i := pos / 8 + 1;
      while i < data.Length
        invariant pos / 8 < i <= data.Length
        invariant forall p: nat :: pos <= p < 8 * i ==> !At(data[..], p)
      {
        if data[i] != 0 {
          NonZeroByte(data[..], i, size);
          return 8 * i + TrailingZeros(data[i]);
        }
        ZeroByte(data[..], i);
        i := i + 1;
      }
      return size;
    }

    method FillByte(i: nat, v: bool)
      requires Valid() && 8 * i + 8 <= size
      modifies data
      ensures Valid() && Bits() == Filled(old(Bits()), 8 * i, 8 * i + 8, v)
    {
      ghost var was := data[..];
      data[i] := if v then ALL_ONES else 0;
      WholeByte(was, data[..], i, v, size);
    }

    method Put(pos: nat, v: bool)
      requires Valid() && pos < size
      modifies data
      ensures Valid() && Bits() == old(Bits())[pos := v]
    {
      if v { Set(pos); } else { Reset(pos); }
    }

    /** Single bits up to the first byte boundary. */
    method PutHead(start: nat, end: nat, v: bool) returns (idx: nat)
      requires Valid() && end <= size
      modifies data
      ensures Valid() && Bits() == Filled(old(Bits()), start, idx, v)
      ensures start <= idx && (idx <= end || idx == start) && (idx >= end || idx % 8 == 0)
    {
      idx := start;
      while idx < end && idx % 8 != 0
        invariant start <= idx && (idx <= end || idx == start)
        invariant Valid() && Bits() == Filled(old(Bits()), start, idx, v)
      {
        Put(idx, v);
        idx := idx + 1;
      }
    }

    /** Whole bytes; stops when the next one lies outside the array. */
    method PutBytes(start: nat, end: nat, v: bool) returns (idx: nat, inside: bool)
      requires Valid() && end <= size && start < U64 && (start >= end || start % 8 == 0)
      modifies data
      ensures Valid() && Bits() == Filled(old(Bits()), start, idx, v)
      ensures inside <==> !(start >= U64 - 8 && (start + 8) % U64 <= end)
      ensures start <= idx && (idx <= end || idx == start) && (!inside ==> idx == start)
    {
      idx := start;
      while (idx + 8) % U64 <= end
        invariant start <= idx < U64 && (idx <= end || idx == start) && (idx >= end || idx % 8 == 0)
        invariant Valid() && Bits() == Filled(old(Bits()), start, idx, v)
        decreases U64 - idx
      {
        if idx / 8 >= data.Length {
          return idx, false;
        }
        NextByteInside(idx, end, size);
        FillByte(idx / 8, v);
        FilledMore(old(Bits()), start, idx, idx + 8, v);
        idx := (idx + 8) % U64;
      }
      return idx, true;
    }

    /** The single bits after the last whole byte. */
    method PutTail(start: nat, end: nat, v: bool)
      requires Valid() && end <= size
      modifies data
      ensures Valid() && Bits() == Filled(old(Bits()), start, end, v)
    {
      var idx := start;
      while idx < end
        invariant start <= idx && (idx <= end || idx == start)
        invariant Valid() && Bits() == Filled(old(Bits()), start, idx, v)
      {
        Put(idx, v);
        idx := idx + 1;
      }
    }

    /** Gives [start, start + count) up to the size the value v, a byte at a time where it can,
        unless the fast path overruns: then its first write is outside the array, and nothing
        more is said. */
    method PutBatch(start: nat, count: nat, v: bool) returns (inside: bool)
      requires Valid() && start < U64 && count < U64
      modifies data
      ensures Valid() && (inside <==> !BatchOverruns(start, count, size))
      ensures Bits() == if inside then Filled(old(Bits()), start, BatchEnd(start, count, size), v) else old(Bits())
    {
      ghost var bits := Bits();
      var end := BatchEnd(start, count, size);
      var idx := PutHead(start, end, v);
      ghost var mid := idx;
      idx, inside := PutBytes(idx, end, v);
      FilledMore(bits, start, mid, idx, v);
      if inside {
        PutTail(idx, end, v);
        FilledRest(bits, start, idx, end, v);
      }
    }

    method SetBatch(start: nat, count: nat) returns (inside: bool)
      requires Valid() && start < U64 && count < U64
      modifies data
      ensures Valid() && (inside <==> !BatchOverruns(start, count, size))
      ensures Bits() == if inside then Filled(old(Bits()), start, BatchEnd(start, count, size), true) else old(Bits())
    {
      inside := PutBatch(start, count, true);
    }

    method ClearBatch(start: nat, count: nat) returns (inside: bool)
      requires Valid() && start < U64 && count < U64
      modifies data
      ensures Valid() && (inside <==> !BatchOverruns(start, count, size))
      ensures Bits() == if inside then Filled(old(Bits()), start, BatchEnd(start, count, size), false) else old(Bits())
    {
      inside := PutBatch(start, count, false);
    }

    method And(other: BitVector) returns (result: BitVector)
      requires Valid() && other.Valid() && other.size == size
      ensures fresh(result) && fresh(result.data) && result.Valid() && result.size == size
      ensures forall p :: 0 <= p < size ==> result.Bits()[p] == (Bits()[p] && other.Bits()[p])
    {
      result := new BitVector(size);
      AndInto(data, other.data, result.data);
      AndBytes(data[..], other.data[..], result.data[..]);
    }

    static method AndInto(a: array<Octet>, b: array<Octet>, r: array<Octet>)
      requires a.Length == b.Length == r.Length && r != a && r != b
      modifies r
      ensures forall j :: 0 <= j < r.Length ==> r[j] == a[j] & b[j]
    {
      for i := 0 to r.Length
        invariant forall j :: 0 <= j < i ==> r[j] == a[j] & b[j]
      {
        r[i] := a[i] & b[i];
      }
    }

    method Or(other: BitVector) returns (result: BitVector)
      requires Valid() && other.Valid() && other.size == size
      ensures fresh(result) && fresh(result.data) && result.Valid() && result.size == size
      ensures forall p :: 0 <= p < size ==> result.Bits()[p] == (Bits()[p] || other.Bits()[p])
    {
      result := new BitVector(size);
      var i := 0;
      while i < data.Length
        modifies result.data
        invariant i <= data.Length == result.data.Length
        invariant forall j :: 0 <= j < i ==> result.data[j] == data[j] | other.data[j]
      {
        result.data[i] := data[i] | other.data[i];
        i := i + 1;
      }
      OrBytes(data[..], other.data[..], result.data[..]);
    }

    method Xor(other: BitVector) returns (result: BitVector)
      requires Valid() && other.Valid() && other.size == size
      ensures fresh(result) && fresh(result.data) && result.Valid() && result.size == size
      ensures forall p :: 0 <= p < size ==> result.Bits()[p] == (Bits()[p] != other.Bits()[p])
    {
      result := new BitVector(size);
      var i := 0;
      while i < data.Length
        modifies result.data
        invariant i <= data.Length == result.data.Length
        invariant forall j :: 0 <= j < i ==> result.data[j] == data[j] ^ other.data[j]
      {
        result.data[i] := data[i] ^ other.data[i];
        i := i + 1;
      }
      XorBytes(data[..], other.data[..], result.data[..]);
    }

    method Not() returns (result: BitVector)
      requires Valid()
      ensures fresh(result) && fresh(result.data) && result.Valid() && result.size == size
      ensures forall p :: 0 <= p < size ==> result.Bits()[p] == !Bits()[p]
    {
      result := new BitVector(size);
      var i := 0;
      while i < data.Length
        modifies result.data
        invariant i <= data.Length == result.data.Length
        invariant forall j :: 0 <= j < i ==> result.data[j] == !data[j]
      {
        result.data[i] := !data[i];
        i := i + 1;
      }
      NotBytes(data[..], result.data[..]);
      result.TrimLastByte();
    }

    method Equals(other: BitVector) returns (r: bool)
      requires Valid() && other.Valid() && other.size == size
      ensures r <==> Bits() == other.Bits()
    {
      ViewDetermines(data[..], other.data[..], size);
      var i := 0;
      while i < data.Length
        invariant i <= data.Length && data[..i] == other.data[..i]
      {
        if data[i] != other.data[i] {
          return false;
        }
        i := i + 1;
      }
      assert data[..] == data[..i] && other.data[..] == other.data[..i];
      return true;
    }
  }

  /** One past the last bit of a batch: the size_t sum, cut at the size. */
  function BatchEnd(start: nat, count: nat, size: nat): nat {
    var sum := (start + count) % U64;
    if sum < size then sum else size
  }

  /** The guard of the byte-at-a-time loop, a 64-bit sum, wraps and lets a byte beyond the array in. */
  predicate BatchOverruns(start: nat, count: nat, size: nat) {
    start >= U64 - 8 && (start + 8) % U64 <= BatchEnd(start, count, size)
  }

  /** A next byte inside the array ends before the batch does. */
  lemma NextByteInside(idx: nat, end: nat, size: nat)
    requires end <= size <= MAX_BITS && idx < U64 && (idx + 8) % U64 <= end && idx / 8 < Words(size)
    ensures idx + 8 <= end && (idx + 8) % U64 == idx + 8
  {}

  /** A batch that overruns should have done nothing at all. */
  lemma OverrunMeansNothing(bits: seq<bool>, start: nat, count: nat, v: bool)
    requires |bits| <= MAX_BITS && start < U64 && BatchOverruns(start, count, |bits|)
    ensures Filled(bits, start, BatchEnd(start, count, |bits|), v) == bits
  {}

  /** The empty batch at the last byte position of the address range overruns a vector of 64 bits. */
  lemma EmptyBatchOverruns()
    ensures BatchOverruns(U64 - 8, 0, 64)
  {}

  lemma ZeroBytes(d: seq<Octet>)
    requires forall i :: 0 <= i < |d| ==> d[i] == 0
    ensures forall p: nat :: p < 8 * |d| ==> !At(d, p)
  {
    forall p: nat | p < 8 * |d|
      ensures !At(d, p)
    {
      ConstantBits(p % 8);
    }
  }

  /** Only the bit at pos may differ, and it is v now. */
  ghost predicate OneBit(d: seq<Octet>, d': seq<Octet>, pos: nat, v: bool) {
    |d'| == |d| && forall p: nat :: p < 8 * |d| ==> At(d', p) == if p == pos then v else At(d, p)
  }

  /** Giving one bit of one byte the value v changes that bit only: a bit of the view, or of the
      padding, which stays clear exactly when v is. */
  lemma OneBitChanged(d: seq<Octet>, d': seq<Octet>, pos: nat, v: bool, n: nat)
    requires |d| == Words(n) && pos < 8 * |d| && |d'| == |d| && d' == d[pos / 8 := d'[pos / 8]]
    requires OnlyBit(d[pos / 8], d'[pos / 8], pos % 8, v)
    ensures OneBit(d, d', pos, v)
    ensures Packs(d, n) ==> (Packs(d', n) <==> pos < n || !v)
    ensures Packs(d, n) && pos < n ==> View(d', n) == View(d, n)[pos := v]
    ensures Packs(d, n) && pos >= n && !v ==> View(d', n) == View(d, n)
  {
    forall p: nat | p < 8 * |d|
      ensures At(d', p) == if p == pos then v else At(d, p)
    {}
    assert Packs(d, n) && pos >= n && v ==> At(d', pos);
  }

  lemma OneBytes(d: seq<Octet>)
    requires forall i :: 0 <= i < |d| ==> d[i] == ALL_ONES
    ensures forall p: nat :: p < 8 * |d| ==> At(d, p)
  {
    forall p: nat | p < 8 * |d|
      ensures At(d, p)
    {
      ConstantBits(p % 8);
    }
  }

  lemma TrimmedAt(d: seq<Octet>, d': seq<Octet>, n: nat, p: nat)
    requires n % 8 != 0 && |d| == Words(n) && p < 8 * |d|
    requires d' == d[|d| - 1 := d[|d| - 1] & LowMask(n % 8)]
    ensures At(d', p) == (p < n && At(d, p))
  {
    var last := |d| - 1;
    assert n == 8 * last + n % 8;
    if p >= 8 * last {
      AtByte(d, last, p);
      AtByte(d', last, p);
      MaskedBit(d[last], n % 8, p - 8 * last);
    }
  }

  /** Masking the last byte clears exactly the padding. */
  lemma Trimmed(d: seq<Octet>, d': seq<Octet>, n: nat)
    requires n > 0 && |d| == Words(n)
    requires d' == if n % 8 == 0 then d else d[|d| - 1 := d[|d| - 1] & LowMask(n % 8)]
    ensures Packs(d', n) && forall p: nat :: p < n ==> At(d', p) == At(d, p)
  {
    if n % 8 != 0 {
      forall p: nat | p < 8 * |d|
        ensures At(d', p) == (p < n && At(d, p))
      {
        TrimmedAt(d, d', n, p);
      }
    }
  }

  lemma ZeroByte(d: seq<Octet>, i: nat)
    requires i < |d| && d[i] == 0
    ensures forall p: nat :: 8 * i <= p < 8 * i + 8 ==> !At(d, p)
  {
    forall p: nat | 8 * i <= p < 8 * i + 8
      ensures !At(d, p)
    {
      ConstantBits(p % 8);
    }
  }

  lemma NonZeroByte(d: seq<Octet>, i: nat, n: nat)
    requires i < |d| && d[i] != 0 && Packs(d, n)
    ensures var r := 8 * i + TrailingZeros(d[i]);
      r < n && At(d, r) && forall p: nat :: 8 * i <= p < r ==> !At(d, p)
  {
    var r := 8 * i + TrailingZeros(d[i]);
    AtByte(d, i, r);
    forall p: nat | 8 * i <= p < r
      ensures !At(d, p)
    {
      AtByte(d, i, p);
    }
  }

  /** A byte with all of its `used` low bits set. */
  lemma FullByte(d: seq<Octet>, i: nat, used: nat)
    requires i < |d| && used <= 8 && d[i] & LowMask(used) == LowMask(used)
    ensures forall p: nat :: 8 * i <= p < 8 * i + used ==> At(d, p)
  {
    forall p: nat | 8 * i <= p < 8 * i + used
      ensures At(d, p)
    {
      AtByte(d, i, p);
      AndBit(d[i], LowMask(used), p - 8 * i);
      LowMaskBit(used, p - 8 * i);
    }
  }

  /** The first clear bit of byte i. */
  lemma FirstClearOf(d: seq<Octet>, i: nat)
    requires i < |d| && !d[i] != 0
    ensures !At(d, 8 * i + TrailingZeros(!d[i]))
    ensures forall p: nat :: 8 * i <= p < 8 * i + TrailingZeros(!d[i]) ==> At(d, p)
  {
    var t := TrailingZeros(!d[i]);
    ClearBitsOf(d[i]);
    AtByte(d, i, 8 * i + t);
    forall p: nat | 8 * i <= p < 8 * i + t
      ensures At(d, p)
    {
      AtByte(d, i, p);
    }
  }

  lemma NotFullByte(d: seq<Octet>, i: nat, used: nat) returns (r: nat)
    requires i < |d| && used <= 8 && d[i] & LowMask(used) != LowMask(used)
    ensures !d[i] != 0 && r == 8 * i + TrailingZeros(!d[i]) && r < 8 * i + used
    ensures !At(d, r) && forall p: nat :: 8 * i <= p < r ==> At(d, p)
  {
    var c := ClearBitOf(d[i], used);
    ClearBitBounds(d[i], c);
    r := 8 * i + TrailingZeros(!d[i]);
    FirstClearOf(d, i);
  }

  lemma ClearBitBounds(b: Octet, c: nat)
    requires c < 8 && !Bit(b, c)
    ensures !b != 0 && TrailingZeros(!b) <= c
  {
    NotBit(b, c);
    ConstantBits(c);
  }

  lemma ClearBitsOf(b: Octet)
    requires !b != 0
    ensures !Bit(b, TrailingZeros(!b)) && forall k: nat :: k < TrailingZeros(!b) ==> Bit(b, k)
  {
    NotBit(b, TrailingZeros(!b));
    forall k: nat | k < TrailingZeros(!b)
      ensures Bit(b, k)
    {
      NotBit(b, k);
    }
  }

  lemma ClearBitOf(b: Octet, used: nat) returns (c: nat)
    requires used <= 8 && b & LowMask(used) != LowMask(used)
    ensures c < used && !Bit(b, c)
  {
    if forall k: nat :: k < used ==> Bit(b, k) {
      forall k: nat | k < 8
        ensures Bit(b & LowMask(used), k) == Bit(LowMask(used), k)
      {
        AndBit(b, LowMask(used), k);
        LowMaskBit(used, k);
      }
      SameBits(b & LowMask(used), LowMask(used));
    }
    c :| c < used && !Bit(b, c);
  }

  /** The last byte holds the positions from the last multiple of eight on. */
  lemma LastByte(d: seq<Octet>, n: nat, used: nat)
    requires n > 0 && |d| == Words(n) && used == if n % 8 == 0 then 8 else n % 8
    ensures |d| > 0 && n == 8 * (|d| - 1) + used && used <= 8
  {}

  lemma AllDecidedByLastByte(d: seq<Octet>, n: nat, used: nat, b: Octet)
    requires n > 0 && |d| == Words(n) && b == d[|d| - 1] && forall p: nat :: p < 8 * (|d| - 1) ==> At(d, p)
    requires used == if n % 8 == 0 then 8 else n % 8
    ensures b & LowMask(used) == LowMask(used) <==> forall p :: 0 <= p < n ==> View(d, n)[p]
  {
    LastByte(d, n, used);
    var last := |d| - 1;
    if b & LowMask(used) == LowMask(used) {
      FullByte(d, last, used);
    } else {
      var c := ClearBitOf(b, used);
      AtByte(d, last, 8 * last + c);
      assert !View(d, n)[8 * last + c];
    }
  }

  lemma EightBits(b: Octet)
    ensures LowMask(8) == ALL_ONES && b & ALL_ONES == b
  {}

  /** With all earlier bits set, the first clear bit of a byte that is not full is the answer. */
  lemma ZeroFound(d: seq<Octet>, i: nat, n: nat, used: nat) returns (r: nat)
    requires 8 * i + used <= n <= 8 * |d| && used <= 8 && i < |d| && d[i] & LowMask(used) != LowMask(used)
    requires forall p: nat :: p < 8 * i ==> At(d, p)
    ensures !d[i] != 0 && r == 8 * i + TrailingZeros(!d[i]) && r < n
    ensures FirstAt(View(d, n), 0, false, r)
  {
    r := NotFullByte(d, i, used);
  }

  lemma ZeroFoundInWhole(d: seq<Octet>, i: nat, n: nat)
    requires |d| == Words(n) && i + 1 < |d| && d[i] != ALL_ONES && forall p: nat :: p < 8 * i ==> At(d, p)
    ensures !d[i] != 0 && FirstAt(View(d, n), 0, false, 8 * i + TrailingZeros(!d[i]))
  {
    EightBits(d[i]);
    var r := ZeroFound(d, i, n, 8);
  }

  lemma NoZeroFound(d: seq<Octet>, n: nat, used: nat)
    requires |d| > 0 && n == 8 * (|d| - 1) + used && used <= 8 && d[|d| - 1] & LowMask(used) == LowMask(used)
    requires forall p: nat :: p < 8 * (|d| - 1) ==> At(d, p)
    ensures FirstAt(View(d, n), 0, false, n)
  {
    FullByte(d, |d| - 1, used);
  }

  lemma WholeByteSet(d: seq<Octet>, i: nat)
    requires i < |d| && d[i] == ALL_ONES
    ensures forall p: nat :: 8 * i <= p < 8 * i + 8 ==> At(d, p)
  {
    EightBits(d[i]);
    FullByte(d, i, 8);
  }

  lemma BeyondBit(b: Octet, n: nat, k: nat)
    requires n < 8 && k < 8
    ensures Bit(b & !LowMask(n), k) == (k >= n && Bit(b, k))
  {
    AndBit(b, !LowMask(n), k);
    NotBit(LowMask(n), k);
    LowMaskBit(n, k);
  }

  /** The bits of the last byte beyond the size are clear. */
  lemma PaddingIsClear(d: seq<Octet>, n: nat, k: nat)
    requires n % 8 != 0 && Packs(d, n) && n % 8 <= k < 8
    ensures |d| > 0 && !Bit(d[|d| - 1], k)
  {
    var last := |d| - 1;
    assert n == 8 * last + n % 8;
    AtByte(d, last, 8 * last + k);
  }

  lemma PaddingOfLastByte(d: seq<Octet>, n: nat, beyond: Octet)
    requires n % 8 != 0 && Packs(d, n) && beyond == d[|d| - 1] & !LowMask(n % 8)
    ensures PopCount(beyond) == 0
  {
    forall k: nat | k < 8
      ensures Bit(beyond, k) == Bit(0, k)
    {
      BeyondBit(d[|d| - 1], n % 8, k);
      ConstantBits(k);
      if k >= n % 8 {
        PaddingIsClear(d, n, k);
      }
    }
    SameBits(beyond, 0);
    NothingSet(8);
  }

  lemma {:induction false} NothingSet(k: nat)
    requires k <= 8
    ensures BitCount(0, k) == 0
  {
    if k > 0 {
      NothingSet(k - 1);
      ConstantBits(k - 1);
    }
  }

  lemma ShiftBit(b: Octet, s: nat, k: nat)
    requires s < 8 && k < 8
    ensures Bit(b >> s, k) == (s + k < 8 && Bit(b, s + k))
  {
    MaskTable();
  }

  /** Shifting the byte of pos down by pos % 8 shows the bits from pos to the end of the byte. */
  lemma ShiftedByte(d: seq<Octet>, pos: nat, b: Octet)
    requires pos < 8 * |d| && b == d[pos / 8] >> (pos % 8)
    ensures forall k: nat :: k < 8 && Bit(b, k) ==> pos + k < 8 * (pos / 8) + 8 && At(d, pos + k)
    ensures forall p: nat :: pos <= p < 8 * (pos / 8) + 8 ==> At(d, p) == Bit(b, p - pos)
    ensures b == 0 ==> forall p: nat :: pos <= p < 8 * (pos / 8) + 8 ==> !At(d, p)
  {
    forall k: nat | k < 8
      ensures Bit(b, k) == (pos % 8 + k < 8 && At(d, pos + k))
    {
      ShiftBit(d[pos / 8], pos % 8, k);
    }
    forall p: nat | pos <= p < 8 * (pos / 8) + 8
      ensures At(d, p) == Bit(b, p - pos) && (b == 0 ==> !At(d, p))
    {
      assert At(d, pos + (p - pos)) == At(d, p);
      ConstantBits(p - pos);
    }
  }

  lemma FoundInShifted(d: seq<Octet>, pos: nat, b: Octet, n: nat)
    requires pos < n && Packs(d, n) && b == d[pos / 8] >> (pos % 8) && b != 0
    ensures FirstAt(View(d, n), pos, true, pos + TrailingZeros(b))
  {
    ShiftedByte(d, pos, b);
    var r := pos + TrailingZeros(b);
    assert At(d, r);
  }

  lemma WholeByte(d: seq<Octet>, d': seq<Octet>, i: nat, v: bool, n: nat)
    requires Packs(d, n) && 8 * i + 8 <= n && d' == d[i := if v then ALL_ONES else 0]
    ensures Packs(d', n) && View(d', n) == Filled(View(d, n), 8 * i, 8 * i + 8, v)
  {
    forall p: nat | p < 8 * |d|
      ensures At(d', p) == if 8 * i <= p < 8 * i + 8 then v else At(d, p)
    {
      ConstantBits(p % 8);
      assert p / 8 == i <==> 8 * i <= p < 8 * i + 8;
    }
  }

  lemma AndBytes(a: seq<Octet>, b: seq<Octet>, r: seq<Octet>)
    requires |a| == |b| == |r| && forall i :: 0 <= i < |a| ==> r[i] == a[i] & b[i]
    ensures forall p: nat :: p < 8 * |a| ==> At(r, p) == (At(a, p) && At(b, p))
  {
    forall p: nat | p < 8 * |a|
      ensures At(r, p) == (At(a, p) && At(b, p))
    {
      AndBit(a[p / 8], b[p / 8], p % 8);
    }
  }

  lemma OrBytes(a: seq<Octet>, b: seq<Octet>, r: seq<Octet>)
    requires |a| == |b| == |r| && forall i :: 0 <= i < |a| ==> r[i] == a[i] | b[i]
    ensures forall p: nat :: p < 8 * |a| ==> At(r, p) == (At(a, p) || At(b, p))
  {
    forall p: nat | p < 8 * |a|
      ensures At(r, p) == (At(a, p) || At(b, p))
    {
      OrBit(a[p / 8], b[p / 8], p % 8);
    }
  }

  lemma XorBytes(a: seq<Octet>, b: seq<Octet>, r: seq<Octet>)
    requires |a| == |b| == |r| && forall i :: 0 <= i < |a| ==> r[i] == a[i] ^ b[i]
    ensures forall p: nat :: p < 8 * |a| ==> At(r, p) == (At(a, p) != At(b, p))
  {
    forall p: nat | p < 8 * |a|
      ensures At(r, p) == (At(a, p) != At(b, p))
    {
      XorBit(a[p / 8], b[p / 8], p % 8);
    }
  }

  lemma NotBytes(a: seq<Octet>, r: seq<Octet>)
    requires |a| == |r| && forall i :: 0 <= i < |a| ==> r[i] == !a[i]
    ensures forall p: nat :: p < 8 * |a| ==> At(r, p) == !At(a, p)
  {
    forall p: nat | p < 8 * |a|
      ensures At(r, p) == !At(a, p)
    {
      NotBit(a[p / 8], p % 8);
    }
  }
}
