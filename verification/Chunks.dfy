/** How a file is cut into chunks, and the two bitmaps that say which chunks are being
    downloaded and which are complete. */
module Chunks {
  import opened Bytes
  import opened Options
  import opened BitVectors
  import opened Octets

  const CHUNK_SIZE: nat := 4 * 1024 * 1024

  // ---------------------------------------------------------------- chunk ranges

  /** CEIL_INTEGER for a positive dividend. */
  function CeilInteger(dividend: nat, divisor: nat): nat
    requires dividend > 0 && divisor > 0
  {
    1 + (dividend - 1) / divisor
  }

  function ChunkNum(size: nat): nat
    requires size > 0
  {
    CeilInteger(size, CHUNK_SIZE)
  }

  function First(index: nat): nat {
    CHUNK_SIZE * index
  }

  function Second(index: nat, size: nat): nat {
    if First(index) + CHUNK_SIZE < size then First(index) + CHUNK_SIZE else size
  }

  /** The size computed from the file size alone. */
  function ChunkSize(index: nat, size: nat): nat {
    if size / CHUNK_SIZE > index then CHUNK_SIZE else size % CHUNK_SIZE
  }

  /** Every byte of the file lies in exactly one chunk's range, and no range is empty. */
  lemma RangesTile(size: nat, p: nat)
    requires p < size
    ensures p / CHUNK_SIZE < ChunkNum(size)
    ensures forall i: nat :: i < ChunkNum(size) ==>
      (First(i) <= p < Second(i, size) <==> i == p / CHUNK_SIZE)
    ensures forall i: nat :: i < ChunkNum(size) ==> First(i) < Second(i, size) <= size
  {}

  /** The closed form agrees with the range exactly for the chunks the file has. */
  lemma ChunkSizeIffChunk(index: nat, size: nat)
    requires size > 0
    ensures ChunkSize(index, size) == Second(index, size) - First(index) <==>
            index < ChunkNum(size) || (index == ChunkNum(size) && size % CHUNK_SIZE == 0)
  {}

  // ---------------------------------------------------------------- specification of the flags

  /** The test on the last byte of the flags: all chunks from the last multiple of eight on. */
  ghost predicate TailSet(flags: seq<bool>) {
    forall p :: TailStart(|flags|) <= p < |flags| ==> flags[p]
  }

  function TailStart(n: nat): nat {
    if n == 0 then 0 else 8 * ((n - 1) / 8)
  }

  ghost predicate AllSet(flags: seq<bool>) {
    forall p :: 0 <= p < |flags| ==> flags[p]
  }

  /** The first clear flag, or the length. */
  function LeastClear(flags: seq<bool>): (r: nat)
    ensures FirstAt(flags, 0, false, r)
  {
    LeastClearFrom(flags, 0)
  }

  function LeastClearFrom(flags: seq<bool>, from: nat): (r: nat)
    requires from <= |flags|
    ensures from <= r <= |flags| && (r < |flags| ==> !flags[r]) && forall p :: from <= p < r ==> flags[p]
    decreases |flags| - from
  {
    if from == |flags| || !flags[from] then from else LeastClearFrom(flags, from + 1)
  }

  function TakeFlag(flags: seq<bool>): seq<bool> {
    var r := LeastClear(flags);
    if r < |flags| then flags[r := true] else flags
  }

  // ---------------------------------------------------------------- runs of the flags

  datatype FlagOp = Take | Revert(index: nat)

  function Apply(flags: seq<bool>, op: FlagOp): (r: seq<bool>)
    ensures |r| == |flags|
  {
    match op
    case Take => TakeFlag(flags)
    case Revert(i) => if i < |flags| then flags[i := false] else flags
  }

  function Flags(n: nat, ops: seq<FlagOp>): (r: seq<bool>)
    ensures |r| == n
  {
    if ops == [] then seq(n, _ => false) else Apply(Flags(n, ops[..|ops| - 1]), ops[|ops| - 1])
  }

  ghost predicate OnlyTakes(ops: seq<FlagOp>) {
    forall i :: 0 <= i < |ops| ==> ops[i] == Take
  }

  /** Without a revert the set flags are the first ones, as many as chunks were taken. */
  lemma {:induction false} TakesSetAPrefix(n: nat, ops: seq<FlagOp>)
    requires OnlyTakes(ops)
    ensures forall p :: 0 <= p < n ==> Flags(n, ops)[p] == (p < |ops|)
  {
    if ops != [] {
      TakesSetAPrefix(n, ops[..|ops| - 1]);
      var flags := Flags(n, ops[..|ops| - 1]);
      var r := LeastClear(flags);
      if r < n && r != |ops| - 1 {
        assert flags[r] == (r < |ops| - 1);
        assert |ops| - 1 < n ==> flags[|ops| - 1] == false;
      }
    }
  }

  /** Hence, from a fresh file and without a failed chunk, the last byte decides. */
  lemma TailDecidesWithoutRevert(n: nat, ops: seq<FlagOp>)
    requires OnlyTakes(ops)
    ensures TailSet(Flags(n, ops)) <==> AllSet(Flags(n, ops))
  {
    TakesSetAPrefix(n, ops);
    var flags := Flags(n, ops);
    if n > 0 && TailSet(flags) {
      assert flags[n - 1];
      assert forall p :: 0 <= p < n ==> flags[p];
    }
  }

  /** The test of the last byte gives what a test of all flags would give. */
  ghost predicate TailExact(n: nat, ops: seq<FlagOp>) {
    TailSet(Flags(n, ops)) <==> AllSet(Flags(n, ops))
  }

  /** With reverts the last-byte test is exact in every run only while one byte holds all flags. */
  lemma TailDecidesIffOneByte(n: nat)
    ensures (forall ops :: TailExact(n, ops)) <==> n <= 8
  {
    if n <= 8 {
      forall ops: seq<FlagOp>
        ensures TailExact(n, ops)
      {
        assert TailStart(n) == 0;
      }
    } else {
      var takes: seq<FlagOp> := seq(n, _ => Take);
      var ops := takes + [Revert(0)];
      assert ops[..|ops| - 1] == takes;
      TakesSetAPrefix(n, takes);
      var flags := Flags(n, ops);
      assert flags == Flags(n, takes)[0 := false];
      assert TailStart(n) > 0 && !flags[0];
      assert !AllSet(flags) && TailSet(flags);
      assert !TailExact(n, ops);
    }
  }

  // ---------------------------------------------------------------- the flags of a file

  class ChunkFlags {
    var size: nat
    var chunkNum: nat
    var complete: array<Octet>
    var download: array<Octet>
    var downloadSize: nat

    ghost predicate Valid()
      reads this, complete, download
    {
      && size > 0 && chunkNum == ChunkNum(size) && complete != download
      && Packs(complete[..], chunkNum) && Packs(download[..], chunkNum)
    }

    ghost function Downloading(): (flags: seq<bool>)
      requires Valid()
      reads this, complete, download
      ensures |flags| == chunkNum
    {
      View(download[..], chunkNum)
    }

    ghost function Complete(): (flags: seq<bool>)
      requires Valid()
      reads this, complete, download
      ensures |flags| == chunkNum
    {
      View(complete[..], chunkNum)
    }

    constructor (n: nat)
      requires n > 0
      ensures Valid() && fresh(complete) && fresh(download) && size == n && downloadSize == 0
      ensures Downloading() == Complete() == Flags(ChunkNum(n), [])
    {
      size, downloadSize := n, 0;
      chunkNum := ChunkNum(n);
      var byteNum := CeilInteger(ChunkNum(n), 8);
      complete := new Octet[byteNum](_ => 0);
      download := new Octet[byteNum](_ => 0);
      new;
      ZeroBytes(complete[..]);
      ZeroBytes(download[..]);
    }

    /** Flags the first clear chunk among the `limit` low bits of byte i; returns limit if none is clear. */
    method TakeInByte(i: nat, limit: nat) returns (j: nat)
      requires Valid() && limit <= 8 && 8 * i + limit <= chunkNum && i < download.Length
      modifies download
      ensures Valid() && Complete() == old(Complete()) && j <= limit
      ensures forall p :: 8 * i <= p < 8 * i + j ==> old(Downloading())[p]
      ensures if j < limit then !old(Downloading())[8 * i + j] && Downloading() == old(Downloading())[8 * i + j := true]
              else Downloading() == old(Downloading())
    {
      ghost var was := download[..];
      j := 0;
      while j < limit
        invariant j <= limit && download[..] == was
        invariant forall k: nat :: k < j ==> Bit(was[i], k)
      {
        if !Bit(download[i], j) {
          SetOneBit(download[i], j);
          download[i] := download[i] | Mask(j);
          OneBitChanged(was, download[..], 8 * i + j, true, chunkNum);
          break;
        }
        j := j + 1;
      }
      LowBitsSet(was, i, j, chunkNum);
    }

    /** Flags the least clear chunk, which byte i holds unless all chunks are flagged. */
    method TakeLeast(i: nat, limit: nat) returns (j: nat)
      requires Valid() && limit <= 8 && 8 * i + limit <= chunkNum && i < download.Length
      requires forall p :: 0 <= p < 8 * i ==> Downloading()[p]
      requires 8 * i + limit == chunkNum || exists p :: 8 * i <= p < 8 * i + limit && !Downloading()[p]
      modifies download
      ensures Valid() && Complete() == old(Complete())
      ensures Downloading() == TakeFlag(old(Downloading()))
      ensures LeastClear(old(Downloading())) == 8 * i + j && j <= limit && (j == limit ==> 8 * i + j == chunkNum)
    {
      ghost var flags := Downloading();
      j := TakeInByte(i, limit);
      LeastClearIs(flags, 8 * i + j);
    }

    /** Flags and returns the least chunk not yet flagged; None when all are flagged. */
    method GetNotDownloadFilechunk() returns (chunk: Option<nat>)
      requires Valid()
      modifies download
      ensures Valid() && Complete() == old(Complete())
      ensures Downloading() == TakeFlag(old(Downloading()))
      ensures var r := LeastClear(old(Downloading()));
        chunk == if r < chunkNum then Some(r) else None
    {
      ghost var flags := Downloading();
      var i := 0;
      while i < download.Length - 1
        invariant i <= download.Length - 1 && Valid() && Complete() == old(Complete())
        invariant Downloading() == flags && forall p :: 0 <= p < 8 * i ==> flags[p]
      {
        if download[i] == ALL_ONES {
          WholeByteFlagged(download[..], i, chunkNum);
        } else {
          HasClearBit(download[..], i, chunkNum);
          var j := TakeLeast(i, 8);
          chunk := Some(i * 8 + j);
          return;
        }
        i := i + 1;
      }
      var lastnum := if chunkNum % 8 == 0 then 8 else chunkNum % 8;
      assert chunkNum == 8 * i + lastnum;
      var j := TakeLeast(i, lastnum);
      chunk := if j < lastnum then Some(chunkNum - lastnum + j) else None;
    }

    method RevertDownloadFilechunk(index: nat)
      requires Valid() && index < chunkNum
      modifies download
      ensures Valid() && Complete() == old(Complete())
      ensures Downloading() == old(Downloading())[index := false]
    {
      ghost var was := download[..];
      ClearOneBit(download[index / 8], index % 8);
      download[index / 8] := download[index / 8] & !Mask(index % 8);
      OneBitChanged(was, download[..], index, false, chunkNum);
    }

    method IsAllChunkInDownload() returns (all: bool)
      requires Valid()
      ensures all <==> TailSet(Downloading())
    {
      var lastnum := if chunkNum % 8 == 0 then 8 else chunkNum % 8;
      var lastbyte := download[download.Length - 1];
      TailByte(download[..], chunkNum, lastnum, lastbyte);
      all := lastbyte == ALL_ONES >> (8 - lastnum);
    }

    method CompleteChunk(index: nat)
      requires Valid() && index < chunkNum
      modifies this`downloadSize, complete
      ensures Valid() && Downloading() == old(Downloading())
      ensures Complete() == old(Complete())[index := true]
      ensures downloadSize == old(downloadSize) + (Second(index, size) - First(index))
    {
      ghost var was := complete[..];
      SetOneBit(complete[index / 8], index % 8);
      complete[index / 8] := complete[index / 8] | Mask(index % 8);
      OneBitChanged(was, complete[..], index, true, chunkNum);
      downloadSize := downloadSize + (Second(index, size) - First(index));
    }
  }

  lemma WholeByteFlagged(d: seq<Octet>, i: nat, n: nat)
    requires i < |d| && 8 * i + 8 <= n <= 8 * |d| && d[i] == ALL_ONES
    ensures forall p :: 8 * i <= p < 8 * i + 8 ==> View(d, n)[p]
  {
    WholeByteSet(d, i);
  }

  lemma HasClearBit(d: seq<Octet>, i: nat, n: nat)
    requires i < |d| && 8 * i + 8 <= n <= 8 * |d| && d[i] != ALL_ONES
    ensures exists p :: 8 * i <= p < 8 * i + 8 && !View(d, n)[p]
  {
    EightBits(d[i]);
    var c := ClearBitOf(d[i], 8);
    assert !View(d, n)[8 * i + c];
  }

  lemma LowBitsSet(d: seq<Octet>, i: nat, j: nat, n: nat)
    requires i < |d| && j <= 8 && 8 * i + j <= n <= 8 * |d| && forall k: nat :: k < j ==> Bit(d[i], k)
    ensures forall p :: 8 * i <= p < 8 * i + j ==> View(d, n)[p]
  {
    forall p | 8 * i <= p < 8 * i + j
      ensures At(d, p)
    {
      assert p % 8 == p - 8 * i;
    }
  }

  lemma LeastClearIs(flags: seq<bool>, r: nat)
    requires r <= |flags| && (r < |flags| ==> !flags[r]) && forall p :: 0 <= p < r ==> flags[p]
    ensures LeastClear(flags) == r
  {}

  lemma LowMaskByBits(b: Octet, used: nat)
    requires used <= 8
    ensures b == LowMask(used) <==> forall k: nat :: k < 8 ==> Bit(b, k) == (k < used)
  {
    forall k: nat | k < 8
      ensures Bit(LowMask(used), k) == (k < used)
    {
      LowMaskBit(used, k);
    }
    if forall k: nat :: k < 8 ==> Bit(b, k) == (k < used) {
      SameBits(b, LowMask(used));
    }
  }

  lemma ShiftedOnes(used: nat)
    requires 1 <= used <= 8
    ensures ALL_ONES >> (8 - used) == LowMask(used)
  {}

  /** Comparing the last byte with UCHAR_MAX shifted right tests its used bits, the padding being zero. */
  lemma TailByte(d: seq<Octet>, n: nat, used: nat, b: Octet)
    requires n > 0 && Packs(d, n) && used == (if n % 8 == 0 then 8 else n % 8) && b == d[|d| - 1]
    ensures b == ALL_ONES >> (8 - used) <==> TailSet(View(d, n))
  {
    ShiftedOnes(used);
    LowMaskByBits(b, used);
    TailBits(d, n, used, b);
  }

  lemma TailBits(d: seq<Octet>, n: nat, used: nat, b: Octet)
    requires n > 0 && Packs(d, n) && used == (if n % 8 == 0 then 8 else n % 8) && b == d[|d| - 1]
    ensures (forall k: nat :: k < 8 ==> Bit(b, k) == (k < used)) <==> TailSet(View(d, n))
  {
    var start := 8 * (|d| - 1);
    assert TailStart(n) == start && n == start + used;
    assert forall k: nat :: k < 8 ==> Bit(b, k) == At(d, start + k);
    if TailSet(View(d, n)) {
      forall k: nat | k < 8
        ensures Bit(b, k) == (k < used)
      {
        if k < used { assert View(d, n)[start + k]; }
      }
    } else {
      var p :| start <= p < n && !View(d, n)[p];
      assert !Bit(b, p - start);
    }
  }
}
