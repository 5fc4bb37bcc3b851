/** Where the arena puts its blocks: without gaps, in the scratch buffer while they fit there, and
    in a new chunk only when the last one has no room. */
module ArenaPlaces {
  import opened Options
  import opened Arithmetic
  import opened Arena

  function Need(size: nat): nat {
    8 * ((size + 7) / 8)
  }

  /** It is the least multiple of eight that holds the size. */
  lemma NeedIsLeast(size: nat, n: nat)
    ensures Need(size) % 8 == 0 && Need(size) >= size
    ensures n % 8 == 0 && n >= size ==> Need(size) <= n
  {
    var m, q := (size + 7) / 8, n / 8;
    assert 8 * m <= size + 7 < 8 * m + 8;
    if n % 8 == 0 && n >= size {
      assert n == 8 * q;
      assert m <= q;
    }
  }

  /** The bytes the blocks of a region take, when a block takes what `need` says. */
  function UsedBy(need: nat -> nat, blocks: seq<Block>, r: Region): nat {
    if blocks == [] then 0
    else
      var b := blocks[|blocks| - 1];
      UsedBy(need, blocks[..|blocks| - 1], r) + if b.region == r then need(b.size) else 0
  }

  function Used(blocks: seq<Block>, r: Region): nat {
    UsedBy(Need, blocks, r)
  }

  lemma UsedMore(need: nat -> nat, blocks: seq<Block>, b: Block, r: Region)
    ensures UsedBy(need, blocks + [b], r) == UsedBy(need, blocks, r) + if b.region == r then need(b.size) else 0
  {
    assert (blocks + [b])[..|blocks|] == blocks;
  }

  /** No block lies in a chunk that is not there. */
  ghost predicate InChunks(s: State) {
    forall b :: b in s.blocks ==> IsRegion(s, b.region)
  }

  lemma {:induction false} NoneUsed(need: nat -> nat, blocks: seq<Block>, r: Region)
    requires forall b :: b in blocks ==> b.region != r
    ensures UsedBy(need, blocks, r) == 0
  {
    if blocks != [] {
      NoneUsed(need, blocks[..|blocks| - 1], r);
    }
  }

  /** Each block starts where the earlier blocks of its region end. */
  ghost predicate NoGaps(need: nat -> nat, blocks: seq<Block>) {
    forall i :: 0 <= i < |blocks| ==> blocks[i].offset == UsedBy(need, blocks[..i], blocks[i].region)
  }

  ghost predicate DenseBy(need: nat -> nat, s: State) {
    && s.scratchOffset == UsedBy(need, s.blocks, Scratch)
    && (s.chunks != [] ==> s.heapOffset == UsedBy(need, s.blocks, Heap(|s.chunks| - 1)))
    && NoGaps(need, s.blocks) && InChunks(s) && (s.isUsingScratch ==> s.chunks == [])
  }

  /** The counters say how much is used, without gaps, and chunks are there only once the scratch
      buffer is given up. */
  ghost predicate Dense(s: State) {
    DenseBy(Need, s)
  }

  lemma NoGapsMore(need: nat -> nat, blocks: seq<Block>, b: Block)
    requires NoGaps(need, blocks) && b.offset == UsedBy(need, blocks, b.region)
    ensures NoGaps(need, blocks + [b])
  {
    forall i | 0 <= i < |blocks + [b]|
      ensures (blocks + [b])[i].offset == UsedBy(need, (blocks + [b])[..i], (blocks + [b])[i].region)
    {
      assert i < |blocks| ==> (blocks + [b])[..i] == blocks[..i];
      assert (blocks + [b])[..|blocks|] == blocks;
    }
  }

  lemma NeedIsRounded(size: nat)
    requires size <= U64 - 8
    ensures Rounded(size) == Need(size)
  {}

  /** r bytes have room in the scratch buffer, which is in use. */
  predicate InScratch(s: State, r: nat) {
    s.isUsingScratch && Used(s.blocks, Scratch) + r <= s.scratchSize
  }

  predicate InLastChunk(s: State, r: nat) {
    s.chunks != [] && Used(s.blocks, Heap(|s.chunks| - 1)) + r <= s.chunkSize
  }

  /** The system gives a new chunk for r bytes. */
  predicate InNewChunk(s: State, r: nat, ok: bool) {
    ok && HEADER + Max(r, s.chunkSize) < OBJECT_LIMIT
  }

  lemma WrappedIs(sum: nat)
    ensures Wrapped(sum) <= sum && (sum < U64 ==> Wrapped(sum) == sum)
  {}

  /** What it means that no sum wraps, with the rounded size r. */
  lemma NoWrapMeans(s: State, size: nat, r: nat)
    requires !Wraps(s, size) && r == Rounded(size)
    ensures size <= U64 - 8
    ensures FitsScratch(s, size) ==> s.scratchOffset + r < U64
    ensures !FitsScratch(s, size) && FitsChunk(s, size) ==> s.heapOffset + r < U64
    ensures !FitsScratch(s, size) && !FitsChunk(s, size) ==> HEADER + Max(r, s.chunkSize) < U64
  {}

  /** A sum that fits only without wrapping fits as it is meant. */
  lemma PlainFit(inUse: bool, sum: nat, w: nat, limit: nat)
    requires w == Wrapped(sum) && (inUse && w <= limit ==> sum < U64)
    ensures inUse && w <= limit <==> inUse && sum <= limit
    ensures inUse && sum <= limit ==> w == sum
  {
    WrappedIs(sum);
  }

  /** Without a wrap the 64-bit tests are the tests that are meant. */
  lemma ScratchIff(s: State, size: nat, r: nat)
    requires Dense(s) && r == Rounded(size) && (FitsScratch(s, size) ==> s.scratchOffset + r < U64)
    ensures FitsScratch(s, size) <==> InScratch(s, r)
    ensures FitsScratch(s, size) ==> Wrapped(s.scratchOffset + r) == s.scratchOffset + r
  {
    PlainFit(s.isUsingScratch, s.scratchOffset + r, Wrapped(s.scratchOffset + r), s.scratchSize);
  }

  lemma ChunkIff(s: State, size: nat, r: nat)
    requires Dense(s) && r == Rounded(size) && (FitsChunk(s, size) ==> s.heapOffset + r < U64)
    ensures FitsChunk(s, size) <==> InLastChunk(s, r)
    ensures FitsChunk(s, size) ==> Wrapped(s.heapOffset + r) == s.heapOffset + r
  {
    PlainFit(s.chunks != [], s.heapOffset + r, Wrapped(s.heapOffset + r), s.chunkSize);
  }

  lemma NewIs(s: State, size: nat, r: nat)
    requires r == Rounded(size) && HEADER + Max(r, s.chunkSize) < U64
    ensures AllocSize(s.chunkSize, size) == Max(r, s.chunkSize)
    ensures Requested(s.chunkSize, size) == HEADER + Max(r, s.chunkSize)
  {
    WrappedIs(HEADER + AllocSize(s.chunkSize, size));
  }

  /** Which way Malloc goes. */
  lemma PathIs(s: State, size: nat, r: nat)
    requires Dense(s) && !Wraps(s, size) && r == Rounded(size)
    ensures FitsScratch(s, size) <==> InScratch(s, r)
    ensures !FitsScratch(s, size) ==> (FitsChunk(s, size) <==> InLastChunk(s, r))
    ensures !FitsScratch(s, size) && !FitsChunk(s, size) ==>
              Requested(s.chunkSize, size) == HEADER + Max(r, s.chunkSize)
  {
    NoWrapMeans(s, size, r);
    ScratchIff(s, size, r);
    if !FitsScratch(s, size) {
      ChunkIff(s, size, r);
      if !FitsChunk(s, size) {
        NewIs(s, size, r);
      }
    }
  }

  /** The states Malloc can lead to, with the sums as they are meant. */
  lemma TakeInScratch(s: State, size: nat, ok: bool, r: nat)
    requires Dense(s) && size > 0 && !Wraps(s, size) && r == Rounded(size) && InScratch(s, r)
    ensures var b := Block(Scratch, s.scratchOffset, size);
      Take(s, size, ok) == (s.(scratchOffset := s.scratchOffset + r, blocks := s.blocks + [b]), Some(b))
  {
    PathIs(s, size, r);
    NoWrapMeans(s, size, r);
    WrappedIs(s.scratchOffset + r);
  }

  lemma TakeInChunk(s: State, size: nat, ok: bool, r: nat)
    requires Dense(s) && size > 0 && !Wraps(s, size) && r == Rounded(size) && !InScratch(s, r) && InLastChunk(s, r)
    ensures var b := Block(Heap(|s.chunks| - 1), s.heapOffset, size);
      Take(s, size, ok) ==
      (s.(isUsingScratch := false, heapOffset := s.heapOffset + r, blocks := s.blocks + [b]), Some(b))
  {
    PathIs(s, size, r);
    NoWrapMeans(s, size, r);
    WrappedIs(s.heapOffset + r);
  }

  lemma TakeNothing(s: State, size: nat, ok: bool, r: nat)
    requires Dense(s) && size > 0 && !Wraps(s, size) && r == Rounded(size) && !InScratch(s, r) && !InLastChunk(s, r)
    requires !InNewChunk(s, r, ok)
    ensures Take(s, size, ok) == (s.(isUsingScratch := false), None)
  {
    PathIs(s, size, r);
  }

  lemma TakeNew(s: State, size: nat, ok: bool, r: nat)
    requires Dense(s) && size > 0 && !Wraps(s, size) && r == Rounded(size) && !InScratch(s, r) && !InLastChunk(s, r)
    requires InNewChunk(s, r, ok)
    ensures var b := Block(Heap(|s.chunks|), 0, size);
      Take(s, size, ok) ==
      (s.(isUsingScratch := false, chunks := s.chunks + [Max(r, s.chunkSize)], heapOffset := r,
          blocks := s.blocks + [b]), Some(b))
  {
    PathIs(s, size, r);
  }

  /** A block put behind the others of its region leaves no gap. */
  lemma DenseMore(need: nat -> nat, s: State, s': State, b: Block)
    requires DenseBy(need, s) && s'.blocks == s.blocks + [b] && IsRegion(s', b.region)
    requires b.offset == UsedBy(need, s.blocks, b.region)
    requires s.chunks <= s'.chunks && (s'.isUsingScratch ==> s'.chunks == [])
    requires s'.scratchOffset == s.scratchOffset + if b.region.Scratch? then need(b.size) else 0
    requires s'.chunks != [] ==>
      if b.region == Heap(|s'.chunks| - 1) then s'.heapOffset == b.offset + need(b.size)
      else s'.chunks == s.chunks && s'.heapOffset == s.heapOffset
    ensures DenseBy(need, s')
  {
    NoGapsMore(need, s.blocks, b);
    UsedMore(need, s.blocks, b, Scratch);
    if s'.chunks != [] {
      UsedMore(need, s.blocks, b, Heap(|s'.chunks| - 1));
    }
  }

  /** Where a block that takes r bytes goes. */
  ghost predicate GoesTo(s: State, size: nat, ok: bool, r: nat, s': State, b: Option<Block>) {
    && (b.None? <==> !InScratch(s, r) && !InLastChunk(s, r) && !InNewChunk(s, r, ok))
    && (b.Some? ==>
          && s'.blocks == s.blocks + [b.value] && b.value.size == size
          && b.value.offset == Used(s.blocks, b.value.region)
          && b.value.region == if InScratch(s, r) then Scratch
                               else if InLastChunk(s, r) then Heap(|s.chunks| - 1) else Heap(|s.chunks|))
    && (b.None? ==> s'.blocks == s.blocks)
    && s'.chunks == (if b.None? || InScratch(s, r) || InLastChunk(s, r) then s.chunks
                     else s.chunks + [Max(r, s.chunkSize)])
    && s'.isUsingScratch == InScratch(s, r) && s'.scratchSize == s.scratchSize && s'.chunkSize == s.chunkSize
  }

  lemma TakeGoesTo(s: State, size: nat, ok: bool, r: nat)
    requires Dense(s) && size > 0 && !Wraps(s, size) && r == Rounded(size)
    ensures GoesTo(s, size, ok, r, Take(s, size, ok).0, Take(s, size, ok).1)
    ensures Need(size) == r ==> Dense(Take(s, size, ok).0)
  {
    if InScratch(s, r) {
      TakeInScratch(s, size, ok, r);
    } else if InLastChunk(s, r) {
      TakeInChunk(s, size, ok, r);
    } else if InNewChunk(s, r, ok) {
      TakeNew(s, size, ok, r);
    } else {
      TakeNothing(s, size, ok, r);
    }
    NewChunkIsUnused(s);
    var (s', b) := Take(s, size, ok);
    if b.Some? && Need(size) == r {
      DenseMore(Need, s, s', b.value);
    }
  }

  /** Where a block goes, for every request that wraps no sum, with its size rounded up to a multiple
      of eight: behind the last block of the scratch buffer as long as that is in use and has room,
      else behind the last block of the newest chunk when that has room, else to the start of a new
      chunk of the usual or the needed size; and nowhere only when the system has no memory. */
  lemma MallocPlaces(s: State, size: nat, ok: bool)
    requires Dense(s) && size > 0 && !Wraps(s, size)
    ensures GoesTo(s, size, ok, Need(size), Take(s, size, ok).0, Take(s, size, ok).1) && Dense(Take(s, size, ok).0)
  {
    var r := Rounded(size);
    NoWrapMeans(s, size, r);
    NeedIsRounded(size);
    TakeGoesTo(s, size, ok, r);
  }

  lemma NewChunkIsUnused(s: State)
    requires InChunks(s)
    ensures Used(s.blocks, Heap(|s.chunks|)) == 0
  {
    NoneUsed(Need, s.blocks, Heap(|s.chunks|));
  }

  /** Some request of the run wraps a sum. */
  ghost predicate SomeWraps(s: State, ops: seq<Op>) {
    ops != [] &&
    (SomeWraps(s, ops[..|ops| - 1])
     || (ops[|ops| - 1].Malloc? && Wraps(Run(s, ops[..|ops| - 1]), ops[|ops| - 1].size)))
  }

  /** Over every run of requests that wrap no sum, between and across Clears, blocks lie without gaps. */
  lemma {:induction false} EveryRunDense(scratchSize: nat, chunkSize: nat, ops: seq<Op>)
    requires !SomeWraps(Fresh(scratchSize, chunkSize), ops)
    ensures Dense(Run(Fresh(scratchSize, chunkSize), ops))
  {
    if ops != [] {
      EveryRunDense(scratchSize, chunkSize, ops[..|ops| - 1]);
      LastKeepsDense(Run(Fresh(scratchSize, chunkSize), ops[..|ops| - 1]), ops[|ops| - 1]);
    }
  }

  lemma LastKeepsDense(s: State, op: Op)
    requires Dense(s) && (op.Malloc? ==> !Wraps(s, op.size))
    ensures Dense(Apply(s, op))
  {
    if op.Malloc? && op.size > 0 {
      MallocPlaces(s, op.size, op.ok);
    }
  }

  /** After a Clear it is as if nothing had been asked for before. */
  lemma {:induction false} ClearForgets(scratchSize: nat, chunkSize: nat, before: seq<Op>, after: seq<Op>)
    ensures Run(Fresh(scratchSize, chunkSize), before + [Clear] + after) == Run(Fresh(scratchSize, chunkSize), after)
  {
    var s, ops := Fresh(scratchSize, chunkSize), before + [Clear] + after;
    if after == [] {
      assert ops == before + [Clear] && ops[..|ops| - 1] == before;
      SizesStay(s, before);
    } else {
      ClearForgets(scratchSize, chunkSize, before, after[..|after| - 1]);
      assert ops[..|ops| - 1] == before + [Clear] + after[..|after| - 1];
    }
  }

  lemma {:induction false} SizesStay(s: State, ops: seq<Op>)
    ensures Run(s, ops).scratchSize == s.scratchSize && Run(s, ops).chunkSize == s.chunkSize
  {
    if ops != [] {
      SizesStay(s, ops[..|ops| - 1]);
    }
  }
}
